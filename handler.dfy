/**
 * The request handlers of src/handler.js: the detection pipeline (predict,
 * then for every detected plate upload its annotated image and save its
 * record, then shape the redirect), the owner-gated detail and delete reads,
 * and the listing. External calls are recorded as effects in the order they
 * are made; the document store is the Firestore.Store object.
 */
module Handler {
  import opened Wrappers
  import opened JsString
  import Utils
  import Gcs
  import Firestore

  /** One plate as the prediction result lists it: `plate_number`, `region`, `annotated_image`. */
  datatype Detection = Detection(plateNumber: string, region: Option<string>, annotatedImage: string)

  /**
   * What the outside world answers while one detection is processed:
   * `Date.now()`, the id `nanoid(5)` generates, whether the bucket write
   * finishes, and where the store fails, if it does.
   */
  datatype Env = Env(timestamp: nat, id: string, uploaded: bool, saveFault: Firestore.SaveFault)

  /** The external calls the handlers make. */
  datatype Effect =
    | Predict(image: Utils.Bytes)
    | Upload(image: Utils.Bytes, fileName: string, contentType: string)
    | Save(id: string, plateNumber: string, region: Option<string>, imageUrl: string, timestamp: nat)
    | DeleteObject(objectName: string)
    | DeleteRecord(uid: string, plateDataId: string)

  /** The JSON bodies the handlers send. */
  datatype Body =
    | Message(message: string)
    | Error(error: string)
    | Redirect(message: string, redirect: string)
    | Record(doc: Firestore.Doc)
    | Listing(list: Firestore.PlateList)

  datatype Response = Response(status: nat, body: Body)

  const NoImage: Response := Response(400, Message("No image uploaded"))
  const NoPlate: Response := Response(400, Error("No plate detected"))
  const ServerError: Response := Response(500, Error("Internal Server Error"))
  const Forbidden: Response := Response(403, Error("You do not have permission to access this resource."))
  const Deleted: Response := Response(200, Message("Vehicle data deleted successfully."))
  const ItemsQuery: string := "?items="

  /** `${plateNumber}-${timestamp}.jpg`, the object name of an annotated image. */
  function FileName(plateNumber: string, timestamp: nat): string
  {
    plateNumber + "-" + NatToString(timestamp) + ".jpg"
  }

  /**
   * The parts of an object name: the plate number, a dash, the decimal digits
   * of the timestamp, which read back as the timestamp, and `.jpg`.
   */
  lemma FileNameShape(plateNumber: string, timestamp: nat)
    ensures var r := FileName(plateNumber, timestamp);
      && |r| == |plateNumber| + 1 + |NatToString(timestamp)| + 4
      && r[..|plateNumber|] == plateNumber && r[|plateNumber|] == '-' && r[|r| - 4..] == ".jpg"
      && (forall i :: |plateNumber| < i < |r| - 4 ==> IsDigit(r[i]))
      && ParseNat(r[|plateNumber| + 1..|r| - 4]) == timestamp
  {
    var r := FileName(plateNumber, timestamp);
    var digits := NatToString(timestamp);
    ParseNatToString(timestamp);
    assert r[|plateNumber| + 1..|r| - 4] == digits;
  }

  /** The object name determines the plate number and the timestamp it was built from. */
  lemma FileNameInjective(p1: string, t1: nat, p2: string, t2: nat)
    requires FileName(p1, t1) == FileName(p2, t2)
    ensures p1 == p2 && t1 == t2
  {
    var d1, d2 := NatToString(t1), NatToString(t2);
    var x1, x2 := p1 + "-" + d1, p2 + "-" + d2;
    assert x1 == FileName(p1, t1)[..|x1|];
    assert x2 == FileName(p2, t2)[..|x2|];
    assert |x1| == |x2|;
    var x := x1;
    assert x1 == x2;
    forall j | |x| - |d2| <= j < |x| ensures x[j] != '-' {
      assert IsDigit(d2[j - (|x| - |d2|)]);
    }
    forall j | |x| - |d1| <= j < |x| ensures x[j] != '-' {
      assert IsDigit(d1[j - (|x| - |d1|)]);
    }
    assert x[|x| - |d1| - 1] == '-' && x[|x| - |d2| - 1] == '-';
    assert d1 == x1[|x| - |d1|..] == x2[|x| - |d2|..] == d2;
    assert p1 == x1[..|p1|] == x2[..|p2|] == p2;
    ParseNatToString(t1);
    ParseNatToString(t2);
  }

  /** A plate number without a slash gives an object name without a slash. */
  lemma FileNameHasNoSlash(plateNumber: string, timestamp: nat)
    requires '/' !in plateNumber
    ensures '/' !in FileName(plateNumber, timestamp)
  {
    var d := NatToString(timestamp);
    assert '/' !in d by {
      forall i | 0 <= i < |d| ensures d[i] != '/' {
        assert IsDigit(d[i]);
      }
    }
  }

  /** The `redirect` value: the id itself for exactly one id, otherwise `?items=` and the ids joined by commas. */
  function RedirectFor(ids: seq<string>): (r: string)
    ensures |ids| == 1 ==> r == ids[0]
    ensures |ids| != 1 ==> |r| >= |ItemsQuery| && r[..|ItemsQuery|] == ItemsQuery && r[|ItemsQuery|..] == Join(ids, ",")
  {
    if |ids| == 1 then ids[0] else ItemsQuery + Join(ids, ",")
  }

  /** How a client reads the ids back from a `redirect` value. */
  function IdsOfRedirect(redirect: string): seq<string>
  {
    if |redirect| >= |ItemsQuery| && redirect[..|ItemsQuery|] == ItemsQuery then
      var list := redirect[|ItemsQuery|..];
      if list == "" then [] else Split(list, ",")
    else
      [redirect]
  }

  /** The alphabet of the generated ids (nanoid): letters, digits, `_` and `-`. */
  predicate IsIdChar(c: char) {
    'A' <= c <= 'Z' || 'a' <= c <= 'z' || '0' <= c <= '9' || c == '_' || c == '-'
  }

  predicate IsGeneratedId(id: string) {
    id != "" && forall i :: 0 <= i < |id| ==> IsIdChar(id[i])
  }

  lemma GeneratedIdIsPlateId(id: string)
    requires IsGeneratedId(id)
    ensures Firestore.IsPlateId(id)
  {
    assert !IsIdChar('/');
  }

  /** The redirect value loses nothing: for generated ids, it reads back as exactly the ids, in order. */
  lemma RedirectRoundTrip(ids: seq<string>)
    requires forall k :: 0 <= k < |ids| ==> IsGeneratedId(ids[k])
    ensures IdsOfRedirect(RedirectFor(ids)) == ids
  {
    if |ids| == 1 {
      assert ids[0][0] != ItemsQuery[0];
    } else if |ids| >= 2 {
      var joined := Join(ids, ",");
      assert RedirectFor(ids)[|ItemsQuery|..] == joined;
      assert joined == ids[0] + "," + Join(ids[1..], ",");
      forall k | 0 <= k < |ids| ensures ',' !in ids[k] {
        forall i | 0 <= i < |ids[k]| ensures ids[k][i] != ',' {
          assert IsIdChar(ids[k][i]);
        }
      }
      SplitJoin(ids, ',');
    }
  }

  /** The buffer `base64ToBuffer` makes of an `annotated_image`, for a given base64 decoder. */
  function BufferFor(decode: string -> Utils.Bytes): string -> Utils.Bytes
  {
    s => Utils.Base64ToBuffer(s, decode)
  }

  /** The decoded annotated image of detection `k`. */
  function Image(c: Context, k: nat): Utils.Bytes
    requires k < |c.items|
  {
    c.toBuffer(c.items[k].annotatedImage)
  }

  /** The object name of detection `k`. */
  function NameOf(c: Context, k: nat): string
    requires k < |c.items|
  {
    FileName(c.items[k].plateNumber, c.env(k).timestamp)
  }

  /** The upload call for detection `k`, with the content type sniffed from its image. */
  function UploadOf(c: Context, k: nat): Effect
    requires k < |c.items|
  {
    var contentType := match c.sniff(Image(c, k)) case Some(mime) => mime case None => "";
    Upload(Image(c, k), NameOf(c, k), contentType)
  }

  /** The save call for detection `k`, with the public URL of its upload. */
  function SaveOf(c: Context, k: nat): Effect
    requires k < |c.items|
  {
    var item := c.items[k];
    Save(c.env(k).id, item.plateNumber, item.region, Gcs.PublicUrl(NameOf(c, k)), c.env(k).timestamp)
  }

  /** The record detection `k` stores. */
  function RecordOf(c: Context, k: nat): Firestore.Doc
    requires k < |c.items|
  {
    var item := c.items[k];
    Firestore.PlateDoc(c.env(k).id, item.plateNumber, item.region, Gcs.PublicUrl(NameOf(c, k)), c.env(k).timestamp, c.uid)
  }

  /**
   * Everything a detection request depends on: the caller, the detections,
   * the per-detection answers of the outside world, the conversion of an
   * annotated image to bytes (BufferFor of the base64 decoder
   * `Buffer.from(…, 'base64')`) and the MIME sniffer (`imageType`).
   */
  datatype Context = Context(
    uid: string,
    items: seq<Detection>,
    env: nat -> Env,
    toBuffer: string -> Utils.Bytes,
    sniff: Utils.Bytes -> Option<string>)

  /**
   * The state of the pipeline after some detections: ids collected, calls
   * made, whether one failed, and the plate records. A save links a path in
   * the caller's user document exactly when its id is collected, so the user
   * documents are LinkedUsers of the ids.
   */
  datatype Run = Run(
    ids: seq<string>,
    effects: seq<Effect>,
    failed: bool,
    plateData: map<string, Firestore.Doc>)

  /** The user documents after the caller's saves linked the paths of `ids`, in order. */
  function LinkedUsers(users: map<string, Firestore.Doc>, uid: string, ids: seq<string>): map<string, Firestore.Doc>
  {
    if ids == [] then users
    else Firestore.LinkPlate(LinkedUsers(users, uid, ids[..|ids| - 1]), uid, Firestore.PlatePath(ids[|ids| - 1]))
  }

  /** Linking touches only the caller's document. */
  lemma {:induction false} LinkedUsersOnlyCaller(users: map<string, Firestore.Doc>, uid: string, ids: seq<string>)
    ensures var r := LinkedUsers(users, uid, ids);
      && (forall u :: u != uid ==> (u in r <==> u in users))
      && (forall u :: u != uid && u in users ==> r[u] == users[u])
  {
    if ids != [] {
      LinkedUsersOnlyCaller(users, uid, ids[..|ids| - 1]);
    }
  }

  /** Linking into an existing caller document records the path of every collected id. */
  lemma {:induction false} LinkedUsersLinksIds(users: map<string, Firestore.Doc>, uid: string, ids: seq<string>)
    requires uid in users
    ensures var r: map<string, Firestore.Doc> := LinkedUsers(users, uid, ids);
      && uid in r
      && (ids != [] ==>
            && Firestore.PathsField in r[uid]
            && r[uid][Firestore.PathsField].StrArray?
            && forall k :: 0 <= k < |ids| ==> Firestore.PlatePath(ids[k]) in r[uid][Firestore.PathsField].items)
  {
    if ids != [] {
      var init := ids[..|ids| - 1];
      LinkedUsersLinksIds(users, uid, init);
      var before: map<string, Firestore.Doc> := LinkedUsers(users, uid, init);
      var after: map<string, Firestore.Doc> := LinkedUsers(users, uid, ids);
      if init != [] {
        var union := Firestore.ArrayUnion(Firestore.Field(before[uid], Firestore.PathsField), Firestore.PlatePath(ids[|ids| - 1]));
        assert after[uid][Firestore.PathsField].items == union;
        assert before[uid][Firestore.PathsField].items <= union;
        forall k | 0 <= k < |ids| ensures Firestore.PlatePath(ids[k]) in after[uid][Firestore.PathsField].items {
          if k < |init| {
            assert ids[k] == init[k];
          }
        }
      }
    }
  }

  /** Detection `k` fails on its own: its image type is unknown, its upload does not finish, or its save fails. */
  predicate DetectionFails(c: Context, k: nat)
    requires k < |c.items|
  {
    c.sniff(Image(c, k)).None? || !c.env(k).uploaded || c.env(k).saveFault != Firestore.NoFault
  }

  /**
   * Detection `k`: decode, sniff the type (an unknown type throws on
   * `type.mime`), upload under the object name, which fails exactly when the
   * bucket write does not finish and otherwise returns the public URL
   * (Gcs.UploadToGcs), then save the record with that URL and the same
   * timestamp, then collect the id.
   */
  function Step(c: Context, r: Run, k: nat): Run
    requires k < |c.items|
  {
    var e := c.env(k);
    if c.sniff(Image(c, k)).None? then r.(failed := true)
    else if !e.uploaded then r.(effects := r.effects + [UploadOf(c, k)], failed := true)
    else
      Run(
        if e.saveFault == Firestore.NoFault then r.ids + [e.id] else r.ids,
        r.effects + [UploadOf(c, k), SaveOf(c, k)],
        e.saveFault != Firestore.NoFault,
        if e.saveFault == Firestore.PlateWriteFails then r.plateData else r.plateData[e.id := RecordOf(c, k)])
  }

  /** The pipeline after the first `k` detections, processed in order; nothing happens after a failure. */
  function RunUpTo(c: Context, k: nat, plateData: map<string, Firestore.Doc>): (r: Run)
    requires k <= |c.items|
  {
    if k == 0 then Run([], [], false, plateData)
    else
      var prev := RunUpTo(c, k - 1, plateData);
      if prev.failed then prev else Step(c, prev, k - 1)
  }

  /** Once a detection fails, the later ones change nothing. */
  lemma {:induction false} FailureIsFinal(c: Context, i: nat, n: nat, plateData: map<string, Firestore.Doc>)
    requires i <= n <= |c.items|
    requires RunUpTo(c, i, plateData).failed
    ensures RunUpTo(c, n, plateData) == RunUpTo(c, i, plateData)
  {
    if n > i {
      FailureIsFinal(c, i, n - 1, plateData);
    }
  }

  /** A run fails exactly when one of its detections fails. */
  lemma {:induction false} RunFailsIffDetectionFails(c: Context, n: nat, plateData: map<string, Firestore.Doc>)
    requires n <= |c.items|
    ensures RunUpTo(c, n, plateData).failed <==> exists k :: 0 <= k < n && DetectionFails(c, k)
  {
    if n > 0 {
      var prev := RunUpTo(c, n - 1, plateData);
      RunFailsIffDetectionFails(c, n - 1, plateData);
      if prev.failed {
        var k :| 0 <= k < n - 1 && DetectionFails(c, k);
        assert 0 <= k < n && DetectionFails(c, k);
      } else if DetectionFails(c, n - 1) {
        assert Step(c, prev, n - 1).failed;
      } else {
        assert !Step(c, prev, n - 1).failed;
        assert forall k :: 0 <= k < n ==> !DetectionFails(c, k);
      }
    }
  }

  /**
   * What `n` successful detections leave behind: one id per detection, in
   * detection order, and for each detection exactly one upload followed by
   * exactly one save.
   */
  ghost predicate Succeeded(c: Context, n: nat, r: Run)
    requires n <= |c.items|
  {
    && !r.failed
    && |r.ids| == n
    && |r.effects| == 2 * n
    && (forall k :: 0 <= k < n ==> r.ids[k] == c.env(k).id)
    && (forall k :: 0 <= k < n ==> r.effects[2 * k] == UploadOf(c, k) && r.effects[2 * k + 1] == SaveOf(c, k))
  }

  lemma StepSucceeds(c: Context, r: Run, k: nat)
    requires k < |c.items|
    requires Succeeded(c, k, r)
    requires !Step(c, r, k).failed
    ensures Succeeded(c, k + 1, Step(c, r, k))
  {
    var s := Step(c, r, k);
    assert s.ids == r.ids + [c.env(k).id];
    assert s.effects == r.effects + [UploadOf(c, k), SaveOf(c, k)];
  }

  lemma {:induction false} RunWithoutFailure(c: Context, n: nat, plateData: map<string, Firestore.Doc>)
    requires n <= |c.items|
    requires !RunUpTo(c, n, plateData).failed
    ensures Succeeded(c, n, RunUpTo(c, n, plateData))
  {
    if n > 0 {
      var prev := RunUpTo(c, n - 1, plateData);
      assert !prev.failed;
      RunWithoutFailure(c, n - 1, plateData);
      StepSucceeds(c, prev, n - 1);
    }
  }

  /** A save that carries the URL of the upload before it, whose object name holds the save's plate number and timestamp. */
  predicate SavesUpload(upload: Effect, save: Effect) {
    && upload.Upload?
    && save.Save?
    && save.imageUrl == Gcs.PublicUrl(upload.fileName)
    && upload.fileName == FileName(save.plateNumber, save.timestamp)
  }

  /** Calls that are a series of (upload, save) pairs, each save matching its upload. */
  ghost predicate Pairs(effects: seq<Effect>)
    decreases |effects|
  {
    effects == [] || (|effects| >= 2 && SavesUpload(effects[0], effects[1]) && Pairs(effects[2..]))
  }

  lemma {:induction false} PairsAppend(effects: seq<Effect>, upload: Effect, save: Effect)
    requires Pairs(effects) && SavesUpload(upload, save)
    ensures Pairs(effects + [upload, save])
    decreases |effects|
  {
    if effects != [] {
      PairsAppend(effects[2..], upload, save);
      assert (effects + [upload, save])[2..] == effects[2..] + [upload, save];
    }
  }

  /**
   * The calls of a detection run: (upload, save) pairs, and a failed run may
   * end with one more upload, whose save was never made.
   */
  ghost predicate PairedRun(r: Run) {
    || Pairs(r.effects)
    || (r.failed && |r.effects| >= 1 && Pairs(r.effects[..|r.effects| - 1]) && r.effects[|r.effects| - 1].Upload?)
  }

  lemma StepPaired(c: Context, r: Run, k: nat)
    requires k < |c.items|
    requires PairedRun(r) && !r.failed
    ensures PairedRun(Step(c, r, k))
  {
    var s := Step(c, r, k);
    var u, v := UploadOf(c, k), SaveOf(c, k);
    if c.sniff(Image(c, k)).Some? {
      if c.env(k).uploaded {
        assert SavesUpload(u, v);
        PairsAppend(r.effects, u, v);
      } else {
        assert s.effects[..|s.effects| - 1] == r.effects;
      }
    }
  }

  lemma {:induction false} RunIsPaired(c: Context, n: nat, plateData: map<string, Firestore.Doc>)
    requires n <= |c.items|
    ensures PairedRun(RunUpTo(c, n, plateData))
  {
    if n > 0 {
      var prev := RunUpTo(c, n - 1, plateData);
      RunIsPaired(c, n - 1, plateData);
      if !prev.failed {
        StepPaired(c, prev, n - 1);
      }
    }
  }

  predicate OwnedBy(d: Firestore.Doc, uid: string) {
    "owner" in d && d["owner"] == Firestore.Str(uid)
  }

  /**
   * What a detection run may do to the plate records: every record keeps
   * existing, and a record either is untouched or belongs to the caller.
   */
  ghost predicate OnlyCallerRecords(plateData0: map<string, Firestore.Doc>, plateData: map<string, Firestore.Doc>, uid: string)
  {
    && (forall id :: id in plateData0 ==> id in plateData)
    && (forall id :: id in plateData ==> (id in plateData0 && plateData[id] == plateData0[id]) || OwnedBy(plateData[id], uid))
  }

  lemma StepOnlyCallerRecords(c: Context, r: Run, k: nat, plateData0: map<string, Firestore.Doc>)
    requires k < |c.items|
    requires OnlyCallerRecords(plateData0, r.plateData, c.uid)
    ensures OnlyCallerRecords(plateData0, Step(c, r, k).plateData, c.uid)
  {
  }

  /**
   * An empty result array makes no call and answers the redirect `?items=`.
   * The prediction client reports zero plates as a failure (`None`), so this
   * case arises only from a result array that is present and empty.
   */
  lemma NoDetectionsRedirectToEmptyList(c: Context, plateData: map<string, Firestore.Doc>)
    requires c.items == []
    ensures var r := RunUpTo(c, 0, plateData);
      && !r.failed && r.effects == [] && r.plateData == plateData
      && RedirectFor(r.ids) == ItemsQuery
  {
  }

  /**
   * A detection run never removes a record, and every record it writes is
   * owned by the caller. A generated id that already names a record
   * overwrites it, whoever owned it.
   */
  lemma {:induction false} RunOnlyCallerRecords(c: Context, n: nat, plateData: map<string, Firestore.Doc>)
    requires n <= |c.items|
    ensures OnlyCallerRecords(plateData, RunUpTo(c, n, plateData).plateData, c.uid)
  {
    if n > 0 {
      var prev := RunUpTo(c, n - 1, plateData);
      RunOnlyCallerRecords(c, n - 1, plateData);
      if !prev.failed {
        StepOnlyCallerRecords(c, prev, n - 1, plateData);
      }
    }
  }

  /** A step whose generated id is free leaves every existing record as it was. */
  lemma StepKeepsRecords(c: Context, r: Run, k: nat, plateData0: map<string, Firestore.Doc>)
    requires k < |c.items|
    requires c.env(k).id !in plateData0
    requires forall id :: id in plateData0 ==> id in r.plateData && r.plateData[id] == plateData0[id]
    ensures var s := Step(c, r, k).plateData;
      forall id :: id in plateData0 ==> id in s && s[id] == plateData0[id]
  {
  }

  /** When no generated id names an existing record, a run leaves every existing record as it was. */
  lemma {:induction false} RunKeepsRecords(c: Context, n: nat, plateData: map<string, Firestore.Doc>)
    requires n <= |c.items|
    requires forall k :: 0 <= k < n ==> c.env(k).id !in plateData
    ensures var r := RunUpTo(c, n, plateData).plateData;
      forall id :: id in plateData ==> id in r && r[id] == plateData[id]
  {
    if n > 0 {
      var prev := RunUpTo(c, n - 1, plateData);
      RunKeepsRecords(c, n - 1, plateData);
      if !prev.failed {
        StepKeepsRecords(c, prev, n - 1, plateData);
      }
    }
  }

  /** The records of the first `n` detections exist and belong to the caller. */
  ghost predicate RecordsOwned(c: Context, n: nat, r: Run)
    requires n <= |c.items|
  {
    forall k :: 0 <= k < n ==> c.env(k).id in r.plateData && OwnedBy(r.plateData[c.env(k).id], c.uid)
  }

  lemma StepRecordsOwned(c: Context, r: Run, k: nat)
    requires k < |c.items|
    requires RecordsOwned(c, k, r) && !Step(c, r, k).failed
    ensures RecordsOwned(c, k + 1, Step(c, r, k))
  {
  }

  /** After a successful run every detection's record exists and belongs to the caller. */
  lemma {:induction false} RunRecordsOwned(c: Context, n: nat, plateData: map<string, Firestore.Doc>)
    requires n <= |c.items|
    requires !RunUpTo(c, n, plateData).failed
    ensures RecordsOwned(c, n, RunUpTo(c, n, plateData))
  {
    if n > 0 {
      var prev := RunUpTo(c, n - 1, plateData);
      assert !prev.failed;
      RunRecordsOwned(c, n - 1, plateData);
      StepRecordsOwned(c, prev, n - 1);
    }
  }

  /** The records of the first `n` detections are stored under their ids, exactly as built. */
  ghost predicate RecordsStored(c: Context, n: nat, r: Run)
    requires n <= |c.items|
  {
    forall k :: 0 <= k < n ==> c.env(k).id in r.plateData && r.plateData[c.env(k).id] == RecordOf(c, k)
  }

  lemma StepRecordsStored(c: Context, r: Run, k: nat)
    requires k < |c.items|
    requires forall j :: 0 <= j < k ==> c.env(j).id != c.env(k).id
    requires RecordsStored(c, k, r) && !Step(c, r, k).failed
    ensures RecordsStored(c, k + 1, Step(c, r, k))
  {
  }

  /** With distinct generated ids, a successful run stores exactly each detection's record under its id. */
  lemma {:induction false} RunStoresRecords(c: Context, n: nat, plateData: map<string, Firestore.Doc>)
    requires n <= |c.items|
    requires forall j, k :: 0 <= j < k < n ==> c.env(j).id != c.env(k).id
    requires !RunUpTo(c, n, plateData).failed
    ensures RecordsStored(c, n, RunUpTo(c, n, plateData))
  {
    if n > 0 {
      var prev := RunUpTo(c, n - 1, plateData);
      assert !prev.failed;
      RunStoresRecords(c, n - 1, plateData);
      StepRecordsStored(c, prev, n - 1);
    }
  }

  /**
   * For a caller whose user document exists, every record a successful run
   * stores shows up in the caller's listing, as the listing presents it.
   */
  lemma DetectedRecordListed(c: Context, users: map<string, Firestore.Doc>, plateData: map<string, Firestore.Doc>, k: nat)
    requires k < |c.items|
    requires c.uid in users
    requires IsGeneratedId(c.env(k).id)
    requires forall i, j :: 0 <= i < j < |c.items| ==> c.env(i).id != c.env(j).id
    requires !RunUpTo(c, |c.items|, plateData).failed
    ensures var r := RunUpTo(c, |c.items|, plateData);
      var listing := Firestore.GetUserPlateData(LinkedUsers(users, c.uid, r.ids), r.plateData, c.uid);
      listing.Ok? && Firestore.Listed(c.env(k).id, RecordOf(c, k)) in listing.value.data
  {
    var r := RunUpTo(c, |c.items|, plateData);
    var id := c.env(k).id;
    RunWithoutFailure(c, |c.items|, plateData);
    RunStoresRecords(c, |c.items|, plateData);
    LinkedUsersLinksIds(users, c.uid, r.ids);
    GeneratedIdIsPlateId(id);
    assert r.ids[k] == id;
    Firestore.LinkedPathIsListed(LinkedUsers(users, c.uid, r.ids), r.plateData, c.uid, id);
  }

  /**
   * The callback `handleDetect` runs for detection `k`: decode the image,
   * sniff its type, upload it under its object name, save the record with the
   * returned URL and collect the id. It adds to the calls made so far and
   * updates the store as Step says.
   */
  method DetectOne(
    store: Firestore.Store, c: Context, k: nat, ids: seq<string>, calls: seq<Effect>,
    ghost users0: map<string, Firestore.Doc>, ghost plateData0: map<string, Firestore.Doc>)
    returns (ids': seq<string>, calls': seq<Effect>, failed: bool)
    requires k < |c.items|
    requires RunUpTo(c, k, plateData0) == Run(ids, calls, false, store.plateData)
    requires store.users == LinkedUsers(users0, c.uid, ids)
    modifies store
    ensures RunUpTo(c, k + 1, plateData0) == Run(ids', calls', failed, store.plateData)
    ensures store.users == LinkedUsers(users0, c.uid, ids')
  {
    ghost var before := Run(ids, calls, false, store.plateData);
    ids', calls', failed := ids, calls, false;
    var item, e := c.items[k], c.env(k);
    var image := c.toBuffer(item.annotatedImage);
    var contentType := c.sniff(image);
    if contentType.None? {
      failed := true;
      return;
    }
    var fileName := FileName(item.plateNumber, e.timestamp);
    calls' := calls' + [Upload(image, fileName, contentType.value)];
    var upload := Gcs.UploadToGcs(fileName, e.uploaded);
    if upload.Err? {
      failed := true;
      return;
    }
    var publicUrl := upload.value;
    calls' := calls' + [Save(e.id, item.plateNumber, item.region, publicUrl, e.timestamp)];
    var saved := store.SaveToFirestore(c.uid, item.plateNumber, item.region, publicUrl, e.timestamp, e.id, e.saveFault);
    if saved.Ok? {
      ids' := ids' + [saved.value];
      assert ids'[..|ids|] == ids;
    } else {
      failed := true;
    }
  }

  /**
   * `Promise.all(result.map(…))`: the callback for every detection, in
   * order, stopping at the first one that fails.
   */
  method DetectAll(store: Firestore.Store, c: Context) returns (ids: seq<string>, calls: seq<Effect>, failed: bool)
    modifies store
    ensures RunUpTo(c, |c.items|, old(store.plateData)) == Run(ids, calls, failed, store.plateData)
    ensures store.users == LinkedUsers(old(store.users), c.uid, ids)
  {
    ids, calls, failed := [], [], false;
    var i := 0;
    while i < |c.items| && !failed
      invariant i <= |c.items|
      invariant RunUpTo(c, i, old(store.plateData)) == Run(ids, calls, failed, store.plateData)
      invariant store.users == LinkedUsers(old(store.users), c.uid, ids)
    {
      ids, calls, failed := DetectOne(store, c, i, ids, calls, old(store.users), old(store.plateData));
      i := i + 1;
    }
    if failed {
      FailureIsFinal(c, i, |c.items|, old(store.plateData));
    }
  }

  /**
   * `handleDetect`. A missing file answers 400 before anything is called; a
   * failed prediction answers 400 before any upload or save; otherwise the
   * detections are processed in order (see Step), and any failure answers
   * 500 while a full success answers 200 with the redirect of the ids.
   */
  method HandleDetect(
    store: Firestore.Store, uid: string, file: Option<Utils.Bytes>, prediction: Option<seq<Detection>>,
    env: nat -> Env, decode: string -> Utils.Bytes, sniff: Utils.Bytes -> Option<string>)
    returns (resp: Response, effects: seq<Effect>)
    modifies store
    ensures file.None? ==> resp == NoImage && effects == [] && unchanged(store)
    ensures file.Some? && prediction.None? ==> resp == NoPlate && effects == [Predict(file.value)] && unchanged(store)
    ensures file.Some? && prediction.Some? ==>
      var r := RunUpTo(Context(uid, prediction.value, env, BufferFor(decode), sniff), |prediction.value|, old(store.plateData));
      && effects == [Predict(file.value)] + r.effects
      && store.users == LinkedUsers(old(store.users), uid, r.ids)
      && store.plateData == r.plateData
      && resp == if r.failed then ServerError else Response(200, Redirect("Success", RedirectFor(r.ids)))
  {
    if file.None? {
      return NoImage, [];
    }
    effects := [Predict(file.value)];
    if prediction.None? {
      return NoPlate, effects;
    }
    var c := Context(uid, prediction.value, env, BufferFor(decode), sniff);
    var ids, calls, failed := DetectAll(store, c);
    effects := effects + calls;
    resp := if failed then ServerError else Response(200, Redirect("Success", RedirectFor(ids)));
  }

  /** `handleGetList`: the listing with 200, or the error message with 500. */
  function HandleGetList(users: map<string, Firestore.Doc>, plateData: map<string, Firestore.Doc>, uid: string): (r: Response)
    ensures r.status == 200 <==> Firestore.GetUserPlateData(users, plateData, uid).Ok?
    ensures r.status == 200 ==> r.body == Listing(Firestore.GetUserPlateData(users, plateData, uid).value)
    ensures r.status != 200 ==> r == Response(500, Error(Firestore.ListError))
  {
    match Firestore.GetUserPlateData(users, plateData, uid)
    case Ok(list) => Response(200, Listing(list))
    case Err(msg) => Response(500, Error(msg))
  }

  /** The caller may act on record `id`: the id is one path segment, the record exists and the caller owns it. */
  predicate Owns(plateData: map<string, Firestore.Doc>, uid: string, id: string) {
    Firestore.IsPlateId(id) && id in plateData && OwnedBy(plateData[id], uid)
  }

  /**
   * `handleGetDetail`: the record is returned only to its owner; an id that
   * is no path segment and a missing record are both a 500 with the error of
   * `getVehicleById`.
   */
  function HandleGetDetail(plateData: map<string, Firestore.Doc>, uid: string, id: string): (r: Response)
    ensures r.status == 200 <==> Owns(plateData, uid, id)
    ensures r.status == 200 ==> r.body == Record(plateData[id])
    ensures Firestore.IsPlateId(id) && id in plateData && !OwnedBy(plateData[id], uid) ==> r == Forbidden
    ensures Firestore.IsPlateId(id) && id !in plateData ==> r == Response(500, Error(Firestore.NotFoundError))
    ensures !Firestore.IsPlateId(id) ==> r == Response(500, Error(Firestore.InvalidPathError))
  {
    match Firestore.GetVehicleById(plateData, id)
    case Err(msg) => Response(500, Error(msg))
    case Ok(doc) => if !OwnedBy(doc, uid) then Forbidden else Response(200, Record(doc))
  }

  /** The object to delete for a record: from its `imageUrl` when that is a string; any other value makes `split` throw. */
  function BlobTarget(doc: Firestore.Doc): (r: Result<string, string>)
    ensures r.Ok? <==> "imageUrl" in doc && doc["imageUrl"].Str? && Gcs.ObjectToDelete(doc["imageUrl"].s).Ok?
    ensures r.Ok? ==> r.value == Gcs.ObjectNameOf(doc["imageUrl"].s).value && r.value != ""
    ensures r.Err? ==> r.error == Gcs.DeleteError
  {
    if "imageUrl" in doc && doc["imageUrl"].Str? then Gcs.ObjectToDelete(doc["imageUrl"].s)
    else Err(Gcs.DeleteError)
  }

  datatype Outcome = Outcome(response: Response, effects: seq<Effect>)

  /**
   * `handleDeleteVehicleData`: after the owner check, the image object is
   * deleted, then the record (`deleteFromFirestore`, whose body is not part
   * of this model: `recordError` is its failure, if any). `objectDeleted`
   * says whether the bucket deletion succeeds. Every failure is a 500 with
   * the message of the error thrown.
   */
  function HandleDeleteVehicleData(
    plateData: map<string, Firestore.Doc>, uid: string, id: string, objectDeleted: bool, recordError: Option<string>)
    : (r: Outcome)
    ensures r.effects != [] ==> Owns(plateData, uid, id)
    ensures !Firestore.IsPlateId(id) ==> r == Outcome(Response(500, Error(Firestore.InvalidPathError)), [])
    ensures Firestore.IsPlateId(id) && id !in plateData ==> r == Outcome(Response(500, Error(Firestore.NotFoundError)), [])
    ensures Firestore.IsPlateId(id) && id in plateData && !OwnedBy(plateData[id], uid) ==> r == Outcome(Forbidden, [])
    ensures Owns(plateData, uid, id) && BlobTarget(plateData[id]).Err? ==>
      r == Outcome(Response(500, Error(Gcs.DeleteError)), [])
    ensures Owns(plateData, uid, id) && BlobTarget(plateData[id]).Ok? && !objectDeleted ==>
      r == Outcome(Response(500, Error(Gcs.DeleteError)), [DeleteObject(BlobTarget(plateData[id]).value)])
    ensures Owns(plateData, uid, id) && BlobTarget(plateData[id]).Ok? && objectDeleted && recordError.Some? ==>
      r == Outcome(Response(500, Error(recordError.value)),
                   [DeleteObject(BlobTarget(plateData[id]).value), DeleteRecord(uid, id)])
    ensures forall k :: 0 <= k < |r.effects| && r.effects[k].DeleteRecord? ==>
      k == 1 && r.effects[0].DeleteObject? && objectDeleted && r.effects[k] == DeleteRecord(uid, id)
    ensures r.response.status == 200 <==>
      Owns(plateData, uid, id) && BlobTarget(plateData[id]).Ok? && objectDeleted && recordError.None?
    ensures r.response.status == 200 ==>
      r == Outcome(Deleted, [DeleteObject(BlobTarget(plateData[id]).value), DeleteRecord(uid, id)])
  {
    match Firestore.GetVehicleById(plateData, id)
    case Err(msg) => Outcome(Response(500, Error(msg)), [])
    case Ok(doc) =>
      if !OwnedBy(doc, uid) then Outcome(Forbidden, [])
      else
        match BlobTarget(doc)
        case Err(msg) => Outcome(Response(500, Error(msg)), [])
        case Ok(name) =>
          if !objectDeleted then Outcome(Response(500, Error(Gcs.DeleteError)), [DeleteObject(name)])
          else
            match recordError
            case Some(msg) => Outcome(Response(500, Error(msg)), [DeleteObject(name), DeleteRecord(uid, id)])
            case None => Outcome(Deleted, [DeleteObject(name), DeleteRecord(uid, id)])
  }

  /** Another user can neither read nor delete a record a detection run created. */
  lemma ForeignCallerForbidden(
    c: Context, plateData: map<string, Firestore.Doc>,
    k: nat, other: string, objectDeleted: bool, recordError: Option<string>)
    requires k < |c.items|
    requires IsGeneratedId(c.env(k).id)
    requires !RunUpTo(c, |c.items|, plateData).failed
    requires other != c.uid
    ensures var r := RunUpTo(c, |c.items|, plateData);
      && HandleGetDetail(r.plateData, other, c.env(k).id) == Forbidden
      && HandleDeleteVehicleData(r.plateData, other, c.env(k).id, objectDeleted, recordError) == Outcome(Forbidden, [])
  {
    GeneratedIdIsPlateId(c.env(k).id);
    RunRecordsOwned(c, |c.items|, plateData);
  }

  /**
   * The owner deleting a record a detection run created deletes exactly the
   * object that run uploaded, then the record, provided the ids are distinct
   * and the plate number has no slash.
   */
  lemma OwnerDeletesUploadedObject(
    c: Context, plateData: map<string, Firestore.Doc>, k: nat)
    requires k < |c.items|
    requires IsGeneratedId(c.env(k).id)
    requires forall i, j :: 0 <= i < j < |c.items| ==> c.env(i).id != c.env(j).id
    requires !RunUpTo(c, |c.items|, plateData).failed
    requires '/' !in c.items[k].plateNumber
    ensures var r := RunUpTo(c, |c.items|, plateData);
      HandleDeleteVehicleData(r.plateData, c.uid, c.env(k).id, true, None)
        == Outcome(Deleted, [DeleteObject(NameOf(c, k)), DeleteRecord(c.uid, c.env(k).id)])
  {
    GeneratedIdIsPlateId(c.env(k).id);
    RunStoresRecords(c, |c.items|, plateData);
    var name := NameOf(c, k);
    FileNameHasNoSlash(c.items[k].plateNumber, c.env(k).timestamp);
    Gcs.NoSlashNoPrefix(name);
    Gcs.UploadThenDeleteTargetsSameObject(name);
    assert BlobTarget(RecordOf(c, k)) == Ok(name);
  }
}
