/**
 * The document-store side of the backend (src/firestore.js): user documents
 * in the `users` collection and plate records in the `plateData` collection,
 * each a map from field names to field values. The store is a class with one
 * map per collection; writes change those maps in place, reads are functions
 * of them.
 */
module Firestore {
  import opened Wrappers

  /** The field values the backend writes: strings, numbers, null, string arrays and the server-timestamp sentinel. */
  datatype Value = Str(s: string) | Num(n: int) | Null | StrArray(items: seq<string>) | ServerTimestamp

  /** A document: its fields by name. */
  type Doc = map<string, Value>

  const PlateCollectionPrefix: string := "plateData/"
  /** The field `getUserPlateData` reads and `saveToFirestore` extends for an existing user. */
  const PathsField: string := "plateDataPaths"
  /** The misspelt field `saveToFirestore` writes for a user without a document. */
  const MisspeltPathsField: string := "plateDatePaths"

  const SaveError: string := "Failed to save to Firestore"
  const NotFoundError: string := "Vehicle not found"
  /** The error of the client library for a document id that is empty or has a slash, so is no single path segment. */
  const InvalidPathError: string := "Invalid document path"
  const ListError: string := "Internal Server Error"
  const NoPathsMessage: string := "No plate data paths found"

  /** Where a `saveToFirestore` call fails, if it does: the record write, or the read or write of the user document after it. */
  datatype SaveFault = NoFault | PlateWriteFails | UserWriteFails

  function Field(d: Doc, name: string): Option<Value>
  {
    if name in d then Some(d[name]) else None
  }

  /** The document `createNewUser` writes for a user seen for the first time. */
  function NewUserDoc(email: string, name: string): Doc
  {
    map["email" := Str(email), "name" := Str(name), "plateData" := StrArray([]), "createdAt" := ServerTimestamp]
  }

  /** The users collection after `createNewUser`: a missing user is created, an existing one is left as it is. */
  function WithNewUser(users: map<string, Doc>, uid: string, email: string, name: string): (r: map<string, Doc>)
    ensures uid in r
    ensures r[uid] == if uid in users then users[uid] else NewUserDoc(email, name)
    ensures forall u :: u != uid ==> (u in r <==> u in users)
    ensures forall u :: u != uid && u in users ==> r[u] == users[u]
  {
    if uid in users then users else users[uid := NewUserDoc(email, name)]
  }

  /** Creating a user twice is creating it once: the second call changes nothing, whatever its email and name. */
  lemma CreateNewUserIdempotent(users: map<string, Doc>, uid: string, email: string, name: string, email2: string, name2: string)
    ensures WithNewUser(WithNewUser(users, uid, email, name), uid, email2, name2) == WithNewUser(users, uid, email, name)
  {
  }

  function RegionValue(region: Option<string>): Value
  {
    match region
    case Some(r) => Str(r)
    case None => Null
  }

  /** The plate record `saveToFirestore` writes under the id it generated. */
  function PlateDoc(id: string, plateNumber: string, region: Option<string>, imageUrl: string, timestamp: nat, uid: string): Doc
  {
    map[
      "id" := Str(id),
      "plateNumber" := Str(plateNumber),
      "region" := RegionValue(region),
      "imageUrl" := Str(imageUrl),
      "timestamp" := Num(timestamp),
      "owner" := Str(uid)
    ]
  }

  /** `plateData/${id}`, the reference stored in the user document. */
  function PlatePath(id: string): string
  {
    PlateCollectionPrefix + id
  }

  predicate NoDuplicates(xs: seq<string>) {
    forall i, j :: 0 <= i < j < |xs| ==> xs[i] != xs[j]
  }

  /**
   * `FieldValue.arrayUnion(x)` applied to a field: an array keeps its
   * elements in order and gains `x` at the end unless it already holds it;
   * a missing field, or one that is not an array, becomes `[x]`.
   */
  function ArrayUnion(field: Option<Value>, x: string): (r: seq<string>)
    ensures x in r
    ensures field.Some? && field.value.StrArray? ==>
      && field.value.items <= r
      && |r| <= |field.value.items| + 1
      && (x in field.value.items ==> r == field.value.items)
      && (NoDuplicates(field.value.items) ==> NoDuplicates(r))
    ensures !(field.Some? && field.value.StrArray?) ==> r == [x]
  {
    match field
    case Some(StrArray(items)) => if x in items then items else items + [x]
    case _ => [x]
  }

  /**
   * The users collection after `saveToFirestore` records a new path: an
   * existing user gets the path added to `plateDataPaths`, other fields kept;
   * a user without a document gets one holding only the misspelt
   * `plateDatePaths`.
   */
  function LinkPlate(users: map<string, Doc>, uid: string, path: string): (r: map<string, Doc>)
    ensures uid in r
    ensures forall u :: u != uid ==> (u in r <==> u in users)
    ensures forall u :: u != uid && u in users ==> r[u] == users[u]
    ensures uid in users ==>
      && PathsField in r[uid] && r[uid][PathsField].StrArray?
      && path in r[uid][PathsField].items
      && r[uid] - {PathsField} == users[uid] - {PathsField}
    ensures uid in users ==> r[uid][PathsField].items == ArrayUnion(Field(users[uid], PathsField), path)
    ensures uid !in users ==> r[uid] == map[MisspeltPathsField := StrArray([path])]
  {
    if uid in users then
      users[uid := users[uid][PathsField := StrArray(ArrayUnion(Field(users[uid], PathsField), path))]]
    else
      users[uid := map[MisspeltPathsField := StrArray([path])]]
  }

  /** The two collections, updated in place by the backend's writes. */
  class Store {
    var users: map<string, Doc>
    var plateData: map<string, Doc>

    constructor (users: map<string, Doc>, plateData: map<string, Doc>)
      ensures this.users == users && this.plateData == plateData
    {
      this.users := users;
      this.plateData := plateData;
    }

    /** `createNewUser`: writes the user document only if there is none. */
    method CreateNewUser(uid: string, email: string, name: string)
      modifies this
      ensures users == WithNewUser(old(users), uid, email, name)
      ensures plateData == old(plateData)
    {
      if uid !in users {
        users := users[uid := NewUserDoc(email, name)];
      }
    }

    /**
     * `saveToFirestore`: writes the plate record under the generated `id`,
     * then links it from the user document. `fault` says where the store
     * fails, if it does; any failure surfaces as `Failed to save to
     * Firestore`, and what was written before it stays written.
     */
    method SaveToFirestore(uid: string, plateNumber: string, region: Option<string>, imageUrl: string,
                           timestamp: nat, id: string, fault: SaveFault)
      returns (r: Result<string, string>)
      modifies this
      ensures plateData ==
        if fault == PlateWriteFails then old(plateData)
        else old(plateData)[id := PlateDoc(id, plateNumber, region, imageUrl, timestamp, uid)]
      ensures users == if fault == NoFault then LinkPlate(old(users), uid, PlatePath(id)) else old(users)
      ensures r == if fault == NoFault then Ok(id) else Err(SaveError)
    {
      if fault == PlateWriteFails {
        return Err(SaveError);
      }
      plateData := plateData[id := PlateDoc(id, plateNumber, region, imageUrl, timestamp, uid)];
      var path := PlatePath(id);
      if fault == UserWriteFails {
        return Err(SaveError);
      }
      if uid in users {
        var user := users[uid];
        users := users[uid := user[PathsField := StrArray(ArrayUnion(Field(user, PathsField), path))]];
      } else {
        users := users[uid := map[MisspeltPathsField := StrArray([path])]];
      }
      return Ok(id);
    }
  }

  /**
   * `getVehicleById`: the stored record as it is, or `Vehicle not found`.
   * Building the reference `plateData/<id>` fails first when the id is not
   * one path segment, and that error is re-thrown as it is.
   */
  function GetVehicleById(plateData: map<string, Doc>, id: string): (r: Result<Doc, string>)
    ensures r.Ok? <==> IsPlateId(id) && id in plateData
    ensures r.Ok? ==> r.value == plateData[id]
    ensures !IsPlateId(id) ==> r == Err(InvalidPathError)
    ensures IsPlateId(id) && id !in plateData ==> r == Err(NotFoundError)
  {
    if !IsPlateId(id) then Err(InvalidPathError)
    else if id in plateData then Ok(plateData[id])
    else Err(NotFoundError)
  }

  /** A record saved under `id` reads back unchanged, owned by the caller who saved it. */
  lemma SavedPlateReadsBack(plateData: map<string, Doc>, id: string, plateNumber: string, region: Option<string>,
                            imageUrl: string, timestamp: nat, uid: string)
    requires IsPlateId(id)
    ensures var r := GetVehicleById(plateData[id := PlateDoc(id, plateNumber, region, imageUrl, timestamp, uid)], id);
      && r == Ok(PlateDoc(id, plateNumber, region, imageUrl, timestamp, uid))
      && r.value["owner"] == Str(uid)
  {
  }

  /**
   * `userData.plateDataPaths || []`, then used as an array: a missing, null,
   * empty-string or zero field reads as no paths; an array is the list of
   * paths; any other value makes the `.map` call throw.
   */
  function PathsOf(user: Doc): (r: Result<seq<string>, string>)
    ensures Field(user, PathsField).Some? && Field(user, PathsField).value.StrArray? ==>
      r == Ok(Field(user, PathsField).value.items)
    ensures Field(user, PathsField).None? ==> r == Ok([])
    ensures Field(user, PathsField).Some? && Falsy(Field(user, PathsField).value) ==> r == Ok([])
    ensures r.Err? <==>
      Field(user, PathsField).Some? && !Falsy(Field(user, PathsField).value) && !Field(user, PathsField).value.StrArray?
    ensures r.Ok? && r.value != [] ==> Field(user, PathsField) == Some(StrArray(r.value))
    ensures r.Err? ==> r.error == ListError
  {
    match Field(user, PathsField)
    case None => Ok([])
    case Some(Null) => Ok([])
    case Some(StrArray(items)) => Ok(items)
    case Some(Str(s)) => if s == "" then Ok([]) else Err(ListError)
    case Some(Num(n)) => if n == 0 then Ok([]) else Err(ListError)
    case Some(ServerTimestamp) => Err(ListError)
  }

  /** The values JavaScript treats as false that a field can hold: `null`, `""` and `0`. */
  predicate Falsy(v: Value) {
    v.Null? || v == Str("") || v == Num(0)
  }

  /** A document id the `plateData/<id>` path form can carry. */
  predicate IsPlateId(id: string) {
    id != "" && '/' !in id
  }

  /** The record id a path refers to, when the path is `plateData/<id>`. */
  function PlateIdOf(path: string): (r: Option<string>)
    ensures r.Some? ==> IsPlateId(r.value) && path == PlatePath(r.value)
  {
    var n := |PlateCollectionPrefix|;
    if |path| > n && path[..n] == PlateCollectionPrefix && '/' !in path[n..] then Some(path[n..]) else None
  }

  lemma PlateIdOfPath(id: string)
    requires IsPlateId(id)
    ensures PlateIdOf(PlatePath(id)) == Some(id)
  {
    assert PlatePath(id)[|PlateCollectionPrefix|..] == id;
  }

  /** `{ id: doc.id, ...rest }` where `rest` is the record without `owner`: a stored `id` field wins over the document id. */
  function Listed(id: string, d: Doc): (r: Doc)
    ensures "owner" !in r && "id" in r
    ensures r["id"] == if "id" in d then d["id"] else Str(id)
    ensures forall f :: f != "owner" && f != "id" ==> (f in r <==> f in d)
    ensures forall f :: f != "owner" && f != "id" && f in d ==> r[f] == d[f]
  {
    map["id" := Str(id)] + (d - {"owner"})
  }

  /** The records behind a list of paths, in path order, skipping paths whose document does not exist. */
  function Project(paths: seq<string>, plateData: map<string, Doc>): (r: seq<Doc>)
    ensures |r| <= |paths|
    ensures forall k :: 0 <= k < |r| ==> "owner" !in r[k]
  {
    if paths == [] then [] else Entry(paths[0], plateData) + Project(paths[1..], plateData)
  }

  /** What one path contributes: its record when the path names an existing one, nothing otherwise. */
  function Entry(path: string, plateData: map<string, Doc>): (r: seq<Doc>)
    ensures |r| <= 1
    ensures forall k :: 0 <= k < |r| ==> "owner" !in r[k]
  {
    match PlateIdOf(path)
    case Some(id) => if id in plateData then [Listed(id, plateData[id])] else []
    case None => []
  }

  datatype PlateList = PlateList(message: Option<string>, data: seq<Doc>)

  /**
   * `getUserPlateData`: the user's records through the user's paths, or
   * `{ message, data: [] }` when there are no paths; a missing user or an
   * unreadable paths field fails with `Internal Server Error`.
   */
  function GetUserPlateData(users: map<string, Doc>, plateData: map<string, Doc>, uid: string): (r: Result<PlateList, string>)
    ensures r.Err? <==> uid !in users || PathsOf(users[uid]).Err?
    ensures r.Err? ==> r.error == ListError
    ensures r.Ok? && PathsOf(users[uid]).value == [] ==> r.value == PlateList(Some(NoPathsMessage), [])
    ensures r.Ok? && PathsOf(users[uid]).value != [] ==>
      r.value == PlateList(None, Project(PathsOf(users[uid]).value, plateData))
    ensures r.Ok? ==> |r.value.data| <= |PathsOf(users[uid]).value|
    ensures r.Ok? ==> forall k :: 0 <= k < |r.value.data| ==> "owner" !in r.value.data[k]
  {
    if uid !in users then Err(ListError)
    else
      match PathsOf(users[uid])
      case Err(_) => Err(ListError)
      case Ok(paths) =>
        if |paths| == 0 then Ok(PlateList(Some(NoPathsMessage), []))
        else Ok(PlateList(None, Project(paths, plateData)))
  }

  /** Projection follows path order: the records of two path lists come one after the other. */
  lemma {:induction false} ProjectConcat(p1: seq<string>, p2: seq<string>, plateData: map<string, Doc>)
    ensures Project(p1 + p2, plateData) == Project(p1, plateData) + Project(p2, plateData)
  {
    if p1 != [] {
      var e := Entry(p1[0], plateData);
      calc {
        Project(p1 + p2, plateData);
        { assert (p1 + p2)[0] == p1[0]; assert (p1 + p2)[1..] == p1[1..] + p2; }
        e + Project(p1[1..] + p2, plateData);
        { ProjectConcat(p1[1..], p2, plateData); }
        e + (Project(p1[1..], plateData) + Project(p2, plateData));
        (e + Project(p1[1..], plateData)) + Project(p2, plateData);
      }
    } else {
      assert p1 + p2 == p2;
    }
  }

  /** Every path to an existing record contributes that record, without its owner and with its id. */
  lemma {:induction false} ProjectListsPath(paths: seq<string>, plateData: map<string, Doc>, id: string)
    requires IsPlateId(id) && id in plateData
    requires PlatePath(id) in paths
    ensures Listed(id, plateData[id]) in Project(paths, plateData)
  {
    if paths[0] == PlatePath(id) {
      PlateIdOfPath(id);
    } else {
      ProjectListsPath(paths[1..], plateData, id);
    }
  }

  /** Nothing else is listed: each entry is an existing record that one of the paths names. */
  lemma {:induction false} ProjectOnlyPaths(paths: seq<string>, plateData: map<string, Doc>, d: Doc)
    requires d in Project(paths, plateData)
    ensures exists id :: IsPlateId(id) && id in plateData && PlatePath(id) in paths && d == Listed(id, plateData[id])
  {
    var head := Entry(paths[0], plateData);
    assert Project(paths, plateData) == head + Project(paths[1..], plateData);
    if d in head {
      var id := PlateIdOf(paths[0]).value;
      assert PlatePath(id) == paths[0];
    } else {
      ProjectOnlyPaths(paths[1..], plateData, d);
      var id :| IsPlateId(id) && id in plateData && PlatePath(id) in paths[1..] && d == Listed(id, plateData[id]);
      assert PlatePath(id) in paths;
    }
  }

  /** A record whose path is in the user's `plateDataPaths` array is listed for that user. */
  lemma LinkedPathIsListed(users: map<string, Doc>, plateData: map<string, Doc>, uid: string, id: string)
    requires uid in users && IsPlateId(id) && id in plateData
    requires PathsField in users[uid] && users[uid][PathsField].StrArray?
    requires PlatePath(id) in users[uid][PathsField].items
    ensures var r := GetUserPlateData(users, plateData, uid);
      r.Ok? && r.value.message.None? && Listed(id, plateData[id]) in r.value.data
  {
    var paths := users[uid][PathsField].items;
    assert PathsOf(users[uid]) == Ok(paths);
    ProjectListsPath(paths, plateData, id);
  }

  /** A record saved for an existing user is listed for that user afterwards. */
  lemma SavedPlateIsListed(users: map<string, Doc>, plateData: map<string, Doc>, uid: string, id: string, doc: Doc)
    requires uid in users && IsPlateId(id)
    ensures var r := GetUserPlateData(LinkPlate(users, uid, PlatePath(id)), plateData[id := doc], uid);
      r.Ok? && r.value.message.None? && Listed(id, doc) in r.value.data
  {
    LinkedPathIsListed(LinkPlate(users, uid, PlatePath(id)), plateData[id := doc], uid, id);
  }

  /**
   * A record saved for a user without a document is linked through the
   * misspelt `plateDatePaths` field, which `getUserPlateData` does not read:
   * the user's listing is empty.
   */
  lemma UnknownUserPlateIsUnlisted(users: map<string, Doc>, plateData: map<string, Doc>, uid: string, id: string)
    requires uid !in users
    ensures GetUserPlateData(LinkPlate(users, uid, PlatePath(id)), plateData, uid) == Ok(PlateList(Some(NoPathsMessage), []))
  {
  }

  /** The listed form of a saved record is the record without its owner. */
  lemma ListedPlateDoc(id: string, plateNumber: string, region: Option<string>, imageUrl: string, timestamp: nat, uid: string)
    ensures Listed(id, PlateDoc(id, plateNumber, region, imageUrl, timestamp, uid))
         == PlateDoc(id, plateNumber, region, imageUrl, timestamp, uid) - {"owner"}
  {
  }
}
