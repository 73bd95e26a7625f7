# APNR backend: detection pipeline, record store and blob URLs in Dafny

This project models the core of the APNR (automatic number-plate recognition) backend.
The backend is an Express service. It takes an uploaded photo and asks a prediction service for
the plates in it. For each detected plate it uploads the annotated image to a Cloud Storage
bucket and saves a plate record in Firestore. It then redirects the client to the new records.
Records are read back and deleted only by their owner. The model covers four source files.

- `handler.dfy` (module `Handler`) models `src/handler.js`.
  - `handleDetect` is an imperative method. It works over a `Firestore.Store` object, with a loop
    over the detections. The method is proved against the reference definition `RunUpTo`, which
    folds `Step` (one detection: decode, sniff, name, upload, save, collect) over the detections.
    `Step` and `RunUpTo` carry no contract of their own. What they do is stated by the `Run…` lemmas
    in the table below, and `DetectOne`/`DetectAll` are proved to follow them.
  - `handleGetList`, `handleGetDetail` and `handleDeleteVehicleData` are functions of the store's
    maps.
  - Calls to the outside world (prediction, upload, save, object and record deletion) are recorded
    as `Effect` values, in the order they are made.
- `firestore.dfy` (module `Firestore`) models `src/firestore.js`.
  - The `Store` class holds the `users` and `plateData` collections as maps, updated in place by
    `CreateNewUser` and `SaveToFirestore`.
  - The reads `GetVehicleById` and `GetUserPlateData` are functions.
  - `arrayUnion`, the misspelt `plateDatePaths` field and the `{ id, ...rest }` projection are
    written out.
- `gcs.dfy` (module `Gcs`) models `src/gcs.js`: building the public URL, and recovering the object
  name with `split(prefix)[1]`.
- `utils.dfy` (module `Utils`) models `src/utils.js`: the anchored, single-use removal of a
  `data:image/<\w+>;base64,` header before base64 decoding.
- `js_string.dfy` (module `JsString`) gives the ECMAScript meaning of the built-ins the code relies
  on: `indexOf`, `split` with a string separator, `join`, and `${n}` for a non-negative integer.
- `wrappers.dfy` holds `Option` and `Result`.

Nondeterminism and foreign code are parameters.

- `env: nat -> Env` gives, for detection `k`:
  - its `Date.now()` timestamp;
  - its `nanoid(5)` id;
  - whether its bucket write finishes;
  - where its Firestore save fails, if it does.
- `sniff` stands for `imageType`.
- `decode` stands for `Buffer.from(…, 'base64')`.
- The prediction result is an `Option<seq<Detection>>`. `None` means `predictImage` threw.

The prediction client reports a result without plates as a failure, so zero plates take the `None`
path and the answer 400 "No plate detected". The `prediction` parameter still admits `Some([])`, an
empty result array; for it the handler makes no call and answers 200 with the redirect `?items=`
(`Handler.NoDetectionsRedirectToEmptyList`).

One behaviour of the code that looks unintended is modelled as written: a user without a document
gets the misspelt field `plateDatePaths`, which the listing never reads
(`Firestore.UnknownUserPlateIsUnlisted`).

## Model

| member | source | states |
|---|---|---|
| Handler.HandleDetect | src/handler.js:7-49 | No file: 400 "No image uploaded", no call made, store unchanged. Prediction failure: 400 "No plate detected" after the prediction call only, store unchanged. Otherwise the calls, the user documents, the plate records and the response are those of the run over the detections: 500 "Internal Server Error" if the run failed, else 200 "Success" with the redirect of the collected ids |
| Handler.DetectAll | src/handler.js:22-38 | The loop over the detections leaves exactly the ids, calls, failure flag and records of `RunUpTo` over all detections; the user documents have the path of every collected id linked, in order |
| Handler.DetectOne | src/handler.js:24-36 | One callback (decode, sniff, name, upload, save, collect) advances the pipeline state from detection k to k+1 as `Step` defines it |
| Handler.RunFailsIffDetectionFails | src/handler.js:23-47 | A run fails, so the request answers 500, exactly when some detection has an unknown image type, an unfinished upload or a failed save |
| Handler.FailureIsFinal | src/handler.js:22-38 | In the model's sequential order of the callbacks, the state after a failed detection is the final state: the model stops there (the source's later callbacks keep running, see "Left out") |
| Handler.RunWithoutFailure | src/handler.js:22-38 | A successful run collects one id per detection, in detection order, and makes exactly one upload followed by exactly one save per detection |
| Handler.RunIsPaired | src/handler.js:24-36 | The calls of any run are (upload, save) pairs in which the save carries the public URL of that upload's object, and that object name is built from the save's plate number and timestamp; a failed run may end with one unpaired upload |
| Handler.RunOnlyCallerRecords | src/handler.js:24-36 | A run never removes a record, and every record it writes is owned by the caller; a generated id that already names a record overwrites it, whoever owned it |
| Handler.RunKeepsRecords | src/handler.js:24-36 | When no generated id names an existing record, every existing record keeps its exact contents |
| Handler.RunRecordsOwned | src/handler.js:34-35 | After a successful run, every detection's record exists and is owned by the caller |
| Handler.RunStoresRecords | src/handler.js:34-35 | With distinct generated ids, a successful run stores each detection's record under its id: the id, plate number, region, public URL, timestamp and owner of that detection |
| Handler.NoDetectionsRedirectToEmptyList | src/handler.js:22-44 | An empty result array: no call, no write, success, and the redirect `?items=` |
| Handler.DetectedRecordListed | src/handler.js:34-36 | For a caller whose user document exists, every record a successful run stores appears in that caller's listing, without its owner field |
| Handler.LinkedUsersOnlyCaller | src/firestore.js:34-45 | The saves of a run touch no user document but the caller's |
| Handler.LinkedUsersLinksIds | src/firestore.js:37-40 | When the caller's document exists, its `plateDataPaths` holds the path `plateData/<id>` of every collected id |
| Handler.GeneratedIdIsPlateId | src/firestore.js:20-32 | A generated id is non-empty and has no slash, so `plateData/<id>` names a document |
| Handler.FileNameShape | src/handler.js:31-32 | `FileName` is the plate number, a dash, the decimal digits of the timestamp (which read back as the timestamp) and `.jpg` |
| Handler.FileNameInjective | src/handler.js:31-32 | The object name `plateNumber-timestamp.jpg` determines its plate number and timestamp |
| Handler.FileNameHasNoSlash | src/handler.js:32 | A plate number without a slash gives an object name without a slash |
| Handler.RedirectFor | src/handler.js:40-44 | The redirect is the id itself for exactly one id, and otherwise `?items=` followed by the ids joined by commas |
| Handler.RedirectRoundTrip | src/handler.js:40-44 | The redirect value (the bare id for exactly one id, else `?items=` and the ids joined by commas) reads back as exactly the collected ids, in order |
| Handler.HandleGetList | src/handler.js:51-65 | 200 with the listing exactly when `getUserPlateData` succeeds, else 500 with its error message |
| Handler.HandleGetDetail | src/handler.js:67-86 | 200 with the stored record exactly when the id is one path segment, the record exists and its owner is the caller; 403 for an existing record of another owner; 500 "Vehicle not found" for a missing record; 500 with the path error for an id that is empty or has a slash |
| Handler.BlobTarget | src/handler.js:99 | The object to delete is the name `split(prefix)[1]` recovers from the record's `imageUrl`, when that is a string and the name is present and non-empty; otherwise "Failed to delete from GCS" |
| Handler.HandleDeleteVehicleData | src/handler.js:88-106 | Nothing is deleted unless the id is one path segment, the record exists and the caller owns it (500 with the path error or "Vehicle not found", or 403, with no call otherwise). For the owner: an invalid or bare image URL gives 500 "Failed to delete from GCS" with no call; a failed object deletion gives the same error after exactly that one call; a failed record deletion gives its message after both calls. A record deletion is only ever the second call, after the object deletion succeeded. 200 "Vehicle data deleted successfully." exactly when the object name is valid and both deletions succeed, and then the calls are the object deletion followed by the record deletion |
| Handler.ForeignCallerForbidden | src/handler.js:74-76 | Another caller asking for the detail of, or deleting, a record a successful run created under a generated id gets 403, and no deletion happens |
| Handler.OwnerDeletesUploadedObject | src/handler.js:95-102 | The owner deleting a record a run created under a generated id deletes exactly the object that run uploaded, then the record, and gets 200 |
| Firestore.Store.CreateNewUser | src/firestore.js:4-17 | The users collection becomes `WithNewUser` of the old one; plate records unchanged |
| Firestore.WithNewUser | src/firestore.js:8-16 | An existing user document is kept as it is; a missing one is created with email, name, an empty `plateData` list and the server timestamp; other users untouched |
| Firestore.CreateNewUserIdempotent | src/firestore.js:8-16 | Creating a user a second time, with any email and name, changes nothing |
| Firestore.Store.SaveToFirestore | src/firestore.js:19-52 | The record (id, plateNumber, region, imageUrl, timestamp, owner = uid) is stored under the id unless that write fails; the path is linked only when every write succeeds; the result is the id, or "Failed to save to Firestore" on any failure |
| Firestore.ArrayUnion | src/firestore.js:38-40 | The new path is present; the earlier entries are kept in order, at most one entry is added, nothing is added when the path is already there, and no duplicates are introduced |
| Firestore.LinkPlate | src/firestore.js:32-45 | An existing user's `plateDataPaths` becomes the arrayUnion of its old value and the path (so the earlier entries are kept), with the other fields unchanged; a missing user becomes exactly `{ plateDatePaths: [path] }`; other users untouched |
| Firestore.GetVehicleById | src/firestore.js:87-100 | The stored fields unchanged for an existing id; the path error when the id is empty or has a slash, so `doc(id)` rejects it before any read; otherwise "Vehicle not found" for a missing record |
| Firestore.SavedPlateReadsBack | src/firestore.js:20-30 | A record saved under an id that is one path segment reads back unchanged, owned by the caller who saved it |
| Firestore.GetUserPlateData | src/firestore.js:54-85 | "Internal Server Error" exactly for a missing user or an unusable paths field; `{ message: "No plate data paths found", data: [] }` when there are no paths; otherwise no message and the data is `Project` of the paths (path order, missing documents skipped, owner dropped, id set); never more entries than paths; no entry carries an owner |
| Firestore.PathsOf | src/firestore.js:63-69 | `plateDataPaths || []`: an array is the list of paths; a missing field, `null`, `""` or `0` is no paths; it fails, with "Internal Server Error", exactly for a field that is neither falsy nor an array |
| Firestore.PlateIdOf | src/firestore.js:69 | A path read as a document reference is `plateData/<id>` with a non-empty id without a slash |
| Firestore.PlateIdOfPath | src/firestore.js:32 | The path a save writes refers back to the saved id |
| Firestore.Listed | src/firestore.js:74-78 | The listed entry drops `owner`, has `id` (the stored field if there is one, else the document id) and keeps every other field |
| Firestore.Entry | src/firestore.js:69-78 | One path contributes at most one entry, without an owner |
| Firestore.Project | src/firestore.js:69-78 | The listing has at most one entry per path and no owner fields |
| Firestore.ProjectConcat | src/firestore.js:69-78 | The listing follows path order: two path lists list one after the other |
| Firestore.ProjectListsPath | src/firestore.js:69-78 | Every path to an existing record lists that record |
| Firestore.ProjectOnlyPaths | src/firestore.js:69-78 | Every listed entry is an existing record named by one of the paths, so missing documents are skipped |
| Firestore.LinkedPathIsListed | src/firestore.js:63-80 | A record whose path is in the user's `plateDataPaths` array is in that user's listing |
| Firestore.SavedPlateIsListed | src/firestore.js:32-40 | A record saved for an existing user is listed for that user |
| Firestore.UnknownUserPlateIsUnlisted | src/firestore.js:41-66 | A record saved for a user without a document goes to the misspelt field, and the user's listing is the empty "No plate data paths found" answer |
| Firestore.ListedPlateDoc | src/firestore.js:74-78 | The listed form of a saved record is that record without its owner |
| Gcs.PublicUrl | src/gcs.js:25 | The URL starts with `https://storage.googleapis.com/vehicle-images-apnr-megalogic/` and the rest is the object name |
| Gcs.UploadToGcs | src/gcs.js:11-31 | Success exactly when the write finishes, and then the URL is exactly `https://storage.googleapis.com/vehicle-images-apnr-megalogic/` followed by the object name; otherwise "Failed to upload to GCS" |
| Gcs.ObjectNameOf | src/gcs.js:35 | `split(prefix)[1]`: absent exactly when the prefix does not occur; otherwise the text between the first occurrence and the next one or the end |
| Gcs.ObjectToDelete | src/gcs.js:35-44 | The object name when present and non-empty, else "Failed to delete from GCS" |
| Gcs.UploadThenDeleteTargetsSameObject | src/gcs.js:25-40 | For a non-empty name that does not contain the prefix, deleting by the uploaded URL targets exactly that name |
| Gcs.NoSlashNoPrefix | src/gcs.js:35 | A name without a slash cannot contain the prefix, which ends in a slash |
| Gcs.RejectsForeignUrl | src/gcs.js:35-39 | A URL without the prefix is rejected and no deletion is attempted |
| Gcs.RejectsBareUrl | src/gcs.js:35-39 | A URL with nothing after the prefix is rejected |
| Utils.HeaderLength | src/utils.js:2 | The length of the header the anchored expression matches, when it matches, and the only such length |
| Utils.StripDataUrlHeader | src/utils.js:2 | Removes the matched header, or leaves the string unchanged when there is no match |
| Utils.StripsHeader | src/utils.js:2 | `data:image/X;base64,` with X one or more of [A-Za-z0-9_] is removed, and exactly it |
| Utils.Base64ToBuffer | src/utils.js:1-4 | The decoder gets the text after the header when the anchored expression matches, and the whole string otherwise |
| Utils.DecodesOnlyPayload | src/utils.js:2-3 | Only the text after the header reaches the base64 decoder |
| Utils.StripsOnce | src/utils.js:2 | Of two well-formed headers in a row, with any two subtypes, only the first is removed (no global flag) |
| Utils.KeepsEmptySubtype | src/utils.js:2 | `data:image/;base64,` is not removed |
| Utils.KeepsSvgSubtype | src/utils.js:2 | `data:image/svg+xml;base64,` is not removed |
| Utils.KeepsUnanchoredHeader | src/utils.js:2 | A well-formed header preceded by a non-empty text that does not itself start with `data:image/` is not removed |
| JsString.SecondPiece | src/gcs.js:35 | `s.split(sep)[1]` is the text between the first occurrence of the separator and the next one or the end |
| JsString.JoinSplit | src/gcs.js:35 | Joining the pieces of a split with its separator gives back the string |
| JsString.SplitJoin | src/handler.js:44 | Splitting ids joined by a comma that none contains gives back the ids |
| JsString.ParseNatToString | src/handler.js:32 | The decimal rendering of the timestamp reads back as the timestamp |

## Left out

- `src/ml.js` (the HTTP client of the prediction service) is not part of this model. Its result is the
  `prediction` parameter of `Handler.HandleDetect`, a sequence of detections, or `None` when the call throws.
- `src/auth.js` (token verification, cookies, the warm-up request) and `src/index.js` (routing, CORS,
  multer) are not part of this model. The caller's `uid` is a plain string; a missing cookie is not modelled.
- The aggregation handlers and `deleteFromFirestore` are not part of this model, because their bodies are
  not in the source. The record deletion is a `DeleteRecord` effect, and its failure is the `recordError`
  parameter of `Handler.HandleDeleteVehicleData`.
- Handler.DetectAll: processes the detections one after another and stops at the first failure. In the
  source, `Promise.all` starts every callback, so all uploads begin before any save. Callbacks after a
  failed one keep running and may still write. Ids are pushed in completion order. The model's order of
  calls and ids is the detection order.
- Handler.FailureIsFinal: holds of the model's sequential order only. In the source, the callbacks of the
  detections after a failed one have already started, and they go on uploading and saving after the request
  has answered 500.
- Handler.HandleDetect: failures of the prediction service, of the bucket write and of the store are
  parameters (`prediction`, `Env.uploaded`, `Env.saveFault`) rather than I/O. Logging is left out.
- `imageType`, `Buffer.from(…, 'base64')`, `nanoid(5)` and `Date.now()` are the parameters `sniff`,
  `decode`, `Env.id` and `Env.timestamp`. The decoder's leniency and the sniffer's signatures are not
  modelled.
- Firestore.Store.SaveToFirestore: a missing `region` (`undefined`) is not modelled. `None` stands for
  `null`.
- Firestore.Store.SaveToFirestore: the read of the user document and its update are one step. The
  read-modify-write race between concurrent saves and the durability of each write are not modelled.
- Firestore.GetVehicleById: the client library's rejection of an id that is empty or has a slash is one
  constant message, `InvalidPathError`; the library's exact wording is not modelled. The library accepts an
  id with an even number of slashes (such as `a/b/c`) as a document in a subcollection, which would read as
  "Vehicle not found"; the model answers the path error for every id with a slash.
- Firestore.GetVehicleById: the read of the record never fails in the model. In the source a failed `get()`
  is re-thrown with its own message, and the detail and delete handlers answer 500 with it even for a record
  the caller owns; `Handler.HandleGetDetail` and `Handler.HandleDeleteVehicleData` assume the read succeeds.
- Firestore.GetUserPlateData: the reads of the user document and of the records never fail in the model. In
  the source a failed `get()` becomes "Internal Server Error".
- Firestore.Store.CreateNewUser: the read and the write of the user document never fail in the model. In the
  source a failure of either propagates to the caller.
- Firestore.Store.SaveToFirestore: a generated id is not checked against existing records. A collision with
  another caller's record overwrites it and makes the caller its owner, while the other caller's paths still
  name it; `Handler.RunKeepsRecords` therefore requires ids that name no existing record.
- Firestore.GetUserPlateData: a stored path that is not `plateData/<id>` is treated as naming a missing
  document. Real document references into other collections are not modelled.
- Handler.FileName: timestamps at or above 10^21 milliseconds, which JavaScript renders in exponent
  notation, are not modelled.
- Utils.Base64ToBuffer: the base64 decoding itself is the `decode` parameter.
