/**
 * The string side of the Google Cloud Storage adapter (src/gcs.js): the
 * public URL an upload returns, and the object name a deletion recovers from
 * such a URL. The bucket writes and deletes themselves are external; the
 * handler records them as effects.
 */
module Gcs {
  import opened Wrappers
  import opened JsString

  const BucketName: string := "vehicle-images-apnr-megalogic"

  /** `https://storage.googleapis.com/${BUCKET_NAME}/`, the text before every object name. */
  const UrlPrefix: string := "https://storage.googleapis.com/" + BucketName + "/"

  const UploadError: string := "Failed to upload to GCS"
  const DeleteError: string := "Failed to delete from GCS"

  /** The public URL of an object: the prefix followed by the object name. */
  function PublicUrl(fileName: string): (r: string)
    ensures |r| == |UrlPrefix| + |fileName|
    ensures r[..|UrlPrefix|] == UrlPrefix && r[|UrlPrefix|..] == fileName
  {
    UrlPrefix + fileName
  }

  /**
   * `uploadToGCS`: when the write stream finishes (`written`), the public URL
   * of the object; otherwise the error `Failed to upload to GCS`.
   */
  function UploadToGcs(fileName: string, written: bool): (r: Result<string, string>)
    ensures r.Ok? <==> written
    ensures r.Ok? ==> r.value == UrlPrefix + fileName
    ensures r.Err? ==> r.error == UploadError
  {
    if written then Ok(PublicUrl(fileName)) else Err(UploadError)
  }

  /**
   * `publicUrl.split(prefix)[1]`: the text between the first occurrence of
   * the prefix and the next occurrence or the end, or None (undefined) when
   * the prefix does not occur.
   */
  function ObjectNameOf(url: string): (r: Option<string>)
    ensures r.None? <==> IndexOf(url, UrlPrefix, 0).None?
    ensures r.Some? ==>
      var start := IndexOf(url, UrlPrefix, 0).value + |UrlPrefix|;
      && start <= |url|
      && (IndexOf(url, UrlPrefix, start).None? ==> r.value == url[start..])
      && (IndexOf(url, UrlPrefix, start).Some? ==> r.value == url[start..IndexOf(url, UrlPrefix, start).value])
  {
    var parts := Split(url, UrlPrefix);
    if IndexOf(url, UrlPrefix, 0).Some? then
      SecondPiece(url, UrlPrefix, IndexOf(url, UrlPrefix, 0).value);
      Some(parts[1])
    else
      NoSecondPiece(url, UrlPrefix);
      None
  }

  /**
   * The validation in `deleteFromGCS`: the object to delete, or the error
   * `Failed to delete from GCS` when the name is undefined or empty, in which
   * case no deletion is attempted.
   */
  function ObjectToDelete(url: string): (r: Result<string, string>)
    ensures r.Ok? <==> ObjectNameOf(url).Some? && ObjectNameOf(url).value != ""
    ensures r.Ok? ==> r.value == ObjectNameOf(url).value
    ensures r.Err? ==> r.error == DeleteError
  {
    match ObjectNameOf(url)
    case Some(name) => if name != "" then Ok(name) else Err(DeleteError)
    case None => Err(DeleteError)
  }

  /**
   * Round trip: deleting by the URL an upload returned targets exactly the
   * uploaded object, provided its name is non-empty and does not itself
   * contain the prefix.
   */
  lemma UploadThenDeleteTargetsSameObject(fileName: string)
    requires fileName != ""
    requires !Contains(fileName, UrlPrefix)
    ensures ObjectToDelete(PublicUrl(fileName)) == Ok(fileName)
  {
    var url := PublicUrl(fileName);
    var p := |UrlPrefix|;
    assert OccursAt(url, UrlPrefix, 0) by {
      assert url[..p] == UrlPrefix;
    }
    assert IndexOf(url, UrlPrefix, 0) == Some(0);
    assert url[p..] == fileName;
    ShiftIndexOf(url, UrlPrefix, p, 0);
  }

  /** The prefix ends with a slash, so a name without slashes cannot contain it. */
  lemma NoSlashNoPrefix(name: string)
    requires '/' !in name
    ensures !Contains(name, UrlPrefix)
  {
    var last := |UrlPrefix| - 1;
    assert UrlPrefix[last] == '/';
    forall i: nat | i + |UrlPrefix| <= |name|
      ensures !OccursAt(name, UrlPrefix, i)
    {
      assert name[i + last] == name[i..i + |UrlPrefix|][last];
    }
  }

  /** A URL that does not contain the prefix is rejected without attempting a deletion. */
  lemma RejectsForeignUrl(url: string)
    requires !Contains(url, UrlPrefix)
    ensures ObjectToDelete(url) == Err(DeleteError)
  {
  }

  /** A URL that ends right after the prefix names nothing and is rejected. */
  lemma RejectsBareUrl()
    ensures ObjectToDelete(UrlPrefix) == Err(DeleteError)
  {
    var url := UrlPrefix;
    assert OccursAt(url, UrlPrefix, 0);
    assert IndexOf(url, UrlPrefix, 0) == Some(0);
    assert IndexOf(url, UrlPrefix, |UrlPrefix|).None?;
  }
}
