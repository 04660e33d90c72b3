/** The object-storage location returned by `upload_file`. The upload itself
    is a call into the storage service and is not part of this model. */
module Upload {

  datatype Option<T> = None | Some(value: T)

  /** The object name of the upload: the given one, or the local file name
      when none is given. */
  function ObjectName(fileName: string, objectName: Option<string>): string
  {
    match objectName
    case None => fileName
    case Some(name) => name
  }

  /** The job URI `s3://bucket/object` that `upload_file` returns. */
  function JobUri(fileName: string, bucket: string, objectName: Option<string>): string
  {
    "s3://" + bucket + "/" + ObjectName(fileName, objectName)
  }

  /** The index of the first `/` in `s`, or `|s|` if there is none. */
  function SlashIndex(s: string): (k: nat)
    ensures k <= |s|
    ensures forall i :: 0 <= i < k ==> s[i] != '/'
    ensures k < |s| ==> s[k] == '/'
    decreases |s|
  {
    if s == [] || s[0] == '/' then 0 else 1 + SlashIndex(s[1..])
  }

  /** Reads the bucket and the object name back from an `s3://` URI: the bucket
      runs up to the first `/` after the scheme, the object name is the rest. */
  function ParseS3Uri(uri: string): Option<(string, string)>
  {
    if |uri| < 5 || uri[..5] != "s3://" then None
    else
      var rest := uri[5..];
      var k := SlashIndex(rest);
      if k == |rest| then None else Some((rest[..k], rest[k + 1..]))
  }

  /** For any bucket name without a `/` (as storage bucket names are), the
      returned URI names that bucket and the object name actually used. */
  lemma JobUriRoundTrip(fileName: string, bucket: string, objectName: Option<string>)
    requires forall i :: 0 <= i < |bucket| ==> bucket[i] != '/'
    ensures ParseS3Uri(JobUri(fileName, bucket, objectName)) == Some((bucket, ObjectName(fileName, objectName)))
  {
    var uri := JobUri(fileName, bucket, objectName);
    var key := ObjectName(fileName, objectName);
    assert uri[..5] == "s3://";
    var rest := uri[5..];
    assert rest == bucket + "/" + key;
    assert rest[|bucket|] == '/';
    var k := SlashIndex(rest);
    assert forall i :: 0 <= i < |bucket| ==> rest[i] == bucket[i];
    assert k == |bucket|;
    assert rest[..k] == bucket;
    assert rest[k + 1..] == key;
  }

  /** Without an object name, the URI names the local file name. */
  lemma JobUriDefaultsToFileName(fileName: string, bucket: string)
    requires forall i :: 0 <= i < |bucket| ==> bucket[i] != '/'
    ensures ParseS3Uri(JobUri(fileName, bucket, None)) == Some((bucket, fileName))
  {
    JobUriRoundTrip(fileName, bucket, None);
  }
}
