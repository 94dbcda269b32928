/**
 * The URL under which an uploaded team logo or player photo is published:
 * an S3 object URL when S3 credentials are configured, a path under
 * `/uploads/` otherwise. Reading the environment is modelled by `Config`.
 */
module Storage {
  import opened Common
  import opened Strings

  /** The environment variables the storage service reads at start-up. */
  datatype Config = Config(
    accessKeyId: Option<string>,
    secretAccessKey: Option<string>,
    bucket: Option<string>,
    region: Option<string>)

  /** S3 is used exactly when the access key, the secret and the bucket are all set. */
  predicate UseS3(c: Config)
  {
    Truthy(c.accessKeyId) && Truthy(c.secretAccessKey) && Truthy(c.bucket)
  }

  /** The region of every S3 object URL: never empty, so an S3 host always names one. */
  function Region(c: Config): (r: string)
    ensures r != ""
    ensures Truthy(c.region) ==> r == c.region.value
    ensures !Truthy(c.region) ==> r == "us-east-1"
  {
    if Truthy(c.region) then c.region.value else "us-east-1"
  }

  predicate IsAbsoluteUrl(p: string)
  {
    StartsWith(p, "http://") || StartsWith(p, "https://")
  }

  lemma {:induction false} PrefixOfConcat(a: string, b: string)
    ensures StartsWith(a + b, a)
  {
    assert (a + b)[..|a|] == a;
  }

  /** The object URL in virtual-hosted style. */
  function S3Url(c: Config, key: string): string
    requires UseS3(c)
  {
    "https://" + c.bucket.value + ".s3." + Region(c) + ".amazonaws.com/" + key
  }

  /** `getFileUrl(filePath, uploadType)`. */
  function GetFileUrl(c: Config, filePath: Option<string>, uploadType: string): (r: Option<string>)
    ensures r.None? <==> !Truthy(filePath)
    ensures Truthy(filePath) && IsAbsoluteUrl(filePath.value) ==> r == filePath
  {
    if !Truthy(filePath) then None
    else
      var p := filePath.value;
      if UseS3(c) then
        if IsAbsoluteUrl(p) then Some(p) else Some(S3Url(c, p))
      else if IsAbsoluteUrl(p) then Some(p)
      else if StartsWith(p, "/uploads/") then Some(p)
      else Some("/uploads/" + uploadType + "/" + Basename(p))
  }

  lemma {:induction false} S3UrlIsHttps(c: Config, key: string)
    requires UseS3(c)
    ensures StartsWith(S3Url(c, key), "https://")
  {
    var rest := c.bucket.value + ".s3." + Region(c) + ".amazonaws.com/" + key;
    assert S3Url(c, key) == "https://" + rest;
    PrefixOfConcat("https://", rest);
  }

  lemma {:induction false} LocalPathShape(uploadType: string, name: string)
    ensures StartsWith("/uploads/" + uploadType + "/" + name, "/uploads/")
    ensures EndsWith("/uploads/" + uploadType + "/" + name, "/" + name)
  {
    var r := "/uploads/" + uploadType + "/" + name;
    assert r == "/uploads/" + (uploadType + "/" + name);
    PrefixOfConcat("/uploads/", uploadType + "/" + name);
    assert r == ("/uploads/" + uploadType) + ("/" + name);
  }

  /**
   * What is stored is always servable: with S3 an absolute URL, on local
   * disk an absolute URL or a path under `/uploads/` whose last segment is
   * the uploaded file's name.
   */
  lemma {:induction false} FileUrlShape(c: Config, p: string, uploadType: string)
    requires p != ""
    ensures var r := GetFileUrl(c, Some(p), uploadType).value;
      && (UseS3(c) ==> IsAbsoluteUrl(r))
      && (!UseS3(c) ==> IsAbsoluteUrl(r) || StartsWith(r, "/uploads/"))
      && (!UseS3(c) && !IsAbsoluteUrl(p) && !StartsWith(p, "/uploads/") ==>
            EndsWith(r, "/" + Basename(p)) && '/' !in Basename(p))
  {
    if UseS3(c) && !IsAbsoluteUrl(p) {
      S3UrlIsHttps(c, p);
    }
    if !UseS3(c) && !IsAbsoluteUrl(p) && !StartsWith(p, "/uploads/") {
      LocalPathShape(uploadType, Basename(p));
    }
  }

  /** Passing a stored URL through `getFileUrl` again leaves it unchanged. */
  lemma {:induction false} FileUrlIdempotent(c: Config, p: Option<string>, uploadType: string)
    requires Truthy(p)
    ensures GetFileUrl(c, GetFileUrl(c, p, uploadType), uploadType) == GetFileUrl(c, p, uploadType)
  {
    FileUrlShape(c, p.value, uploadType);
  }

  /**
   * The image column a create or update request writes: the stored URL of an
   * uploaded file, else the value given in the body; `None` when the body
   * leaves the column undefined.
   */
  function ImageField(c: Config, given: Option<string>, upload: Option<string>, uploadType: string)
    : (r: Option<Option<string>>)
    ensures upload.Some? ==> r == Some(GetFileUrl(c, upload, uploadType))
    ensures upload.None? && given.None? ==> r.None?
    ensures upload.None? && given.Some? ==> r == Some(given)
  {
    if upload.Some? then Some(GetFileUrl(c, upload, uploadType))
    else if given.Some? then Some(given)
    else None
  }
}
