/**
 * The client's `getImageUrl`: stored photo and logo values are either
 * absolute URLs (S3 or external) or server-relative paths, which are served
 * by the API host. The API base URL comes from the client's configuration
 * and is the parameter `apiUrl`.
 */
module ImageUtils {
  import opened Common
  import opened Strings
  import Storage

  /** `getImageUrl(path)`: `None` is the `null` it returns for a missing or empty path. */
  function GetImageUrl(apiUrl: string, path: Option<string>): (r: Option<string>)
    ensures r.None? <==> !Truthy(path)
    ensures Truthy(path) && Storage.IsAbsoluteUrl(path.value) ==> r == path
  {
    if !Truthy(path) then None
    else if Storage.IsAbsoluteUrl(path.value) then path
    else if StartsWith(path.value, "/") then Some(apiUrl + path.value)
    else Some(apiUrl + "/" + path.value)
  }

  /**
   * A relative path is served from the API host: the URL is `apiUrl`
   * followed by exactly one segment separator and then the path as given.
   */
  lemma {:induction false} RelativePathShape(apiUrl: string, path: string)
    requires path != "" && !Storage.IsAbsoluteUrl(path)
    ensures var r := GetImageUrl(apiUrl, Some(path)).value;
      && StartsWith(r, apiUrl)
      && |r| > |apiUrl| && r[|apiUrl|] == '/'
      && EndsWith(r, path)
      && |r| == |apiUrl| + |path| + (if path[0] == '/' then 0 else 1)
  {
    var r := GetImageUrl(apiUrl, Some(path)).value;
    if path[0] == '/' {
      assert path[..1] == "/";
      assert r == apiUrl + path;
      assert r[..|apiUrl|] == apiUrl && r[|apiUrl|..] == path;
    } else {
      assert !StartsWith(path, "/");
      assert r == apiUrl + ("/" + path);
      assert r[..|apiUrl|] == apiUrl && r[|apiUrl| + 1..] == path;
    }
  }

  /**
   * When the API base URL is itself absolute, every URL the helper returns is
   * absolute, so applying it again changes nothing.
   */
  lemma {:induction false} GetImageUrlIdempotent(apiUrl: string, path: Option<string>)
    requires Storage.IsAbsoluteUrl(apiUrl)
    ensures GetImageUrl(apiUrl, GetImageUrl(apiUrl, path)) == GetImageUrl(apiUrl, path)
  {
    if Truthy(path) && !Storage.IsAbsoluteUrl(path.value) {
      var r := GetImageUrl(apiUrl, path).value;
      RelativePathShape(apiUrl, path.value);
      if StartsWith(apiUrl, "http://") {
        assert r[..7] == apiUrl[..7];
      } else {
        assert r[..8] == apiUrl[..8];
      }
    }
  }

  /** A file the server stored on local disk is fetched from the API host under the same `/uploads/` path. */
  lemma {:induction false} LocalUploadServedByApi(apiUrl: string, cfg: Storage.Config, file: string, uploadType: string)
    requires file != "" && !Storage.UseS3(cfg) && !Storage.IsAbsoluteUrl(file)
    ensures var stored := Storage.GetFileUrl(cfg, Some(file), uploadType);
      GetImageUrl(apiUrl, stored) == Some(apiUrl + stored.value)
  {
    var stored := Storage.GetFileUrl(cfg, Some(file), uploadType);
    LocalStoredPath(cfg, file, uploadType);
    UploadsPath(stored.value);
  }

  lemma {:induction false} LocalStoredPath(cfg: Storage.Config, file: string, uploadType: string)
    requires file != "" && !Storage.UseS3(cfg) && !Storage.IsAbsoluteUrl(file)
    ensures StartsWith(Storage.GetFileUrl(cfg, Some(file), uploadType).value, "/uploads/")
  {
    if !StartsWith(file, "/uploads/") {
      Storage.LocalPathShape(uploadType, Basename(file));
    }
  }

  lemma {:induction false} UploadsPath(p: string)
    requires StartsWith(p, "/uploads/")
    ensures !Storage.IsAbsoluteUrl(p) && StartsWith(p, "/") && p != ""
  {
    assert p[0] == "/uploads/"[0] == '/';
    assert p[..1] == "/";
  }
}
