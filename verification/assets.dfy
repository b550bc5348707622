/**
 * Asset paths in the object store and their public URLs: turning a stored
 * path into a CDN URL, recognising asset paths, and reading a file's
 * extension, image-ness and MIME type from its path.
 */
module Assets {
  import opened Text

  const DevelopmentBase: string := "http://localhost:9000/surefilter-static"
  const DefaultCdnBase: string := "https://new.surefilter.us"

  const MediaExtensions: seq<string> := [
    "jpg", "jpeg", "png", "webp", "gif", "svg", "bmp", "ico",
    "mp4", "webm", "mov", "avi",
    "pdf", "doc", "docx", "xls", "xlsx"]

  const ImageExtensions: seq<string> := ["jpg", "jpeg", "png", "webp", "gif", "svg"]

  /** The extension-to-type table of getMimeType. */
  const MimeMap: map<string, string> := map[
    "jpg" := "image/jpeg", "jpeg" := "image/jpeg", "png" := "image/png",
    "webp" := "image/webp", "gif" := "image/gif", "svg" := "image/svg+xml",
    "pdf" := "application/pdf", "mp4" := "video/mp4", "webm" := "video/webm"]

  const OctetStream: string := "application/octet-stream"

  /** getCdnBaseUrl: the local object store in development, else the configured CDN URL or the default. */
  function CdnBaseUrl(isDevelopment: bool, configuredCdnUrl: string): (base: string)
    ensures isDevelopment ==> base == DevelopmentBase
    ensures !isDevelopment && configuredCdnUrl != "" ==> base == configuredCdnUrl
    ensures !isDevelopment && configuredCdnUrl == "" ==> base == DefaultCdnBase
  {
    if isDevelopment then DevelopmentBase
    else if configuredCdnUrl != "" then configuredCdnUrl
    else DefaultCdnBase
  }

  /** The base is never empty, and it is an http(s) URL unless a configured CDN URL is not one. */
  lemma CdnBaseShape(isDevelopment: bool, configuredCdnUrl: string)
    ensures CdnBaseUrl(isDevelopment, configuredCdnUrl) != ""
    ensures isDevelopment || configuredCdnUrl == "" || IsExternal(configuredCdnUrl) ==>
      IsExternal(CdnBaseUrl(isDevelopment, configuredCdnUrl))
  {
    assert DevelopmentBase[..7] == "http://";
    assert DefaultCdnBase[..8] == "https://";
  }

  predicate IsExternal(path: string)
  {
    StartsWith(path, "http://") || StartsWith(path, "https://")
  }

  /** The path with one leading '/' removed. */
  function WithoutLeadingSlash(path: string): (r: string)
    ensures path != [] && path[0] == '/' ==> r == path[1..]
    ensures (path == [] || path[0] != '/') ==> r == path
  {
    if StartsWith(path, "/") then path[1..] else path
  }

  /** getAssetUrl (and getOptimizedImageUrl, which returns the same). */
  function AssetUrl(base: string, path: string): (url: string)
    ensures IsExternal(path) ==> url == path
    ensures !IsExternal(path) ==> url == base + "/" + WithoutLeadingSlash(path)
  {
    if IsExternal(path) then path else base + "/" + WithoutLeadingSlash(path)
  }

  /** The stored path behind a URL under `base`, when the URL lies under it. */
  function StoredPath(base: string, url: string): (path: Option<string>)
    ensures path.Some? ==> url == base + "/" + path.value
    ensures path.None? ==> !StartsWith(url, base + "/")
  {
    if StartsWith(url, base + "/") then
      assert url == url[..|base| + 1] + url[|base| + 1..];
      Some(url[|base| + 1..])
    else None
  }

  /**
   * A stored path's URL lies under the base and gives back the path without
   * its leading '/'; converting that path again gives the same URL.
   */
  lemma AssetUrlRoundTrip(base: string, path: string)
    requires !IsExternal(path)
    ensures StoredPath(base, AssetUrl(base, path)) == Some(WithoutLeadingSlash(path))
    ensures var clean := WithoutLeadingSlash(path);
      !IsExternal(clean) && (clean == [] || clean[0] != '/') ==> AssetUrl(base, clean) == AssetUrl(base, path)
  {
    var url := AssetUrl(base, path);
    var clean := WithoutLeadingSlash(path);
    assert url[..|base| + 1] == base + "/";
    assert url[|base| + 1..] == clean;
  }

  /** With an http(s) CDN base, converting a URL a second time changes nothing. */
  lemma AssetUrlIdempotent(base: string, path: string)
    requires IsExternal(base)
    ensures AssetUrl(base, AssetUrl(base, path)) == AssetUrl(base, path)
  {
    if !IsExternal(path) {
      var url := base + "/" + WithoutLeadingSlash(path);
      if StartsWith(base, "http://") {
        assert url[..7] == base[..7];
      } else {
        assert url[..8] == base[..8];
      }
    }
  }

  /** One leading slash makes no difference to a stored path (a second one would be kept). */
  lemma LeadingSlashIgnored(base: string, path: string)
    requires !IsExternal(path) && (path == [] || path[0] != '/')
    ensures AssetUrl(base, "/" + path) == AssetUrl(base, path)
  {
    assert ("/" + path)[1..] == path;
    var slashed := "/" + path;
    assert slashed[0] == '/';
  }

  /** getFileExtension: the lowercase text after the last '.', or the whole lowercase path without one. */
  function FileExtension(path: string): (ext: string)
    ensures '.' !in ext
    ensures |ext| <= |path| && ext == Lower(path[|path| - |ext|..])
    ensures |ext| < |path| ==> path[|path| - |ext| - 1] == '.'
    ensures '.' !in path ==> ext == Lower(path)
  {
    LastPartShape(path, '.');
    var last := LastPart(path, '.');
    var ext := Lower(last);
    assert forall i :: 0 <= i < |ext| ==> ext[i] != '.' by {
      forall i | 0 <= i < |ext| ensures ext[i] != '.' {
        assert last[i] != '.';
      }
    }
    ext
  }

  /** The extension is the text after a final '.', in lower case, whatever case it was written in. */
  lemma ExtensionCaseIgnored(name: string, ext: string)
    requires '.' !in ext
    ensures FileExtension(name + "." + ext) == Lower(ext)
  {
    SplitConcat(name, ext, '.');
    SplitNoSep(ext, '.');
    assert name + "." + ext == name + ['.'] + ext;
  }

  /** isAssetPath: a stored path inside a folder whose extension is a media extension. */
  function IsAssetPath(path: string): (b: bool)
    ensures IsExternal(path) ==> !b
    ensures !IsExternal(path) && '/' !in WithoutLeadingSlash(path) ==> !b
    ensures !IsExternal(path) && '/' in WithoutLeadingSlash(path) ==>
      (b <==> FileExtension(WithoutLeadingSlash(path)) in MediaExtensions)
  {
    if IsExternal(path) then false
    else
      var clean := WithoutLeadingSlash(path);
      if '/' !in clean then false
      else FileExtension(clean) in MediaExtensions
  }

  /** A stored path is an asset path exactly when it is one with its leading '/' put back, and a top-level file never is. */
  lemma AssetPathLeadingSlash(path: string)
    requires !IsExternal(path) && (path == [] || path[0] != '/')
    ensures IsAssetPath("/" + path) == IsAssetPath(path)
    ensures '/' !in path ==> !IsAssetPath(path) && !IsAssetPath("/" + path)
  {
    var slashed := "/" + path;
    assert slashed[0] == '/' && slashed[1..] == path;
    assert WithoutLeadingSlash(slashed) == path;
    assert WithoutLeadingSlash(path) == path;
    NotExternal(slashed);
  }

  lemma NotExternal(s: string)
    requires s != [] && s[0] == '/'
    ensures !IsExternal(s)
  {
    assert !StartsWith(s, "http://") by {
      if |s| >= 7 {
        assert s[..7][0] == '/';
      }
    }
    assert !StartsWith(s, "https://") by {
      if |s| >= 8 {
        assert s[..8][0] == '/';
      }
    }
  }

  /** isImageFile */
  function IsImageFile(path: string): (b: bool)
    ensures b <==> FileExtension(path) in ImageExtensions
  {
    FileExtension(path) in ImageExtensions
  }

  /** Every image extension is also a media extension. */
  lemma ImagesAreMedia(path: string)
    ensures IsImageFile(path) ==> FileExtension(path) in MediaExtensions
  {
  }

  /** getMimeType: the table's type for a known extension, else the generic binary type. */
  function MimeType(path: string): (mime: string)
    ensures FileExtension(path) in MimeMap ==> mime == MimeMap[FileExtension(path)]
    ensures FileExtension(path) !in MimeMap ==> mime == OctetStream
  {
    var ext := FileExtension(path);
    if ext in MimeMap then MimeMap[ext] else OctetStream
  }

  /** Every image file gets an `image/` type. */
  lemma ImagesHaveImageTypes(path: string)
    requires IsImageFile(path)
    ensures StartsWith(MimeType(path), "image/")
  {
  }

  /**
   * A file gets an `image/` type exactly when it is an image file, and every
   * file with a type other than the generic one has a media extension.
   */
  lemma TypesFollowExtensions(path: string)
    ensures IsImageFile(path) <==> StartsWith(MimeType(path), "image/")
    ensures MimeType(path) != OctetStream ==> FileExtension(path) in MediaExtensions
  {
    var mime := MimeType(path);
    if StartsWith(mime, "image/") {
      assert mime[..6][0] == 'i';
      assert MimeMap["pdf"][0] == 'a' && MimeMap["mp4"][0] == 'v' && MimeMap["webm"][0] == 'v';
    }
  }
}
