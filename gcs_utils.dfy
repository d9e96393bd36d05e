/** The front end's Cloud Storage URL helpers: every image is served from the
    `images/` folder of one public bucket. */
module ImageUrls {
  import opened Text

  const GCS_BUCKET_URL: string := "https://storage.googleapis.com/ajay-portfolio-assets"

  const IMAGES_PREFIX: string := "images/"

  /** The object name `getImageUrl` builds: the path without one leading `/`,
      under `images/` unless it is there already. */
  function ObjectKey(path: string): (key: string)
    ensures StartsWith(key, IMAGES_PREFIX)
    ensures var clean := if StartsWith(path, "/") then path[1..] else path;
      && (key == clean || key == IMAGES_PREFIX + clean)
      && (StartsWith(clean, IMAGES_PREFIX) <==> key == clean)
  {
    var cleanPath := if StartsWith(path, "/") then path[1..] else path;
    if StartsWith(cleanPath, IMAGES_PREFIX) then cleanPath else IMAGES_PREFIX + cleanPath
  }

  /** `getImageUrl(path)`. */
  function GetImageUrl(path: string): (url: string)
    ensures StartsWith(url, GetBucketUrl() + "/")
    ensures url[|GetBucketUrl()| + 1..] == ObjectKey(path)
  {
    GCS_BUCKET_URL + "/" + ObjectKey(path)
  }

  /** `getImageUrls(paths)`: `paths.map(getImageUrl)`. */
  function GetImageUrls(paths: seq<string>): (urls: seq<string>)
    ensures |urls| == |paths|
    ensures forall i :: 0 <= i < |paths| ==> urls[i] == GetImageUrl(paths[i])
  {
    seq(|paths|, i requires 0 <= i < |paths| => GetImageUrl(paths[i]))
  }

  /** `getBucketUrl()`. */
  function GetBucketUrl(): string {
    GCS_BUCKET_URL
  }

  lemma ConcatStartsWith(prefix: string, rest: string)
    ensures StartsWith(prefix + rest, prefix)
    ensures (prefix + rest)[|prefix|..] == rest
  {
    assert (prefix + rest)[..|prefix|] == prefix;
  }

  /** The URL names the object: two paths give the same URL exactly when they
      give the same object key. */
  lemma SameUrlSameKey(path1: string, path2: string)
    ensures GetImageUrl(path1) == GetImageUrl(path2) <==> ObjectKey(path1) == ObjectKey(path2)
  {
    if GetImageUrl(path1) == GetImageUrl(path2) {
      assert ObjectKey(path1) == GetImageUrl(path1)[|GetBucketUrl()| + 1..];
    }
  }

  /** One leading slash makes no difference. */
  lemma LeadingSlashIgnored(path: string)
    requires !StartsWith(path, "/")
    ensures GetImageUrl("/" + path) == GetImageUrl(path)
  {
    ConcatStartsWith("/", path);
  }

  /** Only one slash is removed: a second one stays in the object key. */
  lemma OnlyOneSlashRemoved(path: string)
    ensures ObjectKey("//" + path) == IMAGES_PREFIX + "/" + path
  {
    assert "//" + path == "/" + ("/" + path);
    ConcatStartsWith("/", "/" + path);
    assert !StartsWith("/" + path, IMAGES_PREFIX) by {
      assert ("/" + path)[0] == '/' != IMAGES_PREFIX[0];
    }
  }

  /** A path already under `images/` is not prefixed a second time. */
  lemma ImagesPrefixNotDoubled(path: string)
    requires !StartsWith(path, IMAGES_PREFIX) && !StartsWith(path, "/")
    ensures GetImageUrl(IMAGES_PREFIX + path) == GetImageUrl(path)
  {
    ConcatStartsWith(IMAGES_PREFIX, path);
    assert !StartsWith(IMAGES_PREFIX + path, "/") by {
      assert (IMAGES_PREFIX + path)[0] == 'i';
    }
  }

  /** Building the URL of an object key gives the same URL again. */
  lemma ObjectKeyFixed(path: string)
    ensures ObjectKey(ObjectKey(path)) == ObjectKey(path)
    ensures GetImageUrl(ObjectKey(path)) == GetImageUrl(path)
  {
    var key := ObjectKey(path);
    assert !StartsWith(key, "/") by {
      assert key[..|IMAGES_PREFIX|] == IMAGES_PREFIX;
      assert key[0] == 'i';
    }
  }

  /** The list version maps over its input: lists built piecewise give the
      URLs of the pieces, in order. */
  lemma GetImageUrlsAppend(a: seq<string>, b: seq<string>)
    ensures GetImageUrls(a + b) == GetImageUrls(a) + GetImageUrls(b)
  {
    var whole, left, right := GetImageUrls(a + b), GetImageUrls(a), GetImageUrls(b);
    assert |whole| == |left + right|;
    forall i | 0 <= i < |whole| ensures whole[i] == (left + right)[i] {
      if i < |a| {
        assert (a + b)[i] == a[i];
      } else {
        assert (a + b)[i] == b[i - |a|];
      }
    }
  }
}
