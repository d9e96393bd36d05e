/** The timeline image upload script: the content type chosen from a file
    name's extension, and the loop that uploads each image and counts
    successes and failures. */
module TimelineUpload {

  const UPLOAD_DIR: string := "public/timeline"
  const CACHE_CONTROL: string := "public, max-age=31536000"
  const DEFAULT_CONTENT_TYPE: string := "application/octet-stream"

  /** The lookup table of `getContentType`, keyed by lower-case extension. */
  const CONTENT_TYPES: map<string, string> := map[
    ".jpg" := "image/jpeg",
    ".jpeg" := "image/jpeg",
    ".png" := "image/png",
    ".gif" := "image/gif",
    ".webp" := "image/webp"
  ]

  /** The one listed image whose extension is written in capitals. */
  const UPPER_CASE_IMAGE: string := "IMG_2331_1756789866665" + ".JPG"

  const TIMELINE_IMAGES: seq<string> := [
    "20250515_110951(0) (1)_1756775594777.jpg",
    "IMG_2329-EDIT_1756777352943.jpg",
    "20241023_132525_1756776021189.jpg",
    "20240427_120651_1756788379977.jpg",
    "IMG_20180811_194748_1756789697281.jpg",
    "IMG-20191110-WA0025_1756789697282.jpg",
    "Screenshot_20180831-101808__01_1756789720602.jpg",
    "20210521_131718_1756788953660.jpg",
    "IMG_20190509_180536_1756789644236.jpg",
    "IMG-20190908-WA0038_1756789644237.jpg",
    "IMG_20161106_212705_1756789364617.jpg",
    "IMG_20161030_232457_1756789364618.jpg",
    "Screenshot_20181124-163448__01_1756789364618.jpg",
    "IMG_20160620_123802_1756789570118.jpg",
    UPPER_CASE_IMAGE,
    "20241025_152323_1756776021189.jpg",
    "20240508_203952_1756776021190.jpg",
    "20231215_095639_1756775804398.jpg",
    "IMG-20220807-WA0018_1756776767995.jpg",
    "20220805_214208_1756776778383.jpg",
    "IMG_1219_1756777552748.jpg",
    "20240424_161717_1756780061878.jpg",
    "Screenshot_20190129-080233_1756780061880.jpg",
    "Generated Image September 01, 2025 - 10_25PM (1)_1756780361828.jpeg",
    "IMG-20191122-WA0013_1756780506778.jpg",
    "IMG-20181105-WA0008_1756780506780.jpg",
    "IMG-20200111-WA0007_1756780521102.jpg",
    "20210521_213843_1756780555219.jpg",
    "IMG_20170820_163622_1756780825081.jpg",
    "IMG-20170814-WA0017_1756780825082.jpg",
    "IMG-20170814-WA0013_1756780825082.jpg",
    "IMG-20170811-WA0004_1756789814799.jpg"
  ]

  /** The index of the last `c` in `s`, or -1. */
  function LastIndexOf(s: string, c: char): (r: int)
    ensures -1 <= r < |s|
    ensures r >= 0 ==> s[r] == c
    ensures forall j :: r < j < |s| ==> s[j] != c
  {
    if |s| == 0 then -1
    else if s[|s| - 1] == c then |s| - 1
    else LastIndexOf(s[..|s| - 1], c)
  }

  /** `p` without its trailing slashes. */
  function TrimTrailingSlashes(p: string): (r: string)
    ensures |r| <= |p| && r == p[..|r|]
    ensures |r| == 0 || r[|r| - 1] != '/'
  {
    if |p| > 0 && p[|p| - 1] == '/' then TrimTrailingSlashes(p[..|p| - 1]) else p
  }

  /** The last component of a POSIX path, trailing slashes ignored. */
  function Basename(p: string): (b: string)
    ensures '/' !in b
  {
    var t := TrimTrailingSlashes(p);
    t[LastIndexOf(t, '/') + 1..]
  }

  /** Node's POSIX `path.extname(p)`: from the last `.` of the last component
      to its end, except that a component whose only `.` leads it (`.bashrc`),
      that has no `.`, or that is `..` has no extension. */
  function Extname(p: string): (ext: string)
    ensures ext == "" || (ext[0] == '.' && '.' !in ext[1..] && '/' !in ext)
  {
    var b := Basename(p);
    var d := LastIndexOf(b, '.');
    if d <= 0 || (|b| == 2 && b[0] == '.' && b[1] == '.') then ""
    else
      assert forall c :: c in b[d..][1..] ==> c in b[d + 1..];
      b[d..]
  }

  /** `toLowerCase()` on the letters A to Z; other characters are kept. */
  function LowerAscii(s: string): (r: string)
    ensures |r| == |s|
  {
    seq(|s|, i requires 0 <= i < |s| => if 'A' <= s[i] <= 'Z' then (s[i] as int + 32) as char else s[i])
  }

  /** `getContentType(filename)`. */
  function ContentType(filename: string): (contentType: string)
    ensures contentType == DEFAULT_CONTENT_TYPE || contentType in CONTENT_TYPES.Values
  {
    var ext := LowerAscii(Extname(filename));
    if ext in CONTENT_TYPES then CONTENT_TYPES[ext] else DEFAULT_CONTENT_TYPE
  }

  /** The lookup `contentTypes[ext] || "application/octet-stream"` on a
      lower-case extension, read entry by entry. */
  lemma TableLookup(ext: string)
    ensures var t := if ext in CONTENT_TYPES then CONTENT_TYPES[ext] else DEFAULT_CONTENT_TYPE;
      && (t == "image/jpeg" <==> ext == ".jpg" || ext == ".jpeg")
      && (t == "image/png" <==> ext == ".png")
      && (t == "image/gif" <==> ext == ".gif")
      && (t == "image/webp" <==> ext == ".webp")
      && (t == DEFAULT_CONTENT_TYPE <==> ext !in CONTENT_TYPES)
  {
    assert CONTENT_TYPES.Keys == {".jpg", ".jpeg", ".png", ".gif", ".webp"};
  }

  /** The table as the source lists it: each type and the extensions that give it. */
  lemma ContentTypeTable(filename: string)
    ensures var ext := LowerAscii(Extname(filename));
      && (ContentType(filename) == "image/jpeg" <==> ext == ".jpg" || ext == ".jpeg")
      && (ContentType(filename) == "image/png" <==> ext == ".png")
      && (ContentType(filename) == "image/gif" <==> ext == ".gif")
      && (ContentType(filename) == "image/webp" <==> ext == ".webp")
      && (ContentType(filename) == DEFAULT_CONTENT_TYPE <==> ext !in CONTENT_TYPES)
  {
    TableLookup(LowerAscii(Extname(filename)));
  }

  /** The last `c` of `s` is at `k` when `s[k]` is one and none follows. */
  lemma LastIndexOfAt(s: string, c: char, k: nat)
    requires k < |s| && s[k] == c
    requires forall j :: k < j < |s| ==> s[j] != c
    ensures LastIndexOf(s, c) == k
  {
  }

  /** A name without a slash is its own last component. */
  lemma PlainBasename(p: string)
    requires '/' !in p
    ensures Basename(p) == p
  {
    assert TrimTrailingSlashes(p) == p;
    assert LastIndexOf(p, '/') == -1;
  }

  /** The extension of a name without a slash runs from its last dot, when
      that dot is neither its first character nor part of `..`. */
  lemma ExtnameAt(p: string, d: nat)
    requires '/' !in p && 0 < d < |p| && |p| != 2
    requires LastIndexOf(p, '.') == d
    ensures Extname(p) == p[d..]
  {
    PlainBasename(p);
  }

  /** A name ending in an extension (a dot, then neither dot nor slash) has
      exactly that extension: only the last one counts. */
  lemma ExtnameOfSuffix(stem: string, ext: string)
    requires |stem| > 0 && '/' !in stem
    requires |ext| > 1 && ext[0] == '.' && '.' !in ext[1..] && '/' !in ext
    ensures Extname(stem + ext) == ext
  {
    var p := stem + ext;
    assert '/' !in p;
    forall j | |stem| < j < |p| ensures p[j] != '.' {
      assert p[j] == ext[1..][j - |stem| - 1];
    }
    LastIndexOfAt(p, '.', |stem|);
    ExtnameAt(p, |stem|);
    assert p[|stem|..] == ext;
  }

  /** The lower-case JPEG extension is its own lower-case form and is in the table. */
  lemma JpgExtension()
    ensures LowerAscii(".jpg") == ".jpg"
    ensures ".jpg" in CONTENT_TYPES && CONTENT_TYPES[".jpg"] == "image/jpeg"
  {
    assert LowerAscii(".jpg")[1] == 'j';
  }

  /** A name ending in `.jpg` is a JPEG whatever comes before. */
  lemma JpgSuffix(stem: string)
    requires |stem| > 0 && '/' !in stem
    ensures ContentType(stem + ".jpg") == "image/jpeg"
  {
    ExtnameOfSuffix(stem, ".jpg");
    JpgExtension();
  }

  /** `a.png.jpg` is a JPEG: the earlier `.png` plays no part. */
  lemma LastExtensionCounts()
    ensures ContentType("a.png.jpg") == "image/jpeg"
  {
    assert "a.png.jpg" == "a.png" + ".jpg";
    JpgSuffix("a.png");
  }

  /** Lower-casing twice is lower-casing once. */
  lemma LowerAsciiIdempotent(s: string)
    ensures LowerAscii(LowerAscii(s)) == LowerAscii(s)
  {
  }

  /** The extension is lower-cased before the lookup, so the case of its
      letters does not matter. */
  lemma ExtensionCaseIgnored(stem: string, ext: string)
    requires |stem| > 0 && '/' !in stem
    requires |ext| > 1 && ext[0] == '.' && '.' !in ext[1..] && '/' !in ext
    ensures ContentType(stem + ext) == ContentType(stem + LowerAscii(ext))
  {
    var lower := LowerAscii(ext);
    assert lower[0] == '.';
    forall j | 0 <= j < |lower| ensures lower[j] != '/' && (j > 0 ==> lower[j] != '.') {
      assert ext[j] != '/' && (j > 0 ==> ext[j] == ext[1..][j - 1]);
    }
    assert '.' !in lower[1..] by {
      forall j | 0 <= j < |lower| - 1 ensures lower[1..][j] != '.' {
        assert lower[1..][j] == lower[j + 1];
      }
    }
    ExtnameOfSuffix(stem, ext);
    ExtnameOfSuffix(stem, lower);
    LowerAsciiIdempotent(ext);
  }

  /** A name whose extension lower-cases to a key of the table gets that
      key's type, whatever the case of the extension's letters. */
  lemma LowersToKey(stem: string, ext: string, key: string)
    requires |stem| > 0 && '/' !in stem
    requires |ext| > 1 && ext[0] == '.' && '.' !in ext[1..] && '/' !in ext
    requires LowerAscii(ext) == key && key in CONTENT_TYPES
    ensures ContentType(stem + ext) == CONTENT_TYPES[key]
  {
    ExtnameOfSuffix(stem, ext);
  }

  /** The upper-case forms of the table's extensions lower to its keys. */
  lemma UpperCaseKeys()
    ensures LowerAscii(".JPG") == ".jpg" && LowerAscii(".JPEG") == ".jpeg"
    ensures LowerAscii(".PNG") == ".png" && LowerAscii(".GIF") == ".gif"
    ensures LowerAscii(".WEBP") == ".webp"
  {
    var jpg, jpeg, png, gif, webp := LowerAscii(".JPG"), LowerAscii(".JPEG"), LowerAscii(".PNG"), LowerAscii(".GIF"), LowerAscii(".WEBP");
    assert jpg[0] == '.' && jpg[1] == 'j' && jpg[2] == 'p' && jpg[3] == 'g';
    assert jpeg[0] == '.' && jpeg[1] == 'j' && jpeg[2] == 'p' && jpeg[3] == 'e' && jpeg[4] == 'g';
    assert png[0] == '.' && png[1] == 'p' && png[2] == 'n' && png[3] == 'g';
    assert gif[0] == '.' && gif[1] == 'g' && gif[2] == 'i' && gif[3] == 'f';
    assert webp[0] == '.' && webp[1] == 'w' && webp[2] == 'e' && webp[3] == 'b' && webp[4] == 'p';
  }

  /** So the script's one upper-case `.JPG` image is uploaded as a JPEG. */
  lemma UpperCaseJpg(stem: string)
    requires |stem| > 0 && '/' !in stem
    ensures ContentType(stem + ".JPG") == "image/jpeg"
  {
    UpperCaseKeys();
    LowersToKey(stem, ".JPG", ".jpg");
  }

  lemma TimelineJpgImage()
    ensures UPPER_CASE_IMAGE in TIMELINE_IMAGES
    ensures ContentType(UPPER_CASE_IMAGE) == "image/jpeg"
  {
    assert TIMELINE_IMAGES[14] == UPPER_CASE_IMAGE;
    UpperCaseJpg("IMG_2331_1756789866665");
  }

  lemma NoExtensionIsGeneric(p: string)
    requires Extname(p) == ""
    ensures ContentType(p) == DEFAULT_CONTENT_TYPE
  {
    assert LowerAscii("") == "";
  }

  /** A name without a `.` gets the generic type. */
  lemma NoDotIsGeneric(name: string)
    requires '.' !in name && '/' !in name
    ensures ContentType(name) == DEFAULT_CONTENT_TYPE
  {
    PlainBasename(name);
    assert LastIndexOf(name, '.') == -1;
    NoExtensionIsGeneric(name);
  }

  /** A dot file such as `.png` has no extension and gets the generic type. */
  lemma DotFileIsGeneric(tail: string)
    requires '.' !in tail && '/' !in tail
    ensures ContentType("." + tail) == DEFAULT_CONTENT_TYPE
  {
    var p := "." + tail;
    assert '/' !in p;
    PlainBasename(p);
    forall j | 0 < j < |p| ensures p[j] != '.' {
      assert p[j] == tail[j - 1];
    }
    LastIndexOfAt(p, '.', 0);
    NoExtensionIsGeneric(p);
  }

  /** What `bucket.upload` is asked to do for one image. */
  datatype UploadRequest = UploadRequest(imageName: string, destination: string, contentType: string, cacheControl: string)

  /** The request made for one image: stored under the upload directory with
      the content type of its name and a one-year cache. */
  function RequestFor(imageName: string): UploadRequest {
    UploadRequest(imageName, UPLOAD_DIR + "/" + imageName, ContentType(imageName), CACHE_CONTROL)
  }

  /** The images whose upload is attempted, in list order: those found on
      disk (`present`). */
  function Attempted(images: seq<string>, present: string -> bool): (names: seq<string>)
    ensures |names| <= |images|
  {
    if |images| == 0 then []
    else
      var n := |images| - 1;
      Attempted(images[..n], present) + (if present(images[n]) then [images[n]] else [])
  }

  /** The requests for `names`, in order. */
  function Requests(names: seq<string>): (requests: seq<UploadRequest>)
    ensures |requests| == |names|
  {
    seq(|names|, i requires 0 <= i < |names| => RequestFor(names[i]))
  }

  lemma RequestsSnoc(names: seq<string>, name: string)
    ensures Requests(names + [name]) == Requests(names) + [RequestFor(name)]
  {
  }

  /** How many of those uploads complete; `accepted` says whether the bucket
      completes the upload of an image's request (the request is determined
      by the image name). */
  function Successes(images: seq<string>, present: string -> bool, accepted: string -> bool): (count: nat)
    ensures count <= |Attempted(images, present)|
  {
    if |images| == 0 then 0
    else
      var n := |images| - 1;
      Successes(images[..n], present, accepted)
        + (if present(images[n]) && accepted(images[n]) then 1 else 0)
  }

  /** The loop of `uploadImages` over `images`: a missing file or a rejected
      upload counts as a failure, a completed upload as a success. */
  method UploadEach(images: seq<string>, present: string -> bool, accepted: string -> bool)
    returns (successCount: nat, failCount: nat, requests: seq<UploadRequest>)
    ensures successCount + failCount == |images|
    ensures successCount == Successes(images, present, accepted)
    ensures requests == Requests(Attempted(images, present))
  {
    successCount, failCount, requests := 0, 0, [];
    for i := 0 to |images|
      invariant successCount + failCount == i
      invariant successCount == Successes(images[..i], present, accepted)
      invariant requests == Requests(Attempted(images[..i], present))
    {
      var imageName := images[i];
      assert images[..i + 1][..i] == images[..i];
      if !present(imageName) {
        failCount := failCount + 1;
        continue;
      }
      var request := RequestFor(imageName);
      RequestsSnoc(Attempted(images[..i], present), imageName);
      requests := requests + [request];
      if accepted(imageName) {
        successCount := successCount + 1;
      } else {
        failCount := failCount + 1;
      }
    }
    assert images[..|images|] == images;
  }

  /** `uploadImages()`: the loop over the script's image list. */
  method UploadImages(present: string -> bool, accepted: string -> bool)
    returns (successCount: nat, failCount: nat, requests: seq<UploadRequest>)
    ensures successCount + failCount == |TIMELINE_IMAGES|
    ensures successCount == Successes(TIMELINE_IMAGES, present, accepted)
    ensures requests == Requests(Attempted(TIMELINE_IMAGES, present))
  {
    successCount, failCount, requests := UploadEach(TIMELINE_IMAGES, present, accepted);
  }

  /** An image's upload is attempted exactly when it is in the list and found
      on disk, and the attempts follow the list's order. */
  lemma {:induction false} AttemptedImages(images: seq<string>, present: string -> bool, name: string)
    ensures name in Attempted(images, present) <==> name in images && present(name)
  {
    if |images| > 0 {
      var n := |images| - 1;
      AttemptedImages(images[..n], present, name);
      assert images == images[..n] + [images[n]];
    }
  }

  /** When every file is there and every upload completes, all images count
      as successes. */
  lemma {:induction false} AllUploaded(images: seq<string>, present: string -> bool, accepted: string -> bool)
    requires forall i :: 0 <= i < |images| ==> present(images[i]) && accepted(images[i])
    ensures Successes(images, present, accepted) == |images|
  {
    if |images| > 0 {
      var n := |images| - 1;
      assert forall i :: 0 <= i < n ==> images[..n][i] == images[i];
      AllUploaded(images[..n], present, accepted);
    }
  }
}
