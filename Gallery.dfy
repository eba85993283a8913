/**
  The gallery image listing (src/lib/gallery.ts): the file names of the
  gallery directory are filtered down to images by extension and turned
  into public URL paths. The directory read itself is an input.
 */
module Gallery {

  /** What reading the gallery directory gave: its file names, or an error. */
  datatype DirectoryRead = Listed(filenames: seq<string>) | ReadError

  /** The extensions the image filter accepts, lower-case. */
  const ImageExtensions: seq<string> := ["jpg", "jpeg", "png", "gif", "webp", "svg"]

  const GalleryUrlPrefix: string := "/gallery-images/"

  /**
    The case folding the `i` flag applies to these letters: only ASCII
    letters fold onto ASCII letters in a non-Unicode JavaScript regex.
   */
  function LowerAscii(c: char): char
  {
    if 'A' <= c <= 'Z' then (c as int - 'A' as int + 'a' as int) as char else c
  }

  function LowerAsciiString(s: string): (r: string)
    ensures |r| == |s|
    ensures forall k :: 0 <= k < |s| ==> r[k] == LowerAscii(s[k])
  {
    seq(|s|, k requires 0 <= k < |s| => LowerAscii(s[k]))
  }

  /**
    What the `i` flag compares: a text lower-cases to a lower-case word of
    ASCII letters exactly when each of its characters is that word's letter
    or the letter's ASCII capital.
   */
  lemma LowerAsciiStringMatchesIgnoringCase(s: string, e: string)
    requires |s| == |e|
    requires forall k :: 0 <= k < |e| ==> 'a' <= e[k] <= 'z'
    ensures LowerAsciiString(s) == e <==>
      forall k :: 0 <= k < |s| ==> s[k] == e[k] || s[k] as int == e[k] as int - 32
  {
    if forall k :: 0 <= k < |s| ==> s[k] == e[k] || s[k] as int == e[k] as int - 32 {
      forall k | 0 <= k < |s|
        ensures LowerAsciiString(s)[k] == e[k]
      {
      }
    }
  }

  /** `name` ends with "." followed by `ext`, letters compared without case. */
  predicate EndsWithExtension(name: string, ext: string)
  {
    && |name| > |ext|
    && name[|name| - |ext| - 1] == '.'
    && LowerAsciiString(name[|name| - |ext|..]) == ext
  }

  /** The regex test of the filter. */
  predicate IsImageFile(name: string)
  {
    exists k :: 0 <= k < |ImageExtensions| && EndsWithExtension(name, ImageExtensions[k])
  }

  // ---------------------------------------------------------------------
  // An independent reading of the filter: the text after the last dot
  // ---------------------------------------------------------------------

  /** The index of the last '.', or -1. */
  function LastDot(s: string): (r: int)
    ensures -1 <= r < |s|
    ensures r >= 0 ==> s[r] == '.' && forall k :: r < k < |s| ==> s[k] != '.'
    ensures r == -1 ==> forall k :: 0 <= k < |s| ==> s[k] != '.'
  {
    if s == [] then -1
    else if s[|s| - 1] == '.' then |s| - 1
    else LastDot(s[..|s| - 1])
  }

  /** The extension after the last dot, lower-cased, is one of the image extensions. */
  predicate HasImageExtensionAfterLastDot(name: string)
  {
    var d := LastDot(name);
    d >= 0 && LowerAsciiString(name[d + 1..]) in ImageExtensions
  }

  lemma ExtensionsHaveNoDot()
    ensures forall k, j :: 0 <= k < |ImageExtensions| && 0 <= j < |ImageExtensions[k]| ==> ImageExtensions[k][j] != '.'
  {
    forall k, j | 0 <= k < |ImageExtensions| && 0 <= j < |ImageExtensions[k]|
      ensures ImageExtensions[k][j] != '.'
    {
      if k == 0 { assert ImageExtensions[k] == "jpg"; }
      else if k == 1 { assert ImageExtensions[k] == "jpeg"; }
      else if k == 2 { assert ImageExtensions[k] == "png"; }
      else if k == 3 { assert ImageExtensions[k] == "gif"; }
      else if k == 4 { assert ImageExtensions[k] == "webp"; }
      else { assert ImageExtensions[k] == "svg"; }
    }
  }

  /** A name ending in "." and an image extension has its last dot right before that extension. */
  lemma LastDotBeforeImageExtension(name: string, k: nat)
    requires k < |ImageExtensions| && EndsWithExtension(name, ImageExtensions[k])
    ensures LastDot(name) == |name| - |ImageExtensions[k]| - 1
    ensures HasImageExtensionAfterLastDot(name)
  {
    ExtensionsHaveNoDot();
    var e := ImageExtensions[k];
    var p := |name| - |e| - 1;
    forall j | p < j < |name|
      ensures name[j] != '.'
    {
      assert LowerAsciiString(name[p + 1..])[j - p - 1] == e[j - p - 1];
    }
    assert LastDot(name) == p;
    assert ImageExtensions[k] in ImageExtensions;
  }

  /** A name whose text after the last dot lower-cases to image extension k ends in "." and that extension. */
  lemma ImageExtensionIndex(name: string) returns (k: nat)
    requires HasImageExtensionAfterLastDot(name)
    ensures k < |ImageExtensions| && EndsWithExtension(name, ImageExtensions[k])
  {
    var d := LastDot(name);
    var e := LowerAsciiString(name[d + 1..]);
    k :| 0 <= k < |ImageExtensions| && ImageExtensions[k] == e;
    assert name[|name| - |e|..] == name[d + 1..];
  }

  /** The regex accepts a name exactly when its last extension, lower-cased, is an image extension. */
  lemma ImageFileIffLastExtension(name: string)
    ensures IsImageFile(name) <==> HasImageExtensionAfterLastDot(name)
  {
    if IsImageFile(name) {
      var k :| 0 <= k < |ImageExtensions| && EndsWithExtension(name, ImageExtensions[k]);
      LastDotBeforeImageExtension(name, k);
    }
    if HasImageExtensionAfterLastDot(name) {
      var k := ImageExtensionIndex(name);
    }
  }

  // ---------------------------------------------------------------------
  // The listing
  // ---------------------------------------------------------------------

  /** filenames.filter(regex test), in input order. */
  function ImageFiles(names: seq<string>): (kept: seq<string>)
    ensures |kept| <= |names|
    ensures forall f :: f in kept <==> f in names && IsImageFile(f)
    ensures forall k :: 0 <= k < |kept| ==> IsImageFile(kept[k])
  {
    if names == [] then []
    else (if IsImageFile(names[0]) then [names[0]] else []) + ImageFiles(names[1..])
  }

  /** The filter works piecewise, so it keeps the input order. */
  lemma {:induction false} ImageFilesOfConcat(a: seq<string>, b: seq<string>)
    ensures ImageFiles(a + b) == ImageFiles(a) + ImageFiles(b)
  {
    if a == [] {
      assert a + b == b;
    } else {
      assert (a + b)[0] == a[0];
      assert (a + b)[1..] == a[1..] + b;
      ImageFilesOfConcat(a[1..], b);
    }
  }

  /** getGalleryImagePaths: the URL path of every image file; nothing when the directory read fails. */
  function GalleryImagePaths(read: DirectoryRead): (paths: seq<string>)
    ensures read.ReadError? ==> paths == []
    ensures read.Listed? ==> |paths| <= |read.filenames|
    ensures forall k :: 0 <= k < |paths| ==>
      |paths[k]| > |GalleryUrlPrefix| && paths[k][..|GalleryUrlPrefix|] == GalleryUrlPrefix
  {
    match read
    case ReadError => []
    case Listed(filenames) =>
      var imageFiles := ImageFiles(filenames);
      seq(|imageFiles|, k requires 0 <= k < |imageFiles| => GalleryUrlPrefix + imageFiles[k])
  }

  /** Dropping the URL prefix from each path gives back the kept file names, in order. */
  lemma StripPrefixRecoversImageFiles(filenames: seq<string>)
    ensures var paths := GalleryImagePaths(Listed(filenames));
      |paths| == |ImageFiles(filenames)| &&
      forall k :: 0 <= k < |paths| ==> paths[k][|GalleryUrlPrefix|..] == ImageFiles(filenames)[k]
  {
    var paths := GalleryImagePaths(Listed(filenames));
    forall k | 0 <= k < |paths|
      ensures paths[k][|GalleryUrlPrefix|..] == ImageFiles(filenames)[k]
    {
      assert paths[k] == GalleryUrlPrefix + ImageFiles(filenames)[k];
    }
  }

  /** A path is listed exactly when it is the prefix followed by the name of an image file in the directory. */
  lemma GalleryPathMembership(filenames: seq<string>, f: string)
    ensures GalleryUrlPrefix + f in GalleryImagePaths(Listed(filenames)) <==> f in filenames && IsImageFile(f)
  {
    var paths := GalleryImagePaths(Listed(filenames));
    var files := ImageFiles(filenames);
    if GalleryUrlPrefix + f in paths {
      var k :| 0 <= k < |paths| && paths[k] == GalleryUrlPrefix + f;
      assert paths[k][|GalleryUrlPrefix|..] == f;
      assert paths[k][|GalleryUrlPrefix|..] == files[k];
    }
    if f in filenames && IsImageFile(f) {
      var k :| 0 <= k < |files| && files[k] == f;
      assert paths[k] == GalleryUrlPrefix + f;
    }
  }

  /** Names the filter keeps and drops. */
  lemma FilterExamples()
    ensures IsImageFile("photo.JPG")
    ensures IsImageFile(".png")
    ensures !IsImageFile(".DS_Store")
    ensures !IsImageFile("photo.png.bak")
  {
    assert EndsWithExtension("photo.JPG", ImageExtensions[0]);
    assert EndsWithExtension(".png", ImageExtensions[2]);
    forall k | 0 <= k < |ImageExtensions|
      ensures !EndsWithExtension(".DS_Store", ImageExtensions[k])
      ensures !EndsWithExtension("photo.png.bak", ImageExtensions[k])
    {
      assert LowerAsciiString("photo.png.bak"[10..])[0] == 'b';
    }
  }
}
