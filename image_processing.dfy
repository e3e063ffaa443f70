/**
 * Upload pre-check and resize geometry (app/utils/image_processing.py).
 *
 * An image is seen through its width, height and channel mode only: the
 * pixels, the RGB conversion itself and the LANCZOS resampling are library
 * work that does not change the geometry computed here.
 */
module ImageProcessing {
  import opened Wrappers

  /** Longest side, in pixels, an image may have before it is shrunk. */
  const MaxDimension: nat := 1920

  /** Extensions accepted by ValidateImage, compared after lower-casing. */
  const AllowedExtensions: set<string> := {".jpg", ".jpeg", ".png", ".bmp", ".tiff", ".webp"}

  /** The channel mode the detector is given. */
  const Rgb: string := "RGB"

  /** A decoded image: its size and its channel mode ("RGB", "RGBA", "L", "P", ...). */
  datatype Image = Image(width: nat, height: nat, mode: string)

  // ---------------------------------------------------------------------
  // validate_image
  // ---------------------------------------------------------------------

  /** `str.rfind` for one character: the last index of `c` in `s`, or -1. */
  function RFind(s: string, c: char): (r: int)
    ensures -1 <= r < |s|
    ensures r >= 0 ==> s[r] == c
    ensures forall k :: r < k < |s| ==> s[k] != c
  {
    if |s| == 0 then -1
    else if s[|s| - 1] == c then |s| - 1
    else RFind(s[..|s| - 1], c)
  }

  /**
   * `os.path.splitext` on a POSIX path: the extension starts at the last dot
   * of the final path component, unless everything before that dot in the
   * component is dots ("a/.png" and "..png" have no extension).
   */
  function SplitExt(p: string): (parts: (string, string))
    ensures parts.0 + parts.1 == p
    ensures parts.1 != [] ==> parts.1[0] == '.' && '.' !in parts.1[1..] && '/' !in parts.1
    ensures parts.1 != [] ==> HasNonDot(p, RFind(p, '/') + 1, |parts.0|)
  {
    var sep := RFind(p, '/');
    var dot := RFind(p, '.');
    if dot > sep && HasNonDot(p, sep + 1, dot) then
      assert p[..dot] + p[dot..] == p;
      (p[..dot], p[dot..])
    else
      (p, [])
  }

  /**
   * Conversely, a dot in the final path component with a non-dot somewhere
   * between the component's start and it always yields an extension.
   */
  lemma SplitExtFindsDot(p: string, d: int)
    requires RFind(p, '/') < d < |p| && p[d] == '.'
    requires HasNonDot(p, RFind(p, '/') + 1, d)
    ensures SplitExt(p).1 != []
    ensures |SplitExt(p).0| >= d
  {
    var sep, dot := RFind(p, '/'), RFind(p, '.');
    assert d <= dot;
    var k :| sep + 1 <= k < d && p[k] != '.';
    assert HasNonDot(p, sep + 1, dot);
  }

  /** Some character of `p[from..to]` is not a dot. */
  predicate HasNonDot(p: string, from: int, to: int)
    requires 0 <= from && to <= |p|
  {
    exists k | from <= k < to :: p[k] != '.'
  }

  /** The extension `os.path.splitext` reports, dot included, or "". */
  function Extension(p: string): string {
    SplitExt(p).1
  }

  /** `str.lower` on one character, for the ASCII letters. */
  function LowerChar(c: char): char {
    if 'A' <= c <= 'Z' then (c as int + 32) as char else c
  }

  /** `str.lower`, for the ASCII letters. */
  function Lower(s: string): string {
    seq(|s|, i requires 0 <= i < |s| => LowerChar(s[i]))
  }

  /**
   * validate_image: the upload is accepted when it has a non-empty filename
   * whose lower-cased extension is allowed and a content type that starts
   * with "image/". The checks run in that order.
   */
  function ValidateImage(filename: Option<string>, contentType: Option<string>): bool {
    if filename.None? || filename.value == "" then false
    else if Lower(Extension(filename.value)) !in AllowedExtensions then false
    else if contentType.None? || contentType.value == "" || !("image/" <= contentType.value) then false
    else true
  }

  /** The name is missing or empty, so the upload is refused whatever its content type. */
  lemma ValidateImageNeedsFilename(filename: Option<string>, contentType: Option<string>)
    requires filename.None? || filename.value == ""
    ensures !ValidateImage(filename, contentType)
  {
  }

  /** validate_image accepts exactly when all three checks pass. */
  lemma ValidateImageIff(filename: Option<string>, contentType: Option<string>)
    ensures ValidateImage(filename, contentType) <==>
      && filename.Some? && |filename.value| > 0
      && Lower(Extension(filename.value)) in AllowedExtensions
      && contentType.Some? && "image/" <= contentType.value
  {
  }

  lemma LowerSlice(s: string, i: nat, j: nat)
    requires i <= j <= |s|
    ensures Lower(s)[i..j] == Lower(s[i..j])
  {
  }

  /** Lower-casing does not move a dot or a slash. */
  lemma {:induction false} RFindLower(s: string, c: char)
    requires c == '.' || c == '/'
    ensures RFind(Lower(s), c) == RFind(s, c)
  {
    if |s| > 0 {
      LowerSlice(s, 0, |s| - 1);
      RFindLower(s[..|s| - 1], c);
    }
  }

  /** Lower-casing keeps dots and non-dots apart. */
  lemma HasNonDotLower(p: string, from: int, to: int)
    requires 0 <= from && to <= |p|
    ensures HasNonDot(Lower(p), from, to) == HasNonDot(p, from, to)
  {
    if HasNonDot(p, from, to) {
      var k :| from <= k < to && p[k] != '.';
      assert Lower(p)[k] != '.';
    }
    if HasNonDot(Lower(p), from, to) {
      var k :| from <= k < to && Lower(p)[k] != '.';
      assert p[k] != '.';
    }
  }

  /** The extension of a lower-cased name is the lower-cased extension. */
  lemma ExtensionLower(p: string)
    ensures Extension(Lower(p)) == Lower(Extension(p))
  {
    RFindLower(p, '/');
    RFindLower(p, '.');
    var sep, dot := RFind(p, '/'), RFind(p, '.');
    if dot > sep {
      HasNonDotLower(p, sep + 1, dot);
      LowerSlice(p, dot, |p|);
    }
  }

  lemma LowerIdempotent(s: string)
    ensures Lower(Lower(s)) == Lower(s)
  {
  }

  /**
   * The extension check is case-insensitive: a name is accepted exactly when
   * its lower-cased spelling is ("PHOTO.JPG" as well as "photo.jpg").
   */
  lemma ValidateImageCaseInsensitive(name: string, contentType: Option<string>)
    ensures ValidateImage(Some(name), contentType) == ValidateImage(Some(Lower(name)), contentType)
  {
    ExtensionLower(name);
    LowerIdempotent(Extension(name));
  }

  lemma {:induction false} RFindAppend(a: string, b: string, c: char)
    ensures RFind(a + b, c) == if c in b then |a| + RFind(b, c) else RFind(a, c)
  {
    if |b| > 0 {
      assert (a + b)[..|a + b| - 1] == a + b[..|b| - 1];
      RFindAppend(a, b[..|b| - 1], c);
      if b[|b| - 1] != c {
        assert c in b <==> c in b[..|b| - 1] by {
          assert b == b[..|b| - 1] + [b[|b| - 1]];
        }
      }
    } else {
      assert a + b == a;
    }
  }

  /**
   * A name with no slash whose part before its last dot holds a character
   * other than a dot has the extension that starts at that dot. The stem may
   * itself hold dots: only the last one counts ("archive.tar" + ".gz").
   */
  lemma ExtensionOfStem(stem: string, ext: string)
    requires '/' !in stem + ext
    requires exists k :: 0 <= k < |stem| && stem[k] != '.'
    requires |ext| > 0 && ext[0] == '.' && '.' !in ext[1..]
    ensures Extension(stem + ext) == ext
  {
    var p := stem + ext;
    assert ext == [ext[0]] + ext[1..];
    RFindAppend([ext[0]], ext[1..], '.');
    RFindAppend(stem, ext, '.');
    var k :| 0 <= k < |stem| && stem[k] != '.';
    assert p[k] != '.';
    assert HasNonDot(p, 0, |stem|);
    assert p[..|stem|] == stem && p[|stem|..] == ext;
  }

  /** A name with no slash made of dots followed by a part without a dot has no extension ( ".png", "..png", "noext"). */
  lemma ExtensionOfDotsOnly(dots: string, rest: string)
    requires forall k :: 0 <= k < |dots| ==> dots[k] == '.'
    requires '.' !in rest && '/' !in rest
    ensures Extension(dots + rest) == ""
  {
    var p := dots + rest;
    RFindAppend(dots, rest, '.');
    RFindAppend(dots, rest, '/');
  }

  /** A dot before the last slash does not start an extension ("dir.d/file"). */
  lemma ExtensionAfterSlash(dir: string, name: string)
    requires '.' !in name && '/' !in name
    ensures Extension(dir + "/" + name) == ""
  {
    RFindAppend(dir + "/", name, '.');
    RFindAppend(dir + "/", name, '/');
    RFindAppend(dir, "/", '/');
    RFindAppend(dir, "/", '.');
  }

  /** "photo.png" has extension ".png". */
  lemma ExtensionPhotoExample()
    ensures Extension("photo.png") == ".png"
  {
    var stem, ext := "photo", ".png";
    assert stem + ext == "photo.png" && stem[0] != '.';
    ExtensionOfStem(stem, ext);
  }

  /** A name made of leading dots only has no extension. */
  lemma ExtensionLeadingDotExamples()
    ensures Extension(".png") == ""
    ensures Extension("..png") == ""
  {
    assert Extension(".png") == "" by {
      var dots, rest := ".", "png";
      assert dots + rest == ".png";
      ExtensionOfDotsOnly(dots, rest);
    }
    assert Extension("..png") == "" by {
      var dots, rest := "..", "png";
      assert dots + rest == "..png";
      ExtensionOfDotsOnly(dots, rest);
    }
  }

  /** Neither a name without a dot nor a dot in a directory name gives an extension. */
  lemma ExtensionMissingExamples()
    ensures Extension("noext") == ""
    ensures Extension("dir.d/file") == ""
  {
    assert Extension("noext") == "" by {
      var dots, rest := "", "noext";
      assert dots + rest == "noext";
      ExtensionOfDotsOnly(dots, rest);
    }
    assert Extension("dir.d/file") == "" by {
      var dir, name := "dir.d", "file";
      assert dir + "/" + name == "dir.d/file";
      ExtensionAfterSlash(dir, name);
    }
  }

  /** A disguised executable is refused. */
  lemma ValidateImageRejectsExecutable()
    ensures !ValidateImage(Some("malware.exe"), Some("application/octet-stream"))
  {
    var stem, ext := "malware", ".exe";
    assert stem + ext == "malware.exe" && stem[0] != '.';
    ExtensionOfStem(stem, ext);
    assert Lower(".exe") == ".exe";
  }

  /** A name made of a leading dot only is refused, even with an image content type. */
  lemma ValidateImageRejectsDotName()
    ensures !ValidateImage(Some(".png"), Some("image/png"))
  {
    ExtensionLeadingDotExamples();
    assert Lower("") == "";
  }

  /** An allowed name is accepted with an image content type, in either case, and refused without one. */
  lemma ValidateImageContentTypeExamples()
    ensures ValidateImage(Some("photo.png"), Some("image/png"))
    ensures ValidateImage(Some("PHOTO.PNG"), Some("image/png"))
    ensures !ValidateImage(Some("photo.png"), Some("text/plain"))
    ensures !ValidateImage(Some("photo.png"), None)
  {
    ExtensionPhotoExample();
    assert Lower(".png") == ".png";
    assert "image/" <= "image/png";
    assert !("image/" <= "text/plain") by {
      assert "text/plain"[0] != "image/"[0];
    }
    assert Lower("PHOTO.PNG") == "photo.png";
    ValidateImageCaseInsensitive("PHOTO.PNG", Some("image/png"));
  }

  // ---------------------------------------------------------------------
  // process_image
  // ---------------------------------------------------------------------

  /** The message of the library's refusal to resize to a side of 0 pixels. */
  const ResizeRefusal: string := "height and width must be > 0"

  /**
   * The geometry process_image computes: convert to RGB when the mode is
   * another one (the size is kept), then, when either side exceeds
   * MaxDimension, set the longer side (width when strictly wider, else
   * height) to MaxDimension and the other to `int(short * MaxDimension / long)`,
   * which truncates.
   */
  function TargetSize(image: Image): Image {
    var rgb := if image.mode != Rgb then image.(mode := Rgb) else image;
    var width, height := rgb.width, rgb.height;
    if width > MaxDimension || height > MaxDimension then
      if width > height then
        Image(MaxDimension, (height * MaxDimension) / width, rgb.mode)
      else
        Image((width * MaxDimension) / height, MaxDimension, rgb.mode)
    else
      rgb
  }

  /** Whether process_image resizes the image. */
  predicate Oversized(image: Image) {
    image.width > MaxDimension || image.height > MaxDimension
  }

  /**
   * process_image: the target geometry, except that the resize raises when
   * a new side would be 0 pixels (an image that is not resized is returned
   * whatever its size).
   */
  function ProcessImage(image: Image): Result<Image, string> {
    var target := TargetSize(image);
    if Oversized(image) && (target.width == 0 || target.height == 0) then Failure(ResizeRefusal)
    else Success(target)
  }

  /** The shorter side scaled by MaxDimension / long is at most MaxDimension and, when long > MaxDimension, at most short. */
  lemma ScaledShortSide(short: nat, long: nat)
    requires short <= long && MaxDimension < long
    ensures (short * MaxDimension) / long <= MaxDimension
    ensures (short * MaxDimension) / long <= short
  {
    var q := (short * MaxDimension) / long;
    assert q * long <= short * MaxDimension;
    MulCancelLe(q, MaxDimension, long);
    assert MaxDimension * short <= long * short;
    MulCancelLe(q, short, long);
  }

  /** Cancelling a positive factor keeps an inequality. */
  lemma MulCancelLe(a: int, b: int, c: int)
    requires c > 0 && a * c <= b * c
    ensures a <= b
  {
    assert (a - b) * c <= 0;
  }

  /** The scaled shorter side is 0 exactly when short * MaxDimension < long. */
  lemma ScaledShortSideZero(short: nat, long: nat)
    requires 0 < long
    ensures (short * MaxDimension) / long == 0 <==> short * MaxDimension < long
  {
    var q := (short * MaxDimension) / long;
    var m := (short * MaxDimension) % long;
    assert q * long + m == short * MaxDimension && 0 <= m < long;
    if q > 0 {
      MulMonoLe(1, q, long);
    }
  }

  /** Multiplying by a non-negative factor keeps an inequality. */
  lemma MulMonoLe(a: int, b: int, c: int)
    requires a <= b && c >= 0
    ensures a * c <= b * c
  {
    assert (b - a) * c >= 0;
  }

  /** The output mode is always RGB; an RGB input within the bound is returned as it is. */
  lemma ProcessImageMode(image: Image)
    ensures ProcessImage(image).Success? ==> ProcessImage(image).value.mode == Rgb
    ensures image.mode == Rgb && !Oversized(image) ==> ProcessImage(image) == Success(image)
  {
  }

  /** An image within the bound keeps its size and is never refused, even with a side of 0. */
  lemma ProcessImageKeepsSmall(image: Image)
    requires !Oversized(image)
    ensures ProcessImage(image) == Success(image.(mode := Rgb))
  {
  }

  /**
   * An oversized image is refused exactly when its shorter side scaled to the
   * bound is 0 pixels, that is when short * MaxDimension < long.
   */
  lemma ProcessImageRefusal(image: Image)
    ensures ProcessImage(image).Failure? <==>
      && Oversized(image)
      && (if image.width > image.height then image.height * MaxDimension < image.width
          else image.width * MaxDimension < image.height)
    ensures ProcessImage(image).Failure? ==> ProcessImage(image).error == ResizeRefusal
  {
    if Oversized(image) {
      if image.width > image.height {
        ScaledShortSideZero(image.height, image.width);
      } else {
        ScaledShortSideZero(image.width, image.height);
      }
    }
  }

  /**
   * An oversized image gets its longer side set to exactly MaxDimension (the
   * width when strictly wider, the height otherwise, squares included) and
   * its other side to the truncated proportional value.
   */
  lemma TargetSizeLongSide(image: Image)
    requires Oversized(image)
    ensures image.width > image.height ==>
      TargetSize(image).width == MaxDimension &&
      TargetSize(image).height == (image.height * MaxDimension) / image.width
    ensures image.width <= image.height ==>
      TargetSize(image).height == MaxDimension &&
      TargetSize(image).width == (image.width * MaxDimension) / image.height
  {
  }

  /**
   * The aspect ratio is kept up to truncation: the scaled shorter side is the
   * largest whole number whose ratio to MaxDimension does not exceed short/long.
   */
  lemma TargetSizeAspect(image: Image)
    requires Oversized(image)
    ensures image.width > image.height ==>
      var h := TargetSize(image).height;
      h * image.width <= image.height * MaxDimension < (h + 1) * image.width
    ensures image.width <= image.height ==>
      var w := TargetSize(image).width;
      w * image.height <= image.width * MaxDimension < (w + 1) * image.height
  {
    var r := TargetSize(image);
    if image.width > image.height {
      var q := (image.height * MaxDimension) / image.width;
      assert r.height == q;
      assert q * image.width + (image.height * MaxDimension) % image.width == image.height * MaxDimension;
    } else {
      var q := (image.width * MaxDimension) / image.height;
      assert r.width == q;
      assert q * image.height + (image.width * MaxDimension) % image.height == image.width * MaxDimension;
    }
  }

  /** The target geometry has both sides within the bound and neither side grows. */
  lemma TargetSizeBounds(image: Image)
    ensures TargetSize(image).width <= MaxDimension && TargetSize(image).height <= MaxDimension
    ensures TargetSize(image).width <= image.width && TargetSize(image).height <= image.height
  {
    if Oversized(image) {
      if image.width > image.height {
        ScaledShortSide(image.height, image.width);
      } else {
        ScaledShortSide(image.width, image.height);
      }
    }
  }

  /** A processed image has both sides within the bound, neither side has grown, and it is the target geometry. */
  lemma ProcessImageBounds(image: Image)
    requires ProcessImage(image).Success?
    ensures var p := ProcessImage(image).value;
      p == TargetSize(image) && p.width <= MaxDimension && p.height <= MaxDimension &&
      p.width <= image.width && p.height <= image.height
  {
    TargetSizeBounds(image);
  }

  /** Processing an already processed image changes nothing. */
  lemma ProcessImageIdempotent(image: Image)
    requires ProcessImage(image).Success?
    ensures ProcessImage(ProcessImage(image).value) == ProcessImage(image)
  {
    ProcessImageBounds(image);
  }

  /** 4000x2000 becomes 1920x960; 800x600 RGBA only changes mode; 1x3000 would need a width of 0 and is refused. */
  lemma ProcessImageExamples()
    ensures ProcessImage(Image(4000, 2000, "RGB")) == Success(Image(1920, 960, "RGB"))
    ensures ProcessImage(Image(800, 600, "RGBA")) == Success(Image(800, 600, "RGB"))
    ensures TargetSize(Image(1, 3000, "L")) == Image(0, 1920, "RGB")
    ensures ProcessImage(Image(1, 3000, "L")) == Failure(ResizeRefusal)
  {
  }
}
