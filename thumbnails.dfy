/**
 * ThumbnailTool and ImageExtensions: the thumbnail dimension rule of ResizeAsync and
 * the order in which the Generate/GenerateAndSave overloads resize, dispose and save images.
 * Pixels are not modelled; an image is its dimensions plus where it came from.
 */
module Thumbnails {
  import opened Wrappers

  datatype Size = Size(width: int, height: int)

  /** Every decoded System.Drawing image has positive dimensions. */
  predicate IsImageSize(s: Size) {
    s.width > 0 && s.height > 0
  }

  function Min(a: int, b: int): int {
    if a <= b then a else b
  }

  /**
   * The dimension rule of ResizeAsync: an image no wider than maxWidth keeps its size;
   * a wider one becomes maxWidth wide and maxWidth * height / width high, truncated.
   */
  function ThumbnailSize(src: Size, maxWidth: int): (r: Size)
    requires IsImageSize(src) && maxWidth > 0
    ensures r.width == Min(src.width, maxWidth)
    ensures src.width <= maxWidth ==> r == src
    ensures src.width > maxWidth ==>
      r.height * src.width <= maxWidth * src.height < (r.height + 1) * src.width
    ensures 0 <= r.height <= src.height
  {
    if src.width <= maxWidth then src
    else
      var h := maxWidth * src.height / src.width;
      FloorBounds(maxWidth * src.height, src.width);
      ShrinkBound(maxWidth, src.width, src.height, h);
      Size(maxWidth, h)
  }

  /** Integer division rounds down: q * d <= n < (q + 1) * d. */
  lemma FloorBounds(n: int, d: int)
    requires n >= 0 && d > 0
    ensures (n / d) * d <= n < (n / d + 1) * d
    ensures n / d >= 0
  {
    var q, r := n / d, n % d;
    assert n == q * d + r && 0 <= r < d;
  }

  /** A positive factor can be cancelled from a strict inequality between products. */
  lemma CancelFactor(a: int, b: int, w: int)
    requires w > 0 && a * w < b * w
    ensures a < b
  {
    assert (b - a) * w > 0;
  }

  /** A height scaled by a factor below one does not grow. */
  lemma ShrinkBound(m: int, w: int, hgt: int, h: int)
    requires 0 < m < w && hgt > 0 && h >= 0
    requires h * w <= m * hgt
    ensures h <= hgt
  {
    assert m * hgt < w * hgt;
    CancelFactor(h, hgt + 1, w);
  }

  /**
   * The floor characterisation determines the height: any h with
   * h * width <= maxWidth * height < (h + 1) * width is the rule's height.
   */
  lemma ThumbnailHeightUnique(src: Size, maxWidth: int, h: int)
    requires IsImageSize(src) && 0 < maxWidth < src.width
    requires h * src.width <= maxWidth * src.height < (h + 1) * src.width
    ensures ThumbnailSize(src, maxWidth).height == h
  {
    var q := ThumbnailSize(src, maxWidth).height;
    CancelFactor(q, h + 1, src.width);
    CancelFactor(h, q + 1, src.width);
  }

  /**
   * ResizeAsync computes the height as (int)((float)maxWidth / width * height). Read over
   * the exact rationals, truncating that non-negative quotient gives the rule's height.
   */
  lemma ThumbnailHeightIsTruncatedRatio(src: Size, maxWidth: int)
    requires IsImageSize(src) && 0 < maxWidth < src.width
    ensures ThumbnailSize(src, maxWidth).height
         == ((maxWidth as real) / (src.width as real) * (src.height as real)).Floor
  {
    var q := ThumbnailSize(src, maxWidth).height;
    TruncatedRatio(maxWidth, src.width, src.height, q);
  }

  /** A quotient bracketed by q and q + 1 in integers is bracketed the same way in reals. */
  lemma TruncatedRatio(m: int, w: int, hgt: int, q: int)
    requires w > 0 && q * w <= m * hgt < (q + 1) * w
    ensures ((m as real) / (w as real) * (hgt as real)).Floor == q
  {
    var x := (m as real) / (w as real) * (hgt as real);
    ScaledRatio(m as real, w as real, hgt as real);
    CastProduct(q, w);
    CastProduct(q + 1, w);
    CastProduct(m, hgt);
    RealCancel(q as real, x, w as real);
    RealCancelStrict(x, (q + 1) as real, w as real);
  }

  lemma CastProduct(a: int, b: int)
    ensures (a * b) as real == (a as real) * (b as real)
  {
  }

  lemma ScaledRatio(m: real, w: real, hgt: real)
    requires w > 0.0
    ensures m / w * hgt * w == m * hgt
  {
  }

  lemma RealCancel(a: real, b: real, c: real)
    requires c > 0.0 && a * c <= b * c
    ensures a <= b
  {
    assert (b - a) * c >= 0.0;
  }

  lemma RealCancelStrict(a: real, b: real, c: real)
    requires c > 0.0 && a * c < b * c
    ensures a < b
  {
    assert (b - a) * c > 0.0;
  }

  /** Thumbnailing a thumbnail again with the same bound changes nothing. */
  lemma ThumbnailSizeIdempotent(src: Size, maxWidth: int)
    requires IsImageSize(src) && maxWidth > 0
    requires ThumbnailSize(src, maxWidth).height > 0
    ensures ThumbnailSize(ThumbnailSize(src, maxWidth), maxWidth) == ThumbnailSize(src, maxWidth)
  {
  }

  /** 4000 x 3000 with maxWidth 1000 gives 1000 x 750; 80 x 60 with maxWidth 120 stays 80 x 60. */
  lemma ThumbnailSizeExamples()
    ensures ThumbnailSize(Size(4000, 3000), 1000) == Size(1000, 750)
    ensures ThumbnailSize(Size(80, 60), 120) == Size(80, 60)
  {
  }

  // ---------------------------------------------------------------------------------
  // Images and the steps the ThumbnailTool overloads take on them
  // ---------------------------------------------------------------------------------

  /**
   * An image: either decoded from a file (Image.FromFile), or a new Bitmap drawn from
   * another image (the copy and the resized bitmap of ResizeAsync).
   */
  datatype Image = Decoded(path: string, size: Size) | Bitmap(source: Image, size: Size)

  /** Exceptions the modelled code can raise. */
  datatype Error =
    | LoadFailed(path: string)   // Image.FromFile on a missing or undecodable file
    | InvalidParameter           // new Bitmap(w, h) with a non-positive dimension

  /** Calls the tool makes on images, in order. */
  datatype Step = Resize(image: Image) | Dispose(image: Image) | Save(image: Image, path: string)

  /** The steps taken and what the call returns or throws. */
  datatype Run<+T> = Run(steps: seq<Step>, result: Result<T, Error>)

  /** No image is touched again once it has been disposed. */
  predicate NoUseAfterDispose(steps: seq<Step>) {
    forall i, j :: 0 <= i < j < |steps| && steps[i].Dispose? ==> steps[j].image != steps[i].image
  }

  /**
   * ResizeAsync: a copy when the image is no wider than maxWidth, otherwise a new bitmap
   * of the thumbnail size; the Bitmap constructor throws when maxWidth is not positive or
   * the computed height is zero.
   */
  function ResizeImage(img: Image, maxWidth: int): (r: Result<Image, Error>)
    requires IsImageSize(img.size)
    ensures r.Failure? <==>
      img.size.width > maxWidth && (maxWidth <= 0 || maxWidth * img.size.height < img.size.width)
    ensures r.Failure? ==> r.error == InvalidParameter
    ensures r.Success? ==> r.value.Bitmap? && r.value.source == img && IsImageSize(r.value.size)
    ensures r.Success? ==> r.value.size == ThumbnailSize(img.size, maxWidth)
  {
    if img.size.width <= maxWidth then
      Success(Bitmap(img, img.size))
    else if maxWidth <= 0 then
      Failure(InvalidParameter)
    else
      var s := ThumbnailSize(img.size, maxWidth);
      if s.height == 0 then
        assert maxWidth * img.size.height < img.size.width;
        Failure(InvalidParameter)
      else
        assert maxWidth * img.size.height >= img.size.width by {
          FloorBounds(maxWidth * img.size.height, img.size.width);
        }
        Success(Bitmap(img, s))
  }

  /**
   * GenerateAsync(Image, int): resize, then dispose the source, then return the thumbnail.
   * When resizing throws, the source is not disposed.
   */
  function GenerateFromImage(img: Image, maxWidth: int): (r: Run<Image>)
    requires IsImageSize(img.size)
    ensures r.result.Success? ==>
      && |r.steps| == 2 && r.steps[0] == Resize(img) && r.steps[1] == Dispose(img)
      && r.result.value.Bitmap? && r.result.value.source == img && r.result.value != img
    ensures r.result.Failure? ==> r.steps == [Resize(img)]
    ensures NoUseAfterDispose(r.steps)
  {
    match ResizeImage(img, maxWidth)
    case Success(thumbnail) => Run([Resize(img), Dispose(img)], Success(thumbnail))
    case Failure(e) => Run([Resize(img)], Failure(e))
  }

  /** Image.FromFile over a file system given as the sizes of the decodable files. */
  function Load(files: map<string, Size>, fileName: string): Result<Image, Error>
  {
    if fileName in files && IsImageSize(files[fileName]) then Success(Decoded(fileName, files[fileName]))
    else Failure(LoadFailed(fileName))
  }

  /** GenerateAsync(string, int): load the file, then GenerateAsync(Image, int). */
  function GenerateFromFile(files: map<string, Size>, fileName: string, maxWidth: int): (r: Run<Image>)
    ensures Load(files, fileName).Failure? ==> r.steps == [] && r.result == Failure(LoadFailed(fileName))
    ensures r.result.Success? ==>
      && fileName in files
      && r.result.value.Bitmap? && r.result.value.source == Decoded(fileName, files[fileName])
    ensures NoUseAfterDispose(r.steps)
  {
    match Load(files, fileName)
    case Failure(e) => Run([], Failure(e))
    case Success(img) => GenerateFromImage(img, maxWidth)
  }

  /** GenerateAndSaveAsync(string, int, string): generate, then save the thumbnail. */
  function GenerateAndSaveFile(files: map<string, Size>, fileName: string, maxWidth: int,
                               saveFileName: string): (r: Run<()>)
    ensures r.result.Success? <==> GenerateFromFile(files, fileName, maxWidth).result.Success?
    ensures r.result.Success? ==>
      && |r.steps| > 0 && r.steps[|r.steps| - 1].Save? && r.steps[|r.steps| - 1].path == saveFileName
      && r.steps[|r.steps| - 1].image == GenerateFromFile(files, fileName, maxWidth).result.value
    ensures r.result.Failure? ==> r.steps == GenerateFromFile(files, fileName, maxWidth).steps
  {
    var g := GenerateFromFile(files, fileName, maxWidth);
    match g.result
    case Failure(e) => Run(g.steps, Failure(e))
    case Success(thumbnail) => Run(g.steps + [Save(thumbnail, saveFileName)], Success(()))
  }

  /**
   * The path overload succeeds exactly when the file loads and the Bitmap dimensions are
   * valid; it then resizes and disposes the source before saving a thumbnail of the
   * rule's size to saveFileName, and never touches a disposed image.
   */
  lemma GenerateAndSaveFileSavesThumbnail(files: map<string, Size>, fileName: string,
                                          maxWidth: int, saveFileName: string)
    ensures var r := GenerateAndSaveFile(files, fileName, maxWidth, saveFileName);
      && (r.result.Success? <==>
            && fileName in files && IsImageSize(files[fileName])
            && (files[fileName].width <= maxWidth
                || (maxWidth > 0 && maxWidth * files[fileName].height >= files[fileName].width)))
      && NoUseAfterDispose(r.steps)
      && (r.result.Success? ==>
            var src := Decoded(fileName, files[fileName]);
            && |r.steps| == 3
            && r.steps[0] == Resize(src) && r.steps[1] == Dispose(src)
            && r.steps[2].Save? && r.steps[2].path == saveFileName
            && r.steps[2].image.source == src
            && r.steps[2].image.size == ThumbnailSize(src.size, maxWidth))
  {
    var r := GenerateAndSaveFile(files, fileName, maxWidth, saveFileName);
    var g := GenerateFromFile(files, fileName, maxWidth);
    if g.result.Success? {
      var src := Decoded(fileName, files[fileName]);
      assert g == GenerateFromImage(src, maxWidth);
      var t := g.result.value;
      assert t != src;
      assert r.steps == [Resize(src), Dispose(src), Save(t, saveFileName)];
    }
  }

  /**
   * GenerateAndSaveAsync(Image, int, string) as written: it generates a thumbnail but saves
   * its input `img`, which GenerateAsync has already disposed.
   */
  function GenerateAndSaveImageAsWritten(img: Image, maxWidth: int, saveFileName: string): (r: Run<()>)
    requires IsImageSize(img.size)
    ensures r.result.Success? ==> |r.steps| > 0 && r.steps[|r.steps| - 1] == Save(img, saveFileName)
    ensures r.result.Success? <==> ResizeImage(img, maxWidth).Success?
  {
    var g := GenerateFromImage(img, maxWidth);
    match g.result
    case Failure(e) => Run(g.steps, Failure(e))
    case Success(thumbnail) => Run(g.steps + [Save(img, saveFileName)], Success(()))
  }

  /**
   * As written, every successful call resizes its input, disposes it and then passes that
   * same disposed input to Save, so a disposed image is used again; and
   * the thumbnail it generated appears in no later step: it is neither saved nor disposed.
   */
  lemma GenerateAndSaveImageAsWrittenSavesDisposed(img: Image, maxWidth: int, saveFileName: string)
    requires IsImageSize(img.size)
    requires GenerateAndSaveImageAsWritten(img, maxWidth, saveFileName).result.Success?
    ensures var steps := GenerateAndSaveImageAsWritten(img, maxWidth, saveFileName).steps;
      var thumbnail := GenerateFromImage(img, maxWidth).result.value;
      && steps == [Resize(img), Dispose(img), Save(img, saveFileName)]
      && !NoUseAfterDispose(steps)
      && forall k :: 0 <= k < |steps| ==> steps[k].image != thumbnail
  {
    var steps := GenerateAndSaveImageAsWritten(img, maxWidth, saveFileName).steps;
    var thumbnail := GenerateFromImage(img, maxWidth).result.value;
    assert steps == [Resize(img), Dispose(img), Save(img, saveFileName)];
    assert steps[1].Dispose? && steps[2].image == steps[1].image;
    assert thumbnail != img;
  }

  /**
   * The 4000 x 3000 image with maxWidth 1000 is disposed and then passed to Save; its
   * 1000 x 750 thumbnail is never saved.
   */
  lemma GenerateAndSaveImageAsWrittenExample()
    ensures var img := Decoded("a.jpg", Size(4000, 3000));
      var steps := GenerateAndSaveImageAsWritten(img, 1000, "t.jpg").steps;
      && |steps| == 3 && steps[1] == Dispose(img) && steps[2] == Save(img, "t.jpg")
      && Save(Bitmap(img, Size(1000, 750)), "t.jpg") !in steps
  {
    var img := Decoded("a.jpg", Size(4000, 3000));
    assert ResizeImage(img, 1000) == Success(Bitmap(img, Size(1000, 750)));
  }

  /** GenerateAndSaveAsync(Image, int, string) as evidently intended: save the thumbnail. */
  function GenerateAndSaveImage(img: Image, maxWidth: int, saveFileName: string): (r: Run<()>)
    requires IsImageSize(img.size)
    ensures r.result.Success? <==> ResizeImage(img, maxWidth).Success?
    ensures r.result.Success? ==>
      |r.steps| > 0 && r.steps[|r.steps| - 1] == Save(ResizeImage(img, maxWidth).value, saveFileName)
  {
    var g := GenerateFromImage(img, maxWidth);
    match g.result
    case Failure(e) => Run(g.steps, Failure(e))
    case Success(thumbnail) => Run(g.steps + [Save(thumbnail, saveFileName)], Success(()))
  }

  /**
   * The corrected overload never touches a disposed image and saves a bitmap of the
   * rule's size drawn from its input.
   */
  lemma GenerateAndSaveImageSavesThumbnail(img: Image, maxWidth: int, saveFileName: string)
    requires IsImageSize(img.size)
    ensures var r := GenerateAndSaveImage(img, maxWidth, saveFileName);
      && NoUseAfterDispose(r.steps)
      && (r.result.Success? ==>
            && r.steps[|r.steps| - 1].Save?
            && r.steps[|r.steps| - 1].path == saveFileName
            && r.steps[|r.steps| - 1].image.source == img
            && r.steps[|r.steps| - 1].image.size == ThumbnailSize(img.size, maxWidth)
            && r.steps[|r.steps| - 1].image.size.width == Min(img.size.width, maxWidth))
  {
    var r := GenerateAndSaveImage(img, maxWidth, saveFileName);
    var g := GenerateFromImage(img, maxWidth);
    if g.result.Success? {
      var t := g.result.value;
      assert t != img;
      assert r.steps == [Resize(img), Dispose(img), Save(t, saveFileName)];
    }
  }
}
