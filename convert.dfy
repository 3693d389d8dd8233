/**
 * The two image conversions the pipeline and the legacy script share: the five
 * grayscale formulas (to_grayscale / _to_grayscale) and the downscale-only resize to a
 * longest side of 1024 pixels (_scale_img / the scaling part of load_imgs).
 */
module Convert {
  import opened Wrappers
  import opened Grid
  import opened Cv
  import Defs

  function Max(a: int, b: int): int { if a >= b then a else b }

  function Min(a: int, b: int): int { if a <= b then a else b }

  /** (r + g + b) / 3 on uint8 channels: the sum wraps modulo 256 before the division. */
  function AveragePixel(p: Bgr): int {
    ((p.r + p.g + p.b) % 256) / 3
  }

  function MaxPixel(p: Bgr): int { Max(Max(p.r, p.g), p.b) }

  function MinPixel(p: Bgr): int { Min(Min(p.r, p.g), p.b) }

  /** 0.21 r + 0.72 g + 0.07 b, truncated by astype(uint8). */
  function LuminosityPixel(p: Bgr): int {
    (0.21 * p.r as real + 0.72 * p.g as real + 0.07 * p.b as real).Floor
  }

  /**
   * The grayscale conversion called name. "weighted" is OpenCV's BGR2GRAY; the other
   * four are the per-pixel formulas above; any other name raises ValueError.
   */
  function ToGrayscale(toGray: Channel, img: Grid<Bgr>, name: string): (r: Result<Grid<int>>)
    ensures r.Ok? <==> name in Defs.PreprocessMethods
    ensures r.Err? ==> r.error == ValueError("Unknown method: " + name)
    ensures r.Ok? ==> SameShape(r.value, img)
  {
    if name == "weighted" then Ok(toGray(img))
    else if name == "average" then Ok(MapGrid(img, AveragePixel))
    else if name == "max" then Ok(MapGrid(img, MaxPixel))
    else if name == "min" then Ok(MapGrid(img, MinPixel))
    else if name == "luminosity" then Ok(MapGrid(img, LuminosityPixel))
    else Err(ValueError("Unknown method: " + name))
  }

  /** Because the channel sum wraps before the division, "average" never exceeds 85. */
  lemma AverageAtMost85(toGray: Channel, img: Grid<Bgr>)
    ensures var g := ToGrayscale(toGray, img, "average").value;
      forall r, c :: 0 <= r < |g| && 0 <= c < |g[r]| ==> 0 <= g[r][c] <= 85
  {
  }

  /** "max" is the largest channel and "min" the smallest, so min never exceeds max. */
  lemma MaxMinBracketChannels(toGray: Channel, img: Grid<Bgr>)
    ensures var hi, lo := ToGrayscale(toGray, img, "max").value, ToGrayscale(toGray, img, "min").value;
      forall r, c :: 0 <= r < |img| && 0 <= c < |img[r]| ==> Brackets(img[r][c], lo[r][c], hi[r][c])
  {
    var hi, lo := MapGrid(img, MaxPixel), MapGrid(img, MinPixel);
    assert ToGrayscale(toGray, img, "max") == Ok(hi);
    assert ToGrayscale(toGray, img, "min") == Ok(lo);
    forall r, c | 0 <= r < |img| && 0 <= c < |img[r]| ensures Brackets(img[r][c], lo[r][c], hi[r][c]) {
      PixelBrackets(img[r][c]);
    }
  }

  lemma PixelBrackets(p: Bgr)
    ensures Brackets(p, MinPixel(p), MaxPixel(p))
  {
  }

  /** lo is one of the channels and at most each, hi is one of them and at least each. */
  predicate Brackets(p: Bgr, lo: int, hi: int) {
    && lo <= p.b <= hi && lo <= p.g <= hi && lo <= p.r <= hi
    && (lo == p.b || lo == p.g || lo == p.r)
    && (hi == p.b || hi == p.g || hi == p.r)
  }

  predicate IsBytePixel(p: Bgr) { IsByte(p.b) && IsByte(p.g) && IsByte(p.r) }

  lemma LuminosityOfBytes(p: Bgr)
    requires IsBytePixel(p)
    ensures IsByte(LuminosityPixel(p))
  {
    var x := 0.21 * p.r as real + 0.72 * p.g as real + 0.07 * p.b as real;
    assert 0.0 <= x <= 0.21 * 255.0 + 0.72 * 255.0 + 0.07 * 255.0;
  }

  /** The luminosity weights sum to 1, so an 8-bit colour image gives an 8-bit gray image. */
  lemma LuminosityIsByte(toGray: Channel, img: Grid<Bgr>)
    requires forall r, c :: 0 <= r < |img| && 0 <= c < |img[r]| ==> IsBytePixel(img[r][c])
    ensures var g := ToGrayscale(toGray, img, "luminosity").value;
      forall r, c :: 0 <= r < |g| && 0 <= c < |g[r]| ==> IsByte(g[r][c])
  {
    forall r, c | 0 <= r < |img| && 0 <= c < |img[r]| {
      LuminosityOfBytes(img[r][c]);
    }
  }

  /** The longest side an image keeps after loading or preprocessing. */
  const MaxDim: nat := 1024

  /**
   * The shape (int(h * s), int(w * s)) with s = MaxDim / max(h, w), in exact arithmetic,
   * for an image whose longest side exceeds MaxDim: no side grows, and the longest
   * side becomes exactly MaxDim.
   */
  function ScaledShape(h: nat, w: nat): (hw: (nat, nat))
    requires Max(h, w) > MaxDim
    ensures hw.0 <= h && hw.1 <= w
    ensures Max(hw.0, hw.1) == MaxDim
  {
    var m := Max(h, w);
    ScaleDown(h, m);
    ScaleDown(w, m);
    ScaleOfLongest(m);
    (h * MaxDim / m, w * MaxDim / m)
  }

  /**
   * _scale_img: an image whose longest side exceeds MaxDim is resized (INTER_AREA) so that
   * the longest side becomes MaxDim; any other image is returned as it is. An image
   * with no pixels makes MaxDim / max(h, w) divide by zero.
   */
  function ScaleImg(resize: ResizeArea, img: Grid<Bgr>): (r: Result<Grid<Bgr>>)
    ensures r.Err? <==> |img| == 0 || ScalesToNothing(|img|, Width(img))
    ensures |img| == 0 ==> r == Err(ZeroDivisionError)
    ensures |img| > 0 && r.Err? ==> r == Err(CvError)
  {
    var h, w := |img|, Width(img);
    if Max(h, w) == 0 then Err(ZeroDivisionError)
    else if Max(h, w) <= MaxDim then Ok(img)
    else
      var hw := ScaledShape(h, w);
      ThinIffZeroSide(h, w);
      if hw.0 == 0 || hw.1 == 0 then Err(CvError)
      else Ok(resize(img, hw.0, hw.1))
  }

  /**
   * An image too thin to scale: its longest side exceeds MaxDim and its short side times
   * MaxDim stays below the longest side, so int(side * scale) is 0 and cv2.resize
   * refuses the empty target size.
   */
  predicate ScalesToNothing(h: nat, w: nat) {
    Max(h, w) > MaxDim && Min(h, w) * MaxDim < Max(h, w)
  }

  /** A side of the scaled shape is 0 exactly for an image too thin to scale. */
  lemma ThinIffZeroSide(h: nat, w: nat)
    requires Max(h, w) > MaxDim
    ensures var hw := ScaledShape(h, w);
      (hw.0 == 0 || hw.1 == 0) <==> ScalesToNothing(h, w)
  {
    var m := Max(h, w);
    QuotientZero(h * MaxDim, m);
    QuotientZero(w * MaxDim, m);
  }

  /** A 1 x 2000 image scales to a 0 x 1024 target, which cv2.resize refuses. */
  lemma ThinImageRejected(resize: ResizeArea, img: Grid<Bgr>)
    requires HasShape(img, 1, 2000)
    ensures ScaleImg(resize, img) == Err(CvError)
  {
    assert Width(img) == 2000;
  }

  lemma QuotientZero(x: nat, m: nat)
    requires m > 0
    ensures x / m == 0 <==> x < m
  {
    assert x == (x / m) * m + x % m;
    if x / m >= 1 {
      MulMono(m, 1, x / m);
    }
  }

  lemma ScaleDown(x: nat, m: nat)
    requires 0 <= x <= m && m > MaxDim
    ensures x * MaxDim / m <= x && x * MaxDim / m <= MaxDim
  {
    var p := x * MaxDim;
    var q := p / m;
    QuotientBelow(p, m);
    assert p <= x * m by { MulMono(x, MaxDim, m); }
    assert p <= MaxDim * m by { MulMono(MaxDim, x, m); }
    MulCancel(q, x, m);
    MulCancel(q, MaxDim, m);
  }

  /** (m * MaxDim) / m == MaxDim: the longest side is scaled to exactly MaxDim. */
  lemma ScaleOfLongest(m: nat)
    requires m > 0
    ensures m * MaxDim / m == MaxDim
  {
    var p := m * MaxDim;
    var q, r := p / m, p % m;
    assert p == q * m + r && 0 <= r < m;
    assert (MaxDim - q) * m == r;
    if q < MaxDim {
      MulMono(m, 1, MaxDim - q);
    } else if q > MaxDim {
      MulMono(m, 1, q - MaxDim);
    }
  }

  lemma QuotientBelow(p: nat, m: nat)
    requires m > 0
    ensures (p / m) * m <= p
  {
    assert p == (p / m) * m + p % m;
  }

  lemma MulMono(x: nat, a: int, b: int)
    requires a <= b
    ensures x * a <= x * b
  {
    assert x * b - x * a == x * (b - a);
  }

  lemma MulCancel(a: int, b: int, m: int)
    requires m > 0 && a * m <= b * m
    ensures a <= b
  {
    assert (b - a) * m >= 0;
  }

  /** Scaling never enlarges an image, and a successful result fits in MaxDim x MaxDim. */
  lemma ScaleNeverUpscales(resize: ResizeArea, img: Grid<Bgr>)
    requires IsRect(img)
    ensures var r := ScaleImg(resize, img);
      r.Ok? ==> FitsIn(r.value, |img|, Width(img)) && FitsIn(r.value, MaxDim, MaxDim)
  {
    var h, w := |img|, Width(img);
    if Max(h, w) > MaxDim && !ScalesToNothing(h, w) {
      var hw := ScaledShape(h, w);
      ThinIffZeroSide(h, w);
      var out := resize(img, hw.0, hw.1);
      assert ScaleImg(resize, img) == Ok(out);
      FitsShape(out, hw.0, hw.1, h, w);
      FitsShape(out, hw.0, hw.1, MaxDim, MaxDim);
    } else if h > 0 && Max(h, w) <= MaxDim {
      assert ScaleImg(resize, img) == Ok(img);
    }
  }

  /** A rectangular grid with at most h rows and w columns. */
  predicate FitsIn<T>(g: Grid<T>, h: int, w: int) {
    IsRect(g) && |g| <= h && Width(g) <= w
  }

  lemma FitsShape<T>(g: Grid<T>, h: nat, w: nat, h': int, w': int)
    requires HasShape(g, h, w) && h <= h' && w <= w'
    ensures FitsIn(g, h', w')
  {
  }

  /** An image that already fits is returned unchanged. */
  lemma ScaleKeepsSmall(resize: ResizeArea, img: Grid<Bgr>)
    requires 0 < |img| && |img| <= MaxDim && Width(img) <= MaxDim
    ensures ScaleImg(resize, img) == Ok(img)
  {
  }
}
