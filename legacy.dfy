/**
 * The original command-line pipeline (Processor.py), which predates the application's
 * processor: load and downscale an image, classify its background as dark, medium or
 * light from the mean HSV value, pick a grayscale conversion and kernel sizes from that
 * class, and build a texture mask for medium backgrounds only.
 */
module Legacy {
  import opened Wrappers
  import opened Grid
  import opened Cv
  import Convert
  import Variance
  import Loader

  const Dark := "dark"
  const Medium := "medium"
  const Light := "light"

  /**
   * The class of a mean brightness: below 85 is dark, below 170 medium, anything else
   * light. None stands for the NaN np.mean returns on an empty region, which fails both
   * comparisons and so counts as light.
   */
  function BrightnessOf(mean: Option<real>): (b: string)
    ensures b == Dark <==> mean.Some? && mean.value < 85.0
    ensures b == Medium <==> mean.Some? && 85.0 <= mean.value < 170.0
    ensures b == Light <==> mean.None? || mean.value >= 170.0
  {
    if mean.Some? && mean.value < 85.0 then Dark
    else if mean.Some? && mean.value < 170.0 then Medium
    else Light
  }

  function BrightnessRank(b: string): nat {
    if b == Dark then 0 else if b == Medium then 1 else 2
  }

  /** A brighter background never falls into a darker class. */
  lemma BrightnessMonotone(x: real, y: real)
    requires x <= y
    ensures BrightnessRank(BrightnessOf(Some(x))) <= BrightnessRank(BrightnessOf(Some(y)))
  {
  }

  lemma CentreBounds(n: nat)
    ensures 0 <= n / 2 - n / 6 && n / 2 - n / 6 + 2 * (n / 6) <= n
  {
  }

  /**
   * v[ch - h//6 : ch + h//6, cw - w//6 : cw + w//6] with (ch, cw) the centre: a window of
   * 2*(h//6) rows and 2*(w//6) columns around the centre, which always lies inside the
   * image, so the slice is never clipped.
   */
  function CentreWindow(v: Grid<int>): (region: Grid<int>)
    requires IsRect(v)
    ensures HasShape(region, 2 * (|v| / 6), 2 * (Width(v) / 6))
    ensures forall r, c :: 0 <= r < 2 * (|v| / 6) && 0 <= c < 2 * (Width(v) / 6) ==>
      var r', c' := |v| / 2 - |v| / 6 + r, Width(v) / 2 - Width(v) / 6 + c;
      0 <= r' < |v| && 0 <= c' < Width(v) && region[r][c] == v[r'][c']
  {
    var h, w := |v|, Width(v);
    CentreBounds(h);
    CentreBounds(w);
    Window(v, h / 2 - h / 6, w / 2 - w / 6, 2 * (h / 6), 2 * (w / 6))
  }

  /** v[r0 : r0 + rows, c0 : c0 + cols] for a window inside the grid. */
  function Window(v: Grid<int>, r0: nat, c0: nat, rows: nat, cols: nat): (region: Grid<int>)
    requires IsRect(v) && r0 + rows <= |v| && c0 + cols <= Width(v)
    ensures HasShape(region, rows, cols)
    ensures forall r, c :: 0 <= r < rows && 0 <= c < cols ==> region[r][c] == v[r0 + r][c0 + c]
  {
    seq(rows, r requires 0 <= r < rows => seq(cols, c requires 0 <= c < cols => v[r0 + r][c0 + c]))
  }

  /** The samples detect_background_brightness averages: the whole channel or its centre. */
  function Region(v: Grid<int>, sampleCenter: bool): Grid<int>
    requires IsRect(v)
  {
    if sampleCenter then CentreWindow(v) else v
  }

  /**
   * detect_background_brightness(img, sample_center): the class of the mean V channel
   * (HSV value) over the whole image or over its centre window.
   */
  function DetectBackgroundBrightness(value: Channel, img: Grid<Bgr>, sampleCenter: bool): (b: string)
    requires IsRect(img)
    ensures var v := value(img);
      IsRect(v) && b == BrightnessOf(Mean(Region(v, sampleCenter)))
  {
    var v := value(img);
    assert IsRect(v) by {
      assert |v| == |img| && forall r :: 0 <= r < |v| ==> |v[r]| == Width(img);
    }
    BrightnessOf(Mean(Region(v, sampleCenter)))
  }

  /** Fewer than six rows or columns leave the centre window empty: its NaN mean reads as light. */
  lemma SmallCentreIsLight(value: Channel, img: Grid<Bgr>)
    requires IsRect(img) && (|img| < 6 || Width(img) < 6)
    ensures DetectBackgroundBrightness(value, img, true) == Light
  {
    var v := value(img);
    assert Width(v) == Width(img) by {
      assert |v| == |img|;
    }
    var rows, cols := 2 * (|v| / 6), 2 * (Width(v) / 6);
    assert rows == 0 || cols == 0;
    CellsOfShape(CentreWindow(v), rows, cols);
    assert rows * cols == 0;
  }

  /** On an image of one brightness both sampling modes agree, when the window is not empty. */
  lemma UniformBrightness(value: Channel, img: Grid<Bgr>, x: int)
    requires IsRect(img) && |img| >= 6 && Width(img) >= 6
    requires var v := value(img); forall r, c :: 0 <= r < |v| && 0 <= c < |v[r]| ==> v[r][c] == x
    ensures DetectBackgroundBrightness(value, img, true) == DetectBackgroundBrightness(value, img, false)
    ensures DetectBackgroundBrightness(value, img, false) == BrightnessOf(Some(x as real))
  {
    var v := value(img);
    assert Width(v) == Width(img) && IsRect(v);
    var region := CentreWindow(v);
    CellsOfShape(v, |v|, Width(v));
    CellsOfShape(region, 2 * (|v| / 6), 2 * (Width(v) / 6));
    MeanOfConstant(v, x);
    MeanOfConstant(region, x);
  }

  /** Cells counts h * w samples in an h x w grid. */
  lemma {:induction false} CellsOfShape<T>(g: Grid<T>, h: nat, w: nat)
    requires HasShape(g, h, w)
    ensures Cells(g) == h * w
  {
    if h > 0 {
      CellsOfShape(g[1..], h - 1, w);
    }
  }

  lemma {:induction false} RowSumOfConstant(row: seq<int>, x: int)
    requires forall c :: 0 <= c < |row| ==> row[c] == x
    ensures RowSum(row) == |row| * x
  {
    if |row| > 0 {
      RowSumOfConstant(row[1..], x);
    }
  }

  lemma {:induction false} SumOfConstant(g: Grid<int>, x: int)
    requires forall r, c :: 0 <= r < |g| && 0 <= c < |g[r]| ==> g[r][c] == x
    ensures Sum(g) == Cells(g) * x
  {
    if |g| > 0 {
      RowSumOfConstant(g[0], x);
      SumOfConstant(g[1..], x);
    }
  }

  /** A non-empty grid of one value has that value as its mean. */
  lemma MeanOfConstant(g: Grid<int>, x: int)
    requires Cells(g) > 0
    requires forall r, c :: 0 <= r < |g| && 0 <= c < |g[r]| ==> g[r][c] == x
    ensures Mean(g) == Some(x as real)
  {
    SumOfConstant(g, x);
    var n, q := Cells(g) as real, x as real;
    assert Sum(g) as real == n * q by {
      assert Sum(g) == Cells(g) * x;
    }
    assert Mean(g) == Some(Sum(g) as real / n);
    DivCancel(n, q);
  }

  lemma DivCancel(n: real, q: real)
    requires n > 0.0
    ensures (n * q) / n == q
  {
  }

  /** The settings execute chooses: a grayscale conversion, the variance window and the element size. */
  datatype Settings = Settings(grayMethod: string, ksize: int, elemsize: int)

  /** execute's table: light and medium backgrounds get a method; a dark one keeps "". */
  function SettingsFor(brightness: string): (s: Settings)
    ensures brightness == Light ==> s == Settings("average", 11, 8)
    ensures brightness == Medium ==> s == Settings("max", 11, 8)
    ensures brightness != Light && brightness != Medium ==> s == Settings("", 0, 0)
  {
    if brightness == Light then Settings("average", 11, 8)
    else if brightness == Medium then Settings("max", 11, 8)
    else Settings("", 0, 0)
  }

  /** The light and medium conversions are known to to_grayscale; the dark setting is not. */
  lemma SettingsConvert(toGray: Channel, img: Grid<Bgr>)
    ensures Convert.ToGrayscale(toGray, img, SettingsFor(Light).grayMethod).Ok?
    ensures Convert.ToGrayscale(toGray, img, SettingsFor(Medium).grayMethod).Ok?
    ensures Convert.ToGrayscale(toGray, img, SettingsFor(Dark).grayMethod) == Err(ValueError("Unknown method: "))
  {
    assert Convert.ToGrayscale(toGray, img, "") == Err(ValueError("Unknown method: " + ""));
    assert "Unknown method: " + "" == "Unknown method: ";
  }

  /**
   * load_imgs(path): a file that cannot be read raises FileNotFoundError; otherwise the
   * image goes through the same downscale-only resize as the application.
   */
  function LoadImgs(resize: ResizeArea, read: Loader.Reader, path: string): (r: Result<Grid<Bgr>>)
    ensures read(path).None? ==> r == Err(FileNotFoundError(path))
    ensures read(path).Some? ==> r == Convert.ScaleImg(resize, read(path).value)
    ensures r.Ok? ==> Convert.FitsIn(r.value, Convert.MaxDim, Convert.MaxDim)
  {
    match read(path)
    case None => Err(FileNotFoundError(path))
    case Some(img) =>
      Convert.ScaleNeverUpscales(resize, img);
      Convert.ScaleImg(resize, img)
  }

  /**
   * The mask detect_mold_texture builds: for a medium background, the normalised local
   * variance thresholded above its 80th percentile, opened twice and then closed once
   * with an ellipse of elemsize (not coerced to an odd size); no mask otherwise.
   */
  function TextureMask(lv: LocalVariance, nm: Normalise, pc: Percentile, morph: Morphology, ellipse: Ellipse,
                       gray: Grid<int>, ksize: int, elemsize: int, bg: string): (m: Option<Grid<int>>)
    ensures m.Some? <==> bg == Medium
    ensures m.Some? ==> SameShape(m.value, gray)
  {
    if bg == Medium then
      var varNorm := nm(lv(gray, ksize));
      Some(MoldStages(morph, ellipse(elemsize), Variance.Binarize(Variance.ToReal(varNorm), TextureThreshold(pc, varNorm))))
    else None
  }

  /** np.percentile(var_norm, 80): the mask keeps the top fifth of the variance values. */
  function TextureThreshold(pc: Percentile, varNorm: Grid<int>): real {
    pc(Variance.Samples(varNorm), 80.0)
  }

  /** Two openings and then one closing, all with one kernel. */
  function MoldStages(morph: Morphology, kernel: Grid<int>, mask: Grid<int>): (m: Grid<int>)
    ensures SameShape(m, mask)
  {
    morph(morph(mask, MorphOp.Open, kernel, 2), MorphOp.Close, kernel, 1)
  }

  /**
   * Before morphology the mask holds 0 or 255, and 255 exactly where the normalised
   * variance exceeds its 80th percentile.
   */
  lemma TextureCandidates(nm: Normalise, pc: Percentile, v: Grid<real>, r: int, c: int)
    requires 0 <= r < |v| && 0 <= c < |v[r]|
    ensures var varNorm := nm(v);
      var bin := Variance.Binarize(Variance.ToReal(varNorm), TextureThreshold(pc, varNorm));
      0 <= r < |bin| && 0 <= c < |bin[r]| && Variance.IsMaskValue(bin[r][c])
      && (bin[r][c] == 255 <==> varNorm[r][c] as real > TextureThreshold(pc, varNorm))
  {
  }

  /** execute's steps after loading: classify, convert with the class's method, build the mask. */
  function ExecuteOn(lib: Library, img: Grid<Bgr>): Result<Option<Grid<int>>>
    requires IsRect(img)
  {
    var bg := DetectBackgroundBrightness(lib.value, img, false);
    var s := SettingsFor(bg);
    match Convert.ToGrayscale(lib.toGray, img, s.grayMethod)
    case Err(e) => Err(e)
    case Ok(gray) =>
      Ok(TextureMask(lib.localVariance, lib.normaliseMinMax, lib.percentile, lib.morphology, lib.ellipse, gray, s.ksize, s.elemsize, bg))
  }

  /** A dark background stops at to_grayscale's ValueError; otherwise a mask exists exactly for medium. */
  lemma ExecuteOnOutcome(lib: Library, img: Grid<Bgr>)
    requires IsRect(img)
    ensures var bg := DetectBackgroundBrightness(lib.value, img, false);
      && (bg == Dark ==> ExecuteOn(lib, img) == Err(ValueError("Unknown method: ")))
      && (bg != Dark ==> ExecuteOn(lib, img).Ok? && (ExecuteOn(lib, img).value.Some? <==> bg == Medium))
  {
    var bg := DetectBackgroundBrightness(lib.value, img, false);
    SettingsConvert(lib.toGray, img);
    if bg == Dark {
      assert SettingsFor(bg) == SettingsFor(Dark);
    } else if bg == Medium {
      assert SettingsFor(bg) == SettingsFor(Medium);
    } else {
      assert SettingsFor(bg) == SettingsFor(Light);
    }
  }

  /**
   * execute(path): load, then classify, convert and build the texture mask. The script's
   * detect_mold_texture returns nothing; the model returns the mask it builds.
   */
  function Execute(lib: Library, read: Loader.Reader, path: string): Result<Option<Grid<int>>> {
    match LoadImgs(lib.resizeArea, read, path)
    case Err(e) => Err(e)
    case Ok(img) => ExecuteOn(lib, img)
  }

  /**
   * How execute ends: an unreadable file raises FileNotFoundError, a file with no pixels
   * divides by zero in the scaling, an image too thin to scale makes cv2.resize raise, a
   * dark background raises ValueError, and otherwise a mask exists exactly for a medium
   * background.
   */
  lemma ExecuteOutcome(lib: Library, read: Loader.Reader, path: string)
    ensures read(path).None? ==> Execute(lib, read, path) == Err(FileNotFoundError(path))
    ensures read(path).Some? && |read(path).value| == 0 ==> Execute(lib, read, path) == Err(ZeroDivisionError)
    ensures read(path).Some? && |read(path).value| > 0 && Convert.ScalesToNothing(|read(path).value|, Width(read(path).value)) ==>
      Execute(lib, read, path) == Err(CvError)
    ensures var loaded := LoadImgs(lib.resizeArea, read, path);
      loaded.Ok? ==>
        var bg := DetectBackgroundBrightness(lib.value, loaded.value, false);
        && (bg == Dark <==> Execute(lib, read, path).Err?)
        && (bg == Dark ==> Execute(lib, read, path).error == ValueError("Unknown method: "))
        && (bg != Dark ==> (Execute(lib, read, path).value.Some? <==> bg == Medium))
  {
    var loaded := LoadImgs(lib.resizeArea, read, path);
    if loaded.Ok? {
      ExecuteOnOutcome(lib, loaded.value);
    }
  }
}
