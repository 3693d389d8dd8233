/**
 * The detection pipeline of app/pipeline/processor.py: preprocessing (downscale, pick a
 * grayscale conversion, optional CLAHE, texture level) and detection (one of four
 * detectors, each ending in a morphological clean-up and a red overlay on the original).
 */
module Processor {
  import opened Wrappers
  import opened Grid
  import Cv
  import Defs
  import Sizes
  import Convert
  import opened Variance
  import Filters
  import Paint
  import AppStore

  /** The mask value a pixel must have to be left out of the overlay. */
  predicate IsZero(x: int) { x == 0 }

  /** A rectangular grid has the shape of every grid of its shape. */
  lemma RectShape<A, B>(a: Grid<A>, b: Grid<B>)
    requires IsRect(a) && SameShape(b, a)
    ensures IsRect(b) && Width(b) == Width(a) && HasShape(b, |a|, Width(a))
  {
  }

  // ----- morphology -----

  /**
   * _morph_refine: the ellipse has the smallest odd size that is at least max(3, elemsize);
   * a closing runs first, then an opening, and a stage whose iteration count is not
   * positive is skipped.
   */
  function MorphRefine(morph: Cv.Morphology, ellipse: Cv.Ellipse, mask: Grid<int>, elemsize: int, openIter: int, closeIter: int)
    : (m: Grid<int>)
    ensures SameShape(m, mask)
  {
    var kernel := ellipse(Sizes.KernelSize(elemsize, 3));
    var closed := if closeIter > 0 then morph(mask, Cv.Close, kernel, closeIter) else mask;
    if openIter > 0 then morph(closed, Cv.Open, kernel, openIter) else closed
  }

  /** The four stage combinations of _morph_refine, with the element it uses. */
  lemma MorphStages(morph: Cv.Morphology, ellipse: Cv.Ellipse, mask: Grid<int>, elemsize: int, openIter: int, closeIter: int)
    ensures var k := ellipse(Sizes.KernelSize(elemsize, 3));
      var m := MorphRefine(morph, ellipse, mask, elemsize, openIter, closeIter);
      && (openIter <= 0 && closeIter <= 0 ==> m == mask)
      && (openIter <= 0 && closeIter > 0 ==> m == morph(mask, Cv.Close, k, closeIter))
      && (openIter > 0 && closeIter <= 0 ==> m == morph(mask, Cv.Open, k, openIter))
      && (openIter > 0 && closeIter > 0 ==> m == morph(morph(mask, Cv.Close, k, closeIter), Cv.Open, k, openIter))
  {
  }

  // ----- grayscale choice -----

  /**
   * _auto_grayscale_stable: "weighted" for a clearly coloured image (mean HSV saturation
   * above 60), "luminosity" otherwise, including the NaN mean of an empty image.
   */
  function AutoGrayscale(saturation: Cv.Channel, img: Grid<Bgr>): (name: string)
    ensures name in Defs.PreprocessMethods
    ensures name == "weighted" <==> Mean(saturation(img)).Some? && Mean(saturation(img)).value > 60.0
    ensures name != "weighted" ==> name == "luminosity"
  {
    var s := Mean(saturation(img));
    if s.Some? && s.value > 60.0 then "weighted" else "luminosity"
  }

  // ----- overlay -----

  /** A colour image of img's shape in pure red (BGR (0, 0, 255)). */
  function Red(img: Grid<Bgr>): (red: Grid<Bgr>)
    ensures SameShape(red, img)
  {
    Fill(img, Bgr(0, 0, 255))
  }

  /** The 70/30 blend of an image with red. */
  function Tinted(aw: Cv.AddWeighted, base: Grid<Bgr>): (t: Grid<Bgr>)
    ensures SameShape(t, base)
  {
    aw(base, 0.7, Red(base), 0.3)
  }

  /**
   * What _apply_mask returns: None for no image, the image itself for no mask, and
   * otherwise the image with the red tint on exactly the pixels where the mask, resized
   * to the image (nearest neighbour), is nonzero; every other pixel is the image's own.
   */
  function Overlaid(resize: Cv.ResizeNearest, aw: Cv.AddWeighted, img: Option<Grid<Bgr>>, mask: Option<Grid<int>>)
    : (d: Option<Grid<Bgr>>)
    requires img.Some? ==> IsRect(img.value)
    ensures d.None? <==> img.None?
    ensures img.Some? && mask.None? ==> d == img
    ensures img.Some? && mask.Some? ==> SameShape(d.value, img.value)
    ensures img.Some? && mask.Some? ==>
      var base, m := img.value, resize(mask.value, |img.value|, Width(img.value));
      forall r, c :: 0 <= r < |base| && 0 <= c < |base[r]| ==>
        d.value[r][c] == if m[r][c] == 0 then base[r][c] else Tinted(aw, base)[r][c]
  {
    if img.None? then None
    else if mask.None? then img
    else
      var base := img.value;
      var m := resize(mask.value, |base|, Width(base));
      RectShape(base, m);
      Some(Paint.Where(MapGrid(m, IsZero), base, Tinted(aw, base)))
  }

  /** Whatever the overlay returns is the image, pixel by pixel either untouched or tinted. */
  lemma OverlaidFromImage(resize: Cv.ResizeNearest, aw: Cv.AddWeighted, img: Option<Grid<Bgr>>, mask: Option<Grid<int>>)
    requires img.Some? ==> IsRect(img.value)
    ensures var d := Overlaid(resize, aw, img, mask);
      d.Some? ==>
        && img.Some? && SameShape(d.value, img.value)
        && forall r, c :: 0 <= r < |img.value| && 0 <= c < |img.value[r]| ==>
             d.value[r][c] == img.value[r][c] || d.value[r][c] == Tinted(aw, img.value)[r][c]
  {
  }

  /**
   * _apply_mask(img, mask): the mask is resized to the image, the display buffer starts as
   * the red blend, and the pixels where the mask is 0 are copied back from the image.
   */
  method ApplyMask(resize: Cv.ResizeNearest, aw: Cv.AddWeighted, img: Option<Grid<Bgr>>, mask: Option<Grid<int>>)
    returns (out: Option<Grid<Bgr>>)
    requires img.Some? ==> IsRect(img.value)
    ensures out == Overlaid(resize, aw, img, mask)
  {
    if img.None? {
      return None;
    }
    var base := img.value;
    var oh, ow := |base|, Width(base);
    if mask.None? {
      return Some(base);
    }
    var m := resize(mask.value, oh, ow);
    var tinted := Tinted(aw, base);
    RectShape(base, tinted);
    RectShape(base, m);
    var sel := MapGrid(m, IsZero);
    var display := Paint.Copy(tinted, oh, ow);
    Paint.CopyWhere(display, base, sel);
    var d := Snapshot(display);
    var spec := Paint.Where(sel, base, tinted);
    forall r, c | 0 <= r < oh && 0 <= c < ow
      ensures d[r][c] == spec[r][c]
    {
    }
    GridExt(d, spec, oh, ow);
    out := Some(d);
  }

  // ----- the four detectors -----

  /**
   * The candidate mask of the variance core before morphology: the texture map v
   * binarised above th, filtered by component area, and, when enabled, by the LBP
   * uniformity of the codes.
   */
  ghost function Candidates(v: Grid<int>, th: real, codes: Grid<real>, params: Defs.DetectParams, lbpOn: bool): (m: Grid<int>)
    requires IsRect(v)
    ensures HasShape(m, |v|, Width(v))
  {
    var bin := Binarize(ToReal(v), th);
    RectShape(v, bin);
    var kept := Filters.AreaFilter(bin, params.minArea, params.maxArea);
    if lbpOn then Filters.LbpFilter(codes, kept, params.lbpPoints, params.lbpUniformTh) else kept
  }

  /**
   * The filters only ever take pixels away: every candidate is a 0/255 pixel, and a 255
   * candidate lies above the threshold on the texture map.
   */
  lemma CandidatesAboveThreshold(v: Grid<int>, th: real, codes: Grid<real>, params: Defs.DetectParams, lbpOn: bool, r: int, c: int)
    requires IsRect(v) && 0 <= r < |v| && 0 <= c < Width(v)
    ensures var m := Candidates(v, th, codes, params, lbpOn);
      IsMaskValue(m[r][c]) && (m[r][c] == 255 ==> v[r][c] as real > th)
  {
    var bin := Binarize(ToReal(v), th);
    RectShape(v, bin);
    var kept := Filters.AreaFilter(bin, params.minArea, params.maxArea);
    Filters.AreaFilterKeepsWholeComponents(bin, params.minArea, params.maxArea, (r, c), (r, c));
    if lbpOn {
      Filters.LbpFilterIsSubmask(codes, kept, params.lbpPoints, params.lbpUniformTh, (r, c));
    }
  }

  /** The variance core's result: None without a gray image, else the overlay of its mask. */
  ghost function VarianceCoreResult(lib: Cv.Library, pre: Defs.PreprocessedImage, original: Option<Grid<Bgr>>, params: Defs.DetectParams)
    : Option<Grid<Bgr>>
    requires pre.img.Some? ==> IsRect(pre.img.value)
    requires original.Some? ==> IsRect(original.value)
  {
    if pre.img.None? then None
    else
      var gray := pre.img.value;
      var v := VarianceMap(lib.localVariance, lib.percentile, lib.normaliseMinMax, gray, Sizes.Scales(params.scales, pre.texture));
      RectShape(gray, v);
      var cand := Candidates(v, ComputeThreshold(lib.median, lib.percentile, v, params), lib.lbp(gray, params.lbpPoints, params.lbpRad),
                             params, params.useLbp && lib.hasSkimage);
      Overlaid(lib.resizeNearest, lib.addWeighted, original,
               Some(MorphRefine(lib.morphology, lib.ellipse, cand, params.elemsize, params.openIter, params.closeIter)))
  }

  /**
   * _detect_variance_core: scales, multi-scale texture map, threshold, binarisation, area
   * filter, optional LBP filter, morphology, overlay on the original image.
   */
  method DetectVarianceCore(lib: Cv.Library, pre: Defs.PreprocessedImage, original: Option<Grid<Bgr>>, params: Defs.DetectParams)
    returns (out: Option<Grid<Bgr>>)
    requires pre.img.Some? ==> IsRect(pre.img.value)
    requires original.Some? ==> IsRect(original.value)
    ensures out == VarianceCoreResult(lib, pre, original, params)
  {
    if pre.img.None? {
      return None;
    }
    var gray := pre.img.value;
    var scales := Sizes.GetScales(params.scales, pre.texture);
    var v := VarianceMultiscale(lib.localVariance, lib.percentile, lib.normaliseMinMax, gray, scales);
    var th := ComputeThreshold(lib.median, lib.percentile, v, params);
    RectShape(gray, v);
    var mask := Binarize(ToReal(v), th);
    RectShape(gray, mask);
    mask := Filters.FilterComponentsByArea(mask, params.minArea, params.maxArea);
    if params.useLbp {
      RectShape(gray, mask);
      mask := Filters.RefineWithLbp(lib.hasSkimage, lib.lbp, gray, mask, params.lbpPoints, params.lbpRad, params.lbpUniformTh);
    }
    mask := MorphRefine(lib.morphology, lib.ellipse, mask, params.elemsize, params.openIter, params.closeIter);
    out := ApplyMask(lib.resizeNearest, lib.addWeighted, original, Some(mask));
  }

  /** The adaptive detector's mask: inverted Gaussian adaptive threshold, then one close and one open. */
  function AdaptiveMask(at: Cv.AdaptiveThreshold, morph: Cv.Morphology, ellipse: Cv.Ellipse, gray: Grid<int>, params: Defs.DetectParams)
    : Grid<int>
  {
    MorphRefine(morph, ellipse, at(gray, Sizes.KernelSize(params.blockSize, 31), params.c), params.elemsize, 1, 1)
  }

  function AdaptiveResult(lib: Cv.Library, pre: Defs.PreprocessedImage, original: Option<Grid<Bgr>>, params: Defs.DetectParams)
    : Option<Grid<Bgr>>
    requires original.Some? ==> IsRect(original.value)
  {
    if pre.img.None? then None
    else Overlaid(lib.resizeNearest, lib.addWeighted, original,
                  Some(AdaptiveMask(lib.adaptiveThreshold, lib.morphology, lib.ellipse, pre.img.value, params)))
  }

  /** _detect_adaptive: a block size below 3 becomes 31 and an even one is made odd. */
  method DetectAdaptive(lib: Cv.Library, pre: Defs.PreprocessedImage, original: Option<Grid<Bgr>>, params: Defs.DetectParams)
    returns (out: Option<Grid<Bgr>>)
    requires original.Some? ==> IsRect(original.value)
    ensures out == AdaptiveResult(lib, pre, original, params)
  {
    if pre.img.None? {
      return None;
    }
    var block := params.blockSize;
    if block < 3 {
      block := 31;
    }
    if block % 2 == 0 {
      block := block + 1;
    }
    assert block == Sizes.KernelSize(params.blockSize, 31);
    var mask := lib.adaptiveThreshold(pre.img.value, block, params.c);
    mask := MorphRefine(lib.morphology, lib.ellipse, mask, params.elemsize, 1, 1);
    assert mask == AdaptiveMask(lib.adaptiveThreshold, lib.morphology, lib.ellipse, pre.img.value, params);
    out := ApplyMask(lib.resizeNearest, lib.addWeighted, original, Some(mask));
  }

  /**
   * The edge-density detector's mask: Canny edges summed over a k x k window, 255 where
   * the sum exceeds edge_density_th, then one close and one open.
   */
  function EdgeMask(canny: Cv.Canny, boxSum: Cv.BoxSum, morph: Cv.Morphology, ellipse: Cv.Ellipse,
                    gray: Grid<int>, params: Defs.DetectParams)
    : Grid<int>
  {
    var density := boxSum(canny(gray, params.edgeT1, params.edgeT2), Sizes.KernelSize(params.edgeKernel, 9));
    MorphRefine(morph, ellipse, Binarize(density, params.edgeDensityTh as real), params.elemsize, 1, 1)
  }

  function EdgeResult(lib: Cv.Library, pre: Defs.PreprocessedImage, original: Option<Grid<Bgr>>, params: Defs.DetectParams)
    : Option<Grid<Bgr>>
    requires original.Some? ==> IsRect(original.value)
  {
    if pre.img.None? then None
    else Overlaid(lib.resizeNearest, lib.addWeighted, original,
                  Some(EdgeMask(lib.canny, lib.boxSum, lib.morphology, lib.ellipse, pre.img.value, params)))
  }

  /** _detect_edge_density: a window size below 3 becomes 9 and an even one is made odd. */
  method DetectEdgeDensity(lib: Cv.Library, pre: Defs.PreprocessedImage, original: Option<Grid<Bgr>>, params: Defs.DetectParams)
    returns (out: Option<Grid<Bgr>>)
    requires original.Some? ==> IsRect(original.value)
    ensures out == EdgeResult(lib, pre, original, params)
  {
    if pre.img.None? {
      return None;
    }
    var edges := lib.canny(pre.img.value, params.edgeT1, params.edgeT2);
    var k := params.edgeKernel;
    if k < 3 {
      k := 9;
    }
    if k % 2 == 0 {
      k := k + 1;
    }
    assert k == Sizes.KernelSize(params.edgeKernel, 9);
    var density := lib.boxSum(edges, k);
    var mask := Binarize(density, params.edgeDensityTh as real);
    mask := MorphRefine(lib.morphology, lib.ellipse, mask, params.elemsize, 1, 1);
    assert mask == EdgeMask(lib.canny, lib.boxSum, lib.morphology, lib.ellipse, pre.img.value, params);
    out := ApplyMask(lib.resizeNearest, lib.addWeighted, original, Some(mask));
  }

  /**
   * The saturation detector's mask: 255 where the HSV saturation of the original is at
   * most edge_density_th (dull, greyish areas), then one close and one open.
   */
  function SaturationMask(saturation: Cv.Channel, morph: Cv.Morphology, ellipse: Cv.Ellipse,
                          img: Grid<Bgr>, params: Defs.DetectParams)
    : Grid<int>
  {
    MorphRefine(morph, ellipse, BinarizeInv(ToReal(saturation(img)), params.edgeDensityTh as real), params.elemsize, 1, 1)
  }

  /** _detect_saturation: works on the original image, so only a missing original gives None. */
  function SaturationResult(lib: Cv.Library, original: Option<Grid<Bgr>>, params: Defs.DetectParams)
    : (d: Option<Grid<Bgr>>)
    requires original.Some? ==> IsRect(original.value)
    ensures d.None? <==> original.None?
  {
    if original.None? then None
    else Overlaid(lib.resizeNearest, lib.addWeighted, original,
                  Some(SaturationMask(lib.saturation, lib.morphology, lib.ellipse, original.value, params)))
  }

  // ----- dispatch -----

  /** What _dispatch_manual_detect returns for the method name m. */
  ghost function DispatchResult(lib: Cv.Library, pre: Defs.PreprocessedImage, original: Option<Grid<Bgr>>,
                                params: Defs.DetectParams, m: string)
    : Result<Option<Grid<Bgr>>>
    requires pre.img.Some? ==> IsRect(pre.img.value)
    requires original.Some? ==> IsRect(original.value)
  {
    if m == "variance" || m == "var_lbp" then Ok(VarianceCoreResult(lib, pre, original, params))
    else if m == "adaptive" then Ok(AdaptiveResult(lib, pre, original, params))
    else if m == "edge" then Ok(EdgeResult(lib, pre, original, params))
    else if m == "saturation" then Ok(SaturationResult(lib, original, params))
    else Err(ValueError("Unknown detection method: " + m))
  }

  /**
   * Exactly the five names of DETECT_METHODS are accepted; any other raises ValueError.
   * "var_lbp" runs the same variance core as "variance": whether the LBP filter runs is
   * decided by use_lbp alone.
   */
  lemma DispatchAcceptsDetectMethods(lib: Cv.Library, pre: Defs.PreprocessedImage, original: Option<Grid<Bgr>>,
                                     params: Defs.DetectParams, m: string)
    requires pre.img.Some? ==> IsRect(pre.img.value)
    requires original.Some? ==> IsRect(original.value)
    ensures DispatchResult(lib, pre, original, params, m).Ok? <==> m in Defs.DetectMethods
    ensures DispatchResult(lib, pre, original, params, m).Err? ==>
      DispatchResult(lib, pre, original, params, m).error == ValueError("Unknown detection method: " + m)
    ensures DispatchResult(lib, pre, original, params, "var_lbp") == DispatchResult(lib, pre, original, params, "variance")
  {
    Defs.DetectMethodsMembers(m);
  }

  /**
   * Every detector's output, when there is one, is the original image with some pixels
   * tinted red: it has the original's shape and each pixel is either untouched or the
   * red blend of the original pixel.
   */
  lemma DispatchOverlaysOriginal(lib: Cv.Library, pre: Defs.PreprocessedImage, original: Option<Grid<Bgr>>,
                                 params: Defs.DetectParams, m: string)
    requires pre.img.Some? ==> IsRect(pre.img.value)
    requires original.Some? ==> IsRect(original.value)
    ensures var r := DispatchResult(lib, pre, original, params, m);
      r.Ok? && r.value.Some? ==>
        && original.Some? && SameShape(r.value.value, original.value)
        && forall i, j :: 0 <= i < |original.value| && 0 <= j < |original.value[i]| ==>
             r.value.value[i][j] == original.value[i][j] || r.value.value[i][j] == Tinted(lib.addWeighted, original.value)[i][j]
  {
    var r := DispatchResult(lib, pre, original, params, m);
    if r.Ok? && r.value.Some? {
      var mask: Grid<int>;
      if m == "variance" || m == "var_lbp" {
        var gray := pre.img.value;
        var v := VarianceMap(lib.localVariance, lib.percentile, lib.normaliseMinMax, gray, Sizes.Scales(params.scales, pre.texture));
        RectShape(gray, v);
        var cand := Candidates(v, ComputeThreshold(lib.median, lib.percentile, v, params), lib.lbp(gray, params.lbpPoints, params.lbpRad),
                               params, params.useLbp && lib.hasSkimage);
        mask := MorphRefine(lib.morphology, lib.ellipse, cand, params.elemsize, params.openIter, params.closeIter);
      } else if m == "adaptive" {
        mask := AdaptiveMask(lib.adaptiveThreshold, lib.morphology, lib.ellipse, pre.img.value, params);
      } else if m == "edge" {
        mask := EdgeMask(lib.canny, lib.boxSum, lib.morphology, lib.ellipse, pre.img.value, params);
      } else {
        mask := SaturationMask(lib.saturation, lib.morphology, lib.ellipse, original.value, params);
      }
      assert r.value == Overlaid(lib.resizeNearest, lib.addWeighted, original, Some(mask));
      OverlaidFromImage(lib.resizeNearest, lib.addWeighted, original, Some(mask));
    }
  }

  /** _dispatch_manual_detect(st, m). */
  method DispatchManualDetect(lib: Cv.Library, pre: Defs.PreprocessedImage, original: Option<Grid<Bgr>>,
                              params: Defs.DetectParams, m: string)
    returns (r: Result<Option<Grid<Bgr>>>)
    requires pre.img.Some? ==> IsRect(pre.img.value)
    requires original.Some? ==> IsRect(original.value)
    ensures r == DispatchResult(lib, pre, original, params, m)
  {
    if m == "variance" || m == "var_lbp" {
      var d := DetectVarianceCore(lib, pre, original, params);
      return Ok(d);
    }
    if m == "adaptive" {
      var d := DetectAdaptive(lib, pre, original, params);
      return Ok(d);
    }
    if m == "edge" {
      var d := DetectEdgeDensity(lib, pre, original, params);
      return Ok(d);
    }
    if m == "saturation" {
      return Ok(SaturationResult(lib, original, params));
    }
    return Err(ValueError("Unknown detection method: " + m));
  }

  /**
   * Processor.detect(img_st): nothing to detect without a gray image; a custom run writes
   * "Manual: <method>" and dispatches on the method name, an automatic run writes
   * "Auto: variance-core" and always uses the variance core.
   */
  method Detect(lib: Cv.Library, st: AppStore.ImageState, custom: bool) returns (r: Result<Option<Grid<Bgr>>>)
    requires st.Valid()
    modifies st
    ensures st.Record() == old(st.Record())
    ensures st.preprocessed.img.None? ==> r == Ok(None) && st.info == old(st.info)
    ensures st.preprocessed.img.Some? && custom ==>
      && st.info == "Manual: " + st.detectParams.detector
      && r == DispatchResult(lib, st.preprocessed, st.original, st.detectParams, st.detectParams.detector)
    ensures st.preprocessed.img.Some? && !custom ==>
      st.info == "Auto: variance-core" && r == Ok(VarianceCoreResult(lib, st.preprocessed, st.original, st.detectParams))
  {
    if st.preprocessed.img.None? {
      return Ok(None);
    }
    if custom {
      var m := st.detectParams.detector;
      st.info := "Manual: " + m;
      r := DispatchManualDetect(lib, st.preprocessed, st.original, st.detectParams, m);
      return;
    }
    st.info := "Auto: variance-core";
    var d := DetectVarianceCore(lib, st.preprocessed, st.original, st.detectParams);
    r := Ok(d);
  }

  // ----- preprocessing -----

  /**
   * What preprocess computes from a loaded image: the downscaled image converted with the
   * user's method (custom) or the automatic choice, optionally equalised with CLAHE, and
   * the texture level of the result.
   */
  function PreprocessResult(lib: Cv.Library, original: Grid<Bgr>, pp: Defs.PreprocessParams, custom: bool)
    : Result<(Grid<int>, string)>
  {
    match Convert.ScaleImg(lib.resizeArea, original)
    case Err(e) => Err(e)
    case Ok(img) =>
      var name := if custom then pp.grayMethod else AutoGrayscale(lib.saturation, img);
      match Convert.ToGrayscale(lib.toGray, img, name)
      case Err(e) => Err(e)
      case Ok(g) =>
        var gray := if pp.useClahe then lib.clahe(g, pp.claheClip, pp.claheGrid) else g;
        Ok((gray, TextureFromTail(FractionAbove(VarianceMap(lib.localVariance, lib.percentile, lib.normaliseMinMax, gray, [9]), 60))))
  }

  /**
   * Preprocessing fails exactly on an image without pixels (the scale divides by zero), on
   * an image too thin to scale (cv2.resize refuses the empty size), or on a custom run
   * with an unknown grayscale method; an automatic run on any other image succeeds.
   */
  lemma PreprocessErrors(lib: Cv.Library, original: Grid<Bgr>, pp: Defs.PreprocessParams, custom: bool)
    ensures var r := PreprocessResult(lib, original, pp, custom);
      var thin := Convert.ScalesToNothing(|original|, Width(original));
      && (r.Err? <==> |original| == 0 || thin || (custom && pp.grayMethod !in Defs.PreprocessMethods))
      && (|original| == 0 ==> r == Err(ZeroDivisionError))
      && (|original| > 0 && thin ==> r == Err(CvError))
      && (|original| > 0 && !thin && r.Err? ==> r.error == ValueError("Unknown method: " + pp.grayMethod))
  {
  }

  /**
   * A successful preprocessing yields a gray image that is no larger than the original
   * in either direction and fits in MaxDim x MaxDim, and a texture level from the list.
   */
  lemma PreprocessFits(lib: Cv.Library, original: Grid<Bgr>, pp: Defs.PreprocessParams, custom: bool)
    requires IsRect(original)
    ensures var r := PreprocessResult(lib, original, pp, custom);
      r.Ok? ==> && Convert.FitsIn(r.value.0, |original|, Width(original))
                && Convert.FitsIn(r.value.0, Convert.MaxDim, Convert.MaxDim)
                && r.value.1 in Defs.TextureLevels
  {
    var r := PreprocessResult(lib, original, pp, custom);
    if r.Ok? {
      Convert.ScaleNeverUpscales(lib.resizeArea, original);
      var img := Convert.ScaleImg(lib.resizeArea, original).value;
      assert SameShape(r.value.0, img);
      RectShape(img, r.value.0);
    }
  }

  /** The steps of preprocess on a loaded image: scale, choose, convert, equalise, classify. */
  method PreprocessImage(lib: Cv.Library, original: Grid<Bgr>, pp: Defs.PreprocessParams, custom: bool)
    returns (r: Result<(Grid<int>, string)>)
    ensures r == PreprocessResult(lib, original, pp, custom)
  {
    var scaled := Convert.ScaleImg(lib.resizeArea, original);
    if scaled.Err? {
      return Err(scaled.error);
    }
    var img := scaled.value;
    var name;
    if custom {
      name := pp.grayMethod;
    } else {
      name := AutoGrayscale(lib.saturation, img);
    }
    var converted := Convert.ToGrayscale(lib.toGray, img, name);
    if converted.Err? {
      return Err(converted.error);
    }
    var gray := converted.value;
    if pp.useClahe {
      gray := lib.clahe(gray, pp.claheClip, pp.claheGrid);
    }
    var texture := EstimateTextureLevel(lib, gray);
    r := Ok((gray, texture));
  }

  /**
   * Processor.preprocess(img_st): None when there is no original image; otherwise the
   * gray image and its texture level, and info is reset. The exceptions of the scaling
   * and of the grayscale conversion propagate and leave info as it was.
   */
  method Preprocess(lib: Cv.Library, st: AppStore.ImageState, custom: bool) returns (r: Result<Option<(Grid<int>, string)>>)
    modifies st
    ensures st.Record() == old(st.Record())
    ensures st.original.None? ==> r == Ok(None) && st.info == old(st.info)
    ensures st.original.Some? ==>
      var p := PreprocessResult(lib, st.original.value, st.preprocessParams, custom);
      && (p.Ok? ==> r == Ok(Some(p.value)) && st.info == "")
      && (p.Err? ==> r == Err(p.error) && st.info == old(st.info))
  {
    if st.original.None? {
      return Ok(None);
    }
    var p := PreprocessImage(lib, st.original.value, st.preprocessParams, custom);
    if p.Err? {
      return Err(p.error);
    }
    st.info := "";
    r := Ok(Some(p.value));
  }
}
