/**
 * The texture map of the variance detector and what is decided from it: the multi-scale
 * local-variance map (_variance_multiscale), the threshold policy (_compute_threshold),
 * the binarisation of the map, and the texture level of a gray image
 * (_estimate_texture_level).
 */
module Variance {
  import opened Wrappers
  import opened Grid
  import opened Cv
  import Defs

  function RMax(a: real, b: real): real { if a >= b then a else b }

  function RMin(a: real, b: real): real { if a <= b then a else b }

  function ToReal(g: Grid<int>): (v: Grid<real>)
    ensures SameShape(v, g)
    ensures forall r, c :: 0 <= r < |g| && 0 <= c < |g[r]| ==> v[r][c] == g[r][c] as real
  {
    MapGrid(g, (x: int) => x as real)
  }

  /** np.maximum of two maps of one shape. */
  function MaxGrid(a: Grid<real>, b: Grid<real>): (m: Grid<real>)
    requires SameShape(a, b)
    ensures SameShape(m, a)
    ensures forall r, c :: 0 <= r < |a| && 0 <= c < |a[r]| ==> m[r][c] == RMax(a[r][c], b[r][c])
  {
    seq(|a|, r requires 0 <= r < |a| => seq(|a[r]|, c requires 0 <= c < |a[r]| => RMax(a[r][c], b[r][c])))
  }

  /** The combined map: np.maximum folded over the local variance at each box size. */
  function CombinedVar(lv: LocalVariance, gray: Grid<int>, scales: seq<int>): (v: Grid<real>)
    requires |scales| > 0
    ensures SameShape(v, gray)
  {
    var last := lv(gray, scales[|scales| - 1]);
    if |scales| == 1 then last
    else MaxGrid(CombinedVar(lv, gray, scales[..|scales| - 1]), last)
  }

  /**
   * At every pixel the combined map is the maximum over the scales: at least the local
   * variance at each box size, and equal to the variance at one of them.
   */
  lemma {:induction false} CombinedVarIsMax(lv: LocalVariance, gray: Grid<int>, scales: seq<int>, r: int, c: int)
    requires |scales| > 0 && 0 <= r < |gray| && 0 <= c < |gray[r]|
    ensures forall i :: 0 <= i < |scales| ==> lv(gray, scales[i])[r][c] <= CombinedVar(lv, gray, scales)[r][c]
    ensures exists i :: 0 <= i < |scales| && CombinedVar(lv, gray, scales)[r][c] == lv(gray, scales[i])[r][c]
  {
    var n := |scales|;
    var last := lv(gray, scales[n - 1]);
    if n == 1 {
      assert CombinedVar(lv, gray, scales) == last;
      assert CombinedVar(lv, gray, scales)[r][c] == lv(gray, scales[0])[r][c];
      forall i | 0 <= i < n
        ensures lv(gray, scales[i])[r][c] <= CombinedVar(lv, gray, scales)[r][c]
      {
        assert i == 0;
      }
    } else {
      var init := scales[..n - 1];
      CombinedVarIsMax(lv, gray, init, r, c);
      var prev := CombinedVar(lv, gray, init);
      assert CombinedVar(lv, gray, scales)[r][c] == RMax(prev[r][c], last[r][c]);
      forall i | 0 <= i < n
        ensures lv(gray, scales[i])[r][c] <= CombinedVar(lv, gray, scales)[r][c]
      {
        if i < n - 1 {
          assert scales[i] == init[i];
        }
      }
      var j :| 0 <= j < n - 1 && prev[r][c] == lv(gray, init[j])[r][c];
      if prev[r][c] >= last[r][c] {
        assert CombinedVar(lv, gray, scales)[r][c] == lv(gray, scales[j])[r][c];
      } else {
        assert CombinedVar(lv, gray, scales)[r][c] == lv(gray, scales[n - 1])[r][c];
      }
    }
  }

  /** np.clip(v, lo, hi). */
  function Clip(v: Grid<real>, lo: real, hi: real): (w: Grid<real>)
    ensures SameShape(w, v)
    ensures forall r, c :: 0 <= r < |v| && 0 <= c < |v[r]| ==> w[r][c] == RMin(RMax(v[r][c], lo), hi)
  {
    MapGrid(v, (x: real) => RMin(RMax(x, lo), hi))
  }

  /** The combined map clipped to its 1st .. 99.5th percentile, before normalisation. */
  function ClippedVar(lv: LocalVariance, pc: Percentile, gray: Grid<int>, scales: seq<int>): Grid<real>
    requires |scales| > 0
  {
    var v := CombinedVar(lv, gray, scales);
    Clip(v, pc(Flatten(v), 1.0), pc(Flatten(v), 99.5))
  }

  /** Because the 1st percentile never exceeds the 99.5th, every clipped sample lies between them. */
  lemma ClippedWithinPercentiles(lv: LocalVariance, pc: Percentile, gray: Grid<int>, scales: seq<int>)
    requires |scales| > 0
    ensures var v := CombinedVar(lv, gray, scales);
      var lo, hi := pc(Flatten(v), 1.0), pc(Flatten(v), 99.5);
      var w := ClippedVar(lv, pc, gray, scales);
      lo <= hi && forall r, c :: 0 <= r < |w| && 0 <= c < |w[r]| ==> lo <= w[r][c] <= hi
  {
    var v := CombinedVar(lv, gray, scales);
    assert pc(Flatten(v), 1.0) <= pc(Flatten(v), 99.5);
  }

  /** The 8-bit texture map: the clipped combined variance, min-max normalised to 0 .. 255. */
  function VarianceMap(lv: LocalVariance, pc: Percentile, nm: Normalise, gray: Grid<int>, scales: seq<int>): (m: Grid<int>)
    requires |scales| > 0
    ensures SameShape(m, gray)
  {
    nm(ClippedVar(lv, pc, gray, scales))
  }

  /** _variance_multiscale(gray, scales, normalize=True): the running maximum over the scales. */
  method VarianceMultiscale(lv: LocalVariance, pc: Percentile, nm: Normalise, gray: Grid<int>, scales: seq<int>) returns (m: Grid<int>)
    requires |scales| > 0
    ensures m == VarianceMap(lv, pc, nm, gray, scales)
  {
    var combined: Option<Grid<real>> := None;
    var i := 0;
    while i < |scales|
      invariant 0 <= i <= |scales|
      invariant combined.None? <==> i == 0
      invariant i > 0 ==> combined.value == CombinedVar(lv, gray, scales[..i])
    {
      var v := lv(gray, scales[i]);
      assert scales[..i + 1][..i] == scales[..i];
      if combined.None? {
        combined := Some(v);
      } else {
        combined := Some(MaxGrid(combined.value, v));
      }
      i := i + 1;
    }
    assert scales[..|scales|] == scales;
    var all := combined.value;
    var hi := pc(Flatten(all), 99.5);
    var lo := pc(Flatten(all), 1.0);
    var clipped := Clip(all, lo, hi);
    m := nm(clipped);
  }

  /** The threshold modes, by name. */
  const Fixed := "fixed"
  const ZScore := "zscore"

  /** The percentile clamped into [50, 99.5]. */
  function ClampPercentile(p: real): (q: real)
    ensures 50.0 <= q <= 99.5
    ensures 50.0 <= p <= 99.5 ==> q == p
  {
    RMax(50.0, RMin(99.5, p))
  }

  function Samples(v: Grid<int>): (s: seq<real>)
    ensures |s| == |Flatten(v)|
    ensures forall i :: 0 <= i < |s| ==> s[i] == Flatten(v)[i] as real
  {
    seq(|Flatten(v)|, i requires 0 <= i < |Flatten(v)| => Flatten(v)[i] as real)
  }

  function AbsDeviations(s: seq<real>, m: real): (d: seq<real>)
    ensures |d| == |s| && forall i :: 0 <= i < |d| ==> d[i] >= 0.0
  {
    seq(|s|, i requires 0 <= i < |s| => if s[i] >= m then s[i] - m else m - s[i])
  }

  /**
   * _compute_threshold: "fixed" is fixed_th itself; "zscore" is the median plus z_k robust
   * standard deviations (1.4826 times the median absolute deviation plus 1e-6); any other
   * mode is the percentile of the map at the clamped percentile.
   */
  function ComputeThreshold(md: Median, pc: Percentile, v: Grid<int>, p: Defs.DetectParams): real {
    if p.thMode == Fixed then p.fixedTh as real
    else if p.thMode == ZScore then
      var x := Samples(v);
      var med := md(x);
      var mad := md(AbsDeviations(x, med)) + 0.000001;
      med + p.zK * (1.4826 * mad)
    else pc(Samples(v), ClampPercentile(p.percentile))
  }

  /** A fixed threshold does not look at the map. */
  lemma FixedIgnoresMap(md: Median, pc: Percentile, v: Grid<int>, w: Grid<int>, p: Defs.DetectParams)
    requires p.thMode == Fixed
    ensures ComputeThreshold(md, pc, v, p) == ComputeThreshold(md, pc, w, p) == p.fixedTh as real
  {
  }

  /**
   * The robust deviation is positive (a median of absolute values plus 1e-6), so a
   * z-score threshold with z_k >= 0 is never below the median, and above it when z_k > 0.
   */
  lemma ZScoreAboveMedian(md: Median, pc: Percentile, v: Grid<int>, p: Defs.DetectParams)
    requires p.thMode == ZScore && p.zK >= 0.0
    ensures ComputeThreshold(md, pc, v, p) >= md(Samples(v))
    ensures p.zK > 0.0 ==> ComputeThreshold(md, pc, v, p) > md(Samples(v))
  {
    var x := Samples(v);
    var med := md(x);
    var d := AbsDeviations(x, med);
    assert md(d) >= 0.0;
    var s := 1.4826 * (md(d) + 0.000001);
    assert s > 0.0;
    assert p.zK * s >= 0.0;
    if p.zK > 0.0 {
      assert p.zK * s > 0.0;
    }
  }

  /** Any other mode lands between the 50th and 99.5th percentile of the map. */
  lemma PercentileWithinBand(md: Median, pc: Percentile, v: Grid<int>, p: Defs.DetectParams)
    requires p.thMode != Fixed && p.thMode != ZScore
    ensures pc(Samples(v), 50.0) <= ComputeThreshold(md, pc, v, p) <= pc(Samples(v), 99.5)
  {
    var q := ClampPercentile(p.percentile);
    assert pc(Samples(v), 50.0) <= pc(Samples(v), q);
    assert pc(Samples(v), q) <= pc(Samples(v), 99.5);
  }

  /** Raising the requested percentile never lowers the threshold. */
  lemma PercentileMonotone(md: Median, pc: Percentile, v: Grid<int>, p: Defs.DetectParams, p': Defs.DetectParams)
    requires p.thMode == p'.thMode && p.thMode != Fixed && p.thMode != ZScore
    requires p.percentile <= p'.percentile
    ensures ComputeThreshold(md, pc, v, p) <= ComputeThreshold(md, pc, v, p')
  {
    var q, q' := ClampPercentile(p.percentile), ClampPercentile(p'.percentile);
    assert q <= q';
    assert pc(Samples(v), q) <= pc(Samples(v), q');
  }

  /** Raising z_k never lowers the z-score threshold: the robust deviation is positive. */
  lemma ZScoreMonotone(md: Median, pc: Percentile, v: Grid<int>, p: Defs.DetectParams, p': Defs.DetectParams)
    requires p.thMode == ZScore && p'.thMode == ZScore
    requires p.zK <= p'.zK
    ensures ComputeThreshold(md, pc, v, p) <= ComputeThreshold(md, pc, v, p')
  {
    var x := Samples(v);
    var med := md(x);
    var d := AbsDeviations(x, med);
    assert md(d) >= 0.0;
    var s := 1.4826 * (md(d) + 0.000001);
    assert s > 0.0;
    assert (p'.zK - p.zK) * s >= 0.0;
  }

  predicate IsMaskValue(x: int) { x == 0 || x == 255 }

  /** cv2.threshold(v, th, 255, THRESH_BINARY), and (v > th).astype(uint8) * 255. */
  function Binarize(v: Grid<real>, th: real): (m: Grid<int>)
    ensures SameShape(m, v)
    ensures forall r, c :: 0 <= r < |v| && 0 <= c < |v[r]| ==>
      IsMaskValue(m[r][c]) && (m[r][c] == 255 <==> v[r][c] > th)
  {
    MapGrid(v, (x: real) => if x > th then 255 else 0)
  }

  /** cv2.threshold(v, th, 255, THRESH_BINARY_INV): the complement of Binarize. */
  function BinarizeInv(v: Grid<real>, th: real): (m: Grid<int>)
    ensures SameShape(m, v)
    ensures forall r, c :: 0 <= r < |v| && 0 <= c < |v[r]| ==>
      IsMaskValue(m[r][c]) && (m[r][c] == 255 <==> !(v[r][c] > th))
  {
    MapGrid(v, (x: real) => if x > th then 0 else 255)
  }

  /** The two thresholdings select complementary pixels. */
  lemma BinarizeInvComplements(v: Grid<real>, th: real)
    ensures forall r, c :: 0 <= r < |v| && 0 <= c < |v[r]| ==>
      Binarize(v, th)[r][c] + BinarizeInv(v, th)[r][c] == 255
  {
  }

  /**
   * The texture level from the fraction of the map above 60: below 1% is low, below 4%
   * is medium, anything else (NaN included, for an empty image) is high.
   */
  function TextureFromTail(tail: Option<real>): (t: string)
    ensures t in Defs.TextureLevels
  {
    if tail.Some? && tail.value < 0.01 then "low_txt"
    else if tail.Some? && tail.value < 0.04 then "mid_txt"
    else "high_txt"
  }

  /** The position of a level in low < mid < high. */
  function TextureRank(t: string): nat {
    if t == "low_txt" then 0 else if t == "mid_txt" then 1 else 2
  }

  /** A larger tail never gives a lower texture level. */
  lemma TextureMonotone(a: real, b: real)
    requires a <= b
    ensures TextureRank(TextureFromTail(Some(a))) <= TextureRank(TextureFromTail(Some(b)))
  {
  }

  /** _estimate_texture_level: the tail of the single-scale (9 x 9) texture map. */
  method EstimateTextureLevel(lib: Library, gray: Grid<int>) returns (t: string)
    ensures t == TextureFromTail(FractionAbove(VarianceMap(lib.localVariance, lib.percentile, lib.normaliseMinMax, gray, [9]), 60))
    ensures t in Defs.TextureLevels
  {
    var v := VarianceMultiscale(lib.localVariance, lib.percentile, lib.normaliseMinMax, gray, [9]);
    var tail := FractionAbove(v, 60);
    t := TextureFromTail(tail);
  }
}
