/**
 * The two component filters of the variance detector. Each labels the 8-connected
 * components of a mask and writes the components it keeps, whole, into a zeroed output:
 * _filter_components_by_area keeps a component by its share of the image area, and
 * _refine_with_lbp drops a component whose LBP codes are mostly uniform patterns.
 */
module Filters {
  import opened Grid
  import opened Components
  import opened Variance
  import Cv

  /** Under a complete labelling, the pixels carrying p's label are exactly p's component. */
  lemma LabelIsComponent(m: Grid<int>, num: nat, lab: map<Pixel, nat>, areas: seq<nat>, p: Pixel, q: Pixel)
    requires IsLabelling(m, num, lab, areas) && p in lab
    ensures (q in lab && lab[q] == lab[p]) <==> q in Component(m, p)
  {
    if q in Component(m, p) {
      ConnectedFg(m, p, q);
    }
    if q in lab && lab[q] == lab[p] {
      FgInSet(m, q);
    }
  }

  /** out[labels == k] = 255: every pixel labelled k becomes 255, every other pixel is kept. */
  method PaintLabel(a: array2<int>, lab: map<Pixel, nat>, k: nat)
    modifies a
    ensures forall r, c :: 0 <= r < a.Length0 && 0 <= c < a.Length1 ==>
      a[r, c] == if (r, c) in lab && lab[(r, c)] == k then 255 else old(a[r, c])
  {
    var r := 0;
    while r < a.Length0
      invariant 0 <= r <= a.Length0
      invariant forall i, j :: 0 <= i < a.Length0 && 0 <= j < a.Length1 ==>
        a[i, j] == if i < r && (i, j) in lab && lab[(i, j)] == k then 255 else old(a[i, j])
    {
      var c := 0;
      while c < a.Length1
        invariant 0 <= c <= a.Length1
        invariant forall i, j :: 0 <= i < a.Length0 && 0 <= j < a.Length1 ==>
          a[i, j] == if (i < r || (i == r && j < c)) && (i, j) in lab && lab[(i, j)] == k then 255 else old(a[i, j])
      {
        if (r, c) in lab && lab[(r, c)] == k {
          a[r, c] := 255;
        }
        c := c + 1;
      }
      r := r + 1;
    }
  }

  // ----- area filter -----

  /** A component is kept unless its area is below min_ratio * A or above max_ratio * A. */
  predicate KeepArea(area: int, minRatio: real, maxRatio: real, imgArea: int) {
    !(area as real < minRatio * imgArea as real) && !(area as real > maxRatio * imgArea as real)
  }

  /** What the area filter leaves: 255 on the components whose area is kept, 0 elsewhere. */
  ghost function AreaFilter(mask: Grid<int>, minRatio: real, maxRatio: real): (out: Grid<int>)
    ensures HasShape(out, |mask|, Width(mask))
  {
    var imgArea := |mask| * Width(mask);
    Build(|mask|, Width(mask), (p: Pixel) =>
      if Fg(mask, p) && KeepArea(|Component(mask, p)|, minRatio, maxRatio, imgArea) then 255 else 0)
  }

  /**
   * The output of the area filter is a 0/255 mask inside the input's foreground, keeps
   * a foreground pixel exactly when the area of its component is in the band, and
   * treats connected pixels alike.
   */
  lemma AreaFilterKeepsWholeComponents(mask: Grid<int>, minRatio: real, maxRatio: real, p: Pixel, q: Pixel)
    requires IsRect(mask) && InGrid(mask, p)
    ensures var out := AreaFilter(mask, minRatio, maxRatio);
      && IsMaskValue(out[p.0][p.1])
      && (out[p.0][p.1] == 255 ==> Fg(mask, p))
      && (Fg(mask, p) ==> (out[p.0][p.1] == 255 <==>
            KeepArea(|Component(mask, p)|, minRatio, maxRatio, |mask| * Width(mask))))
      && (Connected(mask, p, q) ==> InGrid(mask, q) && out[q.0][q.1] == out[p.0][p.1])
  {
    if Connected(mask, p, q) {
      ConnectedFg(mask, p, q);
      SameComponent(mask, p, q);
    }
  }

  /** Every labelled pixel carries a label in 1 .. n-1. */
  predicate LabelsIn(lab: map<Pixel, nat>, n: nat) {
    forall p :: p in lab ==> 1 <= lab[p] < n
  }

  /**
   * The painting loop of _filter_components_by_area: for label i = 1 .. |areas|-1, the
   * pixels labelled i are set to 255 when areas[i] is in the band; all others stay 0.
   */
  method PaintKeptAreas(lab: map<Pixel, nat>, areas: seq<nat>, minRatio: real, maxRatio: real, h: nat, w: nat)
    returns (out: Grid<int>)
    requires LabelsIn(lab, |areas|)
    ensures HasShape(out, h, w)
    ensures forall r, c :: 0 <= r < h && 0 <= c < w ==>
      out[r][c] == if (r, c) in lab && KeepArea(areas[lab[(r, c)]], minRatio, maxRatio, h * w) then 255 else 0
  {
    var a := new int[h, w]((r, c) => 0);
    var i := 1;
    while i < |areas|
      invariant 1 <= i && (i <= |areas| || |areas| == 0)
      invariant forall r, c :: 0 <= r < h && 0 <= c < w ==>
        a[r, c] == if (r, c) in lab && lab[(r, c)] < i && KeepArea(areas[lab[(r, c)]], minRatio, maxRatio, h * w)
                   then 255 else 0
    {
      if KeepArea(areas[i], minRatio, maxRatio, h * w) {
        PaintLabel(a, lab, i);
      }
      i := i + 1;
    }
    out := Snapshot(a);
  }

  /** Painting by label areas under a complete labelling gives exactly the area filter. */
  lemma AreaFilterFromLabels(mask: Grid<int>, num: nat, lab: map<Pixel, nat>, areas: seq<nat>,
                             minRatio: real, maxRatio: real, out: Grid<int>)
    requires IsRect(mask) && IsLabelling(mask, num, lab, areas)
    requires HasShape(out, |mask|, Width(mask))
    requires forall r, c :: 0 <= r < |mask| && 0 <= c < Width(mask) ==>
      out[r][c] == if (r, c) in lab && KeepArea(areas[lab[(r, c)]], minRatio, maxRatio, |mask| * Width(mask))
                   then 255 else 0
    ensures out == AreaFilter(mask, minRatio, maxRatio)
  {
    var h, w := |mask|, Width(mask);
    forall r, c | 0 <= r < h && 0 <= c < w
      ensures out[r][c] == AreaFilter(mask, minRatio, maxRatio)[r][c]
    {
      if (r, c) in lab {
        assert areas[lab[(r, c)]] == |Component(mask, (r, c))|;
      }
    }
    GridExt(out, AreaFilter(mask, minRatio, maxRatio), h, w);
  }

  /**
   * _filter_components_by_area(mask, min_ratio, max_ratio): label the 8-connected
   * components, then paint label by label the ones whose area is kept.
   */
  method FilterComponentsByArea(mask: Grid<int>, minRatio: real, maxRatio: real) returns (out: Grid<int>)
    requires IsRect(mask)
    ensures out == AreaFilter(mask, minRatio, maxRatio)
  {
    var num, lab, areas := ConnectedComponentsWithStats(mask);
    out := PaintKeptAreas(lab, areas, minRatio, maxRatio, |mask|, Width(mask));
    AreaFilterFromLabels(mask, num, lab, areas, minRatio, maxRatio, out);
  }

  // ----- LBP filter -----

  /** The pixels of the component of p, as a boolean image of the mask's shape. */
  ghost function ComponentPixels(mask: Grid<int>, p: Pixel): Grid<bool> {
    Build(|mask|, Width(mask), (q: Pixel) => q in Component(mask, p))
  }

  /** The pixels of the component of p whose LBP code is a uniform pattern (code <= points). */
  ghost function UniformPixels(codes: Grid<real>, mask: Grid<int>, points: int, p: Pixel): Grid<bool> {
    Build(|mask|, Width(mask), (q: Pixel) =>
      q in Component(mask, p) && InGrid(codes, q) && codes[q.0][q.1] <= points as real)
  }

  /**
   * A component is kept when it is non-empty and the share of uniform codes in it does
   * not exceed lbp_uniform_th.
   */
  predicate KeepLbp(size: nat, uniform: nat, th: real) {
    size > 0 && !(uniform as real / size as real > th)
  }

  /** What the LBP filter leaves: 255 on the components it keeps, 0 elsewhere. */
  ghost function LbpFilter(codes: Grid<real>, mask: Grid<int>, points: int, th: real): (out: Grid<int>)
    ensures HasShape(out, |mask|, Width(mask))
  {
    Build(|mask|, Width(mask), (p: Pixel) =>
      if Fg(mask, p) && KeepLbp(Count(ComponentPixels(mask, p), Yes), Count(UniformPixels(codes, mask, points, p), Yes), th)
      then 255 else 0)
  }

  /** The executable form of the region of label k (labels == k). */
  function LabelPixels(lab: map<Pixel, nat>, k: nat, h: nat, w: nat): Grid<bool> {
    Build(h, w, (q: Pixel) => q in lab && lab[q] == k)
  }

  /** The executable form of (lbp[labels == k] <= points). */
  function LabelUniformPixels(lab: map<Pixel, nat>, k: nat, codes: Grid<real>, points: int, h: nat, w: nat): Grid<bool> {
    Build(h, w, (q: Pixel) => q in lab && lab[q] == k && InGrid(codes, q) && codes[q.0][q.1] <= points as real)
  }

  /** The region of a label is the component the label names. */
  lemma LabelPixelsAreComponent(mask: Grid<int>, num: nat, lab: map<Pixel, nat>, areas: seq<nat>, p: Pixel)
    requires IsRect(mask) && IsLabelling(mask, num, lab, areas) && p in lab
    ensures LabelPixels(lab, lab[p], |mask|, Width(mask)) == ComponentPixels(mask, p)
  {
    var h, w := |mask|, Width(mask);
    var x, y := LabelPixels(lab, lab[p], h, w), ComponentPixels(mask, p);
    forall r, c | 0 <= r < h && 0 <= c < w
      ensures x[r][c] == y[r][c]
    {
      LabelIsComponent(mask, num, lab, areas, p, (r, c));
    }
    GridExt(x, y, h, w);
  }

  /** The uniform part of a label's region is the uniform part of its component. */
  lemma LabelUniformPixelsAreComponent(mask: Grid<int>, num: nat, lab: map<Pixel, nat>, areas: seq<nat>,
                                       codes: Grid<real>, points: int, p: Pixel)
    requires IsRect(mask) && IsLabelling(mask, num, lab, areas) && p in lab
    ensures LabelUniformPixels(lab, lab[p], codes, points, |mask|, Width(mask)) == UniformPixels(codes, mask, points, p)
  {
    var h, w := |mask|, Width(mask);
    var x, y := LabelUniformPixels(lab, lab[p], codes, points, h, w), UniformPixels(codes, mask, points, p);
    forall r, c | 0 <= r < h && 0 <= c < w
      ensures x[r][c] == y[r][c]
    {
      LabelIsComponent(mask, num, lab, areas, p, (r, c));
    }
    GridExt(x, y, h, w);
  }

  /** The LBP filter's output is a 0/255 mask inside the input's foreground. */
  lemma LbpFilterIsSubmask(codes: Grid<real>, mask: Grid<int>, points: int, th: real, p: Pixel)
    requires IsRect(mask) && InGrid(mask, p)
    ensures var v := LbpFilter(codes, mask, points, th)[p.0][p.1];
      IsMaskValue(v) && (v == 255 ==> Fg(mask, p))
  {
  }

  /**
   * A foreground pixel's component is never empty, and the pixel is dropped exactly when
   * the share of uniform codes in its component exceeds the threshold.
   */
  lemma LbpFilterDropsUniform(codes: Grid<real>, mask: Grid<int>, points: int, th: real, p: Pixel)
    requires IsRect(mask) && InGrid(mask, p) && Fg(mask, p)
    ensures var size, uniform := Count(ComponentPixels(mask, p), Yes), Count(UniformPixels(codes, mask, points, p), Yes);
      size > 0 && (LbpFilter(codes, mask, points, th)[p.0][p.1] == 0 <==> uniform as real / size as real > th)
  {
    InOwnComponent(mask, p);
    assert ComponentPixels(mask, p)[p.0][p.1];
    CountPositive(ComponentPixels(mask, p), Yes, p.0, p.1);
  }

  /** The LBP filter treats connected pixels alike: components are kept or dropped whole. */
  lemma LbpFilterKeepsWholeComponents(codes: Grid<real>, mask: Grid<int>, points: int, th: real, p: Pixel, q: Pixel)
    requires IsRect(mask) && Connected(mask, p, q)
    ensures InGrid(mask, p) && InGrid(mask, q)
    ensures LbpFilter(codes, mask, points, th)[q.0][q.1] == LbpFilter(codes, mask, points, th)[p.0][p.1]
  {
    ConnectedFg(mask, p, q);
    SameComponent(mask, p, q);
    assert ComponentPixels(mask, p) == ComponentPixels(mask, q);
    assert UniformPixels(codes, mask, points, p) == UniformPixels(codes, mask, points, q);
  }

  /** Whether the LBP filter keeps label k, computed from the label map as the loop does. */
  predicate KeepLabelLbp(lab: map<Pixel, nat>, k: nat, codes: Grid<real>, points: int, th: real, h: nat, w: nat) {
    KeepLbp(Count(LabelPixels(lab, k, h, w), Yes), Count(LabelUniformPixels(lab, k, codes, points, h, w), Yes), th)
  }

  /**
   * The painting loop of _refine_with_lbp: for label i = 1 .. num-1, the pixels labelled
   * i are set to 255 when the label is kept; all others stay 0.
   */
  method PaintKeptLbp(lab: map<Pixel, nat>, num: nat, codes: Grid<real>, points: int, th: real, h: nat, w: nat)
    returns (out: Grid<int>)
    requires LabelsIn(lab, num)
    ensures HasShape(out, h, w)
    ensures forall r, c :: 0 <= r < h && 0 <= c < w ==>
      out[r][c] == if (r, c) in lab && KeepLabelLbp(lab, lab[(r, c)], codes, points, th, h, w) then 255 else 0
  {
    var a := new int[h, w]((r, c) => 0);
    var i := 1;
    while i < num
      invariant 1 <= i && (i <= num || num == 0)
      invariant forall r, c :: 0 <= r < h && 0 <= c < w ==>
        a[r, c] == if (r, c) in lab && lab[(r, c)] < i && KeepLabelLbp(lab, lab[(r, c)], codes, points, th, h, w)
                   then 255 else 0
    {
      var size := Count(LabelPixels(lab, i, h, w), Yes);
      var uniform := Count(LabelUniformPixels(lab, i, codes, points, h, w), Yes);
      if size > 0 && !(uniform as real / size as real > th) {
        PaintLabel(a, lab, i);
      }
      i := i + 1;
    }
    out := Snapshot(a);
  }

  /** Painting the kept labels under a complete labelling gives exactly the LBP filter. */
  lemma LbpFilterFromLabels(mask: Grid<int>, num: nat, lab: map<Pixel, nat>, areas: seq<nat>,
                            codes: Grid<real>, points: int, th: real, out: Grid<int>)
    requires IsRect(mask) && IsLabelling(mask, num, lab, areas)
    requires HasShape(out, |mask|, Width(mask))
    requires forall r, c :: 0 <= r < |mask| && 0 <= c < Width(mask) ==>
      out[r][c] == if (r, c) in lab && KeepLabelLbp(lab, lab[(r, c)], codes, points, th, |mask|, Width(mask))
                   then 255 else 0
    ensures out == LbpFilter(codes, mask, points, th)
  {
    var h, w := |mask|, Width(mask);
    var f := LbpFilter(codes, mask, points, th);
    forall r, c | 0 <= r < h && 0 <= c < w
      ensures out[r][c] == f[r][c]
    {
      if (r, c) in lab {
        LabelPixelsAreComponent(mask, num, lab, areas, (r, c));
        LabelUniformPixelsAreComponent(mask, num, lab, areas, codes, points, (r, c));
      }
    }
    GridExt(out, f, h, w);
  }

  /**
   * _refine_with_lbp: without scikit-image the mask comes back unchanged; otherwise the
   * LBP code map is computed from gray and each component is kept or dropped as a whole.
   */
  method RefineWithLbp(hasSkimage: bool, lbp: Cv.Lbp, gray: Grid<int>, mask: Grid<int>, points: int, radius: int, th: real)
    returns (out: Grid<int>)
    requires IsRect(mask) && SameShape(gray, mask)
    ensures !hasSkimage ==> out == mask
    ensures hasSkimage ==> out == LbpFilter(lbp(gray, points, radius), mask, points, th)
  {
    if !hasSkimage {
      return mask;
    }
    var codes := lbp(gray, points, radius);
    var num, lab, areas := ConnectedComponentsWithStats(mask);
    out := PaintKeptLbp(lab, num, codes, points, th, |mask|, Width(mask));
    LbpFilterFromLabels(mask, num, lab, areas, codes, points, th, out);
  }
}
