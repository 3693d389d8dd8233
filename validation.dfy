/**
 * The evaluation helpers of validation.py: the intersection-over-union score of a
 * predicted mask against a ground-truth mask, and the colour overlay used to show a mask
 * on its image.
 */
module Validation {
  import opened Grid
  import opened Cv
  import Paint

  predicate Positive(x: int) { x > 0 }

  function And(a: bool, b: bool): bool { a && b }

  function Or(a: bool, b: bool): bool { a || b }

  /** (mask > 0): a mask as the set of its selected pixels. */
  function Binarised(m: Grid<int>): (b: Grid<bool>)
    ensures SameShape(b, m)
    ensures forall r, c :: 0 <= r < |m| && 0 <= c < |m[r]| ==> (b[r][c] <==> m[r][c] > 0)
  {
    MapGrid(m, Positive)
  }

  /** The pixel-wise combination of two boolean grids of one shape (np.logical_and / _or). */
  function Zip(a: Grid<bool>, b: Grid<bool>, f: (bool, bool) -> bool): (z: Grid<bool>)
    requires SameShape(a, b)
    ensures SameShape(z, a)
    ensures forall r, c :: 0 <= r < |a| && 0 <= c < |a[r]| ==> z[r][c] == f(a[r][c], b[r][c])
  {
    seq(|a|, r requires 0 <= r < |a| =>
      seq(|a[r]|, c requires 0 <= c < |a[r]| => f(a[r][c], b[r][c])))
  }

  function Both(pred: Grid<int>, gt: Grid<int>): Grid<bool>
    requires SameShape(pred, gt)
  {
    Zip(Binarised(pred), Binarised(gt), And)
  }

  function Either(pred: Grid<int>, gt: Grid<int>): Grid<bool>
    requires SameShape(pred, gt)
  {
    Zip(Binarised(pred), Binarised(gt), Or)
  }

  /** Number of pixels selected by both masks. */
  function Intersection(pred: Grid<int>, gt: Grid<int>): nat
    requires SameShape(pred, gt)
  {
    Count(Both(pred, gt), Yes)
  }

  /** Number of pixels selected by at least one of the masks. */
  function Union(pred: Grid<int>, gt: Grid<int>): nat
    requires SameShape(pred, gt)
  {
    Count(Either(pred, gt), Yes)
  }

  /**
   * iou(mask_pred, mask_gt): |P and G| / |P or G| over the binarised masks, and 1.0 when
   * neither mask selects anything. The score is a proportion.
   */
  function Iou(pred: Grid<int>, gt: Grid<int>): (x: real)
    requires SameShape(pred, gt)
    ensures 0.0 <= x <= 1.0
    ensures Union(pred, gt) == 0 ==> x == 1.0
  {
    var inter, union := Intersection(pred, gt), Union(pred, gt);
    IntersectionWithinUnion(pred, gt);
    if union == 0 then
      (if inter == 0 then 1.0 else 0.0)
    else
      RatioInUnit(inter as real, union as real);
      inter as real / union as real
  }

  /** Every pixel both masks select is selected by one of them. */
  lemma IntersectionWithinUnion(pred: Grid<int>, gt: Grid<int>)
    requires SameShape(pred, gt)
    ensures Intersection(pred, gt) <= Union(pred, gt)
  {
    CountImplies(Both(pred, gt), Either(pred, gt));
  }

  /**
   * An empty union means neither mask selects a pixel; then the intersection is empty too,
   * so the `return 0.0` branch of iou is never taken.
   */
  lemma EmptyUnion(pred: Grid<int>, gt: Grid<int>)
    requires SameShape(pred, gt)
    requires Union(pred, gt) == 0
    ensures Intersection(pred, gt) == 0 && Iou(pred, gt) == 1.0
    ensures forall r, c :: 0 <= r < |pred| && 0 <= c < |pred[r]| ==> pred[r][c] <= 0 && gt[r][c] <= 0
  {
    IntersectionWithinUnion(pred, gt);
    forall r, c | 0 <= r < |pred| && 0 <= c < |pred[r]| ensures pred[r][c] <= 0 && gt[r][c] <= 0 {
      if pred[r][c] > 0 || gt[r][c] > 0 {
        CountPositive(Either(pred, gt), Yes, r, c);
      }
    }
  }

  /** The masks select the same pixels. */
  predicate Agree(pred: Grid<int>, gt: Grid<int>)
    requires SameShape(pred, gt)
  {
    forall r, c :: 0 <= r < |pred| && 0 <= c < |pred[r]| ==> (pred[r][c] > 0 <==> gt[r][c] > 0)
  }

  /** The score is perfect exactly when both masks select the same pixels. */
  lemma IouOneIffAgree(pred: Grid<int>, gt: Grid<int>)
    requires SameShape(pred, gt)
    ensures Iou(pred, gt) == 1.0 <==> Agree(pred, gt)
  {
    if Agree(pred, gt) {
      AgreeScoresOne(pred, gt);
    } else {
      var r, c :| 0 <= r < |pred| && 0 <= c < |pred[r]| && !(pred[r][c] > 0 <==> gt[r][c] > 0);
      DisagreeScoresBelowOne(pred, gt, r, c);
    }
  }

  lemma AgreeScoresOne(pred: Grid<int>, gt: Grid<int>)
    requires SameShape(pred, gt) && Agree(pred, gt)
    ensures Iou(pred, gt) == 1.0
  {
    SameGrid(Both(pred, gt), Either(pred, gt));
    assert Intersection(pred, gt) == Union(pred, gt);
    if Union(pred, gt) > 0 {
      var u := Union(pred, gt) as real;
      assert Iou(pred, gt) == u / u;
      RatioOfSelf(u);
    }
  }

  lemma RatioOfSelf(u: real)
    requires u > 0.0
    ensures u / u == 1.0
  {
  }

  lemma RatioBelowOne(a: real, u: real)
    requires 0.0 <= a < u
    ensures a / u < 1.0
  {
    assert a / u * u == a;
  }

  lemma DisagreeScoresBelowOne(pred: Grid<int>, gt: Grid<int>, r: int, c: int)
    requires SameShape(pred, gt)
    requires 0 <= r < |pred| && 0 <= c < |pred[r]| && !(pred[r][c] > 0 <==> gt[r][c] > 0)
    ensures Iou(pred, gt) < 1.0
  {
    CountStrict(Both(pred, gt), Either(pred, gt), r, c);
    var inter, union := Intersection(pred, gt) as real, Union(pred, gt) as real;
    assert Iou(pred, gt) == inter / union;
    RatioBelowOne(inter, union);
  }

  /** iou is symmetric in its two masks. */
  lemma IouSymmetric(pred: Grid<int>, gt: Grid<int>)
    requires SameShape(pred, gt)
    ensures Iou(pred, gt) == Iou(gt, pred)
  {
    SameGrid(Both(pred, gt), Both(gt, pred));
    SameGrid(Either(pred, gt), Either(gt, pred));
  }

  /** A mask scores 1.0 against itself. */
  lemma IouSelf(m: Grid<int>)
    ensures Iou(m, m) == 1.0
  {
    IouOneIffAgree(m, m);
  }

  /** A prediction that selects something against an empty ground truth scores 0. */
  lemma IouEmptyTruth(pred: Grid<int>, gt: Grid<int>, r: int, c: int)
    requires SameShape(pred, gt)
    requires forall i, j :: 0 <= i < |gt| && 0 <= j < |gt[i]| ==> gt[i][j] <= 0
    requires 0 <= r < |pred| && 0 <= c < |pred[r]| && pred[r][c] > 0
    ensures Iou(pred, gt) == 0.0
  {
    CountNone(Both(pred, gt));
    CountPositive(Either(pred, gt), Yes, r, c);
  }

  /** Two boolean grids of one shape that agree pixel by pixel are equal. */
  lemma SameGrid(a: Grid<bool>, b: Grid<bool>)
    requires SameShape(a, b)
    requires forall r, c :: 0 <= r < |a| && 0 <= c < |a[r]| ==> a[r][c] == b[r][c]
    ensures a == b
  {
    forall r | 0 <= r < |a| ensures a[r] == b[r] {
      assert forall c :: 0 <= c < |a[r]| ==> a[r][c] == b[r][c];
    }
  }

  lemma {:induction false} CountRowImplies(a: seq<bool>, b: seq<bool>)
    requires |a| == |b| && forall i :: 0 <= i < |a| && a[i] ==> b[i]
    ensures CountRow(a, Yes) <= CountRow(b, Yes)
  {
    if |a| > 0 {
      CountRowImplies(a[1..], b[1..]);
    }
  }

  /** A grid whose selection lies within another's counts no more. */
  lemma {:induction false} CountImplies(a: Grid<bool>, b: Grid<bool>)
    requires SameShape(a, b)
    requires forall r, c :: 0 <= r < |a| && 0 <= c < |a[r]| && a[r][c] ==> b[r][c]
    ensures Count(a, Yes) <= Count(b, Yes)
  {
    if |a| > 0 {
      CountRowImplies(a[0], b[0]);
      CountImplies(a[1..], b[1..]);
    }
  }

  lemma {:induction false} CountRowStrict(a: seq<bool>, b: seq<bool>, i: int)
    requires |a| == |b| && forall j :: 0 <= j < |a| && a[j] ==> b[j]
    requires 0 <= i < |a| && b[i] && !a[i]
    ensures CountRow(a, Yes) < CountRow(b, Yes)
  {
    if i == 0 {
      CountRowImplies(a[1..], b[1..]);
    } else {
      CountRowStrict(a[1..], b[1..], i - 1);
    }
  }

  /** ... and strictly less when the other selects a pixel it does not. */
  lemma {:induction false} CountStrict(a: Grid<bool>, b: Grid<bool>, r: int, c: int)
    requires SameShape(a, b)
    requires forall i, j :: 0 <= i < |a| && 0 <= j < |a[i]| && a[i][j] ==> b[i][j]
    requires 0 <= r < |a| && 0 <= c < |a[r]| && b[r][c] && !a[r][c]
    ensures Count(a, Yes) < Count(b, Yes)
  {
    if r == 0 {
      CountRowStrict(a[0], b[0], c);
      CountImplies(a[1..], b[1..]);
    } else {
      CountRowImplies(a[0], b[0]);
      CountStrict(a[1..], b[1..], r - 1, c);
    }
  }

  lemma {:induction false} CountRowNone(a: seq<bool>)
    requires forall i :: 0 <= i < |a| ==> !a[i]
    ensures CountRow(a, Yes) == 0
  {
    if |a| > 0 {
      CountRowNone(a[1..]);
    }
  }

  /** A grid that selects nothing counts 0. */
  lemma {:induction false} CountNone(a: Grid<bool>)
    requires forall r, c :: 0 <= r < |a| && 0 <= c < |a[r]| ==> !a[r][c]
    ensures Count(a, Yes) == 0
  {
    if |a| > 0 {
      CountRowNone(a[0]);
      CountNone(a[1..]);
    }
  }

  /**
   * overlay_mask(image, mask, color, alpha): the image blended with a solid colour layer
   * (weights 1 - alpha and alpha) on the pixels the mask selects, and the image itself on
   * every other pixel.
   */
  function Overlay(aw: AddWeighted, image: Grid<Bgr>, mask: Grid<int>, color: Bgr, alpha: real): (out: Grid<Bgr>)
    requires SameShape(mask, image)
    ensures SameShape(out, image)
    ensures forall r, c :: 0 <= r < |image| && 0 <= c < |image[r]| ==>
      out[r][c] == if mask[r][c] > 0 then aw(image, 1.0 - alpha, Fill(image, color), alpha)[r][c] else image[r][c]
  {
    Paint.Where(Binarised(mask), aw(image, 1.0 - alpha, Fill(image, color), alpha), image)
  }

  /** The overlay of an empty mask is the image. */
  lemma OverlayOfEmptyMask(aw: AddWeighted, image: Grid<Bgr>, color: Bgr, alpha: real)
    ensures Overlay(aw, image, Fill(image, 0), color, alpha) == image
  {
    var out := Overlay(aw, image, Fill(image, 0), color, alpha);
    assert |out| == |image|;
    forall r | 0 <= r < |image| ensures out[r] == image[r] {
      assert forall c :: 0 <= c < |image[r]| ==> out[r][c] == image[r][c];
    }
  }

  /**
   * overlay_mask as the source computes it: a copy of the image whose selected pixels are
   * overwritten in place with the blend.
   */
  method OverlayMask(aw: AddWeighted, image: Grid<Bgr>, mask: Grid<int>, color: Bgr, alpha: real) returns (output: Grid<Bgr>)
    requires IsRect(image) && SameShape(mask, image)
    ensures output == Overlay(aw, image, mask, color, alpha)
  {
    var h, w := |image|, Width(image);
    var layer := Fill(image, color);
    var blended := aw(image, 1.0 - alpha, layer, alpha);
    var out := Paint.Copy(image, h, w);
    Paint.CopyWhere(out, blended, Binarised(mask));
    output := Snapshot(out);
    GridExt(output, Overlay(aw, image, mask, color, alpha), h, w);
  }
}
