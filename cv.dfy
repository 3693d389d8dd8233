/**
 * The OpenCV, numpy and scikit-image kernels the pipeline calls. They are foreign code:
 * each is a parameter of the model, and its type records only what the calling code
 * relies on, namely the shape of the array it returns and, for the percentile, its
 * monotonicity in p.
 */
module Cv {
  import opened Grid

  /** A colour-to-single-channel conversion (cvtColor to GRAY, or one HSV channel). */
  type Channel = f: Grid<Bgr> -> Grid<int> | forall img :: SameShape(f(img), img)
    witness (img: Grid<Bgr>) => Fill(img, 0)

  /** createCLAHE(clip, (grid, grid)).apply(gray). */
  type Clahe = f: (Grid<int>, real, int) -> Grid<int> | forall g, clip, grid :: SameShape(f(g, clip, grid), g)
    witness (g: Grid<int>, clip: real, grid: int) => g

  /** Local variance E[X^2] - E[X]^2 over a k x k box (boxFilter or blur). */
  type LocalVariance = f: (Grid<int>, int) -> Grid<real> | forall g, k :: SameShape(f(g, k), g)
    witness (g: Grid<int>, k: int) => Fill(g, 0.0)

  /** cv2.normalize(v, None, 0, 255, NORM_MINMAX) followed by astype(uint8). */
  type Normalise = f: Grid<real> -> Grid<int> | forall v :: SameShape(f(v), v)
    witness (v: Grid<real>) => Fill(v, 0)

  /** np.median over the flattened samples: non-negative samples have a non-negative median. */
  type Median = f: seq<real> -> real
    | forall s :: (forall i :: 0 <= i < |s| ==> s[i] >= 0.0) ==> f(s) >= 0.0
    witness (s: seq<real>) => 0.0

  /** np.percentile(samples, p): non-decreasing in p. */
  type Percentile = f: (seq<real>, real) -> real
    | forall s, p, q :: p <= q ==> f(s, p) <= f(s, q)
    witness (s: seq<real>, p: real) => 0.0

  /** skimage local_binary_pattern(gray, points, radius, "uniform"). */
  type Lbp = f: (Grid<int>, int, int) -> Grid<real> | forall g, pts, rad :: SameShape(f(g, pts, rad), g)
    witness (g: Grid<int>, pts: int, rad: int) => Fill(g, 0.0)

  /** The structuring element getStructuringElement(MORPH_ELLIPSE, (k, k)). */
  type Ellipse = int -> Grid<int>

  datatype MorphOp = Close | Open

  /** cv2.morphologyEx(mask, op, kernel, iterations). */
  type Morphology = f: (Grid<int>, MorphOp, Grid<int>, int) -> Grid<int>
    | forall m, op, k, n :: SameShape(f(m, op, k, n), m)
    witness (m: Grid<int>, op: MorphOp, k: Grid<int>, n: int) => m

  /** cv2.adaptiveThreshold(gray, 255, GAUSSIAN_C, THRESH_BINARY_INV, block, C). */
  type AdaptiveThreshold = f: (Grid<int>, int, int) -> Grid<int> | forall g, b, c :: SameShape(f(g, b, c), g)
    witness (g: Grid<int>, b: int, c: int) => g

  /** cv2.Canny(gray, t1, t2). */
  type Canny = f: (Grid<int>, int, int) -> Grid<int> | forall g, t1, t2 :: SameShape(f(g, t1, t2), g)
    witness (g: Grid<int>, t1: int, t2: int) => g

  /** cv2.filter2D(edges as float32, -1, ones((k, k))). */
  type BoxSum = f: (Grid<int>, int) -> Grid<real> | forall g, k :: SameShape(f(g, k), g)
    witness (g: Grid<int>, k: int) => Fill(g, 0.0)

  /** cv2.resize(mask, (w, h), INTER_NEAREST): the result has the requested shape. */
  type ResizeNearest = f: (Grid<int>, nat, nat) -> Grid<int> | forall m, h: nat, w: nat :: HasShape(f(m, h, w), h, w)
    witness (m: Grid<int>, h: nat, w: nat) => Build(h, w, (p: Pixel) => 0)

  /**
   * cv2.resize(img, (w, h), INTER_AREA): the result has the requested shape. OpenCV
   * refuses an empty target size; callers check that case first.
   */
  type ResizeArea = f: (Grid<Bgr>, nat, nat) -> Grid<Bgr> | forall img, h: nat, w: nat :: HasShape(f(img, h, w), h, w)
    witness (img: Grid<Bgr>, h: nat, w: nat) => Build(h, w, (p: Pixel) => Bgr(0, 0, 0))

  /** cv2.addWeighted(a, alpha, b, beta, 0): the result has the shape of a. */
  type AddWeighted = f: (Grid<Bgr>, real, Grid<Bgr>, real) -> Grid<Bgr>
    | forall a, alpha, b, beta :: SameShape(f(a, alpha, b, beta), a)
    witness (a: Grid<Bgr>, alpha: real, b: Grid<Bgr>, beta: real) => a

  /** The foreign kernels, and whether scikit-image could be imported (_HAS_SKIMG). */
  datatype Library = Library(
    toGray: Channel,
    saturation: Channel,
    value: Channel,
    clahe: Clahe,
    localVariance: LocalVariance,
    normaliseMinMax: Normalise,
    median: Median,
    percentile: Percentile,
    hasSkimage: bool,
    lbp: Lbp,
    ellipse: Ellipse,
    morphology: Morphology,
    adaptiveThreshold: AdaptiveThreshold,
    canny: Canny,
    boxSum: BoxSum,
    resizeNearest: ResizeNearest,
    resizeArea: ResizeArea,
    addWeighted: AddWeighted)
}
