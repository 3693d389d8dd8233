/** Images as rectangular grids of samples (numpy arrays of shape h x w or h x w x 3). */
module Grid {
  import opened Wrappers

  /** Row-major samples: g[r][c] is the sample at row r, column c. */
  type Grid<T> = seq<seq<T>>

  /** A (row, column) coordinate. */
  type Pixel = (int, int)

  /** One pixel of an OpenCV colour image, channels in BGR order. */
  datatype Bgr = Bgr(b: int, g: int, r: int)

  predicate IsByte(x: int) { 0 <= x < 256 }

  predicate HasShape<T>(g: Grid<T>, h: int, w: int) {
    |g| == h && forall r :: 0 <= r < h ==> |g[r]| == w
  }

  function Width<T>(g: Grid<T>): nat {
    if |g| == 0 then 0 else |g[0]|
  }

  predicate IsRect<T>(g: Grid<T>) {
    HasShape(g, |g|, Width(g))
  }

  /** Same number of rows and the same length row by row (what a per-pixel kernel keeps). */
  predicate SameShape<A, B>(a: Grid<A>, b: Grid<B>) {
    |a| == |b| && forall r :: 0 <= r < |a| ==> |a[r]| == |b[r]|
  }

  predicate InGrid<T>(g: Grid<T>, p: Pixel) {
    0 <= p.0 < |g| && 0 <= p.1 < |g[p.0]|
  }

  /** The grid of shape h x w whose pixel p is f(p). */
  function Build<T>(h: nat, w: nat, f: Pixel -> T): (g: Grid<T>)
    ensures HasShape(g, h, w)
    ensures forall r, c :: 0 <= r < h && 0 <= c < w ==> g[r][c] == f((r, c))
  {
    seq(h, r => seq(w, c => f((r, c))))
  }

  /** A grid of the shape of g with every sample x (np.zeros_like and friends). */
  function Fill<A, B>(g: Grid<A>, x: B): (f: Grid<B>)
    ensures SameShape(f, g)
    ensures forall r, c :: 0 <= r < |g| && 0 <= c < |g[r]| ==> f[r][c] == x
  {
    seq(|g|, r requires 0 <= r < |g| => seq(|g[r]|, c => x))
  }

  /** The sample-wise image of a grid under f (a numpy ufunc applied to every sample). */
  function MapGrid<A, B>(g: Grid<A>, f: A -> B): (m: Grid<B>)
    ensures SameShape(m, g)
    ensures forall r, c :: 0 <= r < |g| && 0 <= c < |g[r]| ==> m[r][c] == f(g[r][c])
  {
    seq(|g|, r requires 0 <= r < |g| => seq(|g[r]|, c requires 0 <= c < |g[r]| => f(g[r][c])))
  }

  /** The samples of a grid in row-major order (ndarray.ravel()). */
  function Flatten<T>(g: Grid<T>): (s: seq<T>)
    ensures |s| == Cells(g)
  {
    if |g| == 0 then [] else g[0] + Flatten(g[1..])
  }

  /** The value of a 2-D buffer, row by row. */
  function Snapshot<T>(a: array2<T>): (g: Grid<T>)
    reads a
    ensures HasShape(g, a.Length0, a.Length1)
    ensures forall r, c :: 0 <= r < a.Length0 && 0 <= c < a.Length1 ==> g[r][c] == a[r, c]
  {
    seq(a.Length0, r requires 0 <= r < a.Length0 reads a =>
      seq(a.Length1, c requires 0 <= c < a.Length1 reads a => a[r, c]))
  }

  /** Two grids of one shape that agree on every pixel are equal. */
  lemma GridExt<T>(a: Grid<T>, b: Grid<T>, h: nat, w: nat)
    requires HasShape(a, h, w) && HasShape(b, h, w)
    requires forall r, c :: 0 <= r < h && 0 <= c < w ==> a[r][c] == b[r][c]
    ensures a == b
  {
    forall r | 0 <= r < h ensures a[r] == b[r] {
      assert forall c :: 0 <= c < w ==> a[r][c] == b[r][c];
    }
  }

  /** Number of samples of a row that satisfy p. */
  function CountRow<T>(row: seq<T>, p: T -> bool): (n: nat)
    ensures n <= |row|
  {
    if |row| == 0 then 0 else (if p(row[0]) then 1 else 0) + CountRow(row[1..], p)
  }

  /** Number of samples of a grid that satisfy p. */
  function Count<T>(g: Grid<T>, p: T -> bool): nat {
    if |g| == 0 then 0 else CountRow(g[0], p) + Count(g[1..], p)
  }

  /** The identity on bool, for counting the true samples of a boolean grid. */
  function Yes(b: bool): bool { b }

  /** Number of samples of a grid. */
  function Cells<T>(g: Grid<T>): nat {
    if |g| == 0 then 0 else |g[0]| + Cells(g[1..])
  }

  function RowSum(row: seq<int>): int {
    if |row| == 0 then 0 else row[0] + RowSum(row[1..])
  }

  function Sum(g: Grid<int>): int {
    if |g| == 0 then 0 else RowSum(g[0]) + Sum(g[1..])
  }

  /** np.mean: None stands for the NaN numpy returns on an empty array. */
  function Mean(g: Grid<int>): Option<real> {
    if Cells(g) == 0 then None else Some(Sum(g) as real / Cells(g) as real)
  }

  /** np.mean(g > t): the fraction of samples above t (None for NaN). */
  function FractionAbove(g: Grid<int>, t: int): Option<real> {
    if Cells(g) == 0 then None
    else Some(Count(g, (x: int) => x > t) as real / Cells(g) as real)
  }

  lemma {:induction false} CountAtMostCells<T>(g: Grid<T>, p: T -> bool)
    ensures Count(g, p) <= Cells(g)
  {
    if |g| > 0 {
      CountAtMostCells(g[1..], p);
    }
  }

  /** A grid with a sample that satisfies p counts at least one. */
  lemma {:induction false} CountPositive<T>(g: Grid<T>, p: T -> bool, r: int, c: int)
    requires 0 <= r < |g| && 0 <= c < |g[r]| && p(g[r][c])
    ensures Count(g, p) >= 1
  {
    if r == 0 {
      CountRowPositive(g[0], p, c);
    } else {
      CountPositive(g[1..], p, r - 1, c);
    }
  }

  lemma {:induction false} CountRowPositive<T>(row: seq<T>, p: T -> bool, c: int)
    requires 0 <= c < |row| && p(row[c])
    ensures CountRow(row, p) >= 1
  {
    if c > 0 {
      CountRowPositive(row[1..], p, c - 1);
    }
  }

  lemma RatioInUnit(n: real, d: real)
    requires 0.0 <= n <= d && d > 0.0
    ensures 0.0 <= n / d <= 1.0
  {
    var x := n / d;
    assert x * d == n;
    assert (1.0 - x) * d == d - n;
  }

  /** The fraction np.mean(g > t) is a proportion. */
  lemma FractionInUnit(g: Grid<int>, t: int)
    ensures FractionAbove(g, t).Some? ==> 0.0 <= FractionAbove(g, t).value <= 1.0
  {
    CountAtMostCells(g, (x: int) => x > t);
    if Cells(g) > 0 {
      RatioInUnit(Count(g, (x: int) => x > t) as real, Cells(g) as real);
    }
  }
}
