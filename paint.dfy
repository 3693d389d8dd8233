/**
 * Masked assignment between images of one shape, the numpy idiom `dst[sel] = src[sel]`
 * used by _apply_mask (restore the base where the mask is 0) and by overlay_mask
 * (take the blend where the mask is positive).
 */
module Paint {
  import opened Grid

  /** The image that takes a where sel holds and b elsewhere. */
  function Where<T>(sel: Grid<bool>, a: Grid<T>, b: Grid<T>): (g: Grid<T>)
    requires SameShape(sel, a) && SameShape(a, b)
    ensures SameShape(g, a)
    ensures forall r, c :: 0 <= r < |a| && 0 <= c < |a[r]| ==> g[r][c] == if sel[r][c] then a[r][c] else b[r][c]
  {
    seq(|a|, r requires 0 <= r < |a| =>
      seq(|a[r]|, c requires 0 <= c < |a[r]| => if sel[r][c] then a[r][c] else b[r][c]))
  }

  /** dst[sel] = src[sel], in place: selected pixels are copied from src, the others are kept. */
  method CopyWhere<T>(dst: array2<T>, src: Grid<T>, sel: Grid<bool>)
    requires HasShape(src, dst.Length0, dst.Length1) && HasShape(sel, dst.Length0, dst.Length1)
    modifies dst
    ensures forall r, c :: 0 <= r < dst.Length0 && 0 <= c < dst.Length1 ==>
      dst[r, c] == if sel[r][c] then src[r][c] else old(dst[r, c])
  {
    var r := 0;
    while r < dst.Length0
      invariant 0 <= r <= dst.Length0
      invariant forall i, j :: 0 <= i < dst.Length0 && 0 <= j < dst.Length1 ==>
        dst[i, j] == if i < r && sel[i][j] then src[i][j] else old(dst[i, j])
    {
      var c := 0;
      while c < dst.Length1
        invariant 0 <= c <= dst.Length1
        invariant forall i, j :: 0 <= i < dst.Length0 && 0 <= j < dst.Length1 ==>
          dst[i, j] == if (i < r || (i == r && j < c)) && sel[i][j] then src[i][j] else old(dst[i, j])
      {
        if sel[r][c] {
          dst[r, c] := src[r][c];
        }
        c := c + 1;
      }
      r := r + 1;
    }
  }

  /** A grid copied into a fresh buffer (img.copy()). */
  method Copy<T>(g: Grid<T>, h: nat, w: nat) returns (a: array2<T>)
    requires HasShape(g, h, w)
    ensures fresh(a) && a.Length0 == h && a.Length1 == w
    ensures Snapshot(a) == g
  {
    a := new T[h, w]((r: int, c: int) requires 0 <= r < h && 0 <= c < w => g[r][c]);
    GridExt(Snapshot(a), g, h, w);
  }
}
