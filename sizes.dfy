/**
 * How the pipeline turns user-supplied window sizes into usable odd kernel sizes, and
 * which box sizes the variance map uses (_get_scales, and the size coercion in
 * _morph_refine, _detect_adaptive and _detect_edge_density).
 */
module Sizes {
  import opened Wrappers
  import Defs

  /**
   * A size below 3 becomes fallback, then an even size is bumped to the next odd one.
   * The scales and the structuring element fall back to 3, the adaptive block to 31
   * and the edge-density window to 9.
   */
  function KernelSize(k: int, fallback: int): (s: int)
    requires fallback >= 3 && fallback % 2 == 1
    ensures s >= 3 && s % 2 == 1
    ensures k < 3 ==> s == fallback
    ensures k >= 3 ==> k <= s <= k + 1
  {
    var k1 := if k < 3 then fallback else k;
    if k1 % 2 == 0 then k1 + 1 else k1
  }

  /** With fallback 3 the result is the smallest odd size that is at least max(3, k). */
  lemma KernelSizeIsSmallestOdd(k: int, j: int)
    requires j >= 3 && j >= k && j % 2 == 1
    ensures KernelSize(k, 3) <= j
  {
  }

  /** A size that is already odd and at least 3 is kept, so coercing twice changes nothing. */
  lemma KernelSizeIdempotent(k: int, fallback: int)
    requires fallback >= 3 && fallback % 2 == 1
    ensures KernelSize(KernelSize(k, fallback), fallback) == KernelSize(k, fallback)
  {
  }

  /** The box sizes used when the user gives none, by texture level. */
  function TextureScales(texture: string): (s: seq<int>)
    ensures |s| == 3
    ensures forall i :: 0 <= i < |s| ==> s[i] >= 3 && s[i] % 2 == 1
  {
    if texture == "low_txt" then [5, 9, 13]
    else if texture == "mid_txt" then [7, 11, 15]
    else [9, 15, 21]
  }

  /** More texture never means smaller windows: the tables grow entry by entry. */
  lemma TextureScalesGrow()
    ensures forall i :: 0 <= i < 3 ==>
      TextureScales(Defs.TextureLevels[0])[i] < TextureScales(Defs.TextureLevels[1])[i]
        < TextureScales(Defs.TextureLevels[2])[i]
  {
  }

  /** The Python test `scales and len(scales) > 0`: a non-empty user list. */
  predicate HasUserScales(scales: Option<seq<int>>) {
    scales.Some? && |scales.value| > 0
  }

  /**
   * The box sizes the variance detector uses: a non-empty user list coerced entry by
   * entry, keeping its length and order, otherwise the table for the texture level.
   * Either way every size is odd and at least 3.
   */
  function Scales(scales: Option<seq<int>>, texture: string): (s: seq<int>)
    ensures HasUserScales(scales) ==>
      |s| == |scales.value| && forall i :: 0 <= i < |s| ==> s[i] == KernelSize(scales.value[i], 3)
    ensures !HasUserScales(scales) ==> s == TextureScales(texture)
    ensures |s| > 0 && forall i :: 0 <= i < |s| ==> s[i] >= 3 && s[i] % 2 == 1
  {
    if HasUserScales(scales) then seq(|scales.value|, i requires 0 <= i < |scales.value| => KernelSize(scales.value[i], 3))
    else TextureScales(texture)
  }

  /** _get_scales: the loop that builds the coerced list one entry at a time. */
  method GetScales(scales: Option<seq<int>>, texture: string) returns (out: seq<int>)
    ensures out == Scales(scales, texture)
  {
    if HasUserScales(scales) {
      var ks := scales.value;
      out := [];
      var i := 0;
      while i < |ks|
        invariant 0 <= i <= |ks| && |out| == i
        invariant forall j :: 0 <= j < i ==> out[j] == KernelSize(ks[j], 3)
      {
        var k := ks[i];
        if k < 3 {
          k := 3;
        }
        if k % 2 == 0 {
          k := k + 1;
        }
        out := out + [k];
        i := i + 1;
      }
      return;
    }
    out := TextureScales(texture);
  }
}
