/**
 * 8-connected component labelling of a mask, with the area of each component: what
 * cv2.connectedComponentsWithStats(mask, connectivity=8) returns to the area filter and
 * to the LBP filter. Every nonzero pixel is foreground, as in OpenCV; the masks of the
 * pipeline hold only 0 and 255, so this is the same as "equal to 255" there.
 *
 * A component is a reachability class: the pixels a path of 8-adjacent foreground
 * pixels joins. The labelling is a flood fill with an explicit stack, and its contract
 * says that two foreground pixels get one label exactly when they are connected.
 */
module Components {
  import opened Grid

  predicate Fg(m: Grid<int>, p: Pixel) {
    InGrid(m, p) && m[p.0][p.1] != 0
  }

  /** The 8-neighbourhood: distinct pixels at most one row and one column apart. */
  predicate Adjacent(p: Pixel, q: Pixel) {
    p != q && -1 <= p.0 - q.0 <= 1 && -1 <= p.1 - q.1 <= 1
  }

  ghost predicate IsPath(m: Grid<int>, s: seq<Pixel>) {
    && |s| > 0
    && (forall i :: 0 <= i < |s| ==> Fg(m, s[i]))
    && (forall i :: 0 < i < |s| ==> Adjacent(s[i - 1], s[i]))
  }

  ghost predicate Connected(m: Grid<int>, p: Pixel, q: Pixel) {
    exists s :: IsPath(m, s) && s[0] == p && s[|s| - 1] == q
  }

  ghost function FgSet(m: Grid<int>): set<Pixel> {
    set r, c | 0 <= r < |m| && 0 <= c < |m[r]| && m[r][c] != 0 :: (r, c)
  }

  /** The 8-connected component of p. */
  ghost function Component(m: Grid<int>, p: Pixel): set<Pixel> {
    set q | q in FgSet(m) && Connected(m, p, q)
  }

  lemma FgInSet(m: Grid<int>, p: Pixel)
    requires Fg(m, p)
    ensures p in FgSet(m)
  {
    assert p == (p.0, p.1);
  }

  lemma ConnectedRefl(m: Grid<int>, p: Pixel)
    requires Fg(m, p)
    ensures Connected(m, p, p)
  {
    assert IsPath(m, [p]);
  }

  lemma ConnectedFg(m: Grid<int>, p: Pixel, q: Pixel)
    requires Connected(m, p, q)
    ensures Fg(m, p) && Fg(m, q)
  {
    var s :| IsPath(m, s) && s[0] == p && s[|s| - 1] == q;
    assert Fg(m, s[0]) && Fg(m, s[|s| - 1]);
  }

  lemma ConnectedExtend(m: Grid<int>, p: Pixel, q: Pixel, n: Pixel)
    requires Connected(m, p, q) && Fg(m, n) && Adjacent(q, n)
    ensures Connected(m, p, n)
  {
    var s :| IsPath(m, s) && s[0] == p && s[|s| - 1] == q;
    var t := s + [n];
    assert forall i :: 0 <= i < |s| ==> t[i] == s[i];
    assert IsPath(m, t);
    assert t[0] == p && t[|t| - 1] == n;
  }

  /** A path read backwards connects its last pixel to its first. */
  lemma {:induction false} PathConnectsBack(m: Grid<int>, s: seq<Pixel>)
    requires IsPath(m, s)
    ensures Connected(m, s[|s| - 1], s[0])
    decreases |s|
  {
    if |s| == 1 {
      ConnectedRefl(m, s[0]);
    } else {
      var t := s[1..];
      assert forall i :: 0 < i < |t| ==> Adjacent(t[i - 1], t[i]) by {
        forall i | 0 < i < |t| ensures Adjacent(t[i - 1], t[i]) {
          assert t[i - 1] == s[i] && t[i] == s[i + 1];
        }
      }
      assert IsPath(m, t);
      PathConnectsBack(m, t);
      assert Adjacent(s[0], s[1]);
      ConnectedExtend(m, s[|s| - 1], s[1], s[0]);
    }
  }

  lemma ConnectedSymmetric(m: Grid<int>, p: Pixel, q: Pixel)
    requires Connected(m, p, q)
    ensures Connected(m, q, p)
  {
    var s :| IsPath(m, s) && s[0] == p && s[|s| - 1] == q;
    PathConnectsBack(m, s);
  }

  /** A pixel connected to the start of a path is connected to its end. */
  lemma {:induction false} PathExtends(m: Grid<int>, p: Pixel, s: seq<Pixel>)
    requires IsPath(m, s) && Connected(m, p, s[0])
    ensures Connected(m, p, s[|s| - 1])
    decreases |s|
  {
    if |s| > 1 {
      assert Adjacent(s[0], s[1]);
      ConnectedExtend(m, p, s[0], s[1]);
      var t := s[1..];
      assert forall i :: 0 < i < |t| ==> Adjacent(t[i - 1], t[i]) by {
        forall i | 0 < i < |t| ensures Adjacent(t[i - 1], t[i]) {
          assert t[i - 1] == s[i] && t[i] == s[i + 1];
        }
      }
      assert IsPath(m, t);
      PathExtends(m, p, t);
    }
  }

  lemma ConnectedTransitive(m: Grid<int>, p: Pixel, q: Pixel, r: Pixel)
    requires Connected(m, p, q) && Connected(m, q, r)
    ensures Connected(m, p, r)
  {
    var s :| IsPath(m, s) && s[0] == q && s[|s| - 1] == r;
    PathExtends(m, p, s);
  }

  /** Connected pixels have one and the same component. */
  lemma SameComponent(m: Grid<int>, p: Pixel, q: Pixel)
    requires Connected(m, p, q)
    ensures Component(m, p) == Component(m, q)
  {
    ConnectedSymmetric(m, p, q);
    forall x | x in Component(m, p) ensures x in Component(m, q) {
      ConnectedTransitive(m, q, p, x);
    }
    forall x | x in Component(m, q) ensures x in Component(m, p) {
      ConnectedTransitive(m, p, q, x);
    }
  }

  lemma InOwnComponent(m: Grid<int>, p: Pixel)
    requires Fg(m, p)
    ensures p in Component(m, p)
  {
    ConnectedRefl(m, p);
    FgInSet(m, p);
  }

  /** Every foreground neighbour of a labelled pixel carries its label. */
  ghost predicate LabelClosed(m: Grid<int>, lab: map<Pixel, nat>) {
    forall a, b {:trigger Adjacent(a, b)} :: a in lab && Fg(m, b) && Adjacent(a, b) ==> b in lab && lab[b] == lab[a]
  }

  lemma ClosedStep(m: Grid<int>, lab: map<Pixel, nat>, a: Pixel, b: Pixel)
    requires LabelClosed(m, lab) && a in lab && Fg(m, b) && Adjacent(a, b)
    ensures b in lab && lab[b] == lab[a]
  {
  }

  /** Along a path, a closed labelling never changes label. */
  lemma {:induction false} ClosedAlongPath(m: Grid<int>, lab: map<Pixel, nat>, s: seq<Pixel>)
    requires LabelClosed(m, lab) && IsPath(m, s) && s[0] in lab
    ensures s[|s| - 1] in lab && lab[s[|s| - 1]] == lab[s[0]]
    decreases |s|
  {
    if |s| > 1 {
      assert Adjacent(s[0], s[1]) && Fg(m, s[1]);
      var t := s[1..];
      assert forall i :: 0 < i < |t| ==> Adjacent(t[i - 1], t[i]) by {
        forall i | 0 < i < |t| ensures Adjacent(t[i - 1], t[i]) {
          assert t[i - 1] == s[i] && t[i] == s[i + 1];
        }
      }
      assert IsPath(m, t);
      ClosedAlongPath(m, lab, t);
    }
  }

  /**
   * What connectedComponentsWithStats promises: labels 1 .. num-1 on the foreground
   * (label 0, the background, is absent from the map), one label per component, and
   * areas[k] the pixel count of component k.
   */
  ghost predicate IsLabelling(m: Grid<int>, num: nat, lab: map<Pixel, nat>, areas: seq<nat>) {
    && 1 <= num == |areas|
    && (forall p :: p in lab <==> Fg(m, p))
    && (forall p :: p in lab ==> 1 <= lab[p] < num)
    && (forall p, q :: p in lab && q in lab ==> (lab[p] == lab[q] <==> Connected(m, p, q)))
    && (forall p :: p in lab ==> areas[lab[p]] == |Component(m, p)|)
    && (forall k :: 1 <= k < num ==> k in lab.Values)
  }

  /** Labels 1 .. num-1 are finished: each is the closed class of its seed. */
  ghost predicate Partial(m: Grid<int>, num: nat, lab: map<Pixel, nat>, areas: seq<nat>, seeds: seq<Pixel>) {
    && 1 <= num == |areas| == |seeds|
    && (forall p :: p in lab ==> Fg(m, p) && 1 <= lab[p] < num)
    && (forall p :: p in lab ==> Connected(m, seeds[lab[p]], p))
    && (forall k :: 1 <= k < num ==> seeds[k] in lab && lab[seeds[k]] == k)
    && LabelClosed(m, lab)
    && (forall k :: 1 <= k < num ==> areas[k] == |Component(m, seeds[k])|)
  }

  /** The labels of the pixels in the set form a component, when the labelling is complete. */
  lemma Complete(m: Grid<int>, num: nat, lab: map<Pixel, nat>, areas: seq<nat>, seeds: seq<Pixel>)
    requires Partial(m, num, lab, areas, seeds)
    requires forall p :: Fg(m, p) ==> p in lab
    ensures IsLabelling(m, num, lab, areas)
  {
    forall p, q | p in lab && q in lab ensures lab[p] == lab[q] <==> Connected(m, p, q) {
      if lab[p] == lab[q] {
        var s := seeds[lab[p]];
        ConnectedSymmetric(m, s, p);
        ConnectedTransitive(m, p, s, q);
      }
      if Connected(m, p, q) {
        var t :| IsPath(m, t) && t[0] == p && t[|t| - 1] == q;
        ClosedAlongPath(m, lab, t);
      }
    }
    forall p | p in lab ensures areas[lab[p]] == |Component(m, p)| {
      SameComponent(m, seeds[lab[p]], p);
    }
    forall k | 1 <= k < num ensures k in lab.Values {
      assert seeds[k] in lab && lab[seeds[k]] == k;
    }
  }

  /** The eight neighbours of q, row by row. */
  function Neighbours(q: Pixel): (ns: seq<Pixel>)
    ensures |ns| == 8
    ensures forall j :: 0 <= j < 8 ==> Adjacent(q, ns[j])
  {
    var (r, c) := q;
    [(r - 1, c - 1), (r - 1, c), (r - 1, c + 1), (r, c - 1), (r, c + 1), (r + 1, c - 1), (r + 1, c), (r + 1, c + 1)]
  }

  /** The eight neighbours enumerate the 8-neighbourhood. */
  lemma NeighboursComplete(q: Pixel, b: Pixel)
    requires Adjacent(q, b)
    ensures b in Neighbours(q)
  {
    var ns := Neighbours(q);
    var dr, dc := b.0 - q.0, b.1 - q.1;
    var j := if dr == -1 then (if dc == -1 then 0 else if dc == 0 then 1 else 2)
             else if dr == 0 then (if dc == -1 then 3 else 4)
             else (if dc == -1 then 5 else if dc == 0 then 6 else 7);
    assert ns[j] == b;
  }

  /** The fill's invariant: S lies in the component of the seed s and holds the stack. */
  ghost predicate FillState(m: Grid<int>, s: Pixel, S: set<Pixel>, stack: seq<Pixel>) {
    && s in S
    && (forall p :: p in S ==> Fg(m, p) && Connected(m, s, p))
    && (forall x :: x in stack ==> x in S)
  }

  /** Every foreground neighbour of an expanded pixel is in S. */
  ghost predicate ClosedExcept(m: Grid<int>, S: set<Pixel>, stack: seq<Pixel>) {
    forall a, b :: a in S && a !in stack && Fg(m, b) && Adjacent(a, b) ==> b in S
  }

  /** Adding one more foreground pixel to S removes it from the unreached foreground. */
  lemma UnreachedShrinks(m: Grid<int>, S: set<Pixel>, n: Pixel)
    requires Fg(m, n) && n !in S
    ensures |FgSet(m) - (S + {n})| == |FgSet(m) - S| - 1
  {
    FgInSet(m, n);
    assert FgSet(m) - (S + {n}) == (FgSet(m) - S) - {n};
  }

  /**
   * One step of the fill from (S, stack) to (S', stack'): S only grows, what was on the
   * stack stays there, every new pixel of S is pushed, and the measure does not grow.
   */
  ghost predicate Grows(m: Grid<int>, S: set<Pixel>, stack: seq<Pixel>, S': set<Pixel>, stack': seq<Pixel>) {
    && S <= S'
    && (forall x :: x in stack ==> x in stack')
    && (forall x :: x in S' && x !in S ==> x in stack')
    && 2 * |FgSet(m) - S'| + |stack'| <= 2 * |FgSet(m) - S| + |stack|
  }

  lemma GrowsTrans(m: Grid<int>, S1: set<Pixel>, st1: seq<Pixel>, S2: set<Pixel>, st2: seq<Pixel>,
                   S3: set<Pixel>, st3: seq<Pixel>)
    requires Grows(m, S1, st1, S2, st2) && Grows(m, S2, st2, S3, st3)
    ensures Grows(m, S1, st1, S3, st3)
  {
  }

  /** The foreground pixels among the first i neighbours are in S. */
  ghost predicate Covers(m: Grid<int>, ns: seq<Pixel>, i: nat, S: set<Pixel>)
    requires i <= |ns|
  {
    forall j :: 0 <= j < i && Fg(m, ns[j]) ==> ns[j] in S
  }

  lemma CoversStep(m: Grid<int>, ns: seq<Pixel>, i: nat, S: set<Pixel>, S': set<Pixel>)
    requires i < |ns| && Covers(m, ns, i, S) && S <= S' && (Fg(m, ns[i]) ==> ns[i] in S')
    ensures Covers(m, ns, i + 1, S')
  {
    forall j | 0 <= j < i + 1 && Fg(m, ns[j]) ensures ns[j] in S' {
      if j < i {
        assert ns[j] in S;
      }
    }
  }

  /** Adds the neighbour n of the popped pixel q to S and pushes it, unless it is background or seen. */
  method Visit(m: Grid<int>, ghost s: Pixel, S: set<Pixel>, stack: seq<Pixel>, q: Pixel, n: Pixel)
    returns (S': set<Pixel>, stack': seq<Pixel>)
    requires FillState(m, s, S, stack) && q in S && Adjacent(q, n)
    ensures FillState(m, s, S', stack') && Grows(m, S, stack, S', stack')
    ensures Fg(m, n) ==> n in S'
  {
    if InGrid(m, n) && m[n.0][n.1] != 0 && n !in S {
      UnreachedShrinks(m, S, n);
      ConnectedExtend(m, s, q, n);
      S', stack' := S + {n}, stack + [n];
    } else {
      S', stack' := S, stack;
    }
  }

  /** Adds the foreground neighbours of q to S, pushing those not seen before. */
  method Expand(m: Grid<int>, ghost s: Pixel, S: set<Pixel>, stack: seq<Pixel>, q: Pixel)
    returns (S': set<Pixel>, stack': seq<Pixel>)
    requires FillState(m, s, S, stack) && q in S
    ensures FillState(m, s, S', stack') && Grows(m, S, stack, S', stack')
    ensures forall b :: Fg(m, b) && Adjacent(q, b) ==> b in S'
  {
    var ns := Neighbours(q);
    S', stack' := S, stack;
    var i := 0;
    while i < 8
      invariant 0 <= i <= 8
      invariant FillState(m, s, S', stack') && Grows(m, S, stack, S', stack')
      invariant Covers(m, ns, i, S')
    {
      ghost var S0, stack0 := S', stack';
      S', stack' := Visit(m, s, S', stack', q, ns[i]);
      GrowsTrans(m, S, stack, S0, stack0, S', stack');
      CoversStep(m, ns, i, S0, S');
      i := i + 1;
    }
    forall b | Fg(m, b) && Adjacent(q, b) ensures b in S' {
      NeighboursComplete(q, b);
    }
  }

  /** A set that holds its seed, lies in the seed's component and is closed is the component. */
  lemma FillDone(m: Grid<int>, s: Pixel, S: set<Pixel>)
    requires FillState(m, s, S, []) && ClosedExcept(m, S, [])
    ensures S == Component(m, s)
  {
    forall x | x in Component(m, s) ensures x in S {
      var t :| IsPath(m, t) && t[0] == s && t[|t| - 1] == x;
      var lab := map p | p in S :: 0;
      forall a, b | a in lab && Fg(m, b) && Adjacent(a, b) ensures b in lab && lab[b] == lab[a] {
        assert a in S && a !in [];
      }
      ClosedAlongPath(m, lab, t);
    }
    forall x | x in S ensures x in Component(m, s) {
      FgInSet(m, x);
    }
  }

  /** Flood fill with an explicit stack from the foreground pixel s: its 8-connected component. */
  method FloodFill(m: Grid<int>, s: Pixel) returns (S: set<Pixel>)
    requires Fg(m, s)
    ensures S == Component(m, s)
  {
    var stack := [s];
    S := {s};
    ConnectedRefl(m, s);
    while |stack| > 0
      invariant FillState(m, s, S, stack)
      invariant ClosedExcept(m, S, stack)
      decreases 2 * |FgSet(m) - S| + |stack|
    {
      var q := stack[|stack| - 1];
      ghost var before, S0 := stack, S;
      stack := stack[..|stack| - 1];
      assert forall x :: x in before ==> x == q || x in stack;
      ghost var popped := stack;
      S, stack := Expand(m, s, S, stack, q);
      forall a, b | a in S && a !in stack && Fg(m, b) && Adjacent(a, b) ensures b in S {
        if a != q {
          assert a in S0 && a !in popped;
        }
      }
    }
    FillDone(m, s, S);
  }

  /** The component of a pixel outside a closed labelling lies outside it too. */
  lemma ComponentOutside(m: Grid<int>, lab: map<Pixel, nat>, s: Pixel, x: Pixel)
    requires LabelClosed(m, lab) && s !in lab && x in Component(m, s)
    ensures x !in lab
  {
    if x in lab {
      ConnectedSymmetric(m, s, x);
      var t :| IsPath(m, t) && t[0] == x && t[|t| - 1] == s;
      ClosedAlongPath(m, lab, t);
    }
  }

  /** The next label keeps the old labels connected to their seeds, and joins S to the new seed. */
  lemma StepSeeds(m: Grid<int>, num: nat, lab: map<Pixel, nat>, areas: seq<nat>, seeds: seq<Pixel>, s: Pixel, S: set<Pixel>)
    requires Partial(m, num, lab, areas, seeds)
    requires S == Component(m, s) && s in S && lab.Keys !! S
    ensures forall p :: p in Relabel(lab, S, num) ==>
      Fg(m, p) && 1 <= Relabel(lab, S, num)[p] < num + 1 && Connected(m, (seeds + [s])[Relabel(lab, S, num)[p]], p)
    ensures forall k :: 1 <= k < num + 1 ==> (seeds + [s])[k] in Relabel(lab, S, num) && Relabel(lab, S, num)[(seeds + [s])[k]] == k
  {
    var lab', seeds' := Relabel(lab, S, num), seeds + [s];
    forall p | p in lab' ensures Fg(m, p) && 1 <= lab'[p] < num + 1 && Connected(m, seeds'[lab'[p]], p) {
      if p in lab {
        assert seeds'[lab'[p]] == seeds[lab[p]];
      }
    }
    forall k | 1 <= k < num + 1 ensures seeds'[k] in lab' && lab'[seeds'[k]] == k {
      if k < num {
        assert seeds'[k] == seeds[k] && seeds[k] in lab;
      }
    }
  }

  /** A closed labelling stays closed when a whole component outside it gets a new label. */
  lemma StepClosed(m: Grid<int>, lab: map<Pixel, nat>, s: Pixel, S: set<Pixel>, k: nat)
    requires LabelClosed(m, lab) && S == Component(m, s) && lab.Keys !! S
    ensures LabelClosed(m, Relabel(lab, S, k))
  {
    var lab' := Relabel(lab, S, k);
    forall a, b | a in lab' && Fg(m, b) && Adjacent(a, b) ensures b in lab' && lab'[b] == lab'[a] {
      if a in lab {
        ClosedStep(m, lab, a, b);
      } else {
        ConnectedExtend(m, s, a, b);
        FgInSet(m, b);
      }
    }
  }

  /** The areas of the old labels stay, and the new label's area is the size of its component. */
  lemma StepAreas(m: Grid<int>, num: nat, areas: seq<nat>, seeds: seq<Pixel>, s: Pixel)
    requires |areas| == |seeds| == num
    requires forall k :: 1 <= k < num ==> areas[k] == |Component(m, seeds[k])|
    ensures forall k :: 1 <= k < num + 1 ==> (areas + [|Component(m, s)|])[k] == |Component(m, (seeds + [s])[k])|
  {
    var areas', seeds' := areas + [|Component(m, s)|], seeds + [s];
    forall k | 1 <= k < num + 1 ensures areas'[k] == |Component(m, seeds'[k])| {
      if k < num {
        assert areas'[k] == areas[k] && seeds'[k] == seeds[k];
      }
    }
  }

  /** A closed labelling that misses s misses the whole component of s. */
  lemma ComponentDisjoint(m: Grid<int>, lab: map<Pixel, nat>, s: Pixel)
    requires LabelClosed(m, lab) && s !in lab
    ensures lab.Keys !! Component(m, s)
  {
    forall x | x in Component(m, s) ensures x !in lab {
      ComponentOutside(m, lab, s, x);
    }
  }

  /** Labelling one more component with the next label extends a partial labelling. */
  lemma PartialStep(m: Grid<int>, num: nat, lab: map<Pixel, nat>, areas: seq<nat>, seeds: seq<Pixel>, s: Pixel)
    requires Partial(m, num, lab, areas, seeds)
    requires Fg(m, s) && s !in lab
    ensures Partial(m, num + 1, Relabel(lab, Component(m, s), num), areas + [|Component(m, s)|], seeds + [s])
  {
    var S := Component(m, s);
    ComponentDisjoint(m, lab, s);
    InOwnComponent(m, s);
    StepSeeds(m, num, lab, areas, seeds, s, S);
    StepClosed(m, lab, s, S, num);
    StepAreas(m, num, areas, seeds, s);
  }

  /** lab with every pixel of S given the label k. */
  function Relabel(lab: map<Pixel, nat>, S: set<Pixel>, k: nat): (lab': map<Pixel, nat>)
    ensures lab'.Keys == lab.Keys + S
    ensures forall p :: p in lab' ==> lab'[p] == if p in S then k else lab[p]
  {
    map p | p in lab.Keys + S :: if p in S then k else lab[p]
  }

  /** Labels the component of the pixel p with the next label, unless p is background or labelled. */
  method LabelPixel(m: Grid<int>, num: nat, lab: map<Pixel, nat>, areas: seq<nat>, ghost seeds: seq<Pixel>, p: Pixel)
    returns (num': nat, lab': map<Pixel, nat>, areas': seq<nat>, ghost seeds': seq<Pixel>)
    requires Partial(m, num, lab, areas, seeds) && InGrid(m, p)
    ensures Partial(m, num', lab', areas', seeds')
    ensures lab.Keys <= lab'.Keys && (Fg(m, p) ==> p in lab')
  {
    if m[p.0][p.1] != 0 && p !in lab {
      var S := FloodFill(m, p);
      PartialStep(m, num, lab, areas, seeds, p);
      InOwnComponent(m, p);
      num', lab', areas', seeds' := num + 1, Relabel(lab, S, num), areas + [|S|], seeds + [p];
    } else {
      num', lab', areas', seeds' := num, lab, areas, seeds;
    }
  }

  /** cv2.connectedComponentsWithStats(mask, connectivity=8): labels and component areas. */
  method ConnectedComponentsWithStats(m: Grid<int>) returns (num: nat, lab: map<Pixel, nat>, areas: seq<nat>)
    ensures IsLabelling(m, num, lab, areas)
  {
    num, lab, areas := 1, map[], [0];
    ghost var seeds: seq<Pixel> := [(0, 0)];
    var r := 0;
    while r < |m|
      invariant 0 <= r <= |m|
      invariant Partial(m, num, lab, areas, seeds)
      invariant forall p :: Fg(m, p) && p.0 < r ==> p in lab
    {
      num, lab, areas, seeds := LabelRow(m, num, lab, areas, seeds, r);
      r := r + 1;
    }
    Complete(m, num, lab, areas, seeds);
  }

  /** The scan of row r, left to right. */
  method LabelRow(m: Grid<int>, num: nat, lab: map<Pixel, nat>, areas: seq<nat>, ghost seeds: seq<Pixel>, r: nat)
    returns (num': nat, lab': map<Pixel, nat>, areas': seq<nat>, ghost seeds': seq<Pixel>)
    requires Partial(m, num, lab, areas, seeds) && r < |m|
    requires forall p :: Fg(m, p) && p.0 < r ==> p in lab
    ensures Partial(m, num', lab', areas', seeds')
    ensures forall p :: Fg(m, p) && p.0 <= r ==> p in lab'
  {
    num', lab', areas', seeds' := num, lab, areas, seeds;
    var c := 0;
    while c < |m[r]|
      invariant 0 <= c <= |m[r]|
      invariant Partial(m, num', lab', areas', seeds')
      invariant forall p :: Fg(m, p) && (p.0 < r || (p.0 == r && p.1 < c)) ==> p in lab'
    {
      ghost var lab0 := lab';
      num', lab', areas', seeds' := LabelPixel(m, num', lab', areas', seeds', (r, c));
      forall p | Fg(m, p) && (p.0 < r || (p.0 == r && p.1 < c + 1)) ensures p in lab' {
        if p != (r, c) {
          assert p in lab0;
        }
      }
      c := c + 1;
    }
  }
}
