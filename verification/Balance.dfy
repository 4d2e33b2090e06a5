/** Shape of the ikd-Tree: the balance criterion, what BuildTree produces, and the depth
    bounds that follow. */
module Balance {
  import opened Prelude
  import opened Geometry
  import opened LazyTree

  /** A son's share of the other nodes of its father lies within [1 - bal, bal]. */
  predicate InShare(part: nat, whole: nat, p: Params)
    requires whole > 1
  {
    var share := part as real / (whole - 1) as real;
    1.0 - p.bal <= share <= p.bal
  }

  /** Every node with more than 10 nodes keeps the balance criterion. */
  ghost predicate Balanced(t: Tree, p: Params) {
    match t
    case Nil => true
    case Bin(_, l, r) => NodeBalanced(Count(l), Count(r), p) && Balanced(l, p) && Balanced(r, p)
  }

  ghost predicate NodeBalanced(cl: nat, cr: nat, p: Params) {
    1 + cl + cr > MIN_UNBALANCED_TREE_SIZE ==>
      InShare(cl, 1 + cl + cr, p) && InShare(cr, 1 + cl + cr, p)
  }

  /** The size of the son that Criterion_Check looks at: the left one if there is one. */
  function SonSize(l: Tree, r: Tree): int {
    if l.Bin? then l.d.size else if r.Bin? then r.d.size else 0
  }

  /** Criterion_Check. */
  predicate Criterion(size: int, invalid: int, sonSize: int, p: Params) {
    size > MIN_UNBALANCED_TREE_SIZE &&
    var deleted := invalid as real / size as real;
    var share := sonSize as real / (size - 1) as real;
    deleted > p.del || share > p.bal || share < 1.0 - p.bal
  }

  /** Failing the criterion test means that the node itself is balanced. */
  lemma {:induction false} CriterionComplete(d: Rec, l: Tree, r: Tree, p: Params)
    requires d.size == 1 + Count(l) + Count(r) && Sized(l) && Sized(r)
    requires !Criterion(d.size, d.invalid, SonSize(l, r), p)
    ensures NodeBalanced(Count(l), Count(r), p)
  {
    if d.size > MIN_UNBALANCED_TREE_SIZE {
      SharesAddUp(Count(l), Count(r));
    }
  }

  lemma SharesAddUp(a: nat, b: nat)
    requires a + b > 0
    ensures a as real / (a + b) as real + b as real / (a + b) as real == 1.0
  {
    assert a as real / (a + b) as real + b as real / (a + b) as real
        == (a + b) as real / (a + b) as real;
  }

  // ---- Tombstones ----------------------------------------------------------------------------

  /** A tree of more than 10 nodes has at most the allowed share of tombstones. */
  ghost predicate FewTombstones(t: Tree, p: Params) {
    Count(t) > 10 ==> (Count(t) - |Live(t)|) as real <= p.del * Count(t) as real
  }

  /** So has every tree that something lives in. */
  ghost predicate Tidy(t: Tree, p: Params) {
    Live(t) == multiset{} || FewTombstones(t, p)
  }

  lemma TidySame(t: Tree, u: Tree, p: Params)
    requires Count(t) == Count(u) && Live(t) == Live(u)
    ensures Tidy(t, p) <==> Tidy(u, p)
  {
    hide Live, Count;
  }

  lemma QuotientAbove(a: real, n: real, d: real)
    requires n > 0.0
    ensures a / n > d <==> a > d * n
  {
    var q := a / n;
    assert q * n == a;
    if q > d {
      assert (q - d) * n > 0.0;
    } else {
      assert (d - q) * n >= 0.0;
    }
  }

  lemma QuotientBelow(a: real, n: real, d: real)
    requires n > 0.0
    ensures a / n < d <==> a < d * n
  {
    var q := a / n;
    assert q * n == a;
    if q < d {
      assert (d - q) * n > 0.0;
    } else {
      assert (q - d) * n >= 0.0;
    }
  }

  /** Among n nodes, of which `dead` are tombstones, with a son of `son` nodes: more than 10
      nodes, and too many tombstones or too large or too small a son. */
  predicate OutOfShape(n: int, dead: int, son: int, p: Params) {
    && n > 10
    && (|| dead as real > p.del * n as real
        || son as real > p.bal * (n - 1) as real
        || (son as real) < (1.0 - p.bal) * (n - 1) as real)
  }

  /** That is what the quotients of Criterion_Check decide. */
  lemma CriterionIs(n: int, dead: int, son: int, p: Params)
    ensures Criterion(n, dead, son, p) <==> OutOfShape(n, dead, son, p)
  {
    if n > 10 {
      QuotientAbove(dead as real, n as real, p.del);
      QuotientAbove(son as real, (n - 1) as real, p.bal);
      QuotientBelow(son as real, (n - 1) as real, 1.0 - p.bal);
    }
  }

  // ---- BuildTree ---------------------------------------------------------------------------

  /** The longest dimension, the first one among equals. */
  function LongestAxis(r: Range): int {
    var x, y, z := r.hi.x - r.lo.x, r.hi.y - r.lo.y, r.hi.z - r.lo.z;
    var a := if y > x then 1 else 0;
    if z > (if a == 1 then y else x) then 2 else a
  }

  /** No axis of the range is longer, and none before it is as long. */
  predicate Longest(r: Range, a: int) {
    && 0 <= a <= 2
    && (forall i :: 0 <= i <= 2 ==> Coord(r.hi, i) - Coord(r.lo, i) <= Coord(r.hi, a) - Coord(r.lo, a))
    && (forall i :: 0 <= i < a ==> Coord(r.hi, i) - Coord(r.lo, i) < Coord(r.hi, a) - Coord(r.lo, a))
  }

  lemma LongestAxisIs(r: Range)
    ensures Longest(r, LongestAxis(r))
  {
  }

  /** The median of l..r is (l + r) >> 1: a node's left son gets half of the rest, rounded
      down. */
  ghost predicate EvenSplit(t: Tree) {
    match t
    case Nil => true
    case Bin(_, l, r) => Count(l) == (Count(l) + Count(r)) / 2 && EvenSplit(l) && EvenSplit(r)
  }

  /** Every node divides its points along the longest dimension of their bounding box. */
  ghost predicate KdSplit(t: Tree) {
    match t
    case Nil => true
    case Bin(d, l, r) =>
      && d.axis == LongestAxis(d.range)
      && (forall p :: p in Live(l) ==> Coord(p.at, d.axis) <= Coord(d.point.at, d.axis))
      && (forall p :: p in Live(r) ==> Coord(p.at, d.axis) >= Coord(d.point.at, d.axis))
      && KdSplit(l) && KdSplit(r)
  }

  lemma EvenShare(n: nat, p: Params)
    requires n >= 10
    requires 11.0 * p.bal >= 6.0
    ensures InShare(n / 2, n + 1, p) && InShare(n - n / 2, n + 1, p)
  {
    var h := n / 2;
    assert 11 * h >= 5 * n;
    var N, H := n as real, h as real;
    SharesAddUp(h, n - h);
    assert H / N >= 5.0 / 11.0 by {
      assert 11.0 * H >= 5.0 * N;
      ShareAtLeast(H, N);
    }
    assert H / N <= 0.5 by {
      ShareAtMostHalf(H, N);
    }
  }

  lemma ShareAtLeast(h: real, n: real)
    requires n > 0.0 && 11.0 * h >= 5.0 * n
    ensures h / n >= 5.0 / 11.0
  {
    assert h / n * n == h;
    CancelFactor(5.0 / 11.0, h / n, n);
  }

  lemma ShareAtMostHalf(h: real, n: real)
    requires n > 0.0 && 2.0 * h <= n
    ensures h / n <= 0.5
  {
    assert h / n * n == h;
    CancelFactor(h / n, 0.5, n);
  }

  lemma CancelFactor(a: real, b: real, n: real)
    requires n > 0.0 && a * n <= b * n
    ensures a <= b
  {
    assert (b - a) * n >= 0.0;
  }

  /** A freshly built tree meets the balance criterion for every parameter from 6/11 on. */
  lemma {:induction false} BuiltBalanced(t: Tree, p: Params)
    requires EvenSplit(t)
    requires 11.0 * p.bal >= 6.0
    ensures Balanced(t, p)
  {
    hide InShare;
    if t.Bin? {
      BuiltBalanced(t.l, p);
      BuiltBalanced(t.r, p);
      if Count(t) > MIN_UNBALANCED_TREE_SIZE {
        EvenShare(Count(t) - 1, p);
      }
    }
  }

  /** A tree of n nodes in the shape that BuildTree makes. */
  function EvenTree(n: nat): Tree
    decreases n
  {
    if n == 0 then Nil else Bin(BlankRec(), EvenTree((n - 1) / 2), EvenTree(n - 1 - (n - 1) / 2))
  }

  lemma EvenTreeStep(n: nat)
    ensures n == 0 ==> EvenTree(n) == Nil
    ensures n > 0 ==> EvenTree(n) == Bin(BlankRec(), EvenTree((n - 1) / 2), EvenTree(n - 1 - (n - 1) / 2))
  {
  }

  lemma {:induction false} EvenTreeSplit(n: nat)
    ensures Count(EvenTree(n)) == n && EvenSplit(EvenTree(n))
    decreases n
  {
    hide EvenTree;
    EvenTreeStep(n);
    if n > 0 {
      EvenTreeSplit((n - 1) / 2);
      EvenTreeSplit(n - 1 - (n - 1) / 2);
    }
  }

  /** Below 6/11 building does not restore balance: 12 nodes divide 5 to 6 below the root. */
  lemma {:induction false} BuiltBalancedIff(p: Params)
    ensures (forall t :: EvenSplit(t) ==> Balanced(t, p)) <==> 11.0 * p.bal >= 6.0
  {
    hide InShare, EvenSplit, Balanced;
    if 11.0 * p.bal >= 6.0 {
      forall t | EvenSplit(t) ensures Balanced(t, p) { BuiltBalanced(t, p); }
    } else {
      EvenTreeSplit(12);
      TwelveUnbalanced(p);
    }
  }

  lemma {:induction false} TwelveUnbalanced(p: Params)
    requires 11.0 * p.bal < 6.0
    ensures !Balanced(EvenTree(12), p)
  {
    hide Count, EvenTree;
    EvenTreeStep(12);
    EvenTreeSplit(5);
    EvenTreeSplit(6);
    assert !InShare(6, 12, p);
  }

  // ---- Depth ---------------------------------------------------------------------------------

  function Depth(t: Tree): nat {
    match t case Nil => 0 case Bin(_, l, r) => 1 + Max(Depth(l), Depth(r))
  }

  function Pow2(n: nat): nat { if n == 0 then 1 else 2 * Pow2(n - 1) }

  function Power(b: real, n: nat): real { if n == 0 then 1.0 else b * Power(b, n - 1) }

  /** BuildTree: 2 to the depth minus one is at most the number of points, so the depth is at
      most floor(log2 n) + 1. */
  lemma {:induction false} BuiltDepth(t: Tree)
    requires EvenSplit(t) && t.Bin?
    ensures Pow2(Depth(t) - 1) <= Count(t)
  {
    var deep := if Depth(t.l) >= Depth(t.r) then t.l else t.r;
    if deep.Bin? {
      BuiltDepth(deep);
    }
  }

  lemma DepthAtMostCount(t: Tree)
    ensures Depth(t) <= Count(t)
  {
  }

  lemma PowerPositive(b: real, n: nat)
    requires b > 0.0
    ensures Power(b, n) > 0.0
  {
  }

  lemma ShareBound(part: nat, whole: nat, p: Params)
    requires whole > 1 && InShare(part, whole, p) && p.bal > 0.0
    ensures part as real <= p.bal * whole as real
  {
    var n := (whole - 1) as real;
    assert part as real / n * n == part as real;
    assert part as real / n * n <= p.bal * n;
  }

  /** e more levels than allowed for a constant leave room for at most n nodes. */
  ghost predicate DepthFits(b: real, e: nat, n: nat) {
    Power(b, e) * n as real >= 1.0
  }

  lemma DepthFitsStep(p: Params, e: nat, part: nat, whole: nat)
    requires whole > 1 && InShare(part, whole, p) && p.bal > 0.0
    requires DepthFits(p.bal, e, part)
    ensures DepthFits(p.bal, e + 1, whole)
  {
    ShareBound(part, whole, p);
    PowerPositive(p.bal, e);
    PowerStep(Power(p.bal, e), p.bal, part as real, whole as real);
  }

  lemma PowerStep(q: real, b: real, part: real, whole: real)
    requires q > 0.0 && part <= b * whole && q * part >= 1.0
    ensures (b * q) * whole >= 1.0
  {
    assert q * part <= q * (b * whole);
  }

  /** A balanced tree has logarithmic depth: bal to the power (depth - 10), times the number
      of nodes, never falls below one. */
  lemma {:induction false} BalancedDepth(t: Tree, p: Params)
    requires Balanced(t, p) && p.bal > 0.0 && t.Bin?
    requires Depth(t) >= MIN_UNBALANCED_TREE_SIZE
    ensures DepthFits(p.bal, Depth(t) - MIN_UNBALANCED_TREE_SIZE, Count(t))
  {
    hide InShare;
    if Depth(t) > MIN_UNBALANCED_TREE_SIZE {
      hide DepthFits;
      var deep := if Depth(t.l) >= Depth(t.r) then t.l else t.r;
      BalancedDepth(deep, p);
      DepthAtMostCount(t);
      DepthFitsStep(p, Depth(deep) - MIN_UNBALANCED_TREE_SIZE, Count(deep), Count(t));
    }
  }

  /** The depth bound that balance gives; trees of depth below 10 need none. */
  ghost predicate Shallow(t: Tree, p: Params) {
    t.Bin? && Depth(t) >= MIN_UNBALANCED_TREE_SIZE ==>
      DepthFits(p.bal, Depth(t) - MIN_UNBALANCED_TREE_SIZE, Count(t))
  }

  lemma {:induction false} BalancedShallow(t: Tree, p: Params)
    requires Balanced(t, p) && p.bal > 0.0
    ensures Shallow(t, p)
  {
    hide DepthFits, Balanced;
    if t.Bin? && Depth(t) >= MIN_UNBALANCED_TREE_SIZE { BalancedDepth(t, p); }
  }

  lemma {:induction false} PowerDecreases(b: real, n: nat, m: nat)
    requires 0.0 < b <= 1.0 && n <= m
    ensures Power(b, m) <= Power(b, n)
    decreases m - n
  {
    if n < m {
      PowerDecreases(b, n, m - 1);
      PowerPositive(b, m - 1);
      assert b * Power(b, m - 1) <= 1.0 * Power(b, m - 1);
    }
  }

  /** With the default parameter 0.6, a balanced tree below the multi-thread threshold has at
      most 24 levels. */
  lemma {:induction false} DefaultDepth(t: Tree, p: Params)
    requires Balanced(t, p) && p.bal == 0.6 && Count(t) < MULTI_THREAD_REBUILD_POINT_NUM
    ensures Depth(t) <= 24
  {
    hide Balanced, Depth, Power, DepthFits;
    if Depth(t) > 24 {
      var b, e := p.bal, Depth(t) - MIN_UNBALANCED_TREE_SIZE;
      DepthPositive(t);
      BalancedDepth(t, p);
      PowerDecreases(b, 15, e);
      PowerFifteen(b);
      PowerPositive(b, e);
      FitsNot(b, e, Count(t));
    }
  }

  lemma DepthPositive(t: Tree)
    ensures Depth(t) > 0 ==> t.Bin?
  {
  }

  lemma PowerFifteen(b: real)
    requires b == 0.6
    ensures Power(b, 15) * 1500.0 < 1.0
  {
    assert Power(b, 5) == 0.07776;
    assert Power(b, 10) == 0.07776 * 0.07776;
    assert Power(b, 15) == 0.07776 * 0.07776 * 0.07776;
  }

  lemma FitsNot(b: real, e: nat, n: nat)
    requires 0.0 < Power(b, e) && Power(b, e) * 1500.0 < 1.0 && n < 1500
    ensures !DepthFits(b, e, n)
  {
    hide Power;
    var q, m := Power(b, e), n as real;
    assert q * m <= q * 1500.0;
  }

  // ---- What leaves the shape alone ---------------------------------------------------------

  lemma {:induction false} SameShapeBalanced(t: Tree, u: Tree, p: Params)
    requires SameShape(t, u)
    ensures Balanced(t, p) == Balanced(u, p) && Count(t) == Count(u)
  {
    hide NodeBalanced;
    if t.Bin? {
      SameShapeBalanced(t.l, u.l, p);
      SameShapeBalanced(t.r, u.r, p);
    }
  }
}
