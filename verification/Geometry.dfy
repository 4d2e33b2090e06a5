/** Points, node ranges, query boxes and squared distances of the ikd-Tree.

    Point coordinates lie on a fixed-point grid (integers); query boxes are real.  On the
    grid the source's two tolerances (1e-6 on coordinates, 1e-10 on squared distances)
    both mean equality. */
module Geometry {
  import opened Prelude

  datatype Vec = Vec(x: int, y: int, z: int)

  /** `tag` stands for the fields of PointType that the tree carries but never inspects. */
  datatype Point = Point(at: Vec, tag: int)

  /** A node range: closed on both sides. */
  datatype Range = Range(lo: Vec, hi: Vec)

  datatype RVec = RVec(x: real, y: real, z: real)

  /** BoxPointType: closed below, open above. */
  datatype Box = Box(min: RVec, max: RVec)

  function Coord(v: Vec, axis: int): int {
    if axis == 1 then v.y else if axis == 2 then v.z else v.x
  }

  function Single(v: Vec): Range { Range(v, v) }

  function Join(a: Range, b: Range): Range {
    Range(Vec(Min(a.lo.x, b.lo.x), Min(a.lo.y, b.lo.y), Min(a.lo.z, b.lo.z)),
          Vec(Max(a.hi.x, b.hi.x), Max(a.hi.y, b.hi.y), Max(a.hi.z, b.hi.z)))
  }

  predicate InRange(r: Range, v: Vec) {
    r.lo.x <= v.x <= r.hi.x && r.lo.y <= v.y <= r.hi.y && r.lo.z <= v.z <= r.hi.z
  }

  predicate NonEmpty(r: Range) {
    r.lo.x <= r.hi.x && r.lo.y <= r.hi.y && r.lo.z <= r.hi.z
  }

  predicate InBox(b: Box, v: Vec) {
    && b.min.x <= v.x as real < b.max.x
    && b.min.y <= v.y as real < b.max.y
    && b.min.z <= v.z as real < b.max.z
  }

  /** The early exit of a range operation: the box misses the node range on some axis. */
  predicate Misses(b: Box, r: Range) {
    || b.max.x <= r.lo.x as real || b.min.x > r.hi.x as real
    || b.max.y <= r.lo.y as real || b.min.y > r.hi.y as real
    || b.max.z <= r.lo.z as real || b.min.z > r.hi.z as real
  }

  /** The whole-subtree case of a range operation: the box contains the node range. */
  predicate Covers(b: Box, r: Range) {
    && b.min.x <= r.lo.x as real && b.max.x > r.hi.x as real
    && b.min.y <= r.lo.y as real && b.max.y > r.hi.y as real
    && b.min.z <= r.lo.z as real && b.max.z > r.hi.z as real
  }

  // ---- Squared distances -----------------------------------------------------------

  function Sq(d: int): nat
  {
    SquareIsNat(d);
    d * d
  }

  lemma SquareIsNat(d: int)
    ensures d * d >= 0
  {
  }

  function Dist(a: Vec, b: Vec): nat {
    Sq(a.x - b.x) + Sq(a.y - b.y) + Sq(a.z - b.z)
  }

  lemma SquareOfDifference(a: int, b: int)
    ensures Sq(a - b) == a * a - 2 * (a * b) + b * b
  {
  }

  /** q lies on a's side of the plane that bisects a and b, or on the plane. */
  predicate OnSideOf(q: Vec, a: Vec, b: Vec) {
    2 * (q.x * (b.x - a.x) + q.y * (b.y - a.y) + q.z * (b.z - a.z))
    <= (b.x * b.x + b.y * b.y + b.z * b.z) - (a.x * a.x + a.y * a.y + a.z * a.z)
  }

  /** Ranking by distance from q, without a square of a difference: a is at most as far as b
      exactly if q lies on a's side. */
  lemma NearerIff(q: Vec, a: Vec, b: Vec)
    ensures Dist(q, a) <= Dist(q, b) <==> OnSideOf(q, a, b)
  {
    hide Sq;
    SquareOfDifference(q.x, a.x);
    SquareOfDifference(q.y, a.y);
    SquareOfDifference(q.z, a.z);
    SquareOfDifference(q.x, b.x);
    SquareOfDifference(q.y, b.y);
    SquareOfDifference(q.z, b.z);
    Distribute(q.x, b.x, a.x);
    Distribute(q.y, b.y, a.y);
    Distribute(q.z, b.z, a.z);
  }

  lemma DistIs(q: Vec, v: Vec)
    ensures Dist(q, v) == (q.x - v.x) * (q.x - v.x) + (q.y - v.y) * (q.y - v.y) + (q.z - v.z) * (q.z - v.z)
  {
  }

  lemma Distribute(a: int, b: int, c: int)
    ensures a * (b - c) == a * b - a * c
  {
  }

  /** One axis of calc_box_dist. */
  function Gap(c: int, lo: int, hi: int): nat {
    (if c < lo then Sq(c - lo) else 0) + (if c > hi then Sq(c - hi) else 0)
  }

  function BoxDist(r: Range, v: Vec): nat {
    Gap(v.x, r.lo.x, r.hi.x) + Gap(v.y, r.lo.y, r.hi.y) + Gap(v.z, r.lo.z, r.hi.z)
  }

  lemma SquareMono(a: int, b: int)
    requires 0 <= a <= b || b <= a <= 0
    ensures Sq(a) <= Sq(b)
  {
    if 0 <= a {
      assert a * a <= a * b <= b * b;
    } else {
      assert (-a) * (-a) <= (-a) * (-b) <= (-b) * (-b);
    }
  }

  lemma GapBelow(c: int, lo: int, hi: int, w: int)
    requires lo <= w <= hi
    ensures Gap(c, lo, hi) <= Sq(c - w)
  {
    if c < lo {
      SquareMono(c - lo, c - w);
    } else if c > hi {
      SquareMono(c - hi, c - w);
    }
  }

  /** calc_box_dist never exceeds the distance to a point of the range: pruning is safe. */
  lemma BoxDistBelow(r: Range, v: Vec, w: Vec)
    requires InRange(r, w)
    ensures BoxDist(r, v) <= Dist(v, w)
  {
    GapBelow(v.x, r.lo.x, r.hi.x, w.x);
    GapBelow(v.y, r.lo.y, r.hi.y, w.y);
    GapBelow(v.z, r.lo.z, r.hi.z, w.z);
  }

  function Clamp(c: int, lo: int, hi: int): int {
    if c < lo then lo else if c > hi then hi else c
  }

  /** The point of the range that is nearest to v. */
  function ClampVec(r: Range, v: Vec): Vec {
    Vec(Clamp(v.x, r.lo.x, r.hi.x), Clamp(v.y, r.lo.y, r.hi.y), Clamp(v.z, r.lo.z, r.hi.z))
  }

  lemma GapOfClamp(c: int, lo: int, hi: int)
    requires lo <= hi
    ensures lo <= Clamp(c, lo, hi) <= hi && Gap(c, lo, hi) == Sq(c - Clamp(c, lo, hi))
  {
    assert Sq(0) == 0;
  }

  /** calc_box_dist is exactly the minimum squared distance from v to a range with points. */
  lemma BoxDistExact(r: Range, v: Vec)
    requires NonEmpty(r)
    ensures InRange(r, ClampVec(r, v)) && BoxDist(r, v) == Dist(v, ClampVec(r, v))
    ensures forall w :: InRange(r, w) ==> BoxDist(r, v) <= Dist(v, w)
  {
    hide Gap, Sq, Clamp;
    GapOfClamp(v.x, r.lo.x, r.hi.x);
    GapOfClamp(v.y, r.lo.y, r.hi.y);
    GapOfClamp(v.z, r.lo.z, r.hi.z);
    forall w | InRange(r, w) ensures BoxDist(r, v) <= Dist(v, w) { BoxDistBelow(r, v, w); }
  }

  // ---- Filtering a multiset of points ----------------------------------------------

  ghost function Inside(m: multiset<Point>, b: Box): (r: multiset<Point>)
    ensures forall p :: r[p] == if InBox(b, p.at) then m[p] else 0
    decreases |m|
  {
    if m == multiset{} then multiset{}
    else
      var p :| p in m;
      var rest := Inside(m[p := 0], b);
      if InBox(b, p.at) then rest[p := m[p]] else rest
  }

  ghost function Outside(m: multiset<Point>, b: Box): (r: multiset<Point>)
    ensures forall p :: r[p] == if InBox(b, p.at) then 0 else m[p]
    ensures m == r + Inside(m, b)
  {
    m - Inside(m, b)
  }

  lemma FilterSum(m: multiset<Point>, n: multiset<Point>, b: Box)
    ensures Inside(m + n, b) == Inside(m, b) + Inside(n, b)
    ensures Outside(m + n, b) == Outside(m, b) + Outside(n, b)
  {
    hide Inside;
    var both, mi, ni := Inside(m + n, b), Inside(m, b), Inside(n, b);
    assert both == mi + ni by {
      forall p ensures both[p] == mi[p] + ni[p] {}
    }
  }

  lemma FilterNone(m: multiset<Point>, b: Box)
    requires forall p :: p in m ==> !InBox(b, p.at)
    ensures Inside(m, b) == multiset{}
    ensures Outside(m, b) == m
  {
    assert forall p :: Inside(m, b)[p] == 0;
  }

  lemma FilterAll(m: multiset<Point>, b: Box)
    requires forall p :: p in m ==> InBox(b, p.at)
    ensures Inside(m, b) == m
    ensures Outside(m, b) == multiset{}
  {
    assert forall p :: Inside(m, b)[p] == m[p];
  }

  /** Filtering by several boxes, one after the other. */
  ghost function OutsideAll(m: multiset<Point>, boxes: seq<Box>): multiset<Point> {
    if boxes == [] then m
    else Outside(OutsideAll(m, boxes[..|boxes| - 1]), boxes[|boxes| - 1])
  }

  lemma OutsideOneMore(m: multiset<Point>, boxes: seq<Box>, i: nat)
    requires i < |boxes|
    ensures OutsideAll(m, boxes[..i + 1]) == Outside(OutsideAll(m, boxes[..i]), boxes[i])
  {
    hide Outside;
    assert boxes[..i + 1][..i] == boxes[..i];
  }

  lemma OutsideNone(m: multiset<Point>)
    ensures OutsideAll(m, []) == m
  {
  }

  predicate InAny(boxes: seq<Box>, v: Vec) {
    exists i :: 0 <= i < |boxes| && InBox(boxes[i], v)
  }

  /** What is left is what lies in none of the boxes. */
  lemma {:induction false} OutsideAllPoints(m: multiset<Point>, boxes: seq<Box>, p: Point)
    ensures OutsideAll(m, boxes)[p] == if InAny(boxes, p.at) then 0 else m[p]
  {
    hide InBox, InAny, Inside, Outside;
    if boxes == [] {
      assert !InAny(boxes, p.at) by { InNone(p.at); }
    } else {
      var n := |boxes| - 1;
      OutsideAllPoints(m, boxes[..n], p);
      InAnyLast(boxes, p.at);
    }
  }

  lemma InNone(v: Vec)
    ensures !InAny([], v)
  {
  }

  lemma InAnyLast(boxes: seq<Box>, v: Vec)
    requires boxes != []
    ensures InAny(boxes, v) <==> InAny(boxes[..|boxes| - 1], v) || InBox(boxes[|boxes| - 1], v)
  {
    hide InBox;
    var n := |boxes| - 1;
    if i :| 0 <= i < |boxes| && InBox(boxes[i], v) {
      assert i == n || boxes[..n][i] == boxes[i];
    }
    if i :| 0 <= i < n && InBox(boxes[..n][i], v) {
      assert boxes[i] == boxes[..n][i];
    }
  }

  // ---- Exact bounding boxes ----------------------------------------------------------

  ghost predicate Bounds(r: Range, m: multiset<Point>) {
    forall p :: p in m ==> InRange(r, p.at)
  }

  /** Every face of r is touched by a point of m. */
  ghost predicate Touched(r: Range, m: multiset<Point>) {
    && (exists p :: p in m && p.at.x == r.lo.x)
    && (exists p :: p in m && p.at.y == r.lo.y)
    && (exists p :: p in m && p.at.z == r.lo.z)
    && (exists p :: p in m && p.at.x == r.hi.x)
    && (exists p :: p in m && p.at.y == r.hi.y)
    && (exists p :: p in m && p.at.z == r.hi.z)
  }

  /** r is exactly the bounding box of the non-empty multiset m. */
  ghost predicate Tight(r: Range, m: multiset<Point>) {
    Bounds(r, m) && Touched(r, m)
  }

  lemma TightSingle(p: Point)
    ensures Tight(Single(p.at), multiset{p})
  {
    assert p in multiset{p};
  }

  lemma TightJoin(r: Range, m: multiset<Point>, s: Range, n: multiset<Point>)
    requires Tight(r, m) && Tight(s, n)
    ensures Tight(Join(r, s), m + n)
  {
    assert forall p :: p in m || p in n <==> p in m + n;
  }

  /** A box that misses an exact range contains none of its points. */
  lemma MissesMeansNone(b: Box, r: Range, m: multiset<Point>)
    requires Bounds(r, m) && Misses(b, r)
    ensures Inside(m, b) == multiset{} && Outside(m, b) == m
  {
    FilterNone(m, b);
  }

  /** A box contains an exact range precisely when it contains all of its points. */
  lemma CoversMeansAll(b: Box, r: Range, m: multiset<Point>)
    requires Tight(r, m)
    ensures Covers(b, r) <==> forall p :: p in m ==> InBox(b, p.at)
  {
    if forall p :: p in m ==> InBox(b, p.at) {
      var x0 :| x0 in m && x0.at.x == r.lo.x;
      var y0 :| y0 in m && y0.at.y == r.lo.y;
      var z0 :| z0 in m && z0.at.z == r.lo.z;
      var x1 :| x1 in m && x1.at.x == r.hi.x;
      var y1 :| y1 in m && y1.at.y == r.hi.y;
      var z1 :| z1 in m && z1.at.z == r.hi.z;
    }
  }
}
