/** The voxel rule of Add_Points with downsampling (ikd_Tree.cpp:487-522). */
module Downsample {
  import opened Geometry

  function CellStart(x: int, size: real): real
    requires size > 0.0
  {
    Start((x as real / size).Floor, size)
  }

  /** Where the i-th cell of an axis begins. */
  function Start(i: int, size: real): real { i as real * size }

  /** The grid box of a point. */
  function GridBox(v: Vec, size: real): Box
    requires size > 0.0
  {
    var lo := RVec(CellStart(v.x, size), CellStart(v.y, size), CellStart(v.z, size));
    Box(lo, RVec(lo.x + size, lo.y + size, lo.z + size))
  }

  function Centre(b: Box): RVec {
    RVec(b.min.x + (b.max.x - b.min.x) / 2.0,
         b.min.y + (b.max.y - b.min.y) / 2.0,
         b.min.z + (b.max.z - b.min.z) / 2.0)
  }

  function CentreDist(v: Vec, c: RVec): real {
    var dx, dy, dz := v.x as real - c.x, v.y as real - c.y, v.z as real - c.z;
    dx * dx + dy * dy + dz * dz
  }

  /** The centre is as far from the lower as from the upper face on each axis. */
  lemma CentreInTheMiddle(b: Box)
    ensures var c := Centre(b);
      && c.x - b.min.x == b.max.x - c.x && c.y - b.min.y == b.max.y - c.y && c.z - b.min.z == b.max.z - c.z
  {
  }

  lemma SquareOfDifference(a: real, b: real)
    ensures (a - b) * (a - b) == a * a - 2.0 * (a * b) + b * b
  {
  }

  lemma Distribute(a: real, b: real, c: real)
    ensures a * (b - c) == a * b - a * c
  {
  }

  lemma CentreDistIs(v: Vec, c: RVec)
    ensures var x, y, z := v.x as real, v.y as real, v.z as real;
      CentreDist(v, c) == (x - c.x) * (x - c.x) + (y - c.y) * (y - c.y) + (z - c.z) * (z - c.z)
  {
  }

  lemma CentreDistSum(v: Vec, c: RVec)
    ensures var x, y, z := v.x as real, v.y as real, v.z as real;
      CentreDist(v, c) == (x * x + y * y + z * z) - 2.0 * (x * c.x + y * c.y + z * c.z)
        + (c.x * c.x + c.y * c.y + c.z * c.z)
  {
    hide CentreDist;
    CentreDistIs(v, c);
    SquareOfDifference(v.x as real, c.x);
    SquareOfDifference(v.y as real, c.y);
    SquareOfDifference(v.z as real, c.z);
  }

  /** Ranking by distance from the centre, without a square of a difference. */
  lemma CentreNearerIff(c: RVec, v: Vec, w: Vec)
    ensures var dx, dy, dz := (w.x - v.x) as real, (w.y - v.y) as real, (w.z - v.z) as real;
      CentreDist(v, c) <= CentreDist(w, c) <==>
        2.0 * (c.x * dx + c.y * dy + c.z * dz)
        <= (w.x * w.x + w.y * w.y + w.z * w.z) as real - (v.x * v.x + v.y * v.y + v.z * v.z) as real
  {
    hide CentreDist;
    CentreDistSum(v, c);
    CentreDistSum(w, c);
    Distribute(c.x, w.x as real, v.x as real);
    Distribute(c.y, w.y as real, v.y as real);
    Distribute(c.z, w.z as real, v.z as real);
    SquareAsReal(v.x);
    SquareAsReal(v.y);
    SquareAsReal(v.z);
    SquareAsReal(w.x);
    SquareAsReal(w.y);
    SquareAsReal(w.z);
  }

  lemma SquareAsReal(a: int)
    ensures (a * a) as real == a as real * a as real
  {
  }

  /** Grid boxes are cubes of the given side whose lower corners lie on its multiples. */
  lemma BoxOnGrid(v: Vec, size: real)
    requires size > 0.0
    ensures var b := GridBox(v, size);
      && WholeMultiple(b.min.x, size) && WholeMultiple(b.min.y, size) && WholeMultiple(b.min.z, size)
      && b.max.x - b.min.x == size && b.max.y - b.min.y == size && b.max.z - b.min.z == size
  {
    hide Start;
    StartIsMultiple((v.x as real / size).Floor, size);
    StartIsMultiple((v.y as real / size).Floor, size);
    StartIsMultiple((v.z as real / size).Floor, size);
  }

  predicate WholeMultiple(x: real, size: real)
    requires size > 0.0
  {
    x == (x / size).Floor as real * size
  }

  lemma StartIsMultiple(i: int, size: real)
    requires size > 0.0
    ensures WholeMultiple(Start(i, size), size)
  {
    assert i as real * size / size == i as real;
  }

  lemma CellHolds(x: int, size: real)
    requires size > 0.0
    ensures CellStart(x, size) <= x as real < CellStart(x, size) + size
  {
    var q := x as real / size;
    assert q * size == x as real;
    Scale(q.Floor as real, q, size);
    BelowNext(x as real, q, q.Floor as real, size);
  }

  lemma BelowNext(x: real, q: real, f: real, size: real)
    requires size > 0.0 && q * size == x && q < f + 1.0
    ensures x < f * size + size
  {
    ProductPositive(f + 1.0 - q, size);
    calc {
      0.0;
    <
      (f + 1.0 - q) * size;
    ==
      f * size + size - q * size;
    ==
      f * size + size - x;
    }
  }

  lemma ProductPositive(a: real, b: real)
    requires a > 0.0 && b > 0.0
    ensures a * b > 0.0
  {
  }

  lemma Scale(a: real, b: real, size: real)
    requires size > 0.0 && a <= b
    ensures a * size <= b * size
  {
    assert (b - a) * size >= 0.0;
  }

  /** Grid cells of one axis are equal or disjoint. */
  lemma CellUnique(x: int, y: int, size: real)
    requires size > 0.0
    requires CellStart(x, size) <= y as real < CellStart(x, size) + size
    ensures CellStart(y, size) == CellStart(x, size)
  {
    hide Start;
    CellHolds(y, size);
    var i, j := (x as real / size).Floor, (y as real / size).Floor;
    if i < j {
      StartsApart(i, j, size);
    } else if j < i {
      StartsApart(j, i, size);
    }
  }

  lemma StartsApart(i: int, j: int, size: real)
    requires size > 0.0 && i < j
    ensures Start(i, size) + size <= Start(j, size)
  {
    var d := j as real - i as real - 1.0;
    assert d * size >= 0.0;
    assert d * size == j as real * size - i as real * size - size;
  }

  /** A point lies in its own grid box. */
  lemma InOwnBox(v: Vec, size: real)
    requires size > 0.0
    ensures InBox(GridBox(v, size), v)
  {
    hide CellStart;
    CellHolds(v.x, size);
    CellHolds(v.y, size);
    CellHolds(v.z, size);
  }

  /** A point of a grid box has that grid box. */
  lemma BoxUnique(v: Vec, w: Vec, size: real)
    requires size > 0.0 && InBox(GridBox(v, size), w)
    ensures GridBox(w, size) == GridBox(v, size)
  {
    hide CellStart;
    CellUnique(v.x, w.x, size);
    CellUnique(v.y, w.y, size);
    CellUnique(v.z, w.z, size);
  }

  /** best is a point of all at minimum distance to the centre of box b. */
  ghost predicate Nearest(all: multiset<Point>, b: Box, best: Point) {
    && best in all
    && forall e :: e in all ==> CentreDist(best.at, Centre(b)) <= CentreDist(e.at, Centre(b))
  }

  /** m' is m after the downsampled insertion of p: outside p's grid box nothing changes; in
      it exactly one point is left, one nearest to the centre among the old ones and p. */
  ghost predicate Downsampled(m: multiset<Point>, p: Point, size: real, m': multiset<Point>)
    requires size > 0.0
  {
    var b := GridBox(p.at, size);
    && Outside(m', b) == Outside(m, b)
    && exists best :: Inside(m', b) == multiset{best} && Nearest(Inside(m, b) + multiset{p}, b, best)
  }

  /** At most one point in every grid box. */
  ghost predicate OnePerBox(m: multiset<Point>, size: real)
    requires size > 0.0
  {
    forall v: Vec :: |Inside(m, GridBox(v, size))| <= 1
  }

  /** The filters of two disjoint boxes do not interfere. */
  lemma OtherBox(m: multiset<Point>, m': multiset<Point>, b: Box, c: Box)
    requires Outside(m', b) == Outside(m, b)
    requires forall v :: InBox(c, v) ==> !InBox(b, v)
    ensures Inside(m', c) == Inside(m, c)
  {
    hide Inside, Outside, InBox;
    forall p ensures Inside(m', c)[p] == Inside(m, c)[p] {
      assert Outside(m', b)[p] == Outside(m, b)[p];
    }
  }

  /** Downsampled insertions keep a map with at most one point per grid box that way. */
  lemma OnePerBoxKept(m: multiset<Point>, p: Point, size: real, m': multiset<Point>)
    requires size > 0.0
    requires OnePerBox(m, size) && Downsampled(m, p, size, m')
    ensures OnePerBox(m', size)
  {
    hide Inside, Outside, InBox, GridBox, Nearest;
    var b := GridBox(p.at, size);
    forall v: Vec ensures |Inside(m', GridBox(v, size))| <= 1 {
      var c := GridBox(v, size);
      if c != b {
        forall w | InBox(c, w) ensures !InBox(b, w) {
          BoxUnique(v, w, size);
          if InBox(b, w) { BoxUnique(p.at, w, size); }
        }
        OtherBox(m, m', b, c);
      }
    }
  }

  /** The whole vector: a chain of single insertions. */
  ghost predicate DownsampleRun(pts: seq<Point>, size: real, states: seq<multiset<Point>>)
    requires size > 0.0
  {
    && |states| == |pts| + 1
    && forall i :: 0 <= i < |pts| ==> Downsampled(states[i], pts[i], size, states[i + 1])
  }

  lemma {:induction false} OnePerBoxForever(pts: seq<Point>, size: real, states: seq<multiset<Point>>, n: nat)
    requires size > 0.0 && DownsampleRun(pts, size, states) && n <= |pts|
    requires OnePerBox(states[0], size)
    ensures OnePerBox(states[n], size)
  {
    hide OnePerBox, Downsampled;
    if n > 0 {
      OnePerBoxForever(pts, size, states, n - 1);
      OnePerBoxKept(states[n - 1], pts[n - 1], size, states[n]);
    }
  }

  /** The selection loop: the new point unless an old one is strictly nearer. */
  method Select(p: Point, stored: seq<Point>, centre: RVec) returns (best: Point)
    ensures best == p || best in stored
    ensures best.at == p.at ==> best == p
    ensures CentreDist(best.at, centre) <= CentreDist(p.at, centre)
    ensures forall e :: e in stored ==> CentreDist(best.at, centre) <= CentreDist(e.at, centre)
    ensures best != p ==> CentreDist(best.at, centre) < CentreDist(p.at, centre)
  {
    hide CentreDist;
    var minDist := CentreDist(p.at, centre);
    best := p;
    for i := 0 to |stored|
      invariant best == p || best in stored
      invariant minDist == CentreDist(best.at, centre) <= CentreDist(p.at, centre)
      invariant best != p ==> minDist < CentreDist(p.at, centre)
      invariant forall j :: 0 <= j < i ==> minDist <= CentreDist(stored[j].at, centre)
    {
      var d := CentreDist(stored[i].at, centre);
      if d < minDist {
        minDist := d;
        best := stored[i];
      }
    }
  }

  lemma SelectedNearest(m: multiset<Point>, b: Box, p: Point, found: seq<Point>, best: Point)
    requires multiset(found) == Inside(m, b)
    requires best == p || best in found
    requires CentreDist(best.at, Centre(b)) <= CentreDist(p.at, Centre(b))
    requires forall e :: e in found ==> CentreDist(best.at, Centre(b)) <= CentreDist(e.at, Centre(b))
    ensures Nearest(Inside(m, b) + multiset{p}, b, best)
    ensures best != p ==> InBox(b, best.at)
  {
    hide Inside, CentreDist, InBox, Centre;
    forall e | e in Inside(m, b) + multiset{p}
      ensures CentreDist(best.at, Centre(b)) <= CentreDist(e.at, Centre(b))
    {
      assert e == p || e in found;
    }
    if best != p {
      assert best in Inside(m, b);
    }
  }

  /** Clearing the box and inserting best leaves exactly best in it. */
  lemma ReplacedBox(m: multiset<Point>, b: Box, p: Point, found: seq<Point>, best: Point,
                    m': multiset<Point>)
    requires multiset(found) == Inside(m, b)
    requires InBox(b, p.at) && (best != p ==> InBox(b, best.at))
    requires m' == (if |found| > 0 then Outside(m, b) else m) + multiset{best}
    ensures Outside(m', b) == Outside(m, b) && Inside(m', b) == multiset{best}
  {
    hide Inside, Outside, InBox;
    var rest := Outside(m, b);
    assert m == rest + Inside(m, b);
    if |found| == 0 {
      assert multiset(found) == multiset{};
      assert m == rest;
    }
    FilterNone(rest, b);
    FilterAll(multiset{best}, b);
    FilterSum(rest, multiset{best}, b);
  }

  /** Not inserting: the box holds exactly one point, and it is nearer than p. */
  lemma KeptBox(m: multiset<Point>, b: Box, p: Point, found: seq<Point>, best: Point)
    requires multiset(found) == Inside(m, b) && |found| <= 1
    requires best in found
    ensures Inside(m, b) == multiset{best}
  {
    hide Inside;
    assert found == [best];
  }

  /** The box already holds exactly one point, and it is strictly nearer to the centre. */
  ghost predicate KeepsOld(m: multiset<Point>, p: Point, size: real)
    requires size > 0.0
  {
    var b := GridBox(p.at, size);
    exists e :: Inside(m, b) == multiset{e} && CentreDist(e.at, Centre(b)) < CentreDist(p.at, Centre(b))
  }

  /** The source's test for an insertion fails exactly then. */
  lemma {:induction false} InsertsIff(m: multiset<Point>, p: Point, size: real, found: seq<Point>, best: Point)
    requires size > 0.0
    requires var b := GridBox(p.at, size);
      && multiset(found) == Inside(m, b) && (best != p ==> best in found) && (best.at == p.at ==> best == p)
      && Nearest(Inside(m, b) + multiset{p}, b, best)
      && (best != p ==> CentreDist(best.at, Centre(b)) < CentreDist(p.at, Centre(b)))
    ensures |found| > 1 || p.at == best.at <==> !KeepsOld(m, p, size)
  {
    hide Inside, CentreDist, Centre, GridBox;
    var b := GridBox(p.at, size);
    if |found| <= 1 && best != p {
      KeptBox(m, b, p, found, best);
    }
    if e :| Inside(m, b) == multiset{e} && CentreDist(e.at, Centre(b)) < CentreDist(p.at, Centre(b)) {
      assert |found| == |multiset(found)| == 1;
      assert e in Inside(m, b) + multiset{p};
    }
  }

  /** How many of the first n insertions of a run took place. */
  ghost function Inserted(pts: seq<Point>, size: real, states: seq<multiset<Point>>, n: nat): nat
    requires size > 0.0 && n <= |pts| && n < |states|
  {
    if n == 0 then 0
    else Inserted(pts, size, states, n - 1) + (if KeepsOld(states[n - 1], pts[n - 1], size) then 0 else 1)
  }

  /** Later states do not matter. */
  lemma {:induction false} InsertedPrefix(pts: seq<Point>, size: real, states: seq<multiset<Point>>,
                                          more: seq<multiset<Point>>, n: nat)
    requires size > 0.0 && n <= |pts| && n < |states|
    ensures Inserted(pts, size, states + more, n) == Inserted(pts, size, states, n)
  {
    hide KeepsOld;
    if n > 0 { InsertedPrefix(pts, size, states, more, n - 1); }
  }
}
