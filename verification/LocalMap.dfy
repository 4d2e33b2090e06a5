/** The local map box that follows the sensor, and what leaving a part of the world deletes
    (laserMapping.cpp). */
module LocalMap {
  import opened Prelude
  import opened Geometry
  import K = KdTree
  import T = KdNode
  import U = TreeUpdate
  import L = LazyTree

  const MOV_THRESHOLD := 1.5

  function At(v: RVec, i: int): real {
    if i == 0 then v.x else if i == 1 then v.y else v.z
  }

  function Set(v: RVec, i: int, c: real): RVec {
    if i == 0 then v.(x := c) else if i == 1 then v.(y := c) else v.(z := c)
  }

  /** The half-open box, for real points. */
  predicate Has(b: Box, p: RVec) {
    forall i :: 0 <= i < 3 ==> At(b.min, i) <= At(p, i) < At(b.max, i)
  }

  predicate Cube(b: Box, side: real) {
    forall i :: 0 <= i < 3 ==> At(b.max, i) == At(b.min, i) + side
  }

  // ---- One move ------------------------------------------------------------------------------

  datatype Move = Stay | Down | Up

  function ToLow(b: Box, pos: RVec, i: int): real { RAbs(At(pos, i) - At(b.min, i)) }
  function ToHigh(b: Box, pos: RVec, i: int): real { RAbs(At(pos, i) - At(b.max, i)) }

  function Margin(detRange: real): real { MOV_THRESHOLD * detRange }

  function MovDist(cubeLen: real, detRange: real): real {
    RMax((cubeLen - 2.0 * Margin(detRange)) * 0.5 * 0.9, detRange * (MOV_THRESHOLD - 1.0))
  }

  /** Which way an axis moves; the lower edge is looked at first. */
  function MoveOf(b: Box, pos: RVec, detRange: real, i: int): Move {
    if ToLow(b, pos, i) <= Margin(detRange) then Down
    else if ToHigh(b, pos, i) <= Margin(detRange) then Up
    else Stay
  }

  function Offset(m: Move, dist: real): real {
    match m
    case Stay => 0.0
    case Down => -dist
    case Up => dist
  }

  /** The box moved along the first n axes. */
  function Moved(b: Box, pos: RVec, detRange: real, dist: real, n: nat): Box {
    if n == 0 then b
    else
      var c, o := Moved(b, pos, detRange, dist, n - 1), Offset(MoveOf(b, pos, detRange, n - 1), dist);
      Box(Set(c.min, n - 1, At(c.min, n - 1) + o), Set(c.max, n - 1, At(c.max, n - 1) + o))
  }

  /** The slab that a move along axis i leaves. */
  function Slab(b: Box, m: Move, dist: real, i: int): Box {
    if m == Down then b.(min := Set(b.min, i, At(b.max, i) - dist))
    else b.(max := Set(b.max, i, At(b.min, i) + dist))
  }

  function Slabs(b: Box, pos: RVec, detRange: real, dist: real, n: nat): seq<Box> {
    if n == 0 then []
    else
      var m := MoveOf(b, pos, detRange, n - 1);
      Slabs(b, pos, detRange, dist, n - 1) + (if m == Stay then [] else [Slab(b, m, dist, n - 1)])
  }

  /** Whither an axis moves, given how far the sensor is above its lower and below its upper edge:
      by nine twentieths of what the side exceeds three detection ranges by, or by half a
      detection range if that is more. */
  function AxisMove(aboveLow: real, belowHigh: real, side: real, detRange: real): real {
    var d := if 0.45 * (side - 3.0 * detRange) >= 0.5 * detRange then 0.45 * (side - 3.0 * detRange)
             else 0.5 * detRange;
    if -1.5 * detRange <= aboveLow <= 1.5 * detRange then -d
    else if -1.5 * detRange <= belowHigh <= 1.5 * detRange then d
    else 0.0
  }

  lemma {:induction false} MovedAxes(b: Box, pos: RVec, side: real, detRange: real)
    ensures var c := Moved(b, pos, detRange, MovDist(side, detRange), 3);
      forall i :: 0 <= i < 3 ==>
        At(c.min, i) == At(b.min, i) + AxisMove(At(pos, i) - At(b.min, i), At(b.max, i) - At(pos, i), side, detRange)
  {
    hide Moved, At;
    MovedLater(b, pos, detRange, MovDist(side, detRange), 3);
    forall i | 0 <= i < 3
      ensures Offset(MoveOf(b, pos, detRange, i), MovDist(side, detRange))
        == AxisMove(At(pos, i) - At(b.min, i), At(b.max, i) - At(pos, i), side, detRange)
    {
    }
  }

  /** The grid point was in the old box and is not in the new one. */
  predicate Left(b: Box, b': Box, v: Vec) { InBox(b, v) && !InBox(b', v) }

  /** lasermap_fov_segment and its globals. */
  class FovSegment {
    var localMapPoints: Box
    var localmapInitialized: bool
    var cubNeedrm: seq<Box>
    const cubeLen: real
    const detRange: real

    /** Once there is a box, it is a cube of the configured side, for ever. */
    ghost predicate Valid()
      reads this
    {
      localmapInitialized ==> Cube(localMapPoints, cubeLen)
    }

    constructor (side: real, range: real)
      ensures Valid() && !localmapInitialized && cubNeedrm == []
      ensures cubeLen == side && detRange == range
    {
      cubeLen, detRange := side, range;
      localmapInitialized := false;
      localMapPoints, cubNeedrm := Box(RVec(0.0, 0.0, 0.0), RVec(0.0, 0.0, 0.0)), [];
    }

    method Segment(pos: RVec)
      requires Valid()
      modifies this
      ensures Valid() && localmapInitialized
      ensures !old(localmapInitialized) ==> cubNeedrm == []
      ensures !old(localmapInitialized) ==>
        forall i :: 0 <= i < 3 ==> At(localMapPoints.min, i) == At(pos, i) - cubeLen / 2.0
      ensures old(localmapInitialized) ==>
        var dist := MovDist(cubeLen, detRange);
        && localMapPoints == Moved(old(localMapPoints), pos, detRange, dist, 3)
        && cubNeedrm == Slabs(old(localMapPoints), pos, detRange, dist, 3)
      // In numbers: an axis moves down by d if the sensor is within 1.5 detection ranges of its
      // lower edge, else up by d if it is so of the upper one, else not at all.
      ensures old(localmapInitialized) ==>
        forall i :: 0 <= i < 3 ==>
          At(localMapPoints.min, i) == At(old(localMapPoints).min, i)
            + AxisMove(At(pos, i) - At(old(localMapPoints).min, i), At(old(localMapPoints).max, i) - At(pos, i),
                       cubeLen, detRange)
    {
      hide Cube, Moved, Slabs, MovDist, Margin, ToLow, ToHigh, At, Set, AxisMove;
      cubNeedrm := [];
      if !localmapInitialized {
        var half := cubeLen / 2.0;
        localMapPoints := Box(RVec(pos.x - half, pos.y - half, pos.z - half),
                              RVec(pos.x + half, pos.y + half, pos.z + half));
        localmapInitialized := true;
        FirstCube(pos, cubeLen);
        return;
      }
      ghost var was := localMapPoints;
      MovedAxes(was, pos, cubeLen, detRange);
      var needMove := false;
      for i := 0 to 3
        invariant localMapPoints == was && cubNeedrm == [] && localmapInitialized
        invariant !needMove ==> forall j :: 0 <= j < i ==> MoveOf(was, pos, detRange, j) == Stay
      {
        if ToLow(localMapPoints, pos, i) <= Margin(detRange) || ToHigh(localMapPoints, pos, i) <= Margin(detRange) {
          needMove := true;
        }
      }
      var movDist := MovDist(cubeLen, detRange);
      MovedCube(was, pos, detRange, movDist, cubeLen, 3);
      if !needMove {
        StaysPut(was, pos, detRange, movDist, 3);
        return;
      }
      var newLocalMapPoints := localMapPoints;
      NoAxis(was, pos, detRange, movDist);
      for i := 0 to 3
        invariant localMapPoints == was && localmapInitialized
        invariant newLocalMapPoints == Moved(was, pos, detRange, movDist, i)
        invariant cubNeedrm == Slabs(was, pos, detRange, movDist, i)
      {
        var b, n := localMapPoints, newLocalMapPoints;
        NextAxis(b, pos, detRange, movDist, i);
        if ToLow(b, pos, i) <= Margin(detRange) {
          newLocalMapPoints := Box(Set(n.min, i, At(n.min, i) - movDist), Set(n.max, i, At(n.max, i) - movDist));
          cubNeedrm := cubNeedrm + [Box(Set(b.min, i, At(b.max, i) - movDist), b.max)];
        } else if ToHigh(b, pos, i) <= Margin(detRange) {
          newLocalMapPoints := Box(Set(n.min, i, At(n.min, i) + movDist), Set(n.max, i, At(n.max, i) + movDist));
          cubNeedrm := cubNeedrm + [Box(b.min, Set(b.max, i, At(b.min, i) + movDist))];
        }
      }
      localMapPoints := newLocalMapPoints;
    }

    /** The box moves and the tree forgets what it leaves. */
    method SegmentAndDelete(pos: RVec, ikdtree: K.Tree) returns (deleted: int)
      requires Valid() && ikdtree.Ready() && ikdtree.Room(3)
      modifies this, ikdtree`root, ikdtree`rebuildPtr, ikdtree`todo, ikdtree`waiting, T.Node.Repr(ikdtree.root),
        ikdtree.logger, ikdtree.logger.q
      ensures Valid() && ikdtree.Ready()
      ensures ikdtree.LivePoints() == OutsideAll(old(ikdtree.LivePoints()), cubNeedrm)
      ensures !old(localmapInitialized) ==> ikdtree.LivePoints() == old(ikdtree.LivePoints())
      ensures old(localmapInitialized) ==>
        && localMapPoints == Moved(old(localMapPoints), pos, detRange, MovDist(cubeLen, detRange), 3)
        && cubNeedrm == Slabs(old(localMapPoints), pos, detRange, MovDist(cubeLen, detRange), 3)
      ensures old(localmapInitialized) && 0.0 < detRange <= 2.0 * cubeLen ==>
        var was := old(ikdtree.LivePoints());
        forall p :: ikdtree.LivePoints()[p] == if Left(old(localMapPoints), localMapPoints, p.at) then 0 else was[p]
      ensures deleted == old(|ikdtree.LivePoints()|) - |ikdtree.LivePoints()|
      ensures ikdtree.Grown(old(U.FitnessOf(T.Node.TreeOf(ikdtree.root), ikdtree.params)),
                            old(L.Count(T.Node.TreeOf(ikdtree.root))), old(ikdtree.rebuildPtr))
    {
      hide Slabs, Moved, MovDist, MoveOf, InBox, OutsideAll, Cube, K.Tree.Ready, K.Tree.LivePoints, K.Tree.Grown,
        U.FitnessOf, L.Count;
      ikdtree.GrownFromNothing();
      ghost var b, dist, m := localMapPoints, MovDist(cubeLen, detRange), ikdtree.LivePoints();
      ghost var nodes, spare := T.Node.Repr(ikdtree.root), T.Node.Repr(ikdtree.newRoot);
      assert forall n: object :: n in nodes + spare ==> n is T.Node && n != this;
      Segment(pos);
      assert ikdtree.Ready();
      SlabsAtMost(b, pos, detRange, dist, 3);
      if old(localmapInitialized) && 0.0 < detRange <= 2.0 * cubeLen {
        LeavesDeletedAll(m, b, pos, detRange, cubeLen);
      }
      OutsideNone(m);
      deleted := 0;
      if |cubNeedrm| > 0 {
        deleted := ikdtree.DeletePointBoxes(cubNeedrm);
      }
    }
  }

  lemma FirstCube(pos: RVec, side: real)
    ensures var half := side / 2.0;
      var b := Box(RVec(pos.x - half, pos.y - half, pos.z - half), RVec(pos.x + half, pos.y + half, pos.z + half));
      Cube(b, side) && forall i :: 0 <= i < 3 ==> At(b.min, i) == At(pos, i) - half
  {
  }

  lemma NoAxis(b: Box, pos: RVec, detRange: real, dist: real)
    ensures Moved(b, pos, detRange, dist, 0) == b && Slabs(b, pos, detRange, dist, 0) == []
  {
  }

  lemma NextAxis(b: Box, pos: RVec, detRange: real, dist: real, i: nat)
    requires i < 3
    ensures var n := Moved(b, pos, detRange, dist, i);
      Moved(b, pos, detRange, dist, i + 1) == match MoveOf(b, pos, detRange, i)
        case Stay => n
        case Down => Box(Set(n.min, i, At(n.min, i) - dist), Set(n.max, i, At(n.max, i) - dist))
        case Up => Box(Set(n.min, i, At(n.min, i) + dist), Set(n.max, i, At(n.max, i) + dist))
    ensures var s := Slabs(b, pos, detRange, dist, i);
      Slabs(b, pos, detRange, dist, i + 1) == match MoveOf(b, pos, detRange, i)
        case Stay => s
        case Down => s + [Box(Set(b.min, i, At(b.max, i) - dist), b.max)]
        case Up => s + [Box(b.min, Set(b.max, i, At(b.min, i) + dist))]
  {
    hide MoveOf;
  }

  /** Axes from n on have not moved yet, earlier ones by their offset. */
  lemma {:induction false} MovedLater(b: Box, pos: RVec, detRange: real, dist: real, n: nat)
    requires n <= 3
    ensures var c := Moved(b, pos, detRange, dist, n);
      forall i :: 0 <= i < 3 ==>
        var o := if i < n then Offset(MoveOf(b, pos, detRange, i), dist) else 0.0;
        At(c.min, i) == At(b.min, i) + o && At(c.max, i) == At(b.max, i) + o
  {
    hide MoveOf, Offset;
    if n > 0 {
      MovedLater(b, pos, detRange, dist, n - 1);
    }
  }

  lemma {:induction false} MovedCube(b: Box, pos: RVec, detRange: real, dist: real, side: real, n: nat)
    requires Cube(b, side) && n <= 3
    ensures Cube(Moved(b, pos, detRange, dist, n), side)
  {
    hide MoveOf, Offset;
    MovedLater(b, pos, detRange, dist, n);
  }

  lemma {:induction false} StaysPut(b: Box, pos: RVec, detRange: real, dist: real, n: nat)
    requires n <= 3 && forall i :: 0 <= i < n ==> MoveOf(b, pos, detRange, i) == Stay
    ensures Moved(b, pos, detRange, dist, n) == b && Slabs(b, pos, detRange, dist, n) == []
  {
    hide MoveOf;
    if n > 0 {
      StaysPut(b, pos, detRange, dist, n - 1);
    }
  }

  // ---- What the slabs cover ------------------------------------------------------------------

  predicate InSome(slabs: seq<Box>, p: RVec) {
    exists s :: s in slabs && Has(s, p)
  }

  predicate InSlab(b: Box, pos: RVec, detRange: real, dist: real, i: int, p: RVec) {
    var m := MoveOf(b, pos, detRange, i);
    m != Stay && Has(Slab(b, m, dist, i), p)
  }

  lemma {:induction false} SlabsHave(b: Box, pos: RVec, detRange: real, dist: real, n: nat, p: RVec)
    ensures InSome(Slabs(b, pos, detRange, dist, n), p)
       <==> exists i :: 0 <= i < n && InSlab(b, pos, detRange, dist, i, p)
  {
    hide MoveOf, Slab, Has;
    if n > 0 {
      SlabsHave(b, pos, detRange, dist, n - 1, p);
      var front, m := Slabs(b, pos, detRange, dist, n - 1), MoveOf(b, pos, detRange, n - 1);
      if m != Stay {
        var slab := Slab(b, m, dist, n - 1);
        assert forall s :: s in front + [slab] <==> s in front || s == slab;
      }
      assert InSome(Slabs(b, pos, detRange, dist, n), p)
        <==> InSome(front, p) || InSlab(b, pos, detRange, dist, n - 1, p);
    }
  }

  /** A slab is the old box, cut to the outermost `dist` of its axis. */
  lemma {:induction false} SlabHas(b: Box, pos: RVec, detRange: real, dist: real, i: int, p: RVec)
    requires 0 <= i < 3
    ensures InSlab(b, pos, detRange, dist, i, p) <==>
      && (forall j :: 0 <= j < 3 && j != i ==> At(b.min, j) <= At(p, j) < At(b.max, j))
      && match MoveOf(b, pos, detRange, i)
         case Stay => false
         case Down => At(b.max, i) - dist <= At(p, i) < At(b.max, i)
         case Up => At(b.min, i) <= At(p, i) < At(b.min, i) + dist
  {
    hide MoveOf;
    var m := MoveOf(b, pos, detRange, i);
    if m != Stay {
      var s := Slab(b, m, dist, i);
      forall j | 0 <= j < 3
        ensures At(s.min, j) == if j == i && m == Down then At(b.max, i) - dist else At(b.min, j)
        ensures At(s.max, j) == if j == i && m == Up then At(b.min, i) + dist else At(b.max, j)
      {
      }
    }
  }

  /** Moving the box deletes exactly what it leaves: the slabs are disjoint from the new box
      and cover the old box outside the new one, also when several axes move at once. */
  lemma {:induction false} SlabsCoverWhatIsLeft(b: Box, pos: RVec, detRange: real, dist: real, side: real, p: RVec)
    requires Cube(b, side) && 0.0 <= dist <= side
    ensures InSome(Slabs(b, pos, detRange, dist, 3), p)
       <==> Has(b, p) && !Has(Moved(b, pos, detRange, dist, 3), p)
  {
    hide MoveOf, InSlab, Slabs, Moved;
    SlabsHave(b, pos, detRange, dist, 3, p);
    MovedLater(b, pos, detRange, dist, 3);
    forall i | 0 <= i < 3
      ensures InSlab(b, pos, detRange, dist, i, p) ==> Has(b, p) && !Has(Moved(b, pos, detRange, dist, 3), p)
      ensures Has(b, p) && !InSlab(b, pos, detRange, dist, i, p) ==>
        At(Moved(b, pos, detRange, dist, 3).min, i) <= At(p, i) < At(Moved(b, pos, detRange, dist, 3).max, i)
    {
      SlabHas(b, pos, detRange, dist, i, p);
    }
  }

  /** A point of a slab that is outside the box, if the move is longer than the box. */
  function Corner(b: Box, m: Move, dist: real, i: int, side: real): RVec {
    if m == Down then Set(b.min, i, At(b.max, i) - dist)
    else Set(b.min, i, At(b.min, i) + (dist + side) / 2.0)
  }

  lemma {:induction false} CornerOutside(b: Box, pos: RVec, detRange: real, dist: real, side: real, i: int)
    requires Cube(b, side) && dist > side > 0.0
    requires 0 <= i < 3 && MoveOf(b, pos, detRange, i) != Stay
    ensures var p := Corner(b, MoveOf(b, pos, detRange, i), dist, i, side);
      InSlab(b, pos, detRange, dist, i, p) && !Has(b, p)
  {
    hide MoveOf, InSlab;
    var p := Corner(b, MoveOf(b, pos, detRange, i), dist, i, side);
    SlabHas(b, pos, detRange, dist, i, p);
    assert forall j :: 0 <= j < 3 && j != i ==> At(p, j) == At(b.min, j);
  }

  /** When the box moves, its slabs stay within the old box exactly if the move is no longer
      than the box. */
  lemma {:induction false} SlabsWithinIff(b: Box, pos: RVec, detRange: real, dist: real, side: real)
    requires Cube(b, side) && dist >= 0.0 && side > 0.0
    requires exists i :: 0 <= i < 3 && MoveOf(b, pos, detRange, i) != Stay
    ensures (forall p :: InSome(Slabs(b, pos, detRange, dist, 3), p) ==> Has(b, p)) <==> dist <= side
  {
    hide MoveOf, InSlab, Slabs, Moved, Has, InSome, Corner, Cube;
    if dist <= side {
      forall p ensures InSome(Slabs(b, pos, detRange, dist, 3), p) ==> Has(b, p) {
        SlabsCoverWhatIsLeft(b, pos, detRange, dist, side, p);
      }
    } else {
      var i :| 0 <= i < 3 && MoveOf(b, pos, detRange, i) != Stay;
      CornerOutside(b, pos, detRange, dist, side, i);
      SlabsHave(b, pos, detRange, dist, 3, Corner(b, MoveOf(b, pos, detRange, i), dist, i, side));
    }
  }

  /** In terms of the two parameters: the detection range is at most twice the side. */
  lemma MoveFits(side: real, detRange: real)
    requires detRange > 0.0 && side > 0.0
    ensures MovDist(side, detRange) > 0.0
    ensures MovDist(side, detRange) <= side <==> detRange <= 2.0 * side
  {
  }

  // ---- The sensor and its box ------------------------------------------------------------------

  /** A sensor inside the box is inside the moved box. */
  ghost predicate KeepsSensor(b: Box, side: real, detRange: real) {
    forall pos :: Has(b, pos) ==> Has(Moved(b, pos, detRange, MovDist(side, detRange), 3), pos)
  }

  lemma {:induction false} SensorStays(b: Box, side: real, detRange: real, pos: RVec)
    requires Cube(b, side) && detRange > 0.0 && 2.0 * detRange < side && Has(b, pos)
    ensures Has(Moved(b, pos, detRange, MovDist(side, detRange), 3), pos)
  {
    hide Moved;
    MovedLater(b, pos, detRange, MovDist(side, detRange), 3);
  }

  /** A sensor that the move throws out of the box: just below its upper corner. */
  lemma {:induction false} SensorLost(b: Box, side: real, detRange: real) returns (pos: RVec)
    requires Cube(b, side) && detRange > 0.0 && side > 0.0 && side <= 2.0 * detRange
    ensures Has(b, pos) && !Has(Moved(b, pos, detRange, MovDist(side, detRange), 3), pos)
  {
    hide Moved;
    // at the margin of the lower edge if that is inside the box, else as far up as it takes
    var c := if Margin(detRange) < side then Margin(detRange)
             else if MovDist(side, detRange) >= side then 0.0
             else side - MovDist(side, detRange);
    pos := RVec(b.min.x + c, b.min.y + c, b.min.z + c);
    MovedLater(b, pos, detRange, MovDist(side, detRange), 3);
    assert At(pos, 0) == At(b.min, 0) + c;
  }

  /** The local map keeps the sensor inside for every position exactly if the side is more
      than twice the detection range (its defaults, 200 and 300, are not so). */
  lemma {:induction false} KeepsSensorIff(b: Box, side: real, detRange: real)
    requires Cube(b, side) && detRange > 0.0 && side > 0.0
    ensures KeepsSensor(b, side, detRange) <==> 2.0 * detRange < side
  {
    hide Moved, Has, Cube, MovDist;
    if 2.0 * detRange < side {
      forall pos | Has(b, pos) ensures Has(Moved(b, pos, detRange, MovDist(side, detRange), 3), pos) {
        SensorStays(b, side, detRange, pos);
      }
    } else {
      var pos := SensorLost(b, side, detRange);
    }
  }

  // ---- Deletion from the map -------------------------------------------------------------------

  function Real(v: Vec): RVec { RVec(v.x as real, v.y as real, v.z as real) }

  lemma BoxHas(b: Box, v: Vec)
    ensures InBox(b, v) <==> Has(b, Real(v))
  {
    if InBox(b, v) {
    } else {
      assert !(At(b.min, 0) <= At(Real(v), 0) < At(b.max, 0)) || !(At(b.min, 1) <= At(Real(v), 1) < At(b.max, 1))
          || !(At(b.min, 2) <= At(Real(v), 2) < At(b.max, 2));
    }
  }

  /** Deleting the slabs removes precisely the points of the old box outside the new one. */
  lemma {:induction false} LeavesDeleted(m: multiset<Point>, b: Box, pos: RVec, detRange: real, side: real, p: Point)
    requires Cube(b, side) && side > 0.0 && 0.0 < detRange <= 2.0 * side
    ensures var dist := MovDist(side, detRange);
      OutsideAll(m, Slabs(b, pos, detRange, dist, 3))[p]
      == if Left(b, Moved(b, pos, detRange, dist, 3), p.at) then 0 else m[p]
  {
    hide MoveOf, Slabs, Moved, Has, Cube, MovDist, InBox, OutsideAll;
    var dist := MovDist(side, detRange);
    var slabs := Slabs(b, pos, detRange, dist, 3);
    OutsideAllPoints(m, slabs, p);
    MoveFits(side, detRange);
    SlabsCoverWhatIsLeft(b, pos, detRange, dist, side, Real(p.at));
    BoxHas(b, p.at);
    BoxHas(Moved(b, pos, detRange, dist, 3), p.at);
    AnyHas(slabs, p.at);
  }

  lemma {:induction false} LeavesDeletedAll(m: multiset<Point>, b: Box, pos: RVec, detRange: real, side: real)
    requires Cube(b, side) && side > 0.0 && 0.0 < detRange <= 2.0 * side
    ensures var dist := MovDist(side, detRange);
      var left := OutsideAll(m, Slabs(b, pos, detRange, dist, 3));
      forall p :: left[p] == if Left(b, Moved(b, pos, detRange, dist, 3), p.at) then 0 else m[p]
  {
    hide *;
    var dist := MovDist(side, detRange);
    var left := OutsideAll(m, Slabs(b, pos, detRange, dist, 3));
    forall p ensures left[p] == if Left(b, Moved(b, pos, detRange, dist, 3), p.at) then 0 else m[p] {
      LeavesDeleted(m, b, pos, detRange, side, p);
    }
  }

  lemma {:induction false} SlabsAtMost(b: Box, pos: RVec, detRange: real, dist: real, n: nat)
    ensures |Slabs(b, pos, detRange, dist, n)| <= n
  {
    if n > 0 { SlabsAtMost(b, pos, detRange, dist, n - 1); }
  }

  lemma {:induction false} AnyHas(slabs: seq<Box>, v: Vec)
    ensures InAny(slabs, v) <==> InSome(slabs, Real(v))
  {
    hide Has, InBox;
    forall s | s in slabs ensures InBox(s, v) <==> Has(s, Real(v)) { BoxHas(s, v); }
  }
}
