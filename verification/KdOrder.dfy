/** The k-d order: what insertion descends by, and every operation keeps. */
module KdOrder {
  import opened Geometry
  import opened LazyTree
  import opened Balance

  /** The points of all nodes, deleted ones included. */
  ghost function Stored(t: Tree): set<Point> {
    match t case Nil => {} case Bin(d, l, r) => {d.point} + Stored(l) + Stored(r)
  }

  /** On the axis of every node, the points stored on its left are at most, those on its right
      at least its own. */
  ghost predicate KdOrdered(t: Tree) {
    match t
    case Nil => true
    case Bin(d, l, r) => Divides(d, Stored(l), Stored(r)) && KdOrdered(l) && KdOrdered(r)
  }

  ghost predicate Divides(d: Rec, left: set<Point>, right: set<Point>) {
    && 0 <= d.axis <= 2
    && (forall p :: p in left ==> Coord(p.at, d.axis) <= Coord(d.point.at, d.axis))
    && (forall p :: p in right ==> Coord(p.at, d.axis) >= Coord(d.point.at, d.axis))
  }

  /** t' stores nothing new but `extra`, and is in order if t is. */
  ghost predicate KdKept(t: Tree, t': Tree, extra: set<Point>) {
    Stored(t') <= Stored(t) + extra && (KdOrdered(t) ==> KdOrdered(t'))
  }

  lemma {:induction false} SameShapeKept(t: Tree, u: Tree)
    requires SameShape(t, u)
    ensures Stored(t) == Stored(u) && KdOrdered(t) == KdOrdered(u)
  {
    hide Divides;
    if t.Bin? {
      SameShapeKept(t.l, u.l);
      SameShapeKept(t.r, u.r);
      assert Divides(t.d, Stored(t.l), Stored(t.r)) == Divides(u.d, Stored(t.l), Stored(t.r)) by {
        SameDivides(t.d, u.d, Stored(t.l), Stored(t.r));
      }
    }
  }

  lemma SameDivides(d: Rec, e: Rec, left: set<Point>, right: set<Point>)
    requires d.axis == e.axis && d.point == e.point
    ensures Divides(d, left, right) == Divides(e, left, right)
  {
  }

  /** Sons that store less, and a record with the same point and axis. */
  lemma {:induction false} PartsKept(t: Tree, t': Tree)
    requires t.Bin? && t'.Bin? && t'.d.axis == t.d.axis && t'.d.point == t.d.point
    requires KdKept(t.l, t'.l, {}) && KdKept(t.r, t'.r, {})
    ensures KdKept(t, t', {})
  {
    hide KdOrdered, Divides, Stored;
    StoredNode(t);
    StoredNode(t');
    if Divides(t.d, Stored(t.l), Stored(t.r)) {
      FewerDivided(t.d, t'.d, Stored(t.l), Stored(t.r), Stored(t'.l), Stored(t'.r));
    }
  }

  lemma StoredNode(t: Tree)
    requires t.Bin?
    ensures Stored(t) == {t.d.point} + Stored(t.l) + Stored(t.r)
    ensures KdOrdered(t) <==> Divides(t.d, Stored(t.l), Stored(t.r)) && KdOrdered(t.l) && KdOrdered(t.r)
  {
    hide Divides;
  }

  lemma FewerDivided(d: Rec, e: Rec, left: set<Point>, right: set<Point>, left': set<Point>, right': set<Point>)
    requires d.axis == e.axis && d.point == e.point && left' <= left && right' <= right
    requires Divides(d, left, right)
    ensures Divides(e, left', right')
  {
  }

  lemma KeptTrans(t: Tree, u: Tree, v: Tree, extra: set<Point>, more: set<Point>)
    requires KdKept(t, u, extra) && KdKept(u, v, more)
    ensures KdKept(t, v, extra + more)
  {
    hide Stored, KdOrdered;
  }

  lemma NilOrdered()
    ensures KdOrdered(Nil)
  {
  }

  lemma KeptOrdered(t: Tree, u: Tree, extra: set<Point>)
    requires KdKept(t, u, extra) && KdOrdered(t)
    ensures KdOrdered(u)
  {
    hide Stored, KdOrdered;
  }

  lemma ShapeKept(t: Tree, u: Tree)
    requires SameShape(t, u)
    ensures KdKept(t, u, {})
  {
    hide Stored, KdOrdered, SameShape;
    SameShapeKept(t, u);
  }

  lemma RecordKept(t: Tree, d: Rec)
    requires t.Bin? && d.axis == t.d.axis && d.point == t.d.point
    ensures KdKept(t, Bin(d, t.l, t.r), {})
  {
    hide Stored, KdOrdered;
    PartsKept(t, Bin(d, t.l, t.r));
  }

  // ---- Built trees -------------------------------------------------------------------------------

  lemma {:induction false} LiveAtMostCount(t: Tree)
    ensures |Live(t)| <= Count(t)
  {
    if t.Bin? {
      LiveAtMostCount(t.l);
      LiveAtMostCount(t.r);
    }
  }

  lemma {:induction false} LiveIsStored(t: Tree)
    ensures forall p :: p in Live(t) ==> p in Stored(t)
  {
    if t.Bin? {
      LiveIsStored(t.l);
      LiveIsStored(t.r);
    }
  }

  /** With as many live points as nodes, every stored point is live. */
  lemma {:induction false} StoredIsLive(t: Tree)
    requires |Live(t)| == Count(t)
    ensures forall p :: p in Stored(t) ==> p in Live(t)
    ensures t.Bin? ==> |Live(t.l)| == Count(t.l) && |Live(t.r)| == Count(t.r)
  {
    if t.Bin? {
      LiveAtMostCount(t.l);
      LiveAtMostCount(t.r);
      StoredIsLive(t.l);
      StoredIsLive(t.r);
    }
  }

  lemma {:induction false} SplitOrdered(t: Tree)
    requires KdSplit(t) && |Live(t)| == Count(t)
    ensures KdOrdered(t)
  {
    hide Live, LongestAxis;
    if t.Bin? {
      StoredIsLive(t);
      StoredIsLive(t.l);
      StoredIsLive(t.r);
      SplitOrdered(t.l);
      SplitOrdered(t.r);
      AxisRange(t.d.range);
    }
  }

  lemma AxisRange(r: Range)
    ensures 0 <= LongestAxis(r) <= 2
  {
  }

  // ---- Insertion -----------------------------------------------------------------------------------

  /** The side on which Add_by_point descends. */
  predicate GoesLeft(point: Point, d: Rec) {
    || (d.axis == 0 && point.at.x < d.point.at.x)
    || (d.axis == 1 && point.at.y < d.point.at.y)
    || (d.axis == 2 && point.at.z < d.point.at.z)
  }

  /** On the node's axis: strictly smaller goes left, equal goes right. */
  lemma StrictlySmallerGoesLeft(point: Point, d: Rec)
    requires 0 <= d.axis <= 2
    ensures GoesLeft(point, d) <==> Coord(point.at, d.axis) < Coord(d.point.at, d.axis)
  {
  }

  /** A point that goes down the side GoesLeft tells keeps the order. */
  lemma {:induction false} DescentKept(t: Tree, t': Tree, point: Point)
    requires t.Bin? && t'.Bin? && t'.d == t.d
    requires var toLeft := GoesLeft(point, t.d);
      if toLeft then t'.r == t.r && KdKept(t.l, t'.l, {point}) else t'.l == t.l && KdKept(t.r, t'.r, {point})
    ensures KdKept(t, t', {point})
  {
    hide KdOrdered, Stored, GoesLeft, Divides;
    StoredNode(t);
    StoredNode(t');
    if Divides(t.d, Stored(t.l), Stored(t.r)) {
      OneMoreDivided(t.d, point, Stored(t.l), Stored(t.r), Stored(t'.l), Stored(t'.r));
    }
  }

  lemma OneMoreDivided(d: Rec, point: Point, left: set<Point>, right: set<Point>, left': set<Point>, right': set<Point>)
    requires Divides(d, left, right)
    requires GoesLeft(point, d) ==> left' <= left + {point} && right' == right
    requires !GoesLeft(point, d) ==> left' == left && right' <= right + {point}
    ensures Divides(d, left', right')
  {
  }
}
