/** The value that an ikd-Tree of linked nodes denotes, and what the node-local steps of
    ikd_Tree.cpp do to that value.

    `Live` is the abstraction: the multiset of points that are neither deleted themselves
    nor below a node whose deletion is still waiting to be pushed down.  `WF` is the
    invariant of the lazy bookkeeping. */
module LazyTree {
  import opened Prelude
  import opened Geometry

  const MIN_UNBALANCED_TREE_SIZE := 10
  const MULTI_THREAD_REBUILD_POINT_NUM := 1500

  /** The scalar fields of KD_TREE_NODE. */
  datatype Rec = Rec(point: Point, axis: int, size: int, invalid: int, downNum: int,
                     pointDeleted: bool, treeDeleted: bool,
                     pointDown: bool, treeDown: bool,
                     pushLeft: bool, pushRight: bool, range: Range)

  datatype Tree = Nil | Bin(d: Rec, l: Tree, r: Tree)

  /** delete_criterion_param and balance_criterion_param. */
  datatype Params = Params(del: real, bal: real)

  function Count(t: Tree): nat {
    match t case Nil => 0 case Bin(_, l, r) => 1 + Count(l) + Count(r)
  }

  /** InitTreeNode. */
  function BlankRec(): Rec {
    Rec(Point(Vec(0, 0, 0), 0), 0, 0, 0, 0, false, false, false, false, false, false,
        Single(Vec(0, 0, 0)))
  }

  /** InitTreeNode, the point and axis of Add_by_point, and Update on the lone node. */
  function FreshRec(p: Point, axis: int): Rec {
    Rec(p, axis, 1, 0, 0, false, false, false, false, false, false, Single(p.at))
  }

  // ---- Abstraction and invariant ------------------------------------------------------

  ghost function Own(d: Rec): multiset<Point> {
    if d.pointDeleted then multiset{} else multiset{d.point}
  }

  ghost function Live(t: Tree): multiset<Point>
    decreases t, 0
  {
    match t
    case Nil => multiset{}
    case Bin(d, l, r) => Own(d) + LiveSon(d, d.pushLeft, l) + LiveSon(d, d.pushRight, r)
  }

  /** The live points of a son, given whether the father still owes it a push-down. */
  ghost function LiveSon(d: Rec, pending: bool, son: Tree): multiset<Point>
    decreases son, 1
  {
    if pending && d.treeDeleted then multiset{} else Live(son)
  }

  /** Node counts are exact everywhere, also below pending deletions. */
  ghost predicate Sized(t: Tree) {
    match t
    case Nil => true
    case Bin(d, l, r) => d.size == Count(t) && Sized(l) && Sized(r)
  }

  /** A leaf just made by Add_by_point. */
  ghost predicate FreshLeaf(t: Tree) {
    && t.Bin? && t.l.Nil? && t.r.Nil?
    && t.d == FreshRec(t.d.point, t.d.axis)
  }

  ghost predicate WF(t: Tree)
    decreases t, 0
  {
    match t
    case Nil => true
    case Bin(d, l, r) =>
      && d.size == Count(t) && Sized(l) && Sized(r)
      && (d.treeDown ==> d.treeDeleted)
      && (d.pointDown ==> d.pointDeleted)
      && (d.treeDeleted ==> d.pointDeleted)
      && SonOk(d, d.pushLeft, l) && SonOk(d, d.pushRight, r)
      && Summary(d.invalid, d.treeDeleted, d.range, Count(t), Live(t))
  }

  /** The cached fields of a node with n nodes below and including it, of whose points
      exactly m are live. */
  ghost predicate Summary(invalid: int, treeDeleted: bool, range: Range, n: nat, m: multiset<Point>) {
    && invalid == n - |m|
    && (treeDeleted <==> m == multiset{})
    && (!treeDeleted ==> Tight(range, m))
  }

  /** A pending flag over a son means that the father is deleted as a whole or that the son
      is an untouched new leaf; a son without one is in order itself. */
  ghost predicate SonOk(d: Rec, pending: bool, son: Tree)
    decreases son, 1
  {
    son.Bin? ==>
      if pending then d.treeDeleted || FreshLeaf(son)
      else WF(son) && (d.treeDeleted ==> son.d.treeDeleted)
  }

  lemma NilFacts()
    ensures WF(Nil) && Sized(Nil) && Live(Nil) == multiset{} && Count(Nil) == 0
  {
  }

  /** How a node comes to be in order. */
  lemma {:induction false} WFNode(d: Rec, l: Tree, r: Tree, m: multiset<Point>)
    requires d.size == 1 + Count(l) + Count(r) && Sized(l) && Sized(r)
    requires (d.treeDown ==> d.treeDeleted) && (d.pointDown ==> d.pointDeleted)
    requires d.treeDeleted ==> d.pointDeleted
    requires SonOk(d, d.pushLeft, l) && SonOk(d, d.pushRight, r)
    requires m == Own(d) + LiveSon(d, d.pushLeft, l) + LiveSon(d, d.pushRight, r)
    requires Summary(d.invalid, d.treeDeleted, d.range, 1 + Count(l) + Count(r), m)
    ensures WF(Bin(d, l, r)) && Live(Bin(d, l, r)) == m
    ensures Count(Bin(d, l, r)) == 1 + Count(l) + Count(r)
  {
    hide Summary;
  }

  /** What a node in order consists of. */
  lemma {:induction false} WFOpen(t: Tree)
    requires WF(t) && t.Bin?
    ensures var d, l, r := t.d, t.l, t.r;
      && d.size == 1 + Count(l) + Count(r) == Count(t) && Sized(l) && Sized(r)
      && (d.treeDown ==> d.treeDeleted) && (d.pointDown ==> d.pointDeleted)
      && (d.treeDeleted ==> d.pointDeleted)
      && SonOk(d, d.pushLeft, l) && SonOk(d, d.pushRight, r)
      && Live(t) == Own(d) + LiveSon(d, d.pushLeft, l) + LiveSon(d, d.pushRight, r)
      && Summary(d.invalid, d.treeDeleted, d.range, 1 + Count(l) + Count(r), Live(t))
  {
    hide Summary;
  }

  lemma {:induction false} LeafWF(t: Tree)
    requires FreshLeaf(t)
    ensures WF(t) && Live(t) == multiset{t.d.point} && Count(t) == 1
  {
    TightSingle(t.d.point);
  }

  // ---- Push_Down -------------------------------------------------------------------------

  function Received(f: Rec, s: Rec): Rec {
    var treeDown := s.treeDown || f.treeDown;
    var pointDown := s.pointDown || f.treeDown;
    var treeDeleted := f.treeDeleted || treeDown;
    var downNum := if f.treeDown then s.size else s.downNum;
    s.(treeDown := treeDown, pointDown := pointDown, treeDeleted := treeDeleted,
       pointDeleted := treeDeleted || pointDown, downNum := downNum,
       invalid := if f.treeDeleted then s.size else downNum,
       pushLeft := true, pushRight := true)
  }

  function PushSon(f: Rec, pending: bool, son: Tree): Tree {
    if pending && son.Bin? then Bin(Received(f, son.d), son.l, son.r) else son
  }

  function PushDown(t: Tree): Tree
    requires t.Bin?
  {
    Bin(t.d.(pushLeft := t.d.pushLeft && t.l.Nil?, pushRight := t.d.pushRight && t.r.Nil?),
        PushSon(t.d, t.d.pushLeft, t.l), PushSon(t.d, t.d.pushRight, t.r))
  }

  /** No flag is left over an existing son. */
  predicate Clean(t: Tree) {
    t.Bin? && (t.d.pushLeft ==> t.l.Nil?) && (t.d.pushRight ==> t.r.Nil?)
  }

  /** The son of f after a push-down, g being f with its flag updated. */
  lemma {:induction false} PushSonKeeps(f: Rec, g: Rec, pending: bool, son: Tree)
    requires Sized(son) && SonOk(f, pending, son)
    requires f.treeDown ==> f.treeDeleted
    requires g.treeDeleted == f.treeDeleted
    ensures var s := PushSon(f, pending, son);
      && WF(s) && Sized(s) && Count(s) == Count(son)
      && SonOk(g, pending && son.Nil?, s)
      && Live(s) == LiveSon(f, pending, son) == LiveSon(g, pending && son.Nil?, s)
      && (s.Bin? && f.treeDeleted ==> s.d.treeDeleted)
      && (f.treeDeleted ==> Live(s) == multiset{})
  {
    if pending && son.Bin? && !f.treeDeleted {
      LeafWF(son);
    }
  }

  lemma WFSized(t: Tree)
    requires WF(t)
    ensures Sized(t)
  {
  }

  /** Pushing down never changes which points are live, and leaves nothing pending over a
      son of the node. */
  lemma {:induction false} PushDownKeeps(t: Tree)
    requires WF(t) && t.Bin?
    ensures var t' := PushDown(t);
      && WF(t') && Clean(t') && Live(t') == Live(t) && Count(t') == Count(t)
      && WF(t'.l) && WF(t'.r)
      && (t.d.treeDeleted ==> Live(t'.l) == multiset{} && Live(t'.r) == multiset{})
  {
    hide WF, SonOk, Live, LiveSon, Sized, Count, Summary, Received;
    var d, t' := t.d, PushDown(t);
    WFOpen(t);
    PushSonKeeps(d, t'.d, d.pushLeft, t.l);
    PushSonKeeps(d, t'.d, d.pushRight, t.r);
    WFNode(t'.d, t'.l, t'.r, Live(t));
  }

  // ---- Update ------------------------------------------------------------------------------

  /** Widening the range under construction by r, which starts out empty. */
  function Grow(acc: Option<Range>, use: bool, r: Range): Option<Range> {
    if !use then acc else if acc.None? then Some(r) else Some(Join(acc.value, r))
  }

  function UpdatedBoth(d: Rec, a: Rec, b: Rec): Rec {
    var treeDeleted := a.treeDeleted && b.treeDeleted && d.pointDeleted;
    d.(size := a.size + b.size + 1,
       invalid := a.invalid + b.invalid + (if d.pointDeleted then 1 else 0),
       downNum := a.downNum + b.downNum + (if d.pointDown then 1 else 0),
       treeDown := a.treeDown && b.treeDown && d.pointDown,
       treeDeleted := treeDeleted,
       range :=
         if treeDeleted || (!a.treeDeleted && !b.treeDeleted && !d.pointDeleted)
         then Join(Join(a.range, b.range), Single(d.point.at))
         else Grow(Grow(Grow(None, !a.treeDeleted, a.range), !b.treeDeleted, b.range),
                   !d.pointDeleted, Single(d.point.at)).value)
  }

  function UpdatedOne(d: Rec, a: Rec): Rec {
    var treeDeleted := a.treeDeleted && d.pointDeleted;
    d.(size := a.size + 1,
       invalid := a.invalid + (if d.pointDeleted then 1 else 0),
       downNum := a.downNum + (if d.pointDown then 1 else 0),
       treeDown := a.treeDown && d.pointDown,
       treeDeleted := treeDeleted,
       range :=
         if treeDeleted || (!a.treeDeleted && !d.pointDeleted)
         then Join(a.range, Single(d.point.at))
         else Grow(Grow(None, !a.treeDeleted, a.range),
                   !d.pointDeleted, Single(d.point.at)).value)
  }

  function UpdatedLeaf(d: Rec): Rec {
    d.(size := 1, invalid := if d.pointDeleted then 1 else 0,
       downNum := if d.pointDown then 1 else 0,
       treeDown := d.pointDown, treeDeleted := d.pointDeleted,
       range := Single(d.point.at))
  }

  function Updated(d: Rec, l: Tree, r: Tree): Rec {
    if l.Bin? && r.Bin? then UpdatedBoth(d, l.d, r.d)
    else if l.Bin? then UpdatedOne(d, l.d)
    else if r.Bin? then UpdatedOne(d, r.d)
    else UpdatedLeaf(d)
  }

  function Update(t: Tree): Tree
    requires t.Bin?
  {
    Bin(Updated(t.d, t.l, t.r), t.l, t.r)
  }

  /** What Update may rely on: sons in order, and pending flags only over new leaves. */
  ghost predicate Updatable(t: Tree) {
    && t.Bin? && WF(t.l) && WF(t.r)
    && (t.d.pointDown ==> t.d.pointDeleted)
    && (t.d.pushLeft && t.l.Bin? ==> FreshLeaf(t.l))
    && (t.d.pushRight && t.r.Bin? ==> FreshLeaf(t.r))
  }

  /** The exact range of the live part among a son (if any) and the rest. */
  lemma {:induction false} TightGrow(acc: Option<Range>, m: multiset<Point>, use: bool, r: Range, n: multiset<Point>)
    requires acc.None? <==> m == multiset{}
    requires acc.Some? ==> Tight(acc.value, m)
    requires use <==> n != multiset{}
    requires use ==> Tight(r, n)
    ensures var g := Grow(acc, use, r);
      && (g.None? <==> m + n == multiset{})
      && (g.Some? ==> Tight(g.value, m + n))
  {
    if use {
      if acc.None? {
        assert m + n == n;
      } else {
        TightJoin(acc.value, m, r, n);
        var p :| p in m;
        assert p in m + n;
      }
    } else {
      assert m + n == m;
    }
  }

  lemma {:induction false} UpdateBothSummary(d: Rec, a: Rec, i: nat, m: multiset<Point>,
                                             b: Rec, j: nat, n: multiset<Point>)
    requires Summary(a.invalid, a.treeDeleted, a.range, i, m)
    requires Summary(b.invalid, b.treeDeleted, b.range, j, n)
    ensures var u := UpdatedBoth(d, a, b);
      Summary(u.invalid, u.treeDeleted, u.range, 1 + i + j, Own(d) + m + n)
  {
    hide Tight;
    TightSingle(d.point);
    var g1 := Grow(None, !a.treeDeleted, a.range);
    var g2 := Grow(g1, !b.treeDeleted, b.range);
    TightGrow(None, multiset{}, !a.treeDeleted, a.range, m);
    assert multiset{} + m == m;
    TightGrow(g1, m, !b.treeDeleted, b.range, n);
    TightGrow(g2, m + n, !d.pointDeleted, Single(d.point.at), Own(d));
    assert m + n + Own(d) == Own(d) + m + n;
  }

  lemma {:induction false} UpdateOneSummary(d: Rec, a: Rec, i: nat, m: multiset<Point>)
    requires Summary(a.invalid, a.treeDeleted, a.range, i, m)
    ensures var u := UpdatedOne(d, a);
      Summary(u.invalid, u.treeDeleted, u.range, 1 + i, Own(d) + m)
  {
    hide Tight;
    TightSingle(d.point);
    TightGrow(None, multiset{}, !a.treeDeleted, a.range, m);
    assert multiset{} + m == m;
    TightGrow(Grow(None, !a.treeDeleted, a.range), m,
              !d.pointDeleted, Single(d.point.at), Own(d));
    assert m + Own(d) == Own(d) + m;
  }

  lemma {:induction false} UpdateLeafSummary(d: Rec)
    ensures var u := UpdatedLeaf(d);
      Summary(u.invalid, u.treeDeleted, u.range, 1, Own(d))
  {
    hide Tight;
    TightSingle(d.point);
  }

  lemma {:induction false} UpdatedFields(t: Tree)
    requires Updatable(t)
    ensures var d := Updated(t.d, t.l, t.r);
      && d.size == 1 + Count(t.l) + Count(t.r) && Sized(t.l) && Sized(t.r)
      && (d.treeDown ==> d.treeDeleted) && (d.treeDeleted ==> d.pointDeleted)
      && d.pointDeleted == t.d.pointDeleted && d.pointDown == t.d.pointDown
      && d.point == t.d.point
      && SonOk(d, d.pushLeft, t.l) && SonOk(d, d.pushRight, t.r)
      && LiveSon(d, d.pushLeft, t.l) == Live(t.l) && LiveSon(d, d.pushRight, t.r) == Live(t.r)
  {
    hide Summary, FreshRec, Grow;
  }

  lemma {:induction false} UpdatedSummary(t: Tree)
    requires Updatable(t)
    ensures var d := Updated(t.d, t.l, t.r);
      Summary(d.invalid, d.treeDeleted, d.range, 1 + Count(t.l) + Count(t.r),
              Own(t.d) + Live(t.l) + Live(t.r))
  {
    hide Summary, UpdatedBoth, UpdatedOne, UpdatedLeaf, WF, SonOk, Sized, Live, Count;
    NilFacts();
    var m := Own(t.d) + Live(t.l) + Live(t.r);
    if t.l.Bin? && t.r.Bin? {
      WFOpen(t.l);
      WFOpen(t.r);
      UpdateBothSummary(t.d, t.l.d, Count(t.l), Live(t.l), t.r.d, Count(t.r), Live(t.r));
    } else if t.l.Bin? {
      WFOpen(t.l);
      UpdateOneSummary(t.d, t.l.d, Count(t.l), Live(t.l));
      assert m == Own(t.d) + Live(t.l);
    } else if t.r.Bin? {
      WFOpen(t.r);
      UpdateOneSummary(t.d, t.r.d, Count(t.r), Live(t.r));
      assert m == Own(t.d) + Live(t.r);
    } else {
      UpdateLeafSummary(t.d);
      assert m == Own(t.d);
    }
  }

  /** Update restores the whole invariant at a node from that of its sons, without changing
      what is live. */
  lemma {:induction false} UpdateRestores(t: Tree)
    requires Updatable(t)
    ensures WF(Update(t)) && Count(Update(t)) == Count(t)
    ensures Live(Update(t)) == Own(t.d) + Live(t.l) + Live(t.r)
  {
    hide Summary, Live, LiveSon, WF, SonOk, Sized, Updated, FreshLeaf;
    UpdatedFields(t);
    UpdatedSummary(t);
    WFNode(Updated(t.d, t.l, t.r), t.l, t.r, Own(t.d) + Live(t.l) + Live(t.r));
  }

  // ---- Whole-subtree deletion -----------------------------------------------------------

  function MarkDeleted(d: Rec, down: bool): Rec {
    var d' := d.(treeDeleted := true, pointDeleted := true,
                 pushLeft := true, pushRight := true, invalid := d.size);
    if down then d'.(treeDown := true, pointDown := true, downNum := d.size) else d'
  }

  /** Deleting a subtree by flags alone leaves it in order with nothing live. */
  lemma {:induction false} MarkDeletedKeeps(t: Tree, down: bool)
    requires WF(t) && t.Bin?
    ensures var t' := Bin(MarkDeleted(t.d, down), t.l, t.r);
      WF(t') && Live(t') == multiset{} && Count(t') == Count(t)
  {
    hide WF, Live, Sized, Count;
    WFOpen(t);
    WFNode(MarkDeleted(t.d, down), t.l, t.r, multiset{});
  }

  // ---- Steps shared by the tree operations -------------------------------------------------

  /** The same nodes: same points and axes in the same places. */
  ghost predicate SameShape(t: Tree, u: Tree) {
    match t
    case Nil => u.Nil?
    case Bin(d, l, r) =>
      u.Bin? && u.d.point == d.point && u.d.axis == d.axis && SameShape(l, u.l) && SameShape(r, u.r)
  }

  lemma SameShapeRefl(t: Tree)
    ensures SameShape(t, t)
  {
  }

  lemma {:induction false} SameShapeTrans(t: Tree, u: Tree, v: Tree)
    requires SameShape(t, u) && SameShape(u, v)
    ensures SameShape(t, v)
  {
    if t.Bin? {
      SameShapeTrans(t.l, u.l, v.l);
      SameShapeTrans(t.r, u.r, v.r);
    }
  }

  lemma SameShapeCount(t: Tree, u: Tree)
    requires SameShape(t, u)
    ensures Count(t) == Count(u)
  {
  }

  /** What a read-only operation may do to a tree: push pending deletions down. */
  ghost predicate Pushed(t: Tree, u: Tree) {
    WF(u) && Live(u) == Live(t) && SameShape(t, u)
  }

  lemma PushedRefl(t: Tree)
    requires WF(t)
    ensures Pushed(t, t)
  {
    SameShapeRefl(t);
  }

  lemma {:induction false} PushedTrans(t: Tree, u: Tree, v: Tree)
    requires Pushed(t, u) && Pushed(u, v)
    ensures Pushed(t, v)
  {
    hide WF, Live, SameShape;
    SameShapeTrans(t, u, v);
  }

  /** Live points of a node without pending flags over sons. */
  lemma {:induction false} CleanLive(t: Tree)
    requires Clean(t)
    ensures Live(t) == Own(t.d) + Live(t.l) + Live(t.r)
  {
  }

  lemma PushSonShape(f: Rec, pending: bool, son: Tree)
    ensures SameShape(son, PushSon(f, pending, son))
  {
    SameShapeRefl(son);
    if son.Bin? {
      SameShapeRefl(son.l);
      SameShapeRefl(son.r);
    }
  }

  lemma {:induction false} PushDownPushed(t: Tree)
    requires WF(t) && t.Bin?
    ensures var u := PushDown(t);
      && Pushed(t, u) && Clean(u) && WF(u.l) && WF(u.r)
      && Live(u) == Own(u.d) + Live(u.l) + Live(u.r)
      && u.d.range == t.d.range && u.d.treeDeleted == t.d.treeDeleted
      && u.d.axis == t.d.axis && u.d.point == t.d.point
      && u.d.size == t.d.size && u.d.invalid == t.d.invalid
  {
    hide WF, Live, Count, Received;
    PushDownKeeps(t);
    CleanLive(PushDown(t));
    SameShapeRefl(t.l);
    SameShapeRefl(t.r);
    PushSonShape(t.d, t.d.pushLeft, t.l);
    PushSonShape(t.d, t.d.pushRight, t.r);
  }

  lemma {:induction false} DeletedSon(d: Rec, son: Tree, m: multiset<Point>)
    requires WF(son) && son.Bin? && Live(son) == multiset{}
    ensures son.d.treeDeleted
  {
    hide WF, Live, Tight;
    WFOpen(son);
  }

  /** Pushing further down inside the sons of a clean node keeps the node in order. */
  lemma {:induction false} SonsPushed(d: Rec, l: Tree, r: Tree, l': Tree, r': Tree)
    requires WF(Bin(d, l, r)) && Clean(Bin(d, l, r))
    requires Pushed(l, l') && Pushed(r, r')
    ensures Pushed(Bin(d, l, r), Bin(d, l', r')) && Clean(Bin(d, l', r'))
  {
    hide WF, Live, Count, Sized, Summary;
    var t, t' := Bin(d, l, r), Bin(d, l', r');
    WFOpen(t);
    CleanLive(t);
    SameShapeCount(l, l');
    SameShapeCount(r, r');
    WFSized(l');
    WFSized(r');
    SonStillOk(d, d.pushLeft, l, l');
    SonStillOk(d, d.pushRight, r, r');
    WFNode(d, l', r', Live(t));
  }

  lemma {:induction false} SonStillOk(d: Rec, pending: bool, son: Tree, son': Tree)
    requires SonOk(d, pending, son) && (pending ==> son.Nil?)
    requires Pushed(son, son')
    ensures SonOk(d, pending, son') && LiveSon(d, pending, son') == Live(son')
    ensures son'.Bin? <==> son.Bin?
  {
    hide Count, Sized, Tight;
    if son.Bin? && d.treeDeleted {
      WFOpen(son);
      DeletedSon(d, son', Live(son'));
    }
  }

  // ---- Deleting the points of a box at one node ---------------------------------------------

  /** Deleting the node's own point when it lies in the box. */
  function DeleteOwn(d: Rec, b: Box, down: bool): Rec {
    if d.pointDeleted || !InBox(b, d.point.at) then d
    else d.(pointDeleted := true, pointDown := d.pointDown || down)
  }

  lemma {:induction false} DeleteOwnLive(d: Rec, b: Box, down: bool)
    ensures Own(DeleteOwn(d, b, down)) == Outside(Own(d), b)
    ensures |Inside(Own(d), b)| == if DeleteOwn(d, b, down) == d then 0 else 1
  {
    if d.pointDeleted {
      FilterNone(Own(d), b);
    } else if InBox(b, d.point.at) {
      FilterAll(Own(d), b);
    } else {
      FilterNone(Own(d), b);
    }
  }

  /** A node that is not deleted as a whole has a live point outside any box that does not
      contain its range. */
  lemma {:induction false} SurvivorOutside(t: Tree, b: Box)
    requires WF(t) && t.Bin? && !t.d.treeDeleted
    ensures Covers(b, t.d.range) <==> Outside(Live(t), b) == multiset{}
  {
    hide WF, Live, Tight, Covers;
    WFOpen(t);
    var m := Live(t);
    CoversMeansAll(b, t.d.range, m);
    if forall p :: p in m ==> InBox(b, p.at) {
      FilterAll(m, b);
    } else {
      var p :| p in m && !InBox(b, p.at);
      assert p in Outside(m, b);
    }
  }
}
