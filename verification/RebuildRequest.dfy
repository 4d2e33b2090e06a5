/** When Delete_by_range hands a whole tree to the background thread: Criterion_Check and the
    size test of Rebuild, on the counts that the deletion leaves. */
module RebuildRequest {
  import opened Geometry
  import opened LazyTree
  import opened Balance
  import opened KdOrder

  /** Criterion_Check on a node. */
  predicate Unfit(t: Tree, p: Params)
    requires t.Bin?
  {
    Criterion(t.d.size, t.d.invalid, SonSize(t.l, t.r), p)
  }

  /** The node is to be rebuilt and too large for doing so on the spot. */
  predicate Asks(t: Tree, p: Params)
    requires t.Bin?
  {
    t.d.size >= MULTI_THREAD_REBUILD_POINT_NUM && Unfit(t, p)
  }

  /** How many nodes are left of a node's subtree once it has been rebuilt, or not. */
  ghost function Settled(t: Tree, p: Params): nat
    requires t.Bin?
  {
    if t.d.size < MULTI_THREAD_REBUILD_POINT_NUM && Unfit(t, p) then |Live(t)| else Count(t)
  }

  /** Delete_by_range looks at the sons: the node is not deleted as a whole, and the box neither
      misses nor contains its range. */
  predicate Enters(d: Rec, box: Box) {
    !d.treeDeleted && !Misses(box, d.range) && !Covers(box, d.range)
  }

  /** The number of nodes after Delete_by_range with permission to rebuild. */
  ghost function CountAfter(t: Tree, box: Box, p: Params): nat {
    match t
    case Nil => 0
    case Bin(d, l, r) =>
      if !Enters(d, box) then Count(t)
      else Remaining(CountAfter(l, box, p), CountAfter(r, box, p), l.Bin?, |Outside(Live(t), box)|, p)
  }

  /** A node over sons of cl and cr nodes, live points of which are left: tombstones go if it is
      rebuilt on the spot. */
  function Remaining(cl: nat, cr: nat, hasLeft: bool, live: nat, p: Params): nat {
    var n := 1 + cl + cr;
    if n < MULTI_THREAD_REBUILD_POINT_NUM && Criterion(n, n - live, if hasLeft then cl else cr, p)
    then live else n
  }

  /** A node over sons of cl and cr nodes is handed to the background thread. */
  predicate AsksWith(cl: nat, cr: nat, hasLeft: bool, live: nat, p: Params) {
    var n := 1 + cl + cr;
    n >= MULTI_THREAD_REBUILD_POINT_NUM && Criterion(n, n - live, if hasLeft then cl else cr, p)
  }

  /** Delete_by_range asks for a background rebuild of the whole tree t. */
  ghost predicate AsksRoot(t: Tree, box: Box, p: Params) {
    && t.Bin? && Enters(t.d, box)
    && AsksWith(CountAfter(t.l, box, p), CountAfter(t.r, box, p), t.l.Bin?, |Outside(Live(t), box)|, p)
  }

  lemma {:induction false} AfterNode(t: Tree, box: Box, p: Params)
    requires t.Bin?
    ensures CountAfter(t, box, p) ==
      if !Enters(t.d, box) then Count(t)
      else Remaining(CountAfter(t.l, box, p), CountAfter(t.r, box, p), t.l.Bin?, |Outside(Live(t), box)|, p)
  {
    hide Live, Outside, Enters, Remaining;
  }

  lemma {:induction false} LiveAtMost(t: Tree, box: Box)
    requires WF(t) && t.Bin?
    ensures |Outside(Live(t), box)| <= Count(t)
  {
    hide WF, Live, Outside, Inside, Count;
    LiveAtMostCount(t);
    assert Live(t) == Outside(Live(t), box) + Inside(Live(t), box);
  }

  /** A son of a node that is not deleted as a whole is in order, pending or not. */
  lemma {:induction false} SonsInOrder(t: Tree)
    requires WF(t) && t.Bin? && !t.d.treeDeleted
    ensures WF(t.l) && WF(t.r)
  {
    hide WF, Live, Tight, FreshLeaf;
    WFOpen(t);
    NilFacts();
    if t.d.pushLeft && t.l.Bin? { LeafWF(t.l); }
    if t.d.pushRight && t.r.Bin? { LeafWF(t.r); }
  }

  lemma {:induction false} AfterAtMost(t: Tree, box: Box, p: Params)
    requires WF(t)
    ensures CountAfter(t, box, p) <= Count(t)
  {
    hide WF, Live, Criterion, Outside, Misses, Covers;
    if t.Bin? && Enters(t.d, box) {
      SonsInOrder(t);
      AfterAtMost(t.l, box, p);
      AfterAtMost(t.r, box, p);
      LiveAtMost(t, box);
    }
  }

  /** Below the threshold no deletion asks. */
  lemma {:induction false} SmallNeverAsks(t: Tree, box: Box, p: Params)
    requires WF(t) && Count(t) < MULTI_THREAD_REBUILD_POINT_NUM
    ensures !AsksRoot(t, box, p)
  {
    hide WF, Live, Criterion, Outside, Misses, Covers, CountAfter;
    if t.Bin? && Enters(t.d, box) {
      SonsInOrder(t);
      AfterAtMost(t.l, box, p);
      AfterAtMost(t.r, box, p);
    }
  }

  /** What a push-down does to a son of a node that is not deleted as a whole does not matter. */
  lemma {:induction false} PushedSonAfter(f: Rec, pending: bool, son: Tree, box: Box, p: Params)
    requires SonOk(f, pending, son) && !f.treeDeleted && (f.treeDown ==> f.treeDeleted)
    ensures CountAfter(PushSon(f, pending, son), box, p) == CountAfter(son, box, p)
    ensures PushSon(f, pending, son).Bin? <==> son.Bin?
  {
    if pending && son.Bin? {
      LoneAfter(son, box, p);
      LoneAfter(PushSon(f, pending, son), box, p);
    }
  }

  lemma LoneAfter(t: Tree, box: Box, p: Params)
    requires t.Bin? && t.l.Nil? && t.r.Nil?
    ensures CountAfter(t, box, p) == 1
  {
    hide Live, Outside;
    assert CountAfter(Nil, box, p) == 0 && Count(Nil) == 0;
  }

  lemma EntersSame(d: Rec, e: Rec, box: Box)
    requires d.treeDeleted == e.treeDeleted && d.range == e.range
    ensures Enters(d, box) == Enters(e, box)
  {
  }

  /** The answer is the same after the push-down at the node. */
  lemma {:induction false} PushedAfter(t: Tree, box: Box, p: Params)
    requires WF(t) && t.Bin? && !t.d.treeDeleted
    ensures CountAfter(PushDown(t), box, p) == CountAfter(t, box, p)
    ensures AsksRoot(PushDown(t), box, p) <==> AsksRoot(t, box, p)
  {
    hide WF, Live, Outside, Enters, Remaining, AsksWith, PushSon, SonOk, CountAfter, Count, Summary, Clean, Own,
      LiveSon;
    WFOpen(t);
    PushDownPushed(t);
    AfterNode(t, box, p);
    AfterNode(PushDown(t), box, p);
    SameShapeCount(t, PushDown(t));
    assert Enters(PushDown(t).d, box) == Enters(t.d, box) by { EntersSame(t.d, PushDown(t).d, box); }
    PushedSonAfter(t.d, t.d.pushLeft, t.l, box, p);
    PushedSonAfter(t.d, t.d.pushRight, t.r, box, p);
  }

  /** The refreshed record of a node both of whose sons are done gives the answer. */
  lemma {:induction false} UpdatedAfter(u: Tree, v: Tree, box: Box, p: Params)
    requires u.Bin? && Enters(u.d, box) && Updatable(v)
    requires Count(v.l) == CountAfter(u.l, box, p) && Count(v.r) == CountAfter(u.r, box, p)
    requires v.l.Nil? <==> u.l.Nil?
    requires Own(v.d) + Live(v.l) + Live(v.r) == Outside(Live(u), box)
    ensures Settled(Update(v), p) == CountAfter(u, box, p)
    ensures Asks(Update(v), p) <==> AsksRoot(u, box, p)
    ensures Update(v).d.size == Count(v)
    ensures if Count(v) >= MULTI_THREAD_REBUILD_POINT_NUM then CountAfter(u, box, p) == Count(v)
            else !AsksRoot(u, box, p)
  {
    hide WF, Live, Outside, Criterion, Enters, Updated, Updatable, Own, Tight, CountAfter, Sized, SonOk, LiveSon,
      SonSize;
    UpdateRestores(v);
    AfterNode(u, box, p);
    var w := Update(v);
    WFOpen(w);
    SonCount(w);
  }

  lemma {:induction false} SonCount(t: Tree)
    requires WF(t) && t.Bin?
    ensures SonSize(t.l, t.r) == if t.l.Bin? then Count(t.l) else Count(t.r)
  {
    hide WF, Live;
    WFOpen(t);
  }

  /** A node that comes back from the decision below the threshold has few tombstones. */
  lemma {:induction false} SettledFew(u: Tree, r: Tree, p: Params)
    requires WF(u) && u.Bin? && u.d.size < MULTI_THREAD_REBUILD_POINT_NUM && p.del >= 0.0
    requires Count(r) == Settled(u, p) && Live(r) == Live(u)
    ensures FewTombstones(r, p)
  {
    hide WF, Live, Criterion, SonSize, Tight, Count, Sized, SonOk, LiveSon, FewTombstones;
    WFOpen(u);
    if Unfit(u, p) {
      NoTombstones(r, p);
    } else {
      FitFew(u.d, SonSize(u.l, u.r), r, p);
    }
  }

  lemma NoTombstones(r: Tree, p: Params)
    requires Count(r) == |Live(r)| && p.del >= 0.0
    ensures FewTombstones(r, p)
  {
    hide Live, Count;
    NonNegativeProduct(p.del, Count(r) as real);
  }

  lemma FitFew(d: Rec, son: int, r: Tree, p: Params)
    requires !Criterion(d.size, d.invalid, son, p)
    requires Count(r) == d.size && |Live(r)| == d.size - d.invalid
    ensures FewTombstones(r, p)
  {
    hide Live, Count, Criterion;
    if d.size > 10 {
      FitIsTidy(d.size, d.invalid, son, p);
    }
  }

  lemma FitIsTidy(size: int, invalid: int, son: int, p: Params)
    requires !Criterion(size, invalid, son, p) && size > 10
    ensures invalid as real <= p.del * size as real
  {
    hide Criterion;
    CriterionIs(size, invalid, son, p);
  }

  lemma NonNegativeProduct(a: real, b: real)
    requires a >= 0.0 && b >= 0.0
    ensures a * b >= 0.0
  {
  }

  /** From the threshold on, too many tombstones among what a deletion leaves are enough for a
      request. */
  lemma {:induction false} TombstonesAsk(t: Tree, box: Box, p: Params)
    requires WF(t) && t.Bin? && Enters(t.d, box) && p.del >= 0.0
    requires var n := CountAfter(t, box, p);
      n >= MULTI_THREAD_REBUILD_POINT_NUM && (n - |Outside(Live(t), box)|) as real > p.del * n as real
    ensures AsksRoot(t, box, p)
  {
    hide WF, Live, Outside, Criterion, Enters, CountAfter;
    AfterNode(t, box, p);
    var cl, cr := CountAfter(t.l, box, p), CountAfter(t.r, box, p);
    var n, live := 1 + cl + cr, |Outside(Live(t), box)|;
    NonNegativeProduct(p.del, live as real);
    CriterionIs(n, n - live, if t.l.Bin? then cl else cr, p);
  }
}
