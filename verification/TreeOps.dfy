/** flatten and Search_by_range on linked nodes, and what Push_Down keeps. */
module TreeOps {
  import opened Geometry
  import opened LazyTree
  import opened KdNode

  ghost predicate Ok(n: Node?)
    reads n, Node.Repr(n)
  {
    n != null ==> n.Valid() && WF(n.tree)
  }

  /** Push_Down, in terms of what it keeps. */
  method Prepare(root: Node)
    requires root.Valid() && WF(root.tree)
    modifies root.repr
    ensures root.Valid() && root.repr == old(root.repr)
    ensures root.tree == LazyTree.PushDown(old(root.tree))
    ensures Pushed(old(root.tree), root.tree) && Clean(root.tree)
    ensures WF(root.tree.l) && WF(root.tree.r)
    ensures Live(root.tree) == Own(root.d) + Live(root.tree.l) + Live(root.tree.r)
    ensures root.d.range == old(root.d.range) && root.d.treeDeleted == old(root.d.treeDeleted)
    ensures root.d.axis == old(root.d.axis) && root.d.point == old(root.d.point)
    ensures root.d.size == old(root.d.size) && root.d.invalid == old(root.d.invalid)
  {
    hide WF, Live, SameShape, Clean;
    assert root.Linked();
    PushDownPushed(root.tree);
    root.PushDown();
  }

  method Visit(root: Node, storage: seq<Point>) returns (out: seq<Point>)
    ensures multiset(out) == multiset(storage) + Own(root.d)
  {
    out := storage;
    if !root.d.pointDeleted { out := out + [root.d.point]; }
  }

  /** flatten: the live points in pre-order. */
  method Flatten(root: Node?, storage: seq<Point>) returns (out: seq<Point>)
    requires Ok(root)
    modifies Node.Repr(root)
    ensures Ok(root) && Node.Repr(root) <= old(Node.Repr(root))
    ensures Pushed(old(Node.TreeOf(root)), Node.TreeOf(root))
    ensures multiset(out) == multiset(storage) + Live(old(Node.TreeOf(root)))
    decreases Node.Repr(root), 2
  {
    hide WF, Live, SameShape;
    if root == null {
      PushedRefl(Nil);
      NilFacts();
      out := storage;
    } else {
      out := FlattenNode(root, storage);
    }
  }

  method FlattenNode(root: Node, storage: seq<Point>) returns (out: seq<Point>)
    requires root.Valid() && WF(root.tree)
    modifies root.repr
    ensures root.Valid() && root.repr <= old(root.repr)
    ensures Pushed(old(root.tree), root.tree)
    ensures multiset(out) == multiset(storage) + Live(old(root.tree))
    decreases root.repr, 1
  {
    hide WF, Live, SameShape, LazyTree.PushDown, Node.Linked, Clean;
    ghost var t := root.tree;
    Prepare(root);
    ghost var u := root.tree;
    out := Visit(root, storage);
    out := FlattenSon(root, true, out);
    ghost var v := root.tree;
    out := FlattenSon(root, false, out);
    PushedTrans(t, u, v);
    PushedTrans(t, v, root.tree);
  }

  method FlattenSon(root: Node, toLeft: bool, storage: seq<Point>) returns (out: seq<Point>)
    requires root.Valid() && WF(root.tree) && Clean(root.tree)
    requires WF(root.tree.l) && WF(root.tree.r)
    modifies root.repr
    ensures root.Valid() && root.repr <= old(root.repr) && root.d == old(root.d)
    ensures Pushed(old(root.tree), root.tree) && Clean(root.tree)
    ensures var son := old(if toLeft then root.tree.l else root.tree.r);
      multiset(out) == multiset(storage) + Live(son)
    ensures if toLeft then root.tree.r == old(root.tree.r) && Pushed(old(root.tree.l), root.tree.l)
            else root.tree.l == old(root.tree.l) && Pushed(old(root.tree.r), root.tree.r)
    decreases root.repr, 0
  {
    hide WF, Live, SameShape;
    ghost var t := root.tree;
    assert root.Linked();
    out := Flatten(root.Son(toLeft), storage);
    root.SetSon(toLeft, root.Son(toLeft));
    PushedRefl(if toLeft then t.r else t.l);
    SonsPushed(t.d, t.l, t.r, root.tree.l, root.tree.r);
  }

  // ---- Search_by_range ---------------------------------------------------------------------

  /** Search_by_range: exactly the live points in the half-open box. */
  method SearchByRange(root: Node?, box: Box, storage: seq<Point>) returns (out: seq<Point>)
    requires Ok(root)
    modifies Node.Repr(root)
    ensures Ok(root) && Node.Repr(root) <= old(Node.Repr(root))
    ensures Pushed(old(Node.TreeOf(root)), Node.TreeOf(root))
    ensures multiset(out) == multiset(storage) + Inside(Live(old(Node.TreeOf(root))), box)
    decreases Node.Repr(root), 3
  {
    hide WF, Live, SameShape, Inside;
    if root == null {
      PushedRefl(Nil);
      NilFacts();
      FilterNone(multiset{}, box);
      out := storage;
    } else {
      out := SearchNode(root, box, storage);
    }
  }

  method SearchNode(root: Node, box: Box, storage: seq<Point>) returns (out: seq<Point>)
    requires root.Valid() && WF(root.tree)
    modifies root.repr
    ensures root.Valid() && root.repr <= old(root.repr)
    ensures Pushed(old(root.tree), root.tree)
    ensures multiset(out) == multiset(storage) + Inside(Live(old(root.tree)), box)
    decreases root.repr, 2
  {
    hide WF, Live, SameShape, LazyTree.PushDown, Node.Linked, Clean, Inside, Misses, Covers, Own;
    ghost var t := root.tree;
    Prepare(root);
    ghost var u := root.tree;
    RangeCases(u, box);
    if Misses(box, root.d.range) {
      out := storage;
    } else if Covers(box, root.d.range) {
      out := FlattenNode(root, storage);
    } else {
      out := SearchParts(root, box, storage);
    }
    PushedRefl(u);
    PushedTrans(t, u, root.tree);
  }

  /** The general case of Search_by_range: the node's own point, then both sons. */
  method SearchParts(root: Node, box: Box, storage: seq<Point>) returns (out: seq<Point>)
    requires root.Valid() && WF(root.tree) && Clean(root.tree)
    requires WF(root.tree.l) && WF(root.tree.r)
    modifies root.repr
    ensures root.Valid() && root.repr <= old(root.repr)
    ensures Pushed(old(root.tree), root.tree)
    ensures multiset(out) == multiset(storage) + Inside(Live(old(root.tree)), box)
    decreases root.repr, 1
  {
    hide WF, Live, SameShape, Node.Linked, Clean, Inside, Own;
    ghost var u := root.tree;
    out := VisitInside(root, box, storage);
    out := SearchSon(root, true, box, out);
    ghost var v := root.tree;
    out := SearchSon(root, false, box, out);
    PushedTrans(u, v, root.tree);
    InsideParts(u, box);
  }

  lemma {:induction false} InsideParts(t: Tree, box: Box)
    requires Clean(t)
    ensures Inside(Live(t), box)
         == Inside(Own(t.d), box) + Inside(Live(t.l), box) + Inside(Live(t.r), box)
  {
    hide Live, Own, Inside;
    CleanLive(t);
    FilterSum(Own(t.d), Live(t.l), box);
    FilterSum(Own(t.d) + Live(t.l), Live(t.r), box);
  }

  /** The two early exits of a range operation decide correctly. */
  lemma {:induction false} RangeCases(t: Tree, box: Box)
    requires WF(t) && t.Bin?
    ensures Misses(box, t.d.range) ==> Inside(Live(t), box) == multiset{}
    ensures Covers(box, t.d.range) ==> Inside(Live(t), box) == Live(t)
    ensures t.d.treeDeleted <==> Live(t) == multiset{}
    ensures t.d.size - t.d.invalid == |Live(t)|
  {
    hide WF, Live, Misses, Covers, Tight;
    WFOpen(t);
    if t.d.treeDeleted {
      FilterNone(Live(t), box);
    } else {
      if Misses(box, t.d.range) { LiveMissed(t, box); }
      CoversMeansAll(box, t.d.range, Live(t));
      if Covers(box, t.d.range) { FilterAll(Live(t), box); }
    }
  }

  lemma LiveMissed(t: Tree, box: Box)
    requires t.Bin? && Tight(t.d.range, Live(t)) && Misses(box, t.d.range)
    ensures Inside(Live(t), box) == multiset{}
  {
    hide Live, Touched, Misses;
    MissesMeansNone(box, t.d.range, Live(t));
  }

  method VisitInside(root: Node, box: Box, storage: seq<Point>) returns (out: seq<Point>)
    ensures multiset(out) == multiset(storage) + Inside(Own(root.d), box)
  {
    hide Inside;
    out := storage;
    if InBox(box, root.d.point.at) && !root.d.pointDeleted {
      FilterAll(Own(root.d), box);
      out := out + [root.d.point];
    } else {
      FilterNone(Own(root.d), box);
    }
  }

  method SearchSon(root: Node, toLeft: bool, box: Box, storage: seq<Point>)
    returns (out: seq<Point>)
    requires root.Valid() && WF(root.tree) && Clean(root.tree)
    requires WF(root.tree.l) && WF(root.tree.r)
    modifies root.repr
    ensures root.Valid() && root.repr <= old(root.repr) && root.d == old(root.d)
    ensures Pushed(old(root.tree), root.tree) && Clean(root.tree)
    ensures var son := old(if toLeft then root.tree.l else root.tree.r);
      multiset(out) == multiset(storage) + Inside(Live(son), box)
    ensures if toLeft then root.tree.r == old(root.tree.r) && Pushed(old(root.tree.l), root.tree.l)
            else root.tree.l == old(root.tree.l) && Pushed(old(root.tree.r), root.tree.r)
    decreases root.repr, 0
  {
    hide WF, Live, SameShape, Inside;
    ghost var t := root.tree;
    assert root.Linked();
    out := SearchByRange(root.Son(toLeft), box, storage);
    root.SetSon(toLeft, root.Son(toLeft));
    PushedRefl(if toLeft then t.r else t.l);
    SonsPushed(t.d, t.l, t.r, root.tree.l, root.tree.r);
  }
}
