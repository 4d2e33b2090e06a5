/** Add_by_point and Delete_by_range.

    `rp` is the node that *Rebuild_Ptr denotes (null when Rebuild_Ptr is null); operations
    return its new value.  `free` is the outcome of the trylock on rebuild_ptr_mutex_lock,
    should a node come to it. */
module TreeUpdate {
  import opened Geometry
  import opened LazyTree
  import opened Balance
  import opened KdOrder
  import opened KdNode
  import opened TreeOps
  import opened TreeBuild
  import opened RebuildRequest

  /** While inline rebuilding is allowed, no background rebuild is pending and the size stays
      below the threshold, balance is kept and no background rebuild is asked for. */
  ghost predicate BalanceKept(before: bool, allow: bool, p: Params, n: nat, rp: Node?,
                              t': Tree, rp': Node?) {
    before && allow && rp == null && n < MULTI_THREAD_REBUILD_POINT_NUM && 11.0 * p.bal >= 6.0
    ==> rp' == null && Balanced(t', p)
  }

  /** An update with permission to rebuild, without a request, among fewer than 1500 nodes. */
  predicate Inline(allow: bool, p: Params, n: nat, rp: Node?) {
    allow && rp == null && n < MULTI_THREAD_REBUILD_POINT_NUM && p.del >= 0.0
  }

  /** It makes no request, and what was tidy stays so. */
  ghost predicate TidyKept(before: bool, allow: bool, p: Params, n: nat, rp: Node?, t': Tree, rp': Node?) {
    Inline(allow, p, n, rp) ==> rp' == null && (before ==> Tidy(t', p))
  }

  /** What the shape guarantees need to know of a tree. */
  datatype Fitness = Fitness(balanced: bool, tidy: bool)

  ghost function FitnessOf(t: Tree, p: Params): Fitness {
    Fitness(Balanced(t, p), Tidy(t, p))
  }

  /** Both guarantees. */
  ghost predicate FitKept(before: Fitness, allow: bool, p: Params, n: nat, rp: Node?, t': Tree, rp': Node?) {
    && BalanceKept(before.balanced, allow, p, n, rp, t', rp')
    && TidyKept(before.tidy, allow, p, n, rp, t', rp')
  }

  lemma StillFit(allow: bool, p: Params, n: nat, t: Tree, rp: Node?)
    ensures FitKept(FitnessOf(t, p), allow, p, n, rp, t, rp)
  {
    hide Balanced, Tidy;
  }

  lemma SameFitness(t: Tree, u: Tree, p: Params)
    requires SameShape(t, u) && Live(t) == Live(u)
    ensures FitnessOf(t, p) == FitnessOf(u, p) && Count(t) == Count(u)
  {
    hide Balanced, Tidy, SameShape, Live, Count;
    SameShapeBalanced(t, u, p);
    TidySame(t, u, p);
  }

  /** Two updates in a row. */
  lemma FitTwice(before: Fitness, allow: bool, p: Params, n: nat, rp: Node?, t1: Tree, rp1: Node?,
                   m: nat, t2: Tree, rp2: Node?)
    requires FitKept(before, allow, p, n, rp, t1, rp1) && m <= n
    requires FitKept(FitnessOf(t1, p), allow, p, m, rp1, t2, rp2)
    ensures FitKept(before, allow, p, n, rp, t2, rp2)
  {
    hide Balanced, Tidy;
  }

  /** The second one tidies up. */
  lemma FitTwiceTidy(before: Fitness, allow: bool, p: Params, n: nat, rp: Node?, t1: Tree, rp1: Node?,
                     m: nat, t2: Tree, rp2: Node?)
    requires FitKept(before, allow, p, n, rp, t1, rp1) && m <= n
    requires FitKept(FitnessOf(t1, p).(tidy := true), allow, p, m, rp1, t2, rp2)
    ensures FitKept(before.(tidy := true), allow, p, n, rp, t2, rp2)
  {
    hide Balanced, Tidy;
  }

  lemma FitEither(before: Fitness, allow: bool, p: Params, n: nat, rp: Node?, t: Tree, rp': Node?)
    requires FitKept(before.(tidy := true), allow, p, n, rp, t, rp')
    ensures FitKept(before, allow, p, n, rp, t, rp')
  {
    hide Balanced, Tidy;
  }

  /** The depth bound follows. */
  lemma {:induction false} BalanceKeptShallow(before: bool, p: Params, n: nat, rp: Node?, t': Tree, rp': Node?)
    requires BalanceKept(before, true, p, n, rp, t', rp')
    requires before && rp == null && n < MULTI_THREAD_REBUILD_POINT_NUM && 11.0 * p.bal >= 6.0
    ensures Shallow(t', p) && (p.bal == 0.6 && Count(t') <= n ==> Depth(t') <= 24)
  {
    hide Balanced, Shallow, Depth, Count;
    BalancedShallow(t', p);
    if p.bal == 0.6 && Count(t') <= n { DefaultDepth(t', p); }
  }

  /** Without permission to rebuild, nodes stay where they are, and Rebuild_Ptr changes only
      if it names a node of this subtree that is too small for the background thread. */
  ghost predicate Stays(allow: bool, root: Node, oldRepr: set<Node>, n: nat, rp: Node?, r: Node?, rp': Node?) {
    !allow ==>
      && r == root
      && (rp !in oldRepr || (rp == root && n >= MULTI_THREAD_REBUILD_POINT_NUM) ==> rp' == rp)
  }

  /** What Criterion_Check says of a node, in terms of nodes and live points. */
  lemma {:induction false} UnfitIs(t: Tree, p: Params)
    requires WF(t) && t.Bin?
    ensures Unfit(t, p) <==>
      OutOfShape(Count(t), Count(t) - |Live(t)|, if t.l.Bin? then Count(t.l) else Count(t.r), p)
  {
    hide WF, Live, Tight, Criterion, OutOfShape, SonSize, Count, Sized, SonOk, LiveSon;
    WFOpen(t);
    SonCount(t);
    CriterionIs(t.d.size, t.d.invalid, SonSize(t.l, t.r), p);
  }

  method CriterionCheck(root: Node, p: Params) returns (b: bool)
    requires root.Valid() && WF(root.tree)
    ensures b == Unfit(root.tree, p)
    ensures var t := root.tree;
      b <==> OutOfShape(Count(t), Count(t) - |Live(t)|, if t.l.Bin? then Count(t.l) else Count(t.r), p)
  {
    hide Live, Tight, SonOk, Summary, OutOfShape;
    UnfitIs(root.tree, p);
    if root.d.size <= MIN_UNBALANCED_TREE_SIZE { return false; }
    HasSon(root.tree);
    var son := if root.left == null then root.right else root.left;
    assert root.Linked() && son.Valid();
    var deleted := root.d.invalid as real / root.d.size as real;
    var share := son.d.size as real / (root.d.size - 1) as real;
    if deleted > p.del { return true; }
    if share > p.bal || share < 1.0 - p.bal { return true; }
    return false;
  }

  lemma HasSon(t: Tree)
    requires t.Bin? && t.d.size == Count(t) && t.d.size > MIN_UNBALANCED_TREE_SIZE
    ensures t.l.Bin? || t.r.Bin?
  {
    assert t.l.Nil? && t.r.Nil? ==> Count(t) == 1;
  }

  lemma {:induction false} NodeKeepsBalance(t: Tree, p: Params)
    requires WF(t) && t.Bin?
    requires !Criterion(t.d.size, t.d.invalid, SonSize(t.l, t.r), p)
    requires Balanced(t.l, p) && Balanced(t.r, p)
    ensures Balanced(t, p)
  {
    hide WF, Live, NodeBalanced, Criterion, Count;
    WFOpen(t);
    CriterionComplete(t.d, t.l, t.r, p);
  }

  lemma RebuiltBalance(t: Tree, m: multiset<Point>, p: Params)
    requires BuiltFrom(t, m)
    ensures 11.0 * p.bal >= 6.0 ==> Balanced(t, p)
    ensures WF(t) && Live(t) == m && Count(t) == |m|
  {
    hide Balanced, WF, Live, EvenSplit, KdSplit;
    if 11.0 * p.bal >= 6.0 { BuiltBalanced(t, p); }
  }

  lemma RebuiltTidy(t: Tree, m: multiset<Point>, p: Params)
    requires BuiltFrom(t, m) && p.del >= 0.0
    ensures FewTombstones(t, p)
  {
    hide WF, Live, EvenSplit, KdSplit, Count;
    NonNegativeProduct(p.del, Count(t) as real);
  }

  /** A new request is for a large node among the given ones, of at most n nodes. */
  ghost predicate NewRequest(rp: Node?, rp': Node?, nodes: set<Node>, n: int)
    reads rp'
  {
    rp' != rp ==> rp' != null && rp' in nodes && MULTI_THREAD_REBUILD_POINT_NUM <= rp'.d.size <= n
  }

  method RebuildIfNeeded(root: Node, allow: bool, p: Params, free: Node -> bool, rp: Node?)
    returns (r: Node, rp': Node?)
    requires root.Valid() && WF(root.tree) && Live(root.tree) != multiset{}
    modifies root.repr
    ensures r.Valid() && WF(r.tree) && fresh(r.repr - old(root.repr))
    ensures Live(r.tree) == Live(old(root.tree)) && KdKept(old(root.tree), r.tree, {})
    ensures Count(r.tree) <= old(Count(root.tree))
    ensures BalanceKept(old(Balanced(root.tree.l, p) && Balanced(root.tree.r, p)), allow, p,
                        old(Count(root.tree)), rp, r.tree, rp')
    ensures !allow ==> r == root && rp' == rp && r.tree == old(root.tree)
    ensures rp' == r ==> r == root && Count(r.tree) == old(Count(root.tree))
    ensures rp' == r ==> rp' == rp || Count(r.tree) >= MULTI_THREAD_REBUILD_POINT_NUM
    ensures rp' == if allow && Asks(old(root.tree), p) && free(root)
                      && (rp == null || old(root.d.size > rp.d.size)) then root else rp
    ensures allow ==> Count(r.tree) == Settled(old(root.tree), p)
    ensures old(root.d.size) >= MULTI_THREAD_REBUILD_POINT_NUM ==> r == root && unchanged(old(root.repr))
  {
    hide WF, Live, Balanced, BuiltFrom, Criterion, NodeBalanced, Node.Linked, Count, KdKept;
    ghost var t := root.tree;
    WFOpen(t);
    SameKept(t);
    var criterion := CriterionCheck(root, p);
    if !(allow && criterion) {
      if !criterion && Balanced(t.l, p) && Balanced(t.r, p) { NodeKeepsBalance(t, p); }
      return root, rp;
    }
    var size := root.d.size;
    var r0;
    r0, rp' := Rebuild(root, free, rp);
    if size < MULTI_THREAD_REBUILD_POINT_NUM {
      RebuiltBalance(Node.TreeOf(r0), Live(t), p);
      BuiltKept(t, Node.TreeOf(r0));
      LiveAtMostCount(t);
    }
    r := r0;
  }

  /** The common end of the recursive updates: refresh the cached fields, withdraw a rebuild
      request that has become too small, and rebuild if the criterion asks for it. */
  method Finish(root: Node, allow: bool, p: Params, free: Node -> bool, rp: Node?)
    returns (r: Node, rp': Node?)
    requires root.Valid() && Updatable(root.tree)
    requires Own(root.tree.d) + Live(root.tree.l) + Live(root.tree.r) != multiset{}
    modifies root.repr
    ensures r.Valid() && WF(r.tree) && fresh(r.repr - old(root.repr))
    ensures Live(r.tree)
         == old(Own(root.tree.d) + Live(root.tree.l) + Live(root.tree.r))
    ensures KdKept(old(root.tree), r.tree, {})
    ensures Count(r.tree) <= old(Count(root.tree))
    ensures BalanceKept(old(Balanced(root.tree.l, p) && Balanced(root.tree.r, p)), allow, p,
                        old(Count(root.tree)), rp, r.tree, rp')
    ensures Stays(allow, root, old(root.repr), old(Count(root.tree)), rp, r, rp')
    ensures !allow ==> Count(r.tree) == old(Count(root.tree))
    ensures rp' == r ==> r == root && Count(r.tree) >= MULTI_THREAD_REBUILD_POINT_NUM
    ensures rp' == rp || rp' == null || (rp' == root && free(root))
    ensures allow && old(Count(root.tree)) < MULTI_THREAD_REBUILD_POINT_NUM && p.del >= 0.0 ==>
      FewTombstones(r.tree, p) && (rp == null ==> rp' == null)
    ensures var u := Update(old(root.tree));
      && (rp != root ==>
            rp' == if allow && Asks(u, p) && free(root) && (rp == null || u.d.size > old(rp.d.size))
                   then root else rp)
      && (allow ==> Count(r.tree) == Settled(u, p))
      && (u.d.size >= MULTI_THREAD_REBUILD_POINT_NUM ==>
            r == root && root.tree == u && root.repr == old(root.repr) && unchanged(old(root.repr) - {root}))
  {
    hide WF, Live, Balanced, Own, Node.Linked, Updated, Updatable, Count, KdKept, Unfit, FewTombstones;
    ghost var t := root.tree;
    UpdateRestores(t);
    UpdateKept(t);
    root.Update();
    ghost var u := root.tree;
    WFOpen(u);
    rp' := rp;
    if rp' != null && rp' == root && root.d.size < MULTI_THREAD_REBUILD_POINT_NUM {
      rp' := null;
    }
    r, rp' := RebuildIfNeeded(root, allow, p, free, rp');
    KeptTwice(t, u, r.tree);
    if allow && u.d.size < MULTI_THREAD_REBUILD_POINT_NUM && p.del >= 0.0 { SettledFew(u, r.tree, p); }
  }

  lemma {:induction false} UpdateKept(t: Tree)
    requires t.Bin?
    ensures KdKept(t, Update(t), {})
  {
    hide KdKept;
    RecordKept(t, Updated(t.d, t.l, t.r));
  }

  lemma SameKept(t: Tree)
    ensures KdKept(t, t, {})
  {
  }

  lemma KeptTwice(t: Tree, u: Tree, v: Tree)
    requires KdKept(t, u, {}) && KdKept(u, v, {})
    ensures KdKept(t, v, {})
  {
    hide Stored, KdOrdered;
  }

  // ---- Add_by_point ------------------------------------------------------------------------------

  method NewLeaf(point: Point, fatherAxis: int) returns (r: Node)
    ensures r.Valid() && fresh(r.repr)
    ensures FreshLeaf(r.tree) && r.tree.d.point == point
    ensures r.tree.d.axis == (fatherAxis + 1) % 3
  {
    r := new Node.InitTreeNode();
    r.d := r.d.(point := point, axis := (fatherAxis + 1) % 3);
    r.SetSon(true, null);
    r.Update();
  }

  /** Add_by_point: exactly one more live point. */
  method AddByPoint(root: Node?, point: Point, allow: bool, fatherAxis: int, p: Params, free: Node -> bool,
                    rp: Node?)
    returns (r: Node, rp': Node?)
    requires Ok(root)
    modifies Node.Repr(root)
    ensures r.Valid() && WF(r.tree) && fresh(r.repr - old(Node.Repr(root)))
    ensures Live(r.tree) == Live(old(Node.TreeOf(root))) + multiset{point}
    ensures KdKept(old(Node.TreeOf(root)), r.tree, {point})
    ensures Count(r.tree) <= Count(old(Node.TreeOf(root))) + 1
    ensures BalanceKept(Balanced(old(Node.TreeOf(root)), p), allow, p,
                        Count(old(Node.TreeOf(root))) + 1, rp, r.tree, rp')
    ensures root == null ==> FreshLeaf(r.tree) && r.tree.d.axis == (fatherAxis + 1) % 3 && rp' == rp
    ensures root != null ==>
      Stays(allow, root, old(root.repr), Count(old(root.tree)), rp, r, rp')
    ensures !allow ==> Count(r.tree) == Count(old(Node.TreeOf(root))) + 1
    ensures rp' == r ==> r == root && Count(r.tree) >= MULTI_THREAD_REBUILD_POINT_NUM
    ensures rp' == rp || rp' == null || (rp' in old(Node.Repr(root)) && free(rp'))
    ensures Inline(allow, p, Count(old(Node.TreeOf(root))) + 1, rp) ==> rp' == null && FewTombstones(r.tree, p)
    decreases Node.Repr(root), 2
  {
    hide WF, Live, Node.Linked, KdKept, FewTombstones;
    if root == null {
      r := NewLeaf(point, fatherAxis);
      rp' := rp;
      LeafFacts(r.tree, p);
      LeafKept(r.tree);
    } else {
      r, rp' := AddNode(root, point, allow, p, free, rp);
    }
  }

  lemma LeafFacts(t: Tree, p: Params)
    requires FreshLeaf(t)
    ensures WF(t) && Live(t) == multiset{} + multiset{t.d.point} && Count(t) == 1 && Balanced(t, p)
    ensures FewTombstones(t, p)
    ensures Live(Nil) == multiset{} && Count(Nil) == 0
  {
    LeafWF(t);
  }

  lemma LeafKept(t: Tree)
    requires FreshLeaf(t) && 0 <= t.d.axis <= 2
    ensures KdKept(Nil, t, {t.d.point})
  {
  }

  method AddNode(root: Node, point: Point, allow: bool, p: Params, free: Node -> bool, rp: Node?)
    returns (r: Node, rp': Node?)
    requires root.Valid() && WF(root.tree)
    modifies root.repr
    ensures r.Valid() && WF(r.tree) && fresh(r.repr - old(root.repr))
    ensures Live(r.tree) == Live(old(root.tree)) + multiset{point}
    ensures KdKept(old(root.tree), r.tree, {point})
    ensures Count(r.tree) <= Count(old(root.tree)) + 1
    ensures BalanceKept(Balanced(old(root.tree), p), allow, p, Count(old(root.tree)) + 1,
                        rp, r.tree, rp')
    ensures Stays(allow, root, old(root.repr), Count(old(root.tree)), rp, r, rp')
    ensures !allow ==> Count(r.tree) == Count(old(root.tree)) + 1
    ensures rp' == r ==> r == root && Count(r.tree) >= MULTI_THREAD_REBUILD_POINT_NUM
    ensures rp' == rp || rp' == null || (rp' in old(root.repr) && free(rp'))
    ensures Inline(allow, p, Count(old(root.tree)) + 1, rp) ==> rp' == null && FewTombstones(r.tree, p)
    decreases root.repr, 1
  {
    hide WF, Live, Balanced, Own, Node.Linked, Updatable, Count, Clean, SameShape, FreshLeaf,
      LazyTree.PushDown, KdKept, FewTombstones;
    ghost var t := root.tree;
    Prepare(root);
    ghost var u := root.tree;
    SameShapeBalanced(t, u, p);
    BalancedSons(u, p);
    var toLeft := GoesLeft(point, root.d);
    rp' := AddSon(root, toLeft, point, allow, p, free, rp);
    ghost var v := root.tree;
    AddedUpdatable(u, v, toLeft, point);
    r, rp' := Finish(root, allow, p, free, rp');
    AddKept(t, u, v, r.tree, point);
  }

  /** Push-down, descent and the final refresh keep the k-d order. */
  lemma {:induction false} AddKept(t: Tree, u: Tree, v: Tree, w: Tree, point: Point)
    requires u.Bin? && v.Bin? && SameShape(t, u) && AddedBelow(u, v, GoesLeft(point, u.d), point)
    requires KdKept(v, w, {})
    ensures KdKept(t, w, {point})
  {
    hide KdKept, SameShape, GoesLeft, WF, Live, FreshLeaf, Count;
    ShapeKept(t, u);
    DescentKept(u, v, point);
    KeptTrans(t, u, v, {}, {point});
    KeptTrans(t, v, w, {} + {point}, {});
    assert {} + {point} + {} == {point};
  }

  lemma {:induction false} BalancedSons(t: Tree, p: Params)
    requires t.Bin?
    ensures Balanced(t, p) ==> Balanced(t.l, p) && Balanced(t.r, p)
    ensures Count(t) == 1 + Count(t.l) + Count(t.r)
  {
    hide NodeBalanced;
  }

  /** Tree t' is t with the point added below one son. */
  ghost predicate AddedBelow(t: Tree, t': Tree, toLeft: bool, point: Point)
    requires t.Bin? && t'.Bin?
  {
    var s, s' := if toLeft then t.l else t.r, if toLeft then t'.l else t'.r;
    && t'.d == t.d
    && (if toLeft then t'.r == t.r else t'.l == t.l)
    && WF(s') && Live(s') == Live(s) + multiset{point} && KdKept(s, s', {point})
    && (s.Nil? ==> FreshLeaf(s'))
    && Count(s') <= Count(s) + 1
  }

  lemma {:induction false} AddedUpdatable(t: Tree, t': Tree, toLeft: bool, point: Point)
    requires Clean(t) && WF(t) && WF(t.l) && WF(t.r)
    requires Live(t) == Own(t.d) + Live(t.l) + Live(t.r)
    requires t'.Bin? && AddedBelow(t, t', toLeft, point)
    ensures Updatable(t')
    ensures Own(t'.d) + Live(t'.l) + Live(t'.r) == Live(t) + multiset{point}
    ensures Live(t) + multiset{point} != multiset{}
    ensures Count(t') <= Count(t) + 1
  {
    hide WF, Live, FreshLeaf, KdKept;
    WFOpen(t);
    assert point in Live(t) + multiset{point};
  }

  method AddSon(root: Node, toLeft: bool, point: Point, allow: bool, p: Params, free: Node -> bool, rp: Node?)
    returns (rp': Node?)
    requires root.Valid() && WF(root.tree.l) && WF(root.tree.r)
    modifies root.repr
    ensures root.Valid() && fresh(root.repr - old(root.repr))
    ensures AddedBelow(old(root.tree), root.tree, toLeft, point)
    ensures BalanceKept(old(Balanced(root.tree.l, p) && Balanced(root.tree.r, p)), allow, p,
                        old(Count(root.tree)), rp,
                        if toLeft then root.tree.l else root.tree.r, rp')
    ensures !allow && (rp !in old(root.repr) || rp == root) ==> rp' == rp
    ensures !allow ==> Count(root.tree) == old(Count(root.tree)) + 1
    ensures rp' == rp || rp' == null || (rp' in old(root.repr) && free(rp'))
    ensures Inline(allow, p, old(Count(root.tree)), rp) ==> rp' == null
    decreases root.repr, 0
  {
    hide WF, Live, Balanced, FreshLeaf, KdKept;
    assert root.Linked();
    var s;
    var son := root.Son(toLeft);
    // While a son is itself the subtree waiting for the background thread, nothing below it
    // is rebuilt inline.
    s, rp' := AddByPoint(son, point, allow && (rp == null || son != rp), root.d.axis, p, free, rp);
    root.SetSon(toLeft, s);
  }

  // ---- Delete_by_range ------------------------------------------------------------------------

  /** Delete_by_range: exactly the live points of the box disappear, and their number is
      returned.  A tree never vanishes: whatever is rebuilt still holds a live point. */
  method DeleteByRange(root: Node?, box: Box, allow: bool, down: bool, p: Params, free: Node -> bool, rp: Node?)
    returns (r: Node?, count: int, rp': Node?)
    requires Ok(root)
    modifies Node.Repr(root)
    ensures Ok(r) && fresh(Node.Repr(r) - old(Node.Repr(root)))
    ensures r == null <==> root == null
    ensures Live(Node.TreeOf(r)) == Outside(Live(old(Node.TreeOf(root))), box)
    ensures count == |Inside(Live(old(Node.TreeOf(root))), box)|
    ensures KdKept(old(Node.TreeOf(root)), Node.TreeOf(r), {})
    ensures Count(Node.TreeOf(r)) <= Count(old(Node.TreeOf(root)))
    ensures BalanceKept(Balanced(old(Node.TreeOf(root)), p), allow, p,
                        Count(old(Node.TreeOf(root))), rp, Node.TreeOf(r), rp')
    ensures root == null ==> rp' == rp
    ensures root != null ==>
      Stays(allow, root, old(root.repr), Count(old(root.tree)), rp, r, rp')
    ensures !allow ==> Count(Node.TreeOf(r)) == Count(old(Node.TreeOf(root)))
    ensures rp' != null && rp' == r ==>
      (rp == root && Count(Node.TreeOf(r)) == Count(old(Node.TreeOf(root))))
      || Count(Node.TreeOf(r)) >= MULTI_THREAD_REBUILD_POINT_NUM
    ensures rp' == rp || rp' == null || (rp' in old(Node.Repr(root)) && free(rp'))
    ensures allow && rp !in old(Node.Repr(root)) ==>
      && Count(Node.TreeOf(r)) == CountAfter(old(Node.TreeOf(root)), box, p)
      && NewRequest(rp, rp', Node.Repr(r), Count(Node.TreeOf(r)))
    ensures root != null && rp != root && rp' == r ==> Asks(r.tree, p) && free(root)
    ensures root != null && allow && rp == null ==>
      (rp' == r <==> AsksRoot(old(root.tree), box, p) && free(root))
    ensures root != null && Inline(allow, p, Count(old(root.tree)), rp) ==>
      rp' == null && (Enters(old(root.d), box) ==> FewTombstones(Node.TreeOf(r), p))
    ensures TidyKept(Tidy(old(Node.TreeOf(root)), p), allow, p, Count(old(Node.TreeOf(root))), rp, Node.TreeOf(r), rp')
    decreases Count(Node.TreeOf(root)), 4
  {
    hide WF, Live, Node.Linked, Inside, Outside, Balanced, Count, KdKept, CountAfter, AsksRoot, FewTombstones;
    if root == null {
      NilFacts();
      NilAfter(box, p);
      SameKept(Nil);
      FilterNone(multiset{}, box);
      r, count, rp' := null, 0, rp;
    } else {
      r, count, rp' := DeleteNode(root, box, allow, down, p, free, rp);
    }
  }

  method DeleteNode(root: Node, box: Box, allow: bool, down: bool, p: Params, free: Node -> bool, rp: Node?)
    returns (r: Node, count: int, rp': Node?)
    requires root.Valid() && WF(root.tree)
    modifies root.repr
    ensures r.Valid() && WF(r.tree) && fresh(r.repr - old(root.repr))
    ensures Live(r.tree) == Outside(Live(old(root.tree)), box)
    ensures count == |Inside(Live(old(root.tree)), box)|
    ensures KdKept(old(root.tree), r.tree, {})
    ensures Count(r.tree) <= Count(old(root.tree))
    ensures BalanceKept(Balanced(old(root.tree), p), allow, p, Count(old(root.tree)),
                        rp, r.tree, rp')
    ensures Stays(allow, root, old(root.repr), Count(old(root.tree)), rp, r, rp')
    ensures !allow ==> Count(r.tree) == Count(old(root.tree))
    ensures rp' == r ==>
      (rp == root && Count(r.tree) == Count(old(root.tree)))
      || Count(r.tree) >= MULTI_THREAD_REBUILD_POINT_NUM
    ensures rp' == rp || rp' == null || (rp' in old(root.repr) && free(rp'))
    ensures allow && rp !in old(root.repr) ==>
      && Count(r.tree) == CountAfter(old(root.tree), box, p)
      && NewRequest(rp, rp', r.repr, Count(r.tree))
    ensures rp != root && rp' == r ==> Asks(r.tree, p) && free(root)
    ensures allow && rp == null ==> (rp' == r <==> AsksRoot(old(root.tree), box, p) && free(root))
    ensures Inline(allow, p, Count(old(root.tree)), rp) ==>
      rp' == null && (Enters(old(root.d), box) ==> FewTombstones(r.tree, p))
    ensures TidyKept(Tidy(old(root.tree), p), allow, p, Count(old(root.tree)), rp, r.tree, rp')
    decreases Count(root.tree), 3
  {
    hide WF, Live, Balanced, Own, Node.Linked, Updatable, Count, Clean, SameShape,
      LazyTree.PushDown, Inside, Outside, Misses, Covers, KdKept, CountAfter, AsksRoot, FewTombstones;
    ghost var t := root.tree;
    NothingLeft(t, box);
    SameKept(t);
    StaysOut(t, box, p);
    if root.d.treeDeleted { return root, 0, rp; }
    PushedAfter(t, box, p);
    Prepare(root);
    ghost var u := root.tree;
    ShapeKept(t, u);
    SameShapeBalanced(t, u, p);
    TidySame(t, u, p);
    RangeCases(u, box);
    SplitFilter(Live(u), box);
    if Misses(box, root.d.range) {
      return root, 0, rp;
    }
    if Covers(box, root.d.range) {
      count := root.d.size - root.d.invalid;
      MarkAll(root, down);
      RecordShape(root.d, u, p);
      RecordKept(u, root.d);
      KeptTwice(t, u, root.tree);
      return root, count, rp;
    }
    SurvivorOutside(u, box);
    r, count, rp' := DeleteParts(root, box, allow, down, p, free, rp);
    KeptTwice(t, u, r.tree);
  }

  lemma NilAfter(box: Box, p: Params)
    ensures CountAfter(Nil, box, p) == Count(Nil)
  {
  }

  /** Where Delete_by_range does not look at the sons, it neither rebuilds nor asks. */
  lemma {:induction false} StaysOut(t: Tree, box: Box, p: Params)
    requires t.Bin?
    ensures !Enters(t.d, box) ==> CountAfter(t, box, p) == Count(t) && !AsksRoot(t, box, p)
  {
    hide Enters, Live, Outside;
  }

  lemma {:induction false} NothingLeft(t: Tree, box: Box)
    requires WF(t) && t.Bin?
    ensures t.d.treeDeleted ==>
      Outside(Live(t), box) == Live(t) && Inside(Live(t), box) == multiset{}
  {
    hide WF, Live, Tight;
    WFOpen(t);
    if t.d.treeDeleted { FilterNone(Live(t), box); }
  }

  lemma SplitFilter(m: multiset<Point>, box: Box)
    ensures Inside(m, box) == multiset{} ==> Outside(m, box) == m
    ensures Inside(m, box) == m ==> Outside(m, box) == multiset{}
  {
    hide Inside;
  }

  lemma {:induction false} RecordShape(d: Rec, t: Tree, p: Params)
    requires t.Bin?
    ensures Balanced(Bin(d, t.l, t.r), p) == Balanced(t, p)
    ensures Count(Bin(d, t.l, t.r)) == Count(t)
  {
    hide NodeBalanced;
  }

  /** The whole-subtree case of Delete_by_range. */
  method MarkAll(root: Node, down: bool)
    requires root.Valid() && WF(root.tree)
    modifies root
    ensures root.Valid() && root.repr == old(root.repr) && WF(root.tree)
    ensures root.tree == Bin(MarkDeleted(old(root.d), down), old(root.tree.l), old(root.tree.r))
    ensures Live(root.tree) == multiset{}
  {
    hide WF, Live;
    MarkDeletedKeeps(root.tree, down);
    assert root.Linked();
    var n := root.d.(treeDeleted := true, pointDeleted := true, pushLeft := true,
                     pushRight := true, invalid := root.d.size);
    if down { n := n.(treeDown := true, pointDown := true, downNum := n.size); }
    root.d := n;
    root.tree := Bin(root.d, root.tree.l, root.tree.r);
  }

  /** Finish after both sons are done: whether the request of the whole operation is for this
      node.  `u` is the node before, `rp0` the request; `exact` tells whether both sons could be
      rebuilt and asked for. */
  method FinishDelete(root: Node, ghost u: Tree, box: Box, allow: bool, p: Params, free: Node -> bool,
                      ghost rp0: Node?, ghost exact: bool, rp: Node?)
    returns (r: Node, rp': Node?)
    requires root.Valid() && Updatable(root.tree) && u.Bin? && Enters(u.d, box)
    requires SonDeleted(u.l, root.tree.l, box) && SonDeleted(u.r, root.tree.r, box)
    requires Own(root.tree.d) + Live(root.tree.l) + Live(root.tree.r) == Outside(Live(u), box) != multiset{}
    requires exact ==>
      && allow && rp0 != root
      && Count(root.tree.l) == CountAfter(u.l, box, p) && Count(root.tree.r) == CountAfter(u.r, box, p)
      && NewRequest(rp0, rp, root.repr - {root}, Count(root.tree) - 1)
    modifies root.repr
    ensures r.Valid() && WF(r.tree) && fresh(r.repr - old(root.repr))
    ensures Live(r.tree) == Outside(Live(u), box)
    ensures KdKept(old(root.tree), r.tree, {})
    ensures Count(r.tree) <= old(Count(root.tree))
    ensures BalanceKept(old(Balanced(root.tree.l, p) && Balanced(root.tree.r, p)), allow, p,
                        old(Count(root.tree)), rp, r.tree, rp')
    ensures Stays(allow, root, old(root.repr), old(Count(root.tree)), rp, r, rp')
    ensures !allow ==> Count(r.tree) == old(Count(root.tree))
    ensures rp' == r ==> Count(r.tree) >= MULTI_THREAD_REBUILD_POINT_NUM
    ensures rp' == rp || rp' == null || (rp' == root && free(root))
    ensures exact ==> Count(r.tree) == CountAfter(u, box, p) && NewRequest(rp0, rp', r.repr, Count(r.tree))
    ensures rp != root && rp' == r ==> Asks(r.tree, p) && free(root)
    ensures allow && old(Count(root.tree)) < MULTI_THREAD_REBUILD_POINT_NUM && p.del >= 0.0 ==>
      FewTombstones(r.tree, p)
    ensures exact && rp0 == null ==> (rp' == r <==> AsksRoot(u, box, p) && free(root))
  {
    hide WF, Live, Balanced, Own, Node.Linked, Updatable, Count, Inside, Outside, KdKept, CountAfter, AsksRoot, Unfit,
      Settled, Updated, Enters, FewTombstones;
    ghost var v := root.tree;
    if exact { UpdatedAfter(u, v, box, p); }
    r, rp' := Finish(root, allow, p, free, rp);
  }

  method DeleteParts(root: Node, box: Box, allow: bool, down: bool, p: Params, free: Node -> bool, rp: Node?)
    returns (r: Node, count: int, rp': Node?)
    requires root.Valid() && WF(root.tree) && Clean(root.tree)
    requires WF(root.tree.l) && WF(root.tree.r)
    requires Outside(Live(root.tree), box) != multiset{} && Enters(root.d, box)
    modifies root.repr
    ensures r.Valid() && WF(r.tree) && fresh(r.repr - old(root.repr))
    ensures Live(r.tree) == Outside(Live(old(root.tree)), box)
    ensures count == |Inside(Live(old(root.tree)), box)|
    ensures KdKept(old(root.tree), r.tree, {})
    ensures Count(r.tree) <= Count(old(root.tree))
    ensures BalanceKept(Balanced(old(root.tree), p), allow, p, Count(old(root.tree)),
                        rp, r.tree, rp')
    ensures Stays(allow, root, old(root.repr), Count(old(root.tree)), rp, r, rp')
    ensures !allow ==> Count(r.tree) == Count(old(root.tree))
    ensures rp' == r ==> Count(r.tree) >= MULTI_THREAD_REBUILD_POINT_NUM
    ensures rp' == rp || rp' == null || (rp' in old(root.repr) && free(rp'))
    ensures allow && rp !in old(root.repr) ==>
      && Count(r.tree) == CountAfter(old(root.tree), box, p)
      && NewRequest(rp, rp', r.repr, Count(r.tree))
    ensures rp != root && rp' == r ==> Asks(r.tree, p) && free(root)
    ensures allow && rp == null ==> (rp' == r <==> AsksRoot(old(root.tree), box, p) && free(root))
    ensures Inline(allow, p, Count(old(root.tree)), rp) ==> FewTombstones(r.tree, p)
    decreases Count(root.tree), 2
  {
    hide WF, Live, Balanced, Own, Node.Linked, Updatable, Count, Clean, Inside, Outside, DeleteOwn, KdKept,
      CountAfter, AsksRoot, NewRequest, Enters, FewTombstones;
    ghost var u := root.tree;
    BalancedSons(u, p);
    count := DeletePoint(root, box, down);
    var c;
    c, rp' := DeleteSons(root, box, allow, down, p, free, rp);
    count := count + c;
    ghost var v := root.tree;
    DeletedUpdatable(u, v, box, down);
    DeletedKept(u, v, box, down);
    r, rp' := FinishDelete(root, u, box, allow, p, free, rp, allow && rp !in old(root.repr), rp');
    KeptTwice(u, v, r.tree);
  }

  method DeletePoint(root: Node, box: Box, down: bool) returns (count: int)
    requires root.Valid()
    modifies root
    ensures root.Valid() && root.repr == old(root.repr)
    ensures root.tree == Bin(DeleteOwn(old(root.d), box, down), old(root.tree.l), old(root.tree.r))
    ensures count == if DeleteOwn(old(root.d), box, down) == old(root.d) then 0 else 1
    ensures Count(root.tree) == old(Count(root.tree))
  {
    hide InBox;
    assert root.Linked();
    count := 0;
    if !root.d.pointDeleted && InBox(box, root.d.point.at) {
      root.d := root.d.(pointDeleted := true);
      count := 1;
      if down { root.d := root.d.(pointDown := true); }
    }
    root.tree := Bin(root.d, root.tree.l, root.tree.r);
  }

  /** Son s' is son s without the points of the box. */
  ghost predicate SonDeleted(s: Tree, s': Tree, box: Box) {
    && WF(s') && (s'.Nil? <==> s.Nil?)
    && Live(s') == Outside(Live(s), box) && KdKept(s, s', {})
    && Count(s') <= Count(s)
  }

  lemma {:induction false} DeletedKept(t: Tree, t': Tree, box: Box, down: bool)
    requires t.Bin? && t'.Bin? && t'.d == DeleteOwn(t.d, box, down)
    requires SonDeleted(t.l, t'.l, box) && SonDeleted(t.r, t'.r, box)
    ensures KdKept(t, t', {})
  {
    hide KdKept, WF, Live, Outside, Count, InBox;
    PartsKept(t, t');
  }

  lemma {:induction false} DeletedUpdatable(t: Tree, t': Tree, box: Box, down: bool)
    requires Clean(t) && WF(t) && t'.Bin?
    requires t'.d == DeleteOwn(t.d, box, down)
    requires SonDeleted(t.l, t'.l, box) && SonDeleted(t.r, t'.r, box)
    ensures Updatable(t')
    ensures Own(t'.d) + Live(t'.l) + Live(t'.r) == Outside(Live(t), box)
    ensures |Inside(Live(t), box)| == (if DeleteOwn(t.d, box, down) == t.d then 0 else 1)
      + |Inside(Live(t.l), box)| + |Inside(Live(t.r), box)|
    ensures Count(t') <= Count(t)
  {
    hide WF, Live, Inside, Outside, Own, KdKept;
    WFOpen(t);
    CleanLive(t);
    DeleteOwnLive(t.d, box, down);
    FilterSum(Own(t.d), Live(t.l), box);
    FilterSum(Own(t.d) + Live(t.l), Live(t.r), box);
  }

  /** Both sons of a node. */
  method DeleteSons(root: Node, box: Box, allow: bool, down: bool, p: Params, free: Node -> bool, rp: Node?)
    returns (count: int, rp': Node?)
    requires root.Valid() && WF(root.tree.l) && WF(root.tree.r)
    modifies root.repr
    ensures root.Valid() && fresh(root.repr - old(root.repr)) && root.d == old(root.d)
    ensures SonDeleted(old(root.tree.l), root.tree.l, box) && SonDeleted(old(root.tree.r), root.tree.r, box)
    ensures count == |Inside(Live(old(root.tree.l)), box)| + |Inside(Live(old(root.tree.r)), box)|
    ensures BalanceKept(old(Balanced(root.tree.l, p) && Balanced(root.tree.r, p)), allow, p,
                        old(Count(root.tree)), rp, root.tree.l, rp')
    ensures BalanceKept(old(Balanced(root.tree.l, p) && Balanced(root.tree.r, p)), allow, p,
                        old(Count(root.tree)), rp, root.tree.r, rp')
    ensures !allow && (rp !in old(root.repr) || rp == root) ==> rp' == rp
    ensures Count(root.tree) <= old(Count(root.tree))
    ensures !allow ==> Count(root.tree) == old(Count(root.tree))
    ensures rp' == rp || rp' == null || (rp' in old(root.repr) - {root} && free(rp'))
    ensures allow && rp !in old(root.repr) ==>
      && Count(root.tree.l) == CountAfter(old(root.tree.l), box, p)
      && Count(root.tree.r) == CountAfter(old(root.tree.r), box, p)
      && NewRequest(rp, rp', root.repr - {root}, Count(root.tree) - 1)
    decreases Count(root.tree), 1
  {
    hide WF, Live, Balanced, Inside, Outside, KdKept, CountAfter;
    assert root.Linked();
    var c;
    count, rp' := DeleteSon(root, true, box, allow, down, p, free, rp);
    assert root.Linked();
    c, rp' := DeleteSon(root, false, box, allow, down, p, free, rp');
    assert root.Linked();
    count := count + c;
  }

  function SonTree(t: Tree, toLeft: bool): Tree
    requires t.Bin?
  {
    if toLeft then t.l else t.r
  }

  method DeleteSon(root: Node, toLeft: bool, box: Box, allow: bool, down: bool, p: Params, free: Node -> bool,
                   rp: Node?)
    returns (count: int, rp': Node?)
    requires root.Valid() && WF(root.tree.l) && WF(root.tree.r)
    modifies root.repr
    ensures root.Valid() && fresh(root.repr - old(root.repr)) && root.d == old(root.d)
    ensures root.Son(!toLeft) == old(root.Son(!toLeft)) && unchanged(old(Node.Repr(root.Son(!toLeft))))
    ensures var s, s' := SonTree(old(root.tree), toLeft), SonTree(root.tree, toLeft);
      && SonTree(root.tree, !toLeft) == SonTree(old(root.tree), !toLeft)
      && SonDeleted(s, s', box)
      && count == |Inside(Live(s), box)|
      && BalanceKept(Balanced(s, p), allow, p, Count(s), rp, s', rp')
      && (!allow ==> Count(s') == Count(s))
      && (allow && rp !in old(Node.Repr(root.Son(toLeft))) ==>
            Count(s') == CountAfter(s, box, p) && NewRequest(rp, rp', Node.Repr(root.Son(toLeft)), Count(s')))
    ensures !allow && rp !in old(Node.Repr(root.Son(toLeft))) ==> rp' == rp
    ensures rp' == rp || rp' == null || (rp' in old(Node.Repr(root.Son(toLeft))) && free(rp'))
    decreases Count(root.tree), 0
  {
    hide WF, Live, Balanced, Inside, Outside, KdKept, CountAfter, AsksRoot, Inline, TidyKept, Tidy, Enters, Asks;
    assert root.Linked();
    var s;
    var son := root.Son(toLeft);
    s, count, rp' := DeleteByRange(son, box, allow && (rp == null || son != rp), down, p, free, rp);
    root.SetSon(toLeft, s);
    assert SonTree(root.tree, toLeft) == Node.TreeOf(s);
  }
}
