/** BuildTree and Rebuild. */
module TreeBuild {
  import opened Prelude
  import opened Geometry
  import opened LazyTree
  import opened Balance
  import opened KdOrder
  import opened KdNode
  import opened TreeOps
  import N = NthElement

  /** Extents of storage[l..r + 1]. */
  method Extent(storage: array<Point>, l: int, r: int) returns (range: Range)
    requires 0 <= l <= r < storage.Length
    ensures Tight(range, multiset(storage[l..r + 1]))
  {
    hide Tight;
    var acc: Option<Range> := None;
    var i := l;
    while i <= r
      invariant l <= i <= r + 1
      invariant acc.None? <==> multiset(storage[l..i]) == multiset{}
      invariant acc.Some? ==> Tight(acc.value, multiset(storage[l..i]))
      invariant i > l ==> acc.Some?
    {
      TightSingle(storage[i]);
      TightGrow(acc, multiset(storage[l..i]), true, Single(storage[i].at), multiset{storage[i]});
      assert storage[l..i + 1] == storage[l..i] + [storage[i]];
      acc := Grow(acc, true, Single(storage[i].at));
      i := i + 1;
    }
    range := acc.value;
  }

  lemma TightUnique(r: Range, s: Range, m: multiset<Point>)
    requires Tight(r, m) && Tight(s, m)
    ensures r == s
  {
  }

  /** A node over two finished sons, as BuildTree completes it. */
  method Assemble(p: Point, axis: int, l: Node?, r: Node?) returns (root: Node)
    requires Ok(l) && Ok(r)
    requires l != null && r != null ==> l.repr !! r.repr
    ensures root.Valid() && fresh(root.repr - Node.Repr(l) - Node.Repr(r))
    ensures WF(root.tree) && root.tree.l == Node.TreeOf(l) && root.tree.r == Node.TreeOf(r)
    ensures Live(root.tree) == multiset{p} + Live(Node.TreeOf(l)) + Live(Node.TreeOf(r))
    ensures root.tree.d.point == p && root.tree.d.axis == axis && !root.tree.d.treeDeleted
  {
    hide WF, Live;
    NilFacts();
    root := new Node.InitTreeNode();
    root.d := root.d.(point := p, axis := axis);
    root.SetSon(true, l);
    root.SetSon(false, r);
    UpdateRestores(root.tree);
    root.Update();
    WFOpen(root.tree);
  }

  lemma {:induction false} NotDeletedTight(t: Tree)
    requires WF(t) && t.Bin? && !t.d.treeDeleted
    ensures Tight(t.d.range, Live(t))
  {
    hide WF, Live, Tight;
    WFOpen(t);
  }

  /** A tree built from scratch over exactly the points m. */
  ghost predicate BuiltFrom(t: Tree, m: multiset<Point>) {
    && WF(t) && Live(t) == m && Count(t) == |m|
    && EvenSplit(t) && KdSplit(t)
  }

  lemma {:induction false} BuiltOrdered(t: Tree, m: multiset<Point>)
    requires BuiltFrom(t, m)
    ensures KdOrdered(t)
  {
    hide Live, KdOrdered, WF, Count, KdSplit, EvenSplit;
    SplitOrdered(t);
  }

  /** Every node of a built tree divides along a longest side of the exact bounding box of its
      points, the first one among equals. */
  lemma {:induction false} BuiltSplitsLongest(t: Tree, m: multiset<Point>)
    requires BuiltFrom(t, m) && t.Bin? && m != multiset{}
    ensures Tight(t.d.range, m) && Longest(t.d.range, t.d.axis)
  {
    hide WF, Live, Tight, Longest, LongestAxis, EvenSplit, Count;
    WFOpen(t);
    LongestAxisIs(t.d.range);
  }

  /** A rebuilt subtree is in order and stores nothing new. */
  lemma {:induction false} BuiltKept(t: Tree, t': Tree)
    requires BuiltFrom(t', Live(t))
    ensures KdKept(t, t', {})
  {
    hide Live, KdOrdered, Stored, WF, Count, KdSplit, EvenSplit;
    BuiltOrdered(t', Live(t));
    StoredIsLive(t');
    LiveIsStored(t);
  }

  lemma SplitPoints(s: seq<Point>, l: int, mid: int, r: int)
    requires 0 <= l <= mid <= r < |s|
    ensures multiset(s[l..r + 1])
         == multiset{s[mid]} + multiset(s[l..mid]) + multiset(s[mid + 1..r + 1])
  {
    assert s[l..r + 1] == s[l..mid] + ([s[mid]] + s[mid + 1..r + 1]);
  }

  lemma DividedSides(s: seq<Point>, l: int, mid: int, r: int, axis: int)
    requires 0 <= l <= mid <= r < |s|
    requires N.Divided(s, l, mid, r, axis)
    ensures Below(multiset(s[l..mid]), axis, s[mid]) && Above(multiset(s[mid + 1..r + 1]), axis, s[mid])
  {
    forall p | p in multiset(s[l..mid]) ensures Coord(p.at, axis) <= Coord(s[mid].at, axis) {
      assert p in s[l..mid];
    }
    forall p | p in multiset(s[mid + 1..r + 1])
      ensures Coord(p.at, axis) >= Coord(s[mid].at, axis)
    {
      assert p in s[mid + 1..r + 1];
    }
  }

  ghost predicate Below(m: multiset<Point>, axis: int, c: Point) {
    forall p :: p in m ==> Coord(p.at, axis) <= Coord(c.at, axis)
  }

  ghost predicate Above(m: multiset<Point>, axis: int, c: Point) {
    forall p :: p in m ==> Coord(p.at, axis) >= Coord(c.at, axis)
  }

  lemma {:induction false} BuiltNode(t: Tree, m: multiset<Point>, range: Range,
                                     lm: multiset<Point>, rm: multiset<Point>)
    requires t.Bin? && WF(t) && Live(t) == m == multiset{t.d.point} + lm + rm
    requires !t.d.treeDeleted && Tight(range, m) && t.d.axis == LongestAxis(range)
    requires BuiltFrom(t.l, lm) && BuiltFrom(t.r, rm)
    requires Below(lm, t.d.axis, t.d.point) && Above(rm, t.d.axis, t.d.point)
    requires |lm| == (|lm| + |rm|) / 2
    ensures BuiltFrom(t, m)
  {
    hide WF, Live, Tight, LongestAxis;
    NotDeletedTight(t);
    TightUnique(t.d.range, range, m);
  }

  /** Same[l..r] holds of two states of a vector that differ at most inside l..r, where they
      hold the same points. */
  ghost predicate Permuted(s: seq<Point>, s': seq<Point>, l: int, r: int)
    requires 0 <= l <= r + 1 <= |s|
  {
    && |s'| == |s|
    && multiset(s'[l..r + 1]) == multiset(s[l..r + 1])
    && (forall i :: 0 <= i < |s| && !(l <= i <= r) ==> s'[i] == s[i])
  }

  /** The part of BuildTree before the recursion: choose the axis and divide the points. */
  method Divide(storage: array<Point>, l: int, r: int)
    returns (range: Range, axis: int, ghost lm: multiset<Point>, ghost rm: multiset<Point>)
    requires 0 <= l <= r < storage.Length
    modifies storage
    ensures Permuted(old(storage[..]), storage[..], l, r)
    ensures var mid := (l + r) / 2;
      && var all := multiset(old(storage[..])[l..r + 1]);
      && all == multiset{storage[mid]} + lm + rm
      && Tight(range, all) && axis == LongestAxis(range)
      && lm == multiset(storage[..][l..mid]) && |lm| == mid - l
      && rm == multiset(storage[..][mid + 1..r + 1]) && |rm| == r - mid
      && Below(lm, axis, storage[mid]) && Above(rm, axis, storage[mid])
  {
    hide Tight;
    ghost var s := storage[..];
    var mid := (l + r) / 2;
    range := Extent(storage, l, r);
    assert s[l..r + 1] == storage[l..r + 1];
    axis := LongestAxis(range);
    N.NthElement(storage, l, mid, r, axis);
    SplitPoints(storage[..], l, mid, r);
    DividedSides(storage[..], l, mid, r, axis);
    SidesEqual(storage[..], l, mid, r);
    lm, rm := multiset(storage[..][l..mid]), multiset(storage[..][mid + 1..r + 1]);
    assert storage[..][l..r + 1] == storage[l..r + 1];
  }

  method AssembleBuilt(p: Point, axis: int, l: Node?, r: Node?, ghost range: Range,
                       ghost lm: multiset<Point>, ghost rm: multiset<Point>)
    returns (root: Node)
    requires Ok(l) && Ok(r)
    requires l != null && r != null ==> l.repr !! r.repr
    requires BuiltFrom(Node.TreeOf(l), lm) && BuiltFrom(Node.TreeOf(r), rm)
    requires Tight(range, multiset{p} + lm + rm) && axis == LongestAxis(range)
    requires Below(lm, axis, p) && Above(rm, axis, p) && |lm| == (|lm| + |rm|) / 2
    ensures root.Valid() && fresh(root.repr - Node.Repr(l) - Node.Repr(r)) && WF(root.tree)
    ensures BuiltFrom(root.tree, multiset{p} + lm + rm)
  {
    hide WF, Live, Tight, KdSplit, EvenSplit, LongestAxis, Below, Above, Node.Linked;
    root := Assemble(p, axis, l, r);
    BuiltNode(root.tree, multiset{p} + lm + rm, range, lm, rm);
  }

  method BuildTree(storage: array<Point>, l: int, r: int) returns (root: Node?)
    requires 0 <= l <= r + 1 <= storage.Length
    modifies storage
    ensures Permuted(old(storage[..]), storage[..], l, r)
    ensures root == null <==> l > r
    ensures Ok(root) && fresh(Node.Repr(root))
    ensures BuiltFrom(Node.TreeOf(root), multiset(old(storage[..])[l..r + 1]))
    decreases r - l, 2
  {
    hide BuiltFrom, WF, Node.Valid;
    if l > r {
      NilFacts();
      EmptyBuilt();
      assert storage[..][l..r + 1] == [];
      root := null;
    } else {
      root := BuildNode(storage, l, r);
    }
  }

  method BuildNode(storage: array<Point>, l: int, r: int) returns (root: Node)
    requires 0 <= l <= r < storage.Length
    modifies storage
    ensures Permuted(old(storage[..]), storage[..], l, r)
    ensures root.Valid() && WF(root.tree) && fresh(root.repr)
    ensures BuiltFrom(root.tree, multiset(old(storage[..])[l..r + 1]))
    decreases r - l, 1
  {
    hide WF, Tight, LongestAxis, BuiltFrom, Below, Above, Node.Linked, Node.Valid, Permuted, Count;
    ghost var s0 := storage[..];
    var mid := (l + r) / 2;
    var range, axis, lm, rm := Divide(storage, l, r);
    var p := storage[mid];
    ghost var s1 := storage[..];
    var left, right := BuildSons(storage, l, mid, r);
    PermutedTrans(s0, s1, storage[..], l, r);
    root := AssembleBuilt(p, axis, left, right, range, lm, rm);
  }

  /** The two recursive calls of BuildTree. */
  method BuildSons(storage: array<Point>, l: int, mid: int, r: int)
    returns (left: Node?, right: Node?)
    requires 0 <= l <= mid <= r < storage.Length
    modifies storage
    ensures Permuted(old(storage[..]), storage[..], l, r)
    ensures Ok(left) && fresh(Node.Repr(left))
    ensures Ok(right) && fresh(Node.Repr(right))
    ensures left != null && right != null ==> left.repr !! right.repr
    ensures BuiltFrom(Node.TreeOf(left), multiset(old(storage[..])[l..mid]))
    ensures BuiltFrom(Node.TreeOf(right), multiset(old(storage[..])[mid + 1..r + 1]))
    decreases r - l, 0
  {
    hide WF, BuiltFrom, Node.Linked, Node.Valid, Permuted;
    ghost var s1 := storage[..];
    left := BuildTree(storage, l, mid - 1);
    ghost var s2 := storage[..];
    PermutedRefl(s1, l, r);
    PermutedLeft(s1, s1, s2, l, mid, r);
    right := BuildTree(storage, mid + 1, r);
    PermutedRight(s1, s2, storage[..], l, mid, r);
  }

  lemma PermutedRefl(s: seq<Point>, l: int, r: int)
    requires 0 <= l <= r + 1 <= |s|
    ensures Permuted(s, s, l, r)
  {
  }

  lemma PermutedTrans(s: seq<Point>, s': seq<Point>, s'': seq<Point>, l: int, r: int)
    requires 0 <= l <= r + 1 <= |s|
    requires Permuted(s, s', l, r) && Permuted(s', s'', l, r)
    ensures Permuted(s, s'', l, r)
  {
  }

  lemma PermutedLeft(s0: seq<Point>, s1: seq<Point>, s2: seq<Point>, l: int, mid: int, r: int)
    requires 0 <= l <= mid <= r < |s0|
    requires Permuted(s0, s1, l, r) && Permuted(s1, s2, l, mid - 1)
    ensures Permuted(s0, s2, l, r) && s2[mid + 1..r + 1] == s1[mid + 1..r + 1]
  {
    assert s2[mid + 1..r + 1] == s1[mid + 1..r + 1];
    SplitPoints(s1, l, mid, r);
    SplitPoints(s2, l, mid, r);
  }

  lemma PermutedRight(s0: seq<Point>, s1: seq<Point>, s2: seq<Point>, l: int, mid: int, r: int)
    requires 0 <= l <= mid <= r < |s0|
    requires Permuted(s0, s1, l, r) && Permuted(s1, s2, mid + 1, r)
    ensures Permuted(s0, s2, l, r)
  {
    assert s2[l..mid] == s1[l..mid];
    SplitPoints(s1, l, mid, r);
    SplitPoints(s2, l, mid, r);
  }

  lemma SidesEqual(s: seq<Point>, l: int, mid: int, r: int)
    requires 0 <= l <= mid <= r < |s|
    ensures |multiset(s[l..mid])| == mid - l && |multiset(s[mid + 1..r + 1])| == r - mid
  {
  }

  lemma EmptyBuilt()
    ensures BuiltFrom(Nil, multiset{})
  {
  }

  // ---- Rebuild ---------------------------------------------------------------------------------

  /** BuildTree over a whole vector. */
  method BuildVector(points: seq<Point>) returns (r: Node?)
    ensures Ok(r) && fresh(Node.Repr(r))
    ensures BuiltFrom(Node.TreeOf(r), multiset(points))
    ensures r == null <==> points == []
  {
    hide WF, BuiltFrom, Node.Valid, Permuted;
    var a := new Point[|points|](i requires 0 <= i < |points| => points[i]);
    assert a[..] == points;
    assert a[..][0..a.Length - 1 + 1] == points;
    r := BuildTree(a, 0, a.Length - 1);
  }

  /** The inline branch of Rebuild: flatten the subtree and build it anew. */
  method RebuildInline(root: Node) returns (r: Node?)
    requires root.Valid() && WF(root.tree)
    modifies root.repr
    ensures Ok(r) && fresh(Node.Repr(r))
    ensures BuiltFrom(Node.TreeOf(r), Live(old(root.tree)))
    ensures r == null <==> Live(old(root.tree)) == multiset{}
  {
    hide WF, Live, BuiltFrom, Node.Linked, Node.Valid, Permuted;
    ghost var live := Live(root.tree);
    var storage := FlattenNode(root, []);
    assert multiset(storage) == live;
    r := BuildVector(storage);
  }

  /** Rebuild: large subtrees are only handed to the background thread (Rebuild_Ptr), small
      ones are rebuilt on the spot.  `free` tells whether the trylock on rebuild_ptr_mutex_lock
      succeeds at a node; if it fails, no request is made. */
  method Rebuild(root: Node, free: Node -> bool, rp: Node?) returns (r: Node?, rp': Node?)
    requires root.Valid() && WF(root.tree)
    modifies root.repr
    ensures Ok(r) && fresh(Node.Repr(r) - old(root.repr))
    ensures old(root.d.size) >= MULTI_THREAD_REBUILD_POINT_NUM ==>
      && r == root && unchanged(old(root.repr))
      && rp' == if free(root) && (rp == null || old(root.d.size > rp.d.size)) then root else rp
    ensures old(root.d.size) < MULTI_THREAD_REBUILD_POINT_NUM ==>
      && rp' == rp && fresh(Node.Repr(r))
      && BuiltFrom(Node.TreeOf(r), Live(old(root.tree)))
      && (r == null <==> Live(old(root.tree)) == multiset{})
  {
    hide WF, Live, BuiltFrom, Node.Linked;
    rp' := rp;
    if root.d.size >= MULTI_THREAD_REBUILD_POINT_NUM {
      if free(root) {
        if rp == null || root.d.size > rp.d.size { rp' := root; }
      }
      r := root;
    } else {
      r := RebuildInline(root);
    }
  }
}
