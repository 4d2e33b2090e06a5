/** Search and Nearest_Search: k nearest neighbours. */
module NearestSearch {
  import opened Prelude
  import opened Geometry
  import opened LazyTree
  import opened KdNode
  import opened TreeOps
  import opened ManualHeap

  /** Within the search radius; None stands for the default radius INFINITY. */
  predicate Reach(dist: int, maxDist: Option<real>) {
    maxDist.None? || dist as real <= maxDist.value * maxDist.value
  }

  predicate Offered(c: Cand, q: Vec, maxDist: Option<real>) {
    c.dist == Dist(q, c.point.at) && Reach(c.dist, maxDist)
  }

  /** Brute force: the candidates that the points m offer to a search around q. */
  ghost function Cands(m: multiset<Point>, q: Vec, maxDist: Option<real>): (r: multiset<Cand>)
    ensures forall c :: r[c] == (if Offered(c, q, maxDist) then m[c.point] else 0)
    decreases |m|
  {
    if m == multiset{} then multiset{}
    else
      var p :| p in m;
      var rest := Cands(m[p := 0], q, maxDist);
      var c := Cand(p, Dist(q, p.at));
      if Reach(c.dist, maxDist) then rest[c := m[p]] else rest
  }

  /** best consists of the k nearest elements of all, or of everything if there are fewer. */
  ghost predicate KBest(k: nat, all: multiset<Cand>, best: multiset<Cand>) {
    && best <= all
    && |best| == (if |all| <= k then |all| else k)
    && forall c, e :: c in best && e in all - best ==> c.dist <= e.dist
  }

  // ---- Algebra of candidates ------------------------------------------------------------------

  lemma CandsSum(m: multiset<Point>, n: multiset<Point>, q: Vec, maxDist: Option<real>)
    ensures Cands(m + n, q, maxDist) == Cands(m, q, maxDist) + Cands(n, q, maxDist)
  {
    hide Cands, Reach, Dist;
    var both, a, b := Cands(m + n, q, maxDist), Cands(m, q, maxDist), Cands(n, q, maxDist);
    assert both == a + b by {
      forall c ensures both[c] == a[c] + b[c] {}
    }
  }

  lemma CandsNone(m: multiset<Point>, q: Vec, maxDist: Option<real>)
    requires forall p :: p in m ==> !Reach(Dist(q, p.at), maxDist)
    ensures Cands(m, q, maxDist) == multiset{}
  {
    hide Cands, Dist;
    forall c ensures Cands(m, q, maxDist)[c] == 0 {}
  }

  lemma CandsOne(p: Point, q: Vec, maxDist: Option<real>)
    ensures var c := Cand(p, Dist(q, p.at));
      Cands(multiset{p}, q, maxDist) == if Reach(c.dist, maxDist) then multiset{c} else multiset{}
  {
    hide Cands, Reach, Dist;
    var c, r := Cand(p, Dist(q, p.at)), Cands(multiset{p}, q, maxDist);
    if Reach(c.dist, maxDist) {
      assert r == multiset{c} by {
        forall e ensures r[e] == multiset{c}[e] {}
      }
    } else {
      forall e ensures r[e] == 0 {}
    }
  }

  /** All of a, as long as it fits. */
  lemma KBestAll(k: nat, all: multiset<Cand>)
    requires |all| <= k
    ensures KBest(k, all, all)
  {
    assert all - all == multiset{};
  }

  lemma SubsetSameSize(a: multiset<Cand>, b: multiset<Cand>)
    requires a <= b && |a| == |b|
    ensures a == b
  {
    assert b == a + (b - a);
    assert |b - a| == 0;
  }

  /** Replacing a farthest element of a full heap by a nearer candidate. */
  lemma KBestReplace(k: nat, h: multiset<Cand>, top: Cand, c: Cand)
    requires |h| == k && top in h && c.dist < top.dist
    requires forall e :: e in h ==> e.dist <= top.dist
    ensures KBest(k, h + multiset{c}, h - multiset{top} + multiset{c})
  {
    var all, best := h + multiset{c}, h - multiset{top} + multiset{c};
    assert all - best == multiset{top};
  }

  /** Nothing in b can improve a full heap whose elements are all nearer. */
  lemma KBestSkip(k: nat, h: multiset<Cand>, b: multiset<Cand>)
    requires |h| == k
    requires forall c, e :: c in h && e in b ==> c.dist <= e.dist
    ensures KBest(k, h + b, h)
  {
    assert h + b - h == b;
  }

  /** Searching b after a gives the best of both together. */
  lemma {:induction false} KBestCompose(k: nat, a: multiset<Cand>, h: multiset<Cand>,
                                        b: multiset<Cand>, h': multiset<Cand>)
    requires KBest(k, a, h) && KBest(k, h + b, h')
    ensures KBest(k, a + b, h')
  {
    forall c, e | c in h' && e in a + b - h' ensures c.dist <= e.dist {
      if e !in h + b - h' {
        assert e in a - h;
        if c !in h {
          ComposeDropped(k, a, h, h', c);
          var d :| d in h && d in h - h';
          assert d in h + b - h';
        }
      }
    }
  }

  /** If a full h gives up room for a new element c, some element of h is dropped. */
  lemma ComposeDropped(k: nat, a: multiset<Cand>, h: multiset<Cand>, h': multiset<Cand>, c: Cand)
    requires KBest(k, a, h) && a != h
    requires |h'| <= k && c in h' && c !in h
    ensures exists d :: d in h && d in h - h'
  {
    if |h| < k {
      SubsetSameSize(h, a);
    }
    if h <= h' {
      OneMore(h, h', c);
    } else {
      var d :| h[d] > h'[d];
      assert d in h && d in h - h';
    }
  }

  lemma OneMore(h: multiset<Cand>, h': multiset<Cand>, c: Cand)
    requires h <= h' && c in h' && c !in h
    ensures |h'| > |h|
  {
    assert h' == h + multiset{c} + (h' - h - multiset{c});
  }

  // ---- Search -----------------------------------------------------------------------------------

  /** calc_box_dist: no distance (INFINITY) for no node, else the least squared distance from
      q to a point of the node's range. */
  method CalcBoxDist(n: Node?, q: Vec) returns (d: Option<int>)
    ensures d == if n == null then None else Some(BoxDist(n.d.range, q))
    ensures n != null && NonEmpty(n.d.range) ==>
      && (exists w :: InRange(n.d.range, w) && d.value == Dist(q, w))
      && (forall w :: InRange(n.d.range, w) ==> d.value <= Dist(q, w))
  {
    hide Sq, InRange, Dist;
    if n == null { return None; }
    var r, minDist := n.d.range, 0;
    if q.x < r.lo.x { minDist := minDist + Sq(q.x - r.lo.x); }
    if q.x > r.hi.x { minDist := minDist + Sq(q.x - r.hi.x); }
    if q.y < r.lo.y { minDist := minDist + Sq(q.y - r.lo.y); }
    if q.y > r.hi.y { minDist := minDist + Sq(q.y - r.hi.y); }
    if q.z < r.lo.z { minDist := minDist + Sq(q.z - r.lo.z); }
    if q.z > r.hi.z { minDist := minDist + Sq(q.z - r.hi.z); }
    if NonEmpty(r) { BoxDistExact(r, q); }
    return Some(minDist);
  }

  /** d < q.top().dist */
  method BelowTop(d: Option<int>, heap: Heap) returns (b: bool)
    requires heap.Valid() && heap.Contents() != multiset{}
    ensures d.None? ==> !b
    ensures !b && d.Some? ==> forall e :: e in heap.Contents() ==> e.dist <= d.value
  {
    var top := heap.Top();
    b := d.Some? && d.value < top.dist;
  }

  /** No candidate below a node is nearer than the node's box. */
  lemma {:induction false} BoxPrunes(t: Tree, q: Vec, maxDist: Option<real>)
    requires WF(t) && t.Bin?
    ensures forall c :: c in Cands(Live(t), q, maxDist) ==> BoxDist(t.d.range, q) <= c.dist
    ensures t.d.treeDeleted || !Reach(BoxDist(t.d.range, q), maxDist) ==>
      Cands(Live(t), q, maxDist) == multiset{}
  {
    hide WF, Live, Touched, Cands, BoxDist, Reach, Dist, SonOk, LiveSon, Count;
    WFOpen(t);
    var m := Live(t);
    forall p | p in m ensures BoxDist(t.d.range, q) <= Dist(q, p.at) {
      BoxDistBelow(t.d.range, q, p.at);
    }
    forall c | c in Cands(m, q, maxDist) ensures BoxDist(t.d.range, q) <= c.dist {
      assert c.point in m;
    }
    if t.d.treeDeleted {
      CandsNone(m, q, maxDist);
    } else if !Reach(BoxDist(t.d.range, q), maxDist) {
      forall p | p in m ensures !Reach(Dist(q, p.at), maxDist) {
        ReachMono(BoxDist(t.d.range, q), Dist(q, p.at), maxDist);
      }
      CandsNone(m, q, maxDist);
    }
  }

  lemma ReachMono(d: int, e: int, maxDist: Option<real>)
    requires d <= e && !Reach(d, maxDist)
    ensures !Reach(e, maxDist)
  {
  }

  /** h' is the best of what h held and what the points m offer. */
  ghost predicate Searched(k: nat, h: multiset<Cand>, m: multiset<Point>, q: Vec,
                           maxDist: Option<real>, h': multiset<Cand>)
  {
    KBest(k, h + Cands(m, q, maxDist), h') && |h'| <= k
  }

  lemma SearchedNothing(k: nat, h: multiset<Cand>, m: multiset<Point>, q: Vec, maxDist: Option<real>)
    requires |h| <= k && Cands(m, q, maxDist) == multiset{}
    ensures Searched(k, h, m, q, maxDist, h)
  {
    hide Cands;
    assert h + multiset{} == h;
    KBestAll(k, h);
  }

  /** Searching m and then n searches both. */
  lemma SearchedBoth(k: nat, h: multiset<Cand>, m: multiset<Point>, h1: multiset<Cand>,
                     n: multiset<Point>, h2: multiset<Cand>, q: Vec, maxDist: Option<real>)
    requires Searched(k, h, m, q, maxDist, h1) && Searched(k, h1, n, q, maxDist, h2)
    ensures Searched(k, h, m + n, q, maxDist, h2)
  {
    hide Cands, KBest;
    CandsSum(m, n, q, maxDist);
    var cm, cn := Cands(m, q, maxDist), Cands(n, q, maxDist);
    KBestCompose(k, h + cm, h1, cn, h2);
    assert h + cm + cn == h + (cm + cn);
  }

  /** The heap object of a search: room for more than k elements, at most k of them used. */
  ghost predicate HeapOk(heap: Heap, k: nat)
    reads heap, heap.heap
  {
    heap.Valid() && heap.cap >= k >= 1 && |heap.Contents()| <= k
  }

  /** The node's own point. */
  method Consider(d: Rec, k: nat, q: Vec, heap: Heap, maxDist: Option<real>)
    requires HeapOk(heap, k)
    modifies heap`heapSize, heap.heap
    ensures HeapOk(heap, k) && heap.heap == old(heap.heap)
    ensures Searched(k, old(heap.Contents()), Own(d), q, maxDist, heap.Contents())
  {
    hide Cands, KBest, Reach, Dist, Heap.Contents, Heap.Valid;
    ghost var h := heap.Contents();
    var c := Cand(d.point, Dist(q, d.point.at));
    CandsOne(d.point, q, maxDist);
    if d.pointDeleted {
      CandsNone(multiset{}, q, maxDist);
      SearchedNothing(k, h, Own(d), q, maxDist);
      return;
    }
    if !Reach(c.dist, maxDist) {
      SearchedNothing(k, h, Own(d), q, maxDist);
      return;
    }
    Offer(c, k, heap);
  }

  /** Search's insertion of one candidate: a push never meets a full heap. */
  method Offer(c: Cand, k: nat, heap: Heap)
    requires HeapOk(heap, k)
    modifies heap`heapSize, heap.heap
    ensures HeapOk(heap, k) && heap.heap == old(heap.heap)
    ensures KBest(k, old(heap.Contents()) + multiset{c}, heap.Contents())
  {
    hide KBest, Heap.Contents, Heap.Valid;
    ghost var h := heap.Contents();
    var size := heap.Size();
    if size < k {
      KBestAll(k, h + multiset{c});
      HeapRoom(heap);
      heap.Push(c);
    } else {
      var top := heap.Top();
      if c.dist < top.dist {
        HeapRoom(heap);
        KBestReplace(k, h, top, c);
        heap.Pop();
        HeapRoom(heap);
        heap.Push(c);
      } else {
        KBestSkip(k, h, multiset{c});
      }
    }
  }

  lemma HeapRoom(heap: Heap)
    requires heap.Valid()
    ensures |heap.Contents()| == heap.heapSize
  {
  }

  /** Search: the heap ends up with the best of what it held and all live points in reach. */
  method Search(root: Node?, k: nat, q: Vec, heap: Heap, maxDist: Option<real>)
    requires Ok(root) && HeapOk(heap, k)
    modifies Node.Repr(root), heap`heapSize, heap.heap
    ensures Ok(root) && Node.Repr(root) <= old(Node.Repr(root))
    ensures Pushed(old(Node.TreeOf(root)), Node.TreeOf(root))
    ensures HeapOk(heap, k) && heap.heap == old(heap.heap)
    ensures Searched(k, old(heap.Contents()), Live(old(Node.TreeOf(root))), q, maxDist,
                     heap.Contents())
    decreases Node.Repr(root), 3
  {
    hide WF, Live, SameShape, Cands, KBest, Heap.Valid, Heap.Contents, Node.Linked;
    if root == null {
      PushedRefl(Nil);
      NilFacts();
      CandsNone(multiset{}, q, maxDist);
      SearchedNothing(k, heap.Contents(), multiset{}, q, maxDist);
    } else {
      SearchNode(root, k, q, heap, maxDist);
    }
  }

  method SearchNode(root: Node, k: nat, q: Vec, heap: Heap, maxDist: Option<real>)
    requires root.Valid() && WF(root.tree) && HeapOk(heap, k)
    modifies root.repr, heap`heapSize, heap.heap
    ensures root.Valid() && root.repr <= old(root.repr)
    ensures Pushed(old(root.tree), root.tree)
    ensures HeapOk(heap, k) && heap.heap == old(heap.heap)
    ensures Searched(k, old(heap.Contents()), Live(old(root.tree)), q, maxDist, heap.Contents())
    decreases root.repr, 2
  {
    hide WF, Live, SameShape, LazyTree.PushDown, Node.Linked, Clean, Cands, KBest, Own, Reach,
      BoxDist, Heap.Valid, Heap.Contents, Searched;
    ghost var t := root.tree;
    PushedRefl(t);
    BoxPrunes(t, q, maxDist);
    if root.d.treeDeleted || !Reach(BoxDist(root.d.range, q), maxDist) {
      SearchedNothing(k, heap.Contents(), Live(t), q, maxDist);
      return;
    }
    // Push_Down does nothing when neither flag is set.
    Prepare(root);
    ghost var u := root.tree;
    SearchParts(root, k, q, heap, maxDist);
    PushedTrans(t, u, root.tree);
  }

  /** The own point, then the sons, the nearer one first. */
  method SearchParts(root: Node, k: nat, q: Vec, heap: Heap, maxDist: Option<real>)
    requires root.Valid() && WF(root.tree) && Clean(root.tree) && HeapOk(heap, k)
    requires WF(root.tree.l) && WF(root.tree.r)
    requires Live(root.tree) == Own(root.d) + Live(root.tree.l) + Live(root.tree.r)
    modifies root.repr, heap`heapSize, heap.heap
    ensures root.Valid() && root.repr <= old(root.repr)
    ensures Pushed(old(root.tree), root.tree)
    ensures HeapOk(heap, k) && heap.heap == old(heap.heap)
    ensures Searched(k, old(heap.Contents()), Live(old(root.tree)), q, maxDist, heap.Contents())
    decreases root.repr, 1
  {
    hide WF, Live, SameShape, Node.Linked, Clean, Cands, KBest, Own, Heap.Valid, Heap.Contents,
      Searched, SonDist;
    ghost var u := root.tree;
    ghost var h0 := heap.Contents();
    Consider(root.d, k, q, heap, maxDist);
    ghost var h1 := heap.Contents();
    var distLeft, distRight := SonDistances(root, q);
    // The first test of the source only decides whether the nearer son is searched without
    // another look at the heap.
    var both := NoneSkipped(distLeft, distRight, k, heap);
    var leftFirst := !both || Nearer(distLeft, distRight);
    SearchSon(root, leftFirst, if leftFirst then distLeft else distRight, both, k, q, heap, maxDist);
    ghost var h2 := heap.Contents();
    ghost var v := root.tree;
    SearchSon(root, !leftFirst, if leftFirst then distRight else distLeft, false, k, q, heap, maxDist);
    PushedTrans(u, v, root.tree);
    ghost var a, b := if leftFirst then u.l else u.r, if leftFirst then u.r else u.l;
    SearchedBoth(k, h0, Own(u.d), h1, Live(a), h2, q, maxDist);
    SearchedBoth(k, h0, Own(u.d) + Live(a), h2, Live(b), heap.Contents(), q, maxDist);
    assert Own(u.d) + Live(a) + Live(b) == Live(u);
  }

  method SonDistances(root: Node, q: Vec) returns (distLeft: Option<int>, distRight: Option<int>)
    requires root.Valid()
    ensures distLeft == SonDist(root.tree.l, q) && distRight == SonDist(root.tree.r, q)
  {
    hide BoxDist;
    assert root.Linked();
    distLeft := CalcBoxDist(root.left, q);
    distRight := CalcBoxDist(root.right, q);
    assert root.left != null ==> root.left.Valid();
    assert root.right != null ==> root.right.Valid();
  }

  method NoneSkipped(distLeft: Option<int>, distRight: Option<int>, k: nat, heap: Heap)
    returns (both: bool)
    requires HeapOk(heap, k)
  {
    var size := heap.Size();
    if size < k { return true; }
    var leftBelow := BelowTop(distLeft, heap);
    var rightBelow := BelowTop(distRight, heap);
    return leftBelow && rightBelow;
  }

  /** dist_left_node <= dist_right_node */
  predicate Nearer(a: Option<int>, b: Option<int>) {
    b.None? || (a.Some? && a.value <= b.value)
  }

  /** calc_box_dist of a son, on the value of its tree. */
  ghost function SonDist(t: Tree, q: Vec): Option<int> {
    if t.Nil? then None else Some(BoxDist(t.d.range, q))
  }

  /** Search one son, unless the heap is full and the son's box is not nearer than its top. */
  method SearchSon(root: Node, toLeft: bool, dist: Option<int>, always: bool, k: nat, q: Vec,
                   heap: Heap, maxDist: Option<real>)
    requires root.Valid() && WF(root.tree) && Clean(root.tree) && HeapOk(heap, k)
    requires WF(root.tree.l) && WF(root.tree.r)
    requires dist == SonDist(if toLeft then root.tree.l else root.tree.r, q)
    modifies root.repr, heap`heapSize, heap.heap
    ensures root.Valid() && root.repr <= old(root.repr) && root.d == old(root.d)
    ensures Pushed(old(root.tree), root.tree) && Clean(root.tree)
    ensures HeapOk(heap, k) && heap.heap == old(heap.heap)
    ensures Searched(k, old(heap.Contents()),
                     Live(old(if toLeft then root.tree.l else root.tree.r)), q, maxDist,
                     heap.Contents())
    ensures if toLeft then root.tree.r == old(root.tree.r) && Pushed(old(root.tree.l), root.tree.l)
            else root.tree.l == old(root.tree.l) && Pushed(old(root.tree.r), root.tree.r)
    decreases root.repr, 0
  {
    hide WF, Live, SameShape, Cands, KBest, Searched, Heap.Valid, Heap.Contents, BoxDist, Clean,
      SonDist;
    ghost var t := root.tree;
    assert root.Linked();
    PushedRefl(t);
    PushedRefl(t.l);
    PushedRefl(t.r);
    var skip := SkipTest(dist, always, k, heap);
    if skip {
      SkipSon(k, heap.Contents(), if toLeft then t.l else t.r, dist, q, maxDist);
    } else {
      Search(root.Son(toLeft), k, q, heap, maxDist);
      root.SetSon(toLeft, root.Son(toLeft));
      SonsPushed(t.d, t.l, t.r, root.tree.l, root.tree.r);
    }
  }

  method SkipTest(dist: Option<int>, always: bool, k: nat, heap: Heap) returns (skip: bool)
    requires HeapOk(heap, k)
    ensures skip ==> |heap.Contents()| == k
    ensures skip && dist.Some? ==> forall e :: e in heap.Contents() ==> e.dist <= dist.value
  {
    var size := heap.Size();
    if always || size < k { return false; }
    var below := BelowTop(dist, heap);
    return !below;
  }

  lemma {:induction false} SkipSon(k: nat, h: multiset<Cand>, t: Tree, d: Option<int>, q: Vec,
                                   maxDist: Option<real>)
    requires WF(t) && |h| == k
    requires d == SonDist(t, q)
    requires d.Some? ==> forall e :: e in h ==> e.dist <= d.value
    ensures Searched(k, h, Live(t), q, maxDist, h)
  {
    hide WF, Live, Cands, BoxDist, KBest;
    if t.Nil? {
      NilFacts();
      CandsNone(multiset{}, q, maxDist);
      SearchedNothing(k, h, multiset{}, q, maxDist);
    } else {
      BoxPrunes(t, q, maxDist);
      KBestSkip(k, h, Cands(Live(t), q, maxDist));
    }
  }

  // ---- Reading the result off the heap -------------------------------------------------------

  /** The candidates made of two vectors of the same length. */
  function Zip(points: seq<Point>, dists: seq<int>): (s: seq<Cand>)
    requires |points| == |dists|
    ensures |s| == |points|
  {
    if points == [] then [] else [Cand(points[0], dists[0])] + Zip(points[1..], dists[1..])
  }

  /** A search that starts with an empty heap. */
  lemma FromNothing(k: nat, m: multiset<Point>, q: Vec, maxDist: Option<real>, h: multiset<Cand>)
    requires Searched(k, multiset{}, m, q, maxDist, h)
    ensures KBest(k, Cands(m, q, maxDist), h)
  {
    hide Cands, KBest;
    assert multiset{} + Cands(m, q, maxDist) == Cands(m, q, maxDist);
  }

  /** The result so far and what is still on the heap: together everything, nearest first. */
  ghost predicate Draining(points: seq<Point>, dists: seq<int>, h: multiset<Cand>,
                           all: multiset<Cand>)
  {
    && |points| == |dists|
    && multiset(Zip(points, dists)) + h == all
    && (forall i, j :: 0 <= i < j < |dists| ==> dists[i] <= dists[j])
    && (forall c :: c in h && |dists| > 0 ==> c.dist <= dists[0])
  }

  lemma DrainStep(points: seq<Point>, dists: seq<int>, h: multiset<Cand>, all: multiset<Cand>, top: Cand)
    requires Draining(points, dists, h, all)
    requires top in h && forall c :: c in h ==> c.dist <= top.dist
    ensures Draining([top.point] + points, [top.dist] + dists, h - multiset{top}, all)
  {
    ZipCons(top, points, dists);
    assert h == multiset{top} + (h - multiset{top});
    var z := Zip(points, dists);
    assert multiset([top] + z) == multiset{top} + multiset(z);
  }

  /** The loop of Nearest_Search: the top goes to the front until the heap is empty. */
  method Drain(heap: Heap, k: nat) returns (points: seq<Point>, dists: seq<int>)
    requires HeapOk(heap, k)
    modifies heap`heapSize, heap.heap
    ensures |points| == |dists|
    ensures multiset(Zip(points, dists)) == old(heap.Contents())
    ensures forall i, j :: 0 <= i < j < |dists| ==> dists[i] <= dists[j]
  {
    hide Heap.Contents, Heap.Valid, Draining;
    points, dists := [], [];
    ghost var all := heap.Contents();
    DrainStart(all);
    var size := heap.Size();
    var kFound := if k < size then k else size;
    for i := 0 to kFound
      invariant heap.Valid() && heap.heap == old(heap.heap)
      invariant |heap.Contents()| == kFound - i
      invariant Draining(points, dists, heap.Contents(), all)
    {
      var top := heap.Top();
      HeapRoom(heap);
      DrainStep(points, dists, heap.Contents(), all, top);
      heap.Pop();
      points := [top.point] + points;
      dists := [top.dist] + dists;
    }
    DrainEnd(points, dists, heap.Contents(), all);
  }

  lemma DrainStart(all: multiset<Cand>)
    ensures Draining([], [], all, all)
  {
    assert multiset(Zip([], [])) == multiset{};
  }

  lemma DrainEnd(points: seq<Point>, dists: seq<int>, h: multiset<Cand>, all: multiset<Cand>)
    requires Draining(points, dists, h, all) && |h| == 0
    ensures |points| == |dists| && multiset(Zip(points, dists)) == all
    ensures forall i, j :: 0 <= i < j < |dists| ==> dists[i] <= dists[j]
  {
    assert h == multiset{};
  }

  lemma ZipCons(c: Cand, points: seq<Point>, dists: seq<int>)
    requires |points| == |dists|
    ensures Zip([c.point] + points, [c.dist] + dists) == [c] + Zip(points, dists)
  {
    assert ([c.point] + points)[1..] == points && ([c.dist] + dists)[1..] == dists;
  }

  // ---- What the result is, in plain arithmetic -------------------------------------------------

  lemma {:induction false} ZipCount(points: seq<Point>, dists: seq<int>, q: Vec, p: Point)
    requires |points| == |dists| && forall i :: 0 <= i < |points| ==> dists[i] == Dist(q, points[i].at)
    ensures multiset(Zip(points, dists))[Cand(p, Dist(q, p.at))] == multiset(points)[p]
  {
    hide Dist;
    if points != [] {
      ZipCount(points[1..], dists[1..], q, p);
      assert points == [points[0]] + points[1..];
    }
  }

  lemma {:induction false} ZipAt(points: seq<Point>, dists: seq<int>, i: nat)
    requires |points| == |dists| && i < |points|
    ensures Zip(points, dists)[i] == Cand(points[i], dists[i])
  {
    if i > 0 { ZipAt(points[1..], dists[1..], i - 1); }
  }

  lemma {:induction false} OwnDistances(k: nat, m: multiset<Point>, q: Vec, maxDist: Option<real>,
                                        points: seq<Point>, dists: seq<int>)
    requires |points| == |dists| && KBest(k, Cands(m, q, maxDist), multiset(Zip(points, dists)))
    ensures forall i :: 0 <= i < |points| ==> dists[i] == Dist(q, points[i].at) && Reach(dists[i], maxDist)
  {
    hide Cands, Dist, Reach;
    var z := Zip(points, dists);
    forall i | 0 <= i < |points| ensures dists[i] == Dist(q, points[i].at) && Reach(dists[i], maxDist) {
      ZipAt(points, dists, i);
      assert z[i] in multiset(z);
      assert z[i] in Cands(m, q, maxDist);
    }
  }

  /** A point that is left out, though within the radius, finds k points that are at most as
      far. */
  lemma {:induction false} LeftOut(k: nat, m: multiset<Point>, q: Vec, maxDist: Option<real>,
                                   points: seq<Point>, dists: seq<int>, p: Point)
    requires |points| == |dists| && KBest(k, Cands(m, q, maxDist), multiset(Zip(points, dists)))
    requires m[p] > multiset(points)[p] && Reach(Dist(q, p.at), maxDist)
    ensures |points| == k && forall i :: 0 <= i < |points| ==> Dist(q, points[i].at) <= Dist(q, p.at)
  {
    hide Cands, Dist, Reach;
    OwnDistances(k, m, q, maxDist, points, dists);
    ZipCount(points, dists, q, p);
    var all, z, c := Cands(m, q, maxDist), Zip(points, dists), Cand(p, Dist(q, p.at));
    assert Offered(c, q, maxDist);
    assert c in all - multiset(z);
    if |all| <= k { SubsetSameSize(multiset(z), all); }
    forall i | 0 <= i < |points| ensures Dist(q, points[i].at) <= Dist(q, p.at) {
      ZipAt(points, dists, i);
      assert z[i] in multiset(z);
    }
  }

  lemma {:induction false} OnlyGiven(k: nat, m: multiset<Point>, q: Vec, maxDist: Option<real>,
                                     points: seq<Point>, dists: seq<int>)
    requires |points| == |dists| && KBest(k, Cands(m, q, maxDist), multiset(Zip(points, dists)))
    ensures multiset(points) <= m && |points| <= k
  {
    hide Cands, Dist, Reach;
    OwnDistances(k, m, q, maxDist, points, dists);
    forall p ensures multiset(points)[p] <= m[p] {
      ZipCount(points, dists, q, p);
    }
    assert |multiset(Zip(points, dists))| == |points|;
  }

  lemma {:induction false} SquaredDistances(q: Vec, points: seq<Point>, dists: seq<int>)
    requires |points| == |dists| && forall i :: 0 <= i < |points| ==> dists[i] == Dist(q, points[i].at)
    ensures forall i :: 0 <= i < |points| ==> var v := points[i].at;
      dists[i] == (q.x - v.x) * (q.x - v.x) + (q.y - v.y) * (q.y - v.y) + (q.z - v.z) * (q.z - v.z)
  {
    hide Dist;
    forall i | 0 <= i < |points| ensures var v := points[i].at;
      dists[i] == (q.x - v.x) * (q.x - v.x) + (q.y - v.y) * (q.y - v.y) + (q.z - v.z) * (q.z - v.z)
    {
      DistIs(q, points[i].at);
    }
  }

  lemma {:induction false} OnTheirSides(q: Vec, points: seq<Point>, p: Point)
    requires forall i :: 0 <= i < |points| ==> Dist(q, points[i].at) <= Dist(q, p.at)
    ensures forall i :: 0 <= i < |points| ==> OnSideOf(q, points[i].at, p.at)
  {
    hide Dist, OnSideOf;
    forall i | 0 <= i < |points| ensures OnSideOf(q, points[i].at, p.at) {
      NearerIff(q, points[i].at, p.at);
    }
  }

  lemma ReachIs(d: int, maxDist: Option<real>)
    ensures Reach(d, maxDist) <==> maxDist.None? || d as real <= maxDist.value * maxDist.value
  {
  }

  /** A point within the radius is left out: k points take the place, and q lies on the side of
      each of them. */
  ghost predicate Outdone(q: Vec, maxDist: Option<real>, k: nat, points: seq<Point>, p: Point) {
    maxDist.None? || Dist(q, p.at) as real <= maxDist.value * maxDist.value ==>
      |points| == k && forall i :: 0 <= i < |points| ==> OnSideOf(q, points[i].at, p.at)
  }

  lemma {:induction false} LeftOutOutdone(k: nat, m: multiset<Point>, q: Vec, maxDist: Option<real>,
                                          points: seq<Point>, dists: seq<int>, p: Point)
    requires |points| == |dists| && KBest(k, Cands(m, q, maxDist), multiset(Zip(points, dists)))
    requires m[p] > multiset(points)[p]
    ensures Outdone(q, maxDist, k, points, p)
  {
    hide Dist, Cands, KBest, Reach, OnSideOf, Zip;
    ReachIs(Dist(q, p.at), maxDist);
    if Reach(Dist(q, p.at), maxDist) {
      LeftOut(k, m, q, maxDist, points, dists, p);
      OnTheirSides(q, points, p);
    }
  }

  /** The k best candidates in terms of coordinates: given points with their squared distances,
      all within the radius; and what is left out is outdone. */
  lemma {:induction false} InCoordinates(k: nat, m: multiset<Point>, q: Vec, maxDist: Option<real>,
                                         points: seq<Point>, dists: seq<int>)
    requires |points| == |dists| && KBest(k, Cands(m, q, maxDist), multiset(Zip(points, dists)))
    ensures multiset(points) <= m && |points| <= k
    ensures forall i :: 0 <= i < |points| ==> var v := points[i].at;
      dists[i] == (q.x - v.x) * (q.x - v.x) + (q.y - v.y) * (q.y - v.y) + (q.z - v.z) * (q.z - v.z)
    ensures maxDist.Some? ==> forall i :: 0 <= i < |dists| ==> dists[i] as real <= maxDist.value * maxDist.value
    ensures forall p :: m[p] > multiset(points)[p] ==> Outdone(q, maxDist, k, points, p)
  {
    hide Dist, Cands, KBest, Reach, OnSideOf, Zip;
    OwnDistances(k, m, q, maxDist, points, dists);
    OnlyGiven(k, m, q, maxDist, points, dists);
    SquaredDistances(q, points, dists);
    if maxDist.Some? {
      forall i | 0 <= i < |dists| ensures dists[i] as real <= maxDist.value * maxDist.value {
        ReachIs(dists[i], maxDist);
      }
    }
    forall p | m[p] > multiset(points)[p] ensures Outdone(q, maxDist, k, points, p) {
      hide Outdone;
      LeftOutOutdone(k, m, q, maxDist, points, dists, p);
    }
  }

  /** Nearest_Search on a tree: the k nearest live points within the radius, nearest first. */
  method Query(root: Node?, q: Vec, k: nat, maxDist: Option<real>)
    returns (points: seq<Point>, dists: seq<int>)
    requires Ok(root) && k >= 1
    modifies Node.Repr(root)
    ensures Ok(root) && Node.Repr(root) <= old(Node.Repr(root))
    ensures Pushed(old(Node.TreeOf(root)), Node.TreeOf(root))
    ensures |points| == |dists|
    ensures KBest(k, Cands(Live(old(Node.TreeOf(root))), q, maxDist), multiset(Zip(points, dists)))
    ensures forall i, j :: 0 <= i < j < |dists| ==> dists[i] <= dists[j]
  {
    hide WF, Live, Node.Valid, Cands, KBest, Heap.Contents, Heap.Valid, SameShape;
    ghost var m := Live(Node.TreeOf(root));
    var heap := new Heap(2 * k);
    Search(root, k, q, heap, maxDist);
    FromNothing(k, m, q, maxDist, heap.Contents());
    points, dists := Drain(heap, k);
  }
}
