/** KD_TREE: the operations that the mapping loop calls and the steps of the background
    thread, for a background rebuild of the whole tree.

    The rounds of the mapping loop come in two forms: as methods that run without a break
    (AddOne, AddOneDownsampled, DeleteOneBox and the vector operations over them), and as the
    single actions that they consist of, between which the background thread may step in. */
module KdTree {
  import opened Prelude
  import opened Geometry
  import opened LazyTree
  import opened Balance
  import opened KdOrder
  import opened KdNode
  import opened TreeOps
  import opened TreeBuild
  import opened TreeUpdate
  import opened RebuildRequest
  import opened RebuildProtocol
  import NS = NearestSearch
  import Q = ManualQ
  import D = Downsample

  class Tree {
    /** Root_Node */
    var root: Node?
    /** *Rebuild_Ptr, or null while Rebuild_Ptr is null */
    var rebuildPtr: Node?
    /** rebuild_flag */
    var rebuildFlag: bool
    /** Rebuild_Logger */
    const logger: Q.Queue<Op>
    const params: Params
    const downsampleSize: real

    // The background thread: where it stands, Rebuild_PCL_Storage, new_root_node, Operation.
    ghost var phase: Phase
    var snapshot: seq<Point>
    var newRoot: Node?
    var inflight: Option<Op>

    // The main thread: what is left of its current round, and whether that goes for the lock.
    ghost var todo: seq<Op>
    ghost var waiting: bool

    ghost function LivePoints(): multiset<Point>
      reads this`root, root
    {
      Live(Node.TreeOf(root))
    }

    // What the background thread and the log hold; the tree in use does not matter to it.

    ghost function Base(): multiset<Point>
      reads this`phase, this`snapshot, this`newRoot, newRoot
    {
      if phase.Idle? then multiset{}
      else if phase.Copied? then multiset(snapshot)
      else Live(Node.TreeOf(newRoot))
    }

    ghost function Logged(): seq<Op>
      reads logger, logger.q
    {
      if logger.Valid() then logger.Contents() else []
    }

    ghost predicate BackgroundSane()
      reads this`phase, this`newRoot, newRoot, Node.Repr(newRoot), logger, logger.q
    {
      && Ok(newRoot) && KdOrdered(Node.TreeOf(newRoot)) && logger.Valid()
      && (phase.Replaying? ==> newRoot != null)
      && downsampleSize > 0.0
    }

    /** *Rebuild_Ptr == Root_Node */
    ghost predicate Requested()
      reads this`root, this`rebuildPtr
    {
      rebuildPtr != null && rebuildPtr == root
    }

    /** What this object is in the protocol of RebuildProtocol. */
    ghost function Abs(): State
      reads this, root, newRoot, logger, logger.q
    {
      State(LivePoints(), phase, Base(), inflight, Logged(), Requested(), rebuildFlag, todo, waiting)
    }

    /** Everything but the agreement of the two trees. */
    ghost predicate Sane()
      reads this`root, this`rebuildPtr, this`phase, this`newRoot
      reads root, Node.Repr(root), newRoot, Node.Repr(newRoot), logger, logger.q
    {
      && Ok(root) && KdOrdered(Node.TreeOf(root)) && BackgroundSane()
      && Node.Repr(root) !! Node.Repr(newRoot)
      && (newRoot != null ==> newRoot in newRoot.repr)
      && rebuildPtr !in Node.Repr(newRoot)
      && (Requested() ==> Count(root.tree) >= MULTI_THREAD_REBUILD_POINT_NUM)
    }

    ghost predicate Valid()
      reads this, root, Node.Repr(root), newRoot, Node.Repr(newRoot), logger, logger.q
    {
      Sane() && Coupled(Abs())
    }

    /** The main thread is between two rounds. */
    ghost predicate Ready()
      reads this, root, Node.Repr(root), newRoot, Node.Repr(newRoot), logger, logger.q
    {
      Valid() && todo == []
    }

    /** The log has room for n more entries, should it be in use. */
    ghost predicate Room(n: int)
      reads this, logger
    {
      phase.Idle? || logger.counter + n <= logger.cap
    }

    constructor (p: Params, boxLength: real, qlen: nat)
      requires boxLength > 0.0 && qlen > 0
      ensures Ready() && root == null && rebuildPtr == null && phase.Idle?
      ensures fresh(logger) && fresh(logger.q) && logger.cap == qlen
      ensures params == p && downsampleSize == boxLength
    {
      params, downsampleSize := p, boxLength;
      root, rebuildPtr, newRoot, rebuildFlag := null, null, null, false;
      phase, snapshot, inflight := Idle, [], None;
      todo, waiting := [], false;
      logger := new Q.Queue(qlen, AddPoint(Point(Vec(0, 0, 0), 0)));
      new;
      NilFacts();
    }

    /** validnum(): `free` tells whether working_flag_mutex can be taken at once; that matters
        only while the root is the subtree to be rebuilt. */
    method ValidNum(free: bool) returns (n: int)
      requires Sane()
      ensures n == if rebuildPtr != null && rebuildPtr == root && !free then -1 else |LivePoints()|
    {
      hide WF, Live, Tight;
      NilFacts();
      if root == null { return 0; }
      WFOpen(root.tree);
      if rebuildPtr == null || rebuildPtr != root {
        return root.d.size - root.d.invalid;
      }
      if free {
        n := root.d.size - root.d.invalid;
      } else {
        n := -1;
      }
    }

    // ---- Searches ------------------------------------------------------------------------------

    /** Box_Search: exactly the live points of the box. */
    method BoxSearch(box: Box) returns (found: seq<Point>)
      requires Sane()
      modifies Node.Repr(root)
      ensures root == old(root)
      ensures Sane() && Node.Repr(root) <= old(Node.Repr(root))
      ensures Pushed(old(Node.TreeOf(root)), Node.TreeOf(root))
      ensures Abs() == old(Abs())
      ensures multiset(found) == Inside(LivePoints(), box)
      ensures Count(Node.TreeOf(root)) == old(Count(Node.TreeOf(root)))
      ensures FitnessOf(Node.TreeOf(root), params) == old(FitnessOf(Node.TreeOf(root), params))
    {
      hide WF, Live, Node.Valid, Inside, Q.Queue.Valid, SameShape, KdOrdered, Balanced, Tidy, Count;
      ghost var t := Node.TreeOf(root);
      found := SearchByRange(root, box, []);
      SameShapeKept(t, Node.TreeOf(root));
      SameFitness(t, Node.TreeOf(root), params);
    }

    // ---- Updates of the tree itself --------------------------------------------------------

    /** Without permission to rebuild, nothing below the root is waiting to be rebuilt. */
    method AddToTree(point: Point, allow: bool, free: Node -> bool)
      requires Sane() && root != null && (allow || rebuildPtr == null || rebuildPtr == root)
      modifies this`root, this`rebuildPtr, Node.Repr(root)
      ensures Sane() && root != null && fresh(root.repr - old(root.repr))
      ensures !allow ==> root == old(root) && rebuildPtr == old(rebuildPtr)
      ensures !old(Requested()) && Requested() ==> free(old(root))
      ensures Abs() == old(Abs()).(live := old(LivePoints()) + multiset{point}, requested := Requested())
      ensures Count(root.tree) <= old(Count(root.tree)) + 1
      ensures FitKept(old(FitnessOf(root.tree, params)).(tidy := true), allow, params,
                      old(Count(root.tree)) + 1, old(rebuildPtr), root.tree, rebuildPtr)
    {
      hide WF, Live, Node.Valid, Balanced, FewTombstones, Inline, Count, BalanceKept, KdKept, KdOrdered, BackgroundSane,
        Base, Logged;
      ghost var t := root.tree;
      var r, rp := AddByPoint(root, point, allow, root.d.axis, params, free, rebuildPtr);
      KeptOrdered(t, r.tree, {point});
      root, rebuildPtr := r, rp;
    }

    method DeleteFromTree(box: Box, allow: bool, down: bool, free: Node -> bool) returns (count: int)
      requires Sane() && (allow || rebuildPtr == null || rebuildPtr == root)
      modifies this`root, this`rebuildPtr, Node.Repr(root)
      ensures Sane() && fresh(Node.Repr(root) - old(Node.Repr(root)))
      ensures root == null <==> old(root) == null
      ensures !allow ==> root == old(root) && rebuildPtr == old(rebuildPtr)
      ensures old(root) != null && allow && old(rebuildPtr) == null ==>
        (Requested() <==> AsksRoot(old(root.tree), box, params) && free(old(root)))
      ensures !old(Requested()) && Requested() ==> Asks(root.tree, params) && free(old(root))
      ensures Abs() == old(Abs()).(live := Outside(old(LivePoints()), box), requested := Requested())
      ensures count == |Inside(old(LivePoints()), box)|
      ensures Count(Node.TreeOf(root)) <= old(Count(Node.TreeOf(root)))
      ensures FitKept(old(FitnessOf(Node.TreeOf(root), params)), allow, params,
                      old(Count(Node.TreeOf(root))), old(rebuildPtr),
                      Node.TreeOf(root), rebuildPtr)
    {
      hide WF, Live, Node.Valid, Inside, Outside, Balanced, Tidy, Count, BalanceKept, TidyKept, Inline, Enters,
        FewTombstones, NewRequest, KdKept, KdOrdered, BackgroundSane, Base, Logged, AsksRoot, Asks, CountAfter;
      ghost var t := Node.TreeOf(root);
      var r, c, rp := DeleteByRange(root, box, allow, down, params, free, rebuildPtr);
      KeptOrdered(t, Node.TreeOf(r), {});
      root, rebuildPtr, count := r, rp, c;
    }

    // ---- Rounds of the main thread -----------------------------------------------------------

    /** The test at the head of a round: the root is not the subtree to be rebuilt. */
    method Open(ghost ops: seq<Op>) returns (inline: bool)
      requires Sane() && todo == []
      modifies this`todo, this`waiting
      ensures Sane() && Abs() == Step(old(Abs()), Begin(ops), logger.cap)
      ensures inline == !waiting
    {
      hide LivePoints, Base, Logged, WF, Live, BackgroundSane, Node.Valid, KdOrdered, Count;
      inline := rebuildPtr == null || rebuildPtr != root;
      todo, waiting := ops, !inline;
    }

    /** Which trylocks on rebuild_ptr_mutex_lock succeed is up to the background thread; while
        rebuild_flag is set it holds the lock, and none does. */
    static function NoLock(n: Node): bool { false }

    /** An insertion without the lock, in whatever phase the background thread is. */
    method AddUnlocked(point: Point, free: Node -> bool)
      requires Sane() && root != null && !waiting && todo != [] && todo[0] == AddPoint(point)
      requires rebuildFlag ==> free == NoLock
      modifies this`root, this`rebuildPtr, this`todo, Node.Repr(root)
      ensures Sane() && root != null && fresh(root.repr - old(root.repr))
      ensures Enabled(old(Abs()), Do(AddPoint(point), Requested()), logger.cap)
      ensures Abs() == Step(old(Abs()), Do(AddPoint(point), Requested()), logger.cap)
      ensures Count(root.tree) <= old(Count(root.tree)) + 1
      ensures FitKept(old(FitnessOf(root.tree, params)).(tidy := true), true, params,
                      old(Count(root.tree)) + 1, old(rebuildPtr), root.tree, rebuildPtr)
    {
      hide WF, Live, BackgroundSane, Node.Valid, KdOrdered, Balanced, Tidy, Count, FitKept, Base, Logged;
      AddToTree(point, true, free);
      todo := todo[1..];
    }

    /** A deletion without the lock.  If an insertion is still to come in the round, the trees
        are coupled after it, whatever the background thread does in between, exactly if no
        rebuild of the root has been asked for; and without a request pending before, that
        depends on the tree and the box alone. */
    method DeleteUnlocked(box: Box, down: bool, free: Node -> bool) returns (count: int)
      requires Sane() && !waiting && todo != [] && todo[0] == Deletion(box, down)
      requires rebuildFlag ==> free == NoLock
      modifies this`root, this`rebuildPtr, this`todo, Node.Repr(root)
      ensures Sane() && fresh(Node.Repr(root) - old(Node.Repr(root)))
      ensures root == null <==> old(root) == null
      ensures Enabled(old(Abs()), Do(Deletion(box, down), Requested()), logger.cap)
      ensures Abs() == Step(old(Abs()), Do(Deletion(box, down), Requested()), logger.cap)
      ensures old(Valid() && phase.Idle? && |todo| > 1 && todo[1].AddPoint?) ==>
        Valid() && (Safe(Abs(), logger.cap) <==> !Requested())
      ensures old(root) != null && old(rebuildPtr) == null ==>
        (Requested() <==> AsksRoot(old(root.tree), box, params) && free(old(root)))
      ensures !old(Requested()) && Requested() ==> Asks(root.tree, params) && free(old(root))
      ensures count == |Inside(old(LivePoints()), box)|
      ensures Count(Node.TreeOf(root)) <= old(Count(Node.TreeOf(root)))
      ensures FitKept(old(FitnessOf(Node.TreeOf(root), params)), true, params,
                      old(Count(Node.TreeOf(root))), old(rebuildPtr),
                      Node.TreeOf(root), rebuildPtr)
    {
      hide WF, Live, BackgroundSane, Node.Valid, KdOrdered, Balanced, Tidy, Count, FitKept, Base, Logged, AsksRoot,
        Asks, Inside, Outside, Coupled, Safe;
      ghost var s := Abs();
      count := DeleteFromTree(box, true, down, free);
      todo := todo[1..];
      if Coupled(s) && s.phase.Idle? && |s.todo| > 1 && s.todo[1].AddPoint? {
        StepCoupled(s, Do(Deletion(box, down), Requested()), logger.cap);
        GapIff(Abs(), logger.cap);
      }
    }

    /** The entry that stands for a Delete_by_range. */
    static function Deletion(box: Box, down: bool): Op {
      if down then DownsampleDelete(box) else DeleteBox(box)
    }

    method Log(op: Op)
      requires Sane() && logger.counter < logger.cap
      modifies logger, logger.q
      ensures Sane() && Abs() == old(Abs()).(log := old(Abs()).log + [op])
      ensures logger.counter == old(logger.counter) + 1
    {
      hide WF, Live, KdOrdered;
      logger.Push(op);
    }

    /** An insertion under working_flag_mutex. */
    method AddLocked(point: Point)
      requires Sane() && root != null && waiting && todo == [AddPoint(point)]
      requires rebuildPtr == null || rebuildPtr == root
      requires rebuildFlag ==> logger.counter + 1 <= logger.cap
      modifies this`root, this`rebuildPtr, this`todo, Node.Repr(root), logger, logger.q
      ensures Sane() && root == old(root) && rebuildPtr == old(rebuildPtr) && fresh(root.repr - old(root.repr))
      ensures Enabled(old(Abs()), Section([AddPoint(point)]), logger.cap)
      ensures Abs() == Step(old(Abs()), Section([AddPoint(point)]), logger.cap)
      ensures logger.counter <= old(logger.counter) + 1
      ensures Count(root.tree) <= old(Count(root.tree)) + 1
      ensures FitKept(old(FitnessOf(root.tree, params)).(tidy := true), false, params,
                      old(Count(root.tree)) + 1, old(rebuildPtr), root.tree, rebuildPtr)
    {
      hide WF, Live, BackgroundSane, Node.Valid, KdOrdered, Balanced, Tidy, Count, FitKept, Base, Logged, Replay;
      ReplayOne(AddPoint(point), LivePoints());
      LogLength();
      AddToTree(point, false, NoLock);
      if rebuildFlag { Log(AddPoint(point)); }
      todo := [];
    }

    /** A deletion under working_flag_mutex. */
    method DeleteLocked(box: Box) returns (count: int)
      requires Sane() && waiting && todo == [DeleteBox(box)]
      requires rebuildPtr == null || rebuildPtr == root
      requires rebuildFlag ==> logger.counter + 1 <= logger.cap
      modifies this`root, this`rebuildPtr, this`todo, Node.Repr(root), logger, logger.q
      ensures Sane() && root == old(root) && rebuildPtr == old(rebuildPtr)
      ensures fresh(Node.Repr(root) - old(Node.Repr(root)))
      ensures Enabled(old(Abs()), Section([DeleteBox(box)]), logger.cap)
      ensures Abs() == Step(old(Abs()), Section([DeleteBox(box)]), logger.cap)
      ensures logger.counter <= old(logger.counter) + 1
      ensures count == |Inside(old(LivePoints()), box)|
      ensures Count(Node.TreeOf(root)) <= old(Count(Node.TreeOf(root)))
      ensures FitKept(old(FitnessOf(Node.TreeOf(root), params)), false, params,
                      old(Count(Node.TreeOf(root))), old(rebuildPtr), Node.TreeOf(root), rebuildPtr)
    {
      hide WF, Live, BackgroundSane, Node.Valid, KdOrdered, Balanced, Tidy, Count, FitKept, Base, Logged, Replay,
        Inside, Outside, AsksRoot, Asks;
      ReplayOne(DeleteBox(box), LivePoints());
      LogLength();
      count := DeleteFromTree(box, false, false, NoLock);
      if rebuildFlag { Log(DeleteBox(box)); }
      todo := [];
    }

    // ---- Add_Points ----------------------------------------------------------------------------

    /** One round of Add_Points without downsampling, without a break. */
    method AddOne(point: Point)
      requires Ready() && root != null
      requires Room(1)
      modifies this`root, this`rebuildPtr, this`todo, this`waiting, Node.Repr(root), logger, logger.q
      ensures Ready() && root != null && fresh(root.repr - old(root.repr))
      ensures Performs(old(Abs()), [AddPoint(point)], Abs(), logger.cap)
      ensures phase == old(phase) && logger.counter <= old(logger.counter) + 1
      ensures LivePoints() == old(LivePoints()) + multiset{point}
      ensures Count(root.tree) <= old(Count(root.tree)) + 1
      ensures FitKept(old(FitnessOf(root.tree, params)).(tidy := true), true, params,
                      old(Count(root.tree)) + 1, old(rebuildPtr), root.tree, rebuildPtr)
    {
      hide Coupled, WF, Live, Balanced, Tidy, Count, LivePoints, Base, Logged, Replay, Performs, Sane;
      ghost var s, op := Abs(), AddPoint(point);
      ReplayOne(op, s.live);
      LogLength();
      var inline := Open([op]);
      if inline {
        var free: Node -> bool := *;
        if rebuildFlag { free := NoLock; }
        AddUnlocked(point, free);
        UnlockedRound(s, op, Requested(), logger.cap);
      } else {
        SectionRound(s, [op], logger.cap);
        AddLocked(point);
      }
    }

    /** Add_Points without downsampling: all the points are inserted; the result only counts
        downsampled insertions. */
    method AddPoints(points: seq<Point>) returns (count: int)
      requires Ready() && root != null
      requires Room(|points|)
      modifies this`root, this`rebuildPtr, this`todo, this`waiting, Node.Repr(root), logger, logger.q
      ensures Ready() && root != null && fresh(root.repr - old(root.repr))
      ensures LivePoints() == old(LivePoints()) + multiset(points)
      ensures count == 0
      ensures var was := old(FitnessOf(root.tree, params));
        Grown(was.(tidy := was.tidy || points != []), old(Count(root.tree)) + |points|, old(rebuildPtr))
    {
      hide WF, Live, Valid, Q.Queue.Contents, LivePoints, Balanced, Tidy, Abs, Inside, Outside, D.Downsampled, Count,
        FitKept, Grown, Performs, Replay, Node.Valid;
      count := 0;
      ghost var b, n, k, rp := FitnessOf(root.tree, params), Count(root.tree), |points|, rebuildPtr;
      StillFit(true, params, n + k, root.tree, rp);
      for i := 0 to |points|
        invariant Ready() && root != null && fresh(root.repr - old(root.repr))
        invariant Room(|points| - i)
        invariant LivePoints() == old(LivePoints()) + multiset(points[..i])
        invariant Count(root.tree) <= n + i
        invariant FitKept(if i == 0 then b else b.(tidy := true), true, params, n + k, rp, root.tree, rebuildPtr)
      {
        assert points[..i + 1] == points[..i] + [points[i]];
        ghost var t1, rp1 := root.tree, rebuildPtr;
        if i > 0 { FitEither(b, true, params, n + k, rp, t1, rp1); }
        AddOne(points[i]);
        FitTwiceTidy(b, true, params, n + k, rp, t1, rp1, Count(t1) + 1, root.tree, rebuildPtr);
      }
      assert points[..|points|] == points;
      GrownTo(if points == [] then b else b.(tidy := true), n + k, rp);
    }

    /** What an operation leaves that started from a tree (balanced or not, tidy or not, with
        request rp) and may have reached n nodes: below the multi-thread threshold and without a
        request no request is made, a balanced tree stays balanced and of logarithmic depth, and
        a tidy one keeps at most the allowed share of tombstones. */
    ghost predicate Grown(before: Fitness, n: nat, rp: Node?)
      reads this, root
    {
      rp == null && n < MULTI_THREAD_REBUILD_POINT_NUM ==>
        && (before.balanced && 11.0 * params.bal >= 6.0 ==>
              && rebuildPtr == null && Balanced(Node.TreeOf(root), params) && Shallow(Node.TreeOf(root), params)
              && (params.bal == 0.6 ==> Depth(Node.TreeOf(root)) <= 24))
        && (params.del >= 0.0 ==> rebuildPtr == null && (before.tidy ==> Tidy(Node.TreeOf(root), params)))
    }

    lemma GrownFromNothing()
      ensures Grown(FitnessOf(Node.TreeOf(root), params), Count(Node.TreeOf(root)), rebuildPtr)
    {
      hide Balanced, Tidy, Shallow, Depth, Count;
      StillFit(true, params, Count(Node.TreeOf(root)), Node.TreeOf(root), rebuildPtr);
      GrownTo(FitnessOf(Node.TreeOf(root), params), Count(Node.TreeOf(root)), rebuildPtr);
    }

    lemma GrownTo(before: Fitness, n: nat, rp: Node?)
      requires FitKept(before, true, params, n, rp, Node.TreeOf(root), rebuildPtr)
      requires Count(Node.TreeOf(root)) <= n
      ensures Grown(before, n, rp)
    {
      hide Balanced, Tidy, Shallow, Depth, Count;
      if before.balanced && rp == null && n < MULTI_THREAD_REBUILD_POINT_NUM && 11.0 * params.bal >= 6.0 {
        BalanceKeptShallow(before.balanced, params, n, rp, Node.TreeOf(root), rebuildPtr);
      }
    }

    // ---- Add_Points with downsampling ----------------------------------------------------------

    /** What a downsampled insertion into a box with points carries out. */
    static function Replacement(box: Box, best: Point): seq<Op> {
      [DownsampleDelete(box), AddPoint(best)]
    }

    /** A replacement under working_flag_mutex: deletion, insertion, and both entries. */
    method ReplaceLocked(box: Box, best: Point)
      requires Sane() && root != null && waiting && todo == Replacement(box, best)
      requires rebuildPtr == null || rebuildPtr == root
      requires rebuildFlag ==> logger.counter + 2 <= logger.cap
      modifies this`root, this`rebuildPtr, this`todo, Node.Repr(root), logger, logger.q
      ensures Sane() && root == old(root) && rebuildPtr == old(rebuildPtr) && fresh(root.repr - old(root.repr))
      ensures Enabled(old(Abs()), Section(Replacement(box, best)), logger.cap)
      ensures Abs() == Step(old(Abs()), Section(Replacement(box, best)), logger.cap)
      ensures logger.counter <= old(logger.counter) + 2
      ensures Count(root.tree) <= old(Count(root.tree)) + 1
      ensures FitKept(old(FitnessOf(root.tree, params)).(tidy := true), false, params,
                      old(Count(root.tree)) + 1, old(rebuildPtr), root.tree, rebuildPtr)
    {
      hide WF, Live, BackgroundSane, Node.Valid, KdOrdered, Balanced, Tidy, Count, Base, Logged, Replay, Inside,
        Outside, AsksRoot, Asks, FitKept;
      ReplayTwo(DownsampleDelete(box), AddPoint(best), LivePoints());
      LogLength();
      todo := [];
      ReplaceAndLog(box, best);
    }

    method ReplaceAndLog(box: Box, best: Point)
      requires Sane() && root != null && (rebuildPtr == null || rebuildPtr == root)
      requires rebuildFlag ==> logger.counter + 2 <= logger.cap
      modifies this`root, this`rebuildPtr, Node.Repr(root), logger, logger.q
      ensures Sane() && root == old(root) && rebuildPtr == old(rebuildPtr) && fresh(root.repr - old(root.repr))
      ensures Abs() == old(Abs()).(live := Outside(old(LivePoints()), box) + multiset{best},
                                   log := old(Abs()).log + if rebuildFlag then Replacement(box, best) else [])
      ensures logger.counter <= old(logger.counter) + 2
      ensures Count(root.tree) <= old(Count(root.tree)) + 1
      ensures FitKept(old(FitnessOf(root.tree, params)).(tidy := true), false, params,
                      old(Count(root.tree)) + 1, old(rebuildPtr), root.tree, rebuildPtr)
    {
      hide Sane, LivePoints, Base, Logged, Balanced, Tidy, Count, Outside, Inside, FitKept;
      ReplaceInTree(box, best);
      if rebuildFlag { LogReplacement(box, best); }
    }

    lemma LogLength()
      requires Sane()
      ensures |Logged()| == logger.counter >= 0 && Logged() == Abs().log
    {
      hide WF, Live, KdOrdered;
    }

    method ReplaceInTree(box: Box, best: Point)
      requires Sane() && root != null && (rebuildPtr == null || rebuildPtr == root)
      modifies this`root, this`rebuildPtr, Node.Repr(root)
      ensures Sane() && root == old(root) && rebuildPtr == old(rebuildPtr) && fresh(root.repr - old(root.repr))
      ensures Abs() == old(Abs()).(live := Outside(old(LivePoints()), box) + multiset{best})
      ensures Count(root.tree) <= old(Count(root.tree)) + 1
      ensures FitKept(old(FitnessOf(root.tree, params)).(tidy := true), false, params,
                      old(Count(root.tree)) + 1, old(rebuildPtr), root.tree, rebuildPtr)
    {
      hide WF, Live, Node.Valid, Balanced, Tidy, Count, Outside, Inside, Sane, LivePoints, Base, Logged, AsksRoot, Asks;
      var _ := DeleteFromTree(box, false, true, NoLock);
      AddToTree(best, false, NoLock);
    }

    method LogReplacement(box: Box, best: Point)
      requires Sane() && logger.counter + 2 <= logger.cap
      modifies logger, logger.q
      ensures Sane()
      ensures Abs() == old(Abs()).(log := old(Abs()).log + Replacement(box, best))
      ensures logger.counter <= old(logger.counter) + 2
    {
      hide Sane, Abs;
      Log(DownsampleDelete(box));
      Log(AddPoint(best));
    }

    /** The replacement without the lock, when nothing comes between its two halves. */
    method ReplaceUnlocked(box: Box, best: Point, freeDelete: Node -> bool, freeAdd: Node -> bool, ghost s: State)
      requires Sane() && root != null && Coupled(s) && s.todo == [] && !s.requested
      requires Abs() == Step(s, Begin(Replacement(box, best)), logger.cap)
      requires rebuildFlag ==> freeDelete == NoLock && freeAdd == NoLock
      modifies this`root, this`rebuildPtr, this`todo, Node.Repr(root)
      ensures Ready() && root != null && fresh(root.repr - old(root.repr))
      ensures Abs().phase == s.phase && Abs().live == Outside(s.live, box) + multiset{best}
      ensures Performs(s, Replacement(box, best), Abs(), logger.cap)
      ensures Count(root.tree) <= old(Count(root.tree)) + 1
      ensures FitKept(old(FitnessOf(root.tree, params)).(tidy := true), true, params,
                      old(Count(root.tree)) + 1, old(rebuildPtr), root.tree, rebuildPtr)
    {
      hide WF, Live, Balanced, Tidy, Count, LivePoints, Base, Logged, Replay, Performs, BackgroundSane, Node.Valid,
        KdOrdered, Coupled, Inside, Outside, AsksRoot, Asks, Safe, FitKept;
      ghost var b, n, rp, t0 := FitnessOf(root.tree, params), Count(root.tree) + 1, rebuildPtr, root.tree;
      StillFit(true, params, n, t0, rp);
      var _ := DeleteUnlocked(box, true, freeDelete);
      FitTwice(b, true, params, n, rp, t0, rp, n - 1, root.tree, rebuildPtr);
      ghost var r1, t1, rp1 := Requested(), root.tree, rebuildPtr;
      AddUnlocked(best, freeAdd);
      FitTwiceTidy(b, true, params, n, rp, t1, rp1, Count(t1) + 1, root.tree, rebuildPtr);
      UnlockedTwo(s, DownsampleDelete(box), AddPoint(best), r1, Requested(), logger.cap);
    }

    /** A round of Add_Points with downsampling that finds points in the box and changes the
        tree, without a break. */
    method Replace(box: Box, best: Point)
      requires Ready() && root != null
      requires Room(2)
      modifies this`root, this`rebuildPtr, this`todo, this`waiting, Node.Repr(root), logger, logger.q
      ensures Ready() && root != null && fresh(root.repr - old(root.repr))
      ensures phase == old(phase) && logger.counter <= old(logger.counter) + 2
      ensures Performs(old(Abs()), Replacement(box, best), Abs(), logger.cap)
      ensures LivePoints() == Outside(old(LivePoints()), box) + multiset{best}
      ensures Count(root.tree) <= old(Count(root.tree)) + 1
      ensures FitKept(old(FitnessOf(root.tree, params)).(tidy := true), true, params,
                      old(Count(root.tree)) + 1, old(rebuildPtr), root.tree, rebuildPtr)
    {
      hide Coupled, WF, Live, Balanced, Tidy, Count, LivePoints, Base, Logged, Replay, Performs, Sane, Inside, Outside,
        AsksRoot, Asks;
      ghost var s, ops := Abs(), Replacement(box, best);
      ReplayTwo(ops[0], ops[1], s.live);
      LogLength();
      var inline := Open(ops);
      if inline {
        var freeDelete: Node -> bool, freeAdd: Node -> bool := *, *;
        if rebuildFlag { freeDelete, freeAdd := NoLock, NoLock; }
        ReplaceUnlocked(box, best, freeDelete, freeAdd, s);
      } else {
        SectionRound(s, ops, logger.cap);
        ReplaceLocked(box, best);
      }
    }

    /** The box is cleared only if points were found there; without any, the round is that of a
        plain insertion. */
    method Settle(box: Box, clear: bool, best: Point) returns (ghost ops: seq<Op>)
      requires Ready() && root != null
      requires Room(2)
      modifies this`root, this`rebuildPtr, this`todo, this`waiting, Node.Repr(root), logger, logger.q
      ensures Ready() && root != null && fresh(root.repr - old(root.repr))
      ensures phase == old(phase) && logger.counter <= old(logger.counter) + 2
      ensures ops == if clear then Replacement(box, best) else [AddPoint(best)]
      ensures Performs(old(Abs()), ops, Abs(), logger.cap)
      ensures LivePoints() == (if clear then Outside(old(LivePoints()), box) else old(LivePoints())) + multiset{best}
      ensures Count(root.tree) <= old(Count(root.tree)) + 1
      ensures FitKept(old(FitnessOf(root.tree, params)).(tidy := true), true, params,
                      old(Count(root.tree)) + 1, old(rebuildPtr), root.tree, rebuildPtr)
    {
      hide Ready, Count, Balanced, Tidy, FitKept, LivePoints, Abs, Performs, Outside, Inside;
      if clear {
        Replace(box, best);
        ops := Replacement(box, best);
      } else {
        AddOne(best);
        ops := [AddPoint(best)];
      }
    }

    /** The search for the grid box of a point and the choice of the point to keep. */
    method Choose(point: Point) returns (box: Box, found: seq<Point>, best: Point)
      requires Valid()
      modifies Node.Repr(root)
      ensures Valid() && root == old(root) && Abs() == old(Abs()) && LivePoints() == old(LivePoints())
      ensures Node.Repr(root) <= old(Node.Repr(root))
      ensures Count(Node.TreeOf(root)) == old(Count(Node.TreeOf(root)))
      ensures FitnessOf(Node.TreeOf(root), params) == old(FitnessOf(Node.TreeOf(root), params))
      ensures downsampleSize > 0.0 && box == D.GridBox(point.at, downsampleSize)
      ensures multiset(found) == Inside(LivePoints(), box)
      ensures InBox(box, point.at) && (best != point ==> InBox(box, best.at) && best in found)
      ensures best.at == point.at ==> best == point
      ensures D.Nearest(Inside(LivePoints(), box) + multiset{point}, box, best)
      ensures (|found| > 1 || point.at == best.at) <==> !D.KeepsOld(LivePoints(), point, downsampleSize)
    {
      hide WF, Live, Coupled, KdOrdered, Balanced, Tidy, Count, Inside, D.GridBox, D.Centre, D.CentreDist, InBox,
        D.Nearest, D.KeepsOld, LivePoints;
      SizePositive();
      box := D.GridBox(point.at, downsampleSize);
      found := BoxSearch(box);
      best := D.Select(point, found, D.Centre(box));
      D.SelectedNearest(LivePoints(), box, point, found, best);
      D.InOwnBox(point.at, downsampleSize);
      D.InsertsIff(LivePoints(), point, downsampleSize, found, best);
    }

    /** One round of Add_Points with downsampling, without a break. */
    method AddOneDownsampled(point: Point) returns (added: bool, ghost ops: seq<Op>)
      requires Ready() && root != null
      requires Room(2)
      modifies this`root, this`rebuildPtr, this`todo, this`waiting, Node.Repr(root), logger, logger.q
      ensures Ready() && root != null && fresh(root.repr - old(root.repr))
      ensures D.Downsampled(old(LivePoints()), point, downsampleSize, LivePoints())
      ensures phase == old(phase) && logger.counter <= old(logger.counter) + 2
      ensures Performs(old(Abs()), ops, Abs(), logger.cap)
      ensures added <==> !D.KeepsOld(old(LivePoints()), point, downsampleSize)
      ensures added <==> ops != []
      ensures !added ==> LivePoints() == old(LivePoints())
      ensures Count(root.tree) <= old(Count(root.tree)) + 1
      ensures FitKept(old(FitnessOf(root.tree, params)), true, params,
                      old(Count(root.tree)) + 1, old(rebuildPtr), root.tree, rebuildPtr)
    {
      hide WF, Live, Valid, Inside, Outside, D.GridBox, Count, Balanced, Tidy, FitKept, InBox, D.Nearest, D.KeepsOld,
        LivePoints, Abs, Performs;
      ghost var m := LivePoints();
      var box, found, best := Choose(point);
      if |found| > 1 || point.at == best.at {
        ghost var b, n, rp := FitnessOf(root.tree, params), Count(root.tree) + 1, rebuildPtr;
        ops := Settle(box, |found| > 0, best);
        FitEither(b, true, params, n, rp, root.tree, rebuildPtr);
        D.ReplacedBox(m, box, point, found, best, LivePoints());
        added := true;
      } else {
        ops := [];
        PerformsNone(Abs(), logger.cap);
        StillFit(true, params, Count(root.tree) + 1, root.tree, rebuildPtr);
        D.KeptBox(m, box, point, found, best);
        added := false;
      }
    }

    /** Add_Points with downsampling: a chain of such insertions; the result counts those
        that changed the tree. */
    method AddPointsDownsampled(points: seq<Point>)
      returns (count: int, ghost states: seq<multiset<Point>>)
      requires Ready() && root != null
      requires Room(2 * |points|)
      modifies this`root, this`rebuildPtr, this`todo, this`waiting, Node.Repr(root), logger, logger.q
      ensures Ready() && root != null && fresh(root.repr - old(root.repr))
      ensures D.DownsampleRun(points, downsampleSize, states)
      ensures states[0] == old(LivePoints()) && states[|points|] == LivePoints()
      ensures count == D.Inserted(points, downsampleSize, states, |points|)
      ensures Grown(old(FitnessOf(root.tree, params)), old(Count(root.tree)) + |points|, old(rebuildPtr))
    {
      hide WF, Live, Valid, Q.Queue.Contents, LivePoints, Balanced, Tidy, Abs, Inside, Outside, D.Downsampled,
        D.KeepsOld, Count, FitKept, Grown, Performs, Replay, Node.Valid;
      count := 0;
      ghost var b, n, k, rp := FitnessOf(root.tree, params), Count(root.tree), |points|, rebuildPtr;
      StillFit(true, params, n + k, root.tree, rp);
      assert downsampleSize > 0.0 by { SizePositive(); }
      states := [LivePoints()];
      for i := 0 to |points|
        invariant Ready() && root != null && fresh(root.repr - old(root.repr))
        invariant Room(2 * (|points| - i))
        invariant downsampleSize > 0.0
        invariant |states| == i + 1 && states[0] == old(LivePoints()) && states[i] == LivePoints()
        invariant forall j :: 0 <= j < i ==>
          D.Downsampled(states[j], points[j], downsampleSize, states[j + 1])
        invariant count == D.Inserted(points, downsampleSize, states, i)
        invariant Count(root.tree) <= n + i
        invariant FitKept(b, true, params, n + k, rp, root.tree, rebuildPtr)
      {
        ghost var t1, rp1 := root.tree, rebuildPtr;
        var added, ops := AddOneDownsampled(points[i]);
        FitTwice(b, true, params, n + k, rp, t1, rp1, Count(t1) + 1, root.tree, rebuildPtr);
        D.InsertedPrefix(points, downsampleSize, states, [LivePoints()], i);
        states := states + [LivePoints()];
        if added { count := count + 1; }
      }
      GrownTo(b, n + k, rp);
    }

    lemma SizePositive()
      requires Valid()
      ensures downsampleSize > 0.0
    {
    }

    // ---- Delete_Point_Boxes --------------------------------------------------------------------

    /** One round of Delete_Point_Boxes, without a break. */
    method DeleteOneBox(box: Box) returns (count: int)
      requires Ready()
      requires Room(1)
      modifies this`root, this`rebuildPtr, this`todo, this`waiting, Node.Repr(root), logger, logger.q
      ensures Ready() && fresh(Node.Repr(root) - old(Node.Repr(root)))
      ensures root == null <==> old(root) == null
      ensures Performs(old(Abs()), [DeleteBox(box)], Abs(), logger.cap)
      ensures phase == old(phase) && logger.counter <= old(logger.counter) + 1
      ensures LivePoints() == Outside(old(LivePoints()), box)
      ensures count == |Inside(old(LivePoints()), box)|
      ensures Count(Node.TreeOf(root)) <= old(Count(Node.TreeOf(root)))
      ensures FitKept(old(FitnessOf(Node.TreeOf(root), params)), true, params,
                      old(Count(Node.TreeOf(root))), old(rebuildPtr),
                      Node.TreeOf(root), rebuildPtr)
    {
      hide Coupled, WF, Live, Balanced, Tidy, Count, LivePoints, Base, Logged, Replay, Performs, Sane, Inside, Outside,
        AsksRoot, Asks, Safe;
      ghost var s, op := Abs(), DeleteBox(box);
      ReplayOne(op, s.live);
      LogLength();
      var inline := Open([op]);
      if inline {
        var free: Node -> bool := *;
        if rebuildFlag { free := NoLock; }
        count := DeleteUnlocked(box, false, free);
        UnlockedRound(s, op, Requested(), logger.cap);
      } else {
        SectionRound(s, [op], logger.cap);
        count := DeleteLocked(box);
      }
    }

    /** Delete_Point_Boxes: what lies in none of the boxes stays, everything else goes, and
        the result is the number of points that went. */
    method DeletePointBoxes(boxes: seq<Box>) returns (count: int)
      requires Ready()
      requires Room(|boxes|)
      modifies this`root, this`rebuildPtr, this`todo, this`waiting, Node.Repr(root), logger, logger.q
      ensures Ready() && fresh(Node.Repr(root) - old(Node.Repr(root)))
      ensures root == null <==> old(root) == null
      ensures LivePoints() == OutsideAll(old(LivePoints()), boxes)
      ensures count == old(|LivePoints()|) - |LivePoints()|
      ensures Grown(old(FitnessOf(Node.TreeOf(root), params)), old(Count(Node.TreeOf(root))), old(rebuildPtr))
    {
      hide WF, Live, Valid, Q.Queue.Contents, LivePoints, Balanced, Tidy, Abs, Inside, Outside, Count, FitKept, Grown,
        OutsideAll, Performs, Replay, Node.Valid;
      OutsideNone(LivePoints());
      count := 0;
      ghost var b, n, rp := FitnessOf(Node.TreeOf(root), params), Count(Node.TreeOf(root)), rebuildPtr;
      StillFit(true, params, n, Node.TreeOf(root), rp);
      for i := 0 to |boxes|
        invariant Ready() && fresh(Node.Repr(root) - old(Node.Repr(root)))
        invariant root == null <==> old(root) == null
        invariant Room(|boxes| - i)
        invariant LivePoints() == OutsideAll(old(LivePoints()), boxes[..i])
        invariant count == old(|LivePoints()|) - |LivePoints()|
        invariant Count(Node.TreeOf(root)) <= n
        invariant FitKept(b, true, params, n, rp, Node.TreeOf(root), rebuildPtr)
      {
        ghost var m := LivePoints();
        ghost var t1, rp1 := Node.TreeOf(root), rebuildPtr;
        var c := DeleteOneBox(boxes[i]);
        FitTwice(b, true, params, n, rp, t1, rp1, Count(t1), Node.TreeOf(root), rebuildPtr);
        count := count + c;
        assert m == Outside(m, boxes[i]) + Inside(m, boxes[i]);
        OutsideOneMore(old(LivePoints()), boxes, i);
      }
      assert boxes[..|boxes|] == boxes;
      GrownTo(b, n, rp);
    }

    // ---- Build and Nearest_Search ----------------------------------------------------------------

    /** Build: a fresh tree over exactly the given points.  A request for the old root (that
        is, for &Root_Node) becomes one for the new root. */
    method BuildFrom(points: seq<Point>)
      requires Ready() && phase.Idle?
      requires rebuildPtr == null || (rebuildPtr == root && |points| >= MULTI_THREAD_REBUILD_POINT_NUM)
      modifies this`root, this`rebuildPtr
      ensures Ready() && phase.Idle?
      ensures rebuildPtr == if old(rebuildPtr) == null then null else root
      ensures root == null <==> points == []
      ensures fresh(Node.Repr(root))
      ensures BuiltFrom(Node.TreeOf(root), multiset(points))
      ensures 11.0 * params.bal >= 6.0 ==> Balanced(Node.TreeOf(root), params)
      ensures params.del >= 0.0 ==> FewTombstones(Node.TreeOf(root), params)
    {
      hide WF, Live, Node.Valid, BackgroundSane, Logged, LivePoints, Base, Replay, Balanced, FewTombstones, Count,
        BuiltFrom, KdOrdered;
      var r := BuildVector(points);
      BuiltOrdered(Node.TreeOf(r), multiset(points));
      RebuiltBalance(Node.TreeOf(r), multiset(points), params);
      if params.del >= 0.0 { RebuiltTidy(Node.TreeOf(r), multiset(points), params); }
      Plant(r);
    }

    /** A finished tree becomes the one in use. */
    method Plant(r: Node?)
      requires Ready() && phase.Idle? && Ok(r) && KdOrdered(Node.TreeOf(r))
      requires Node.Repr(r) !! Node.Repr(newRoot)
      requires rebuildPtr == null || (r != null && Count(r.tree) >= MULTI_THREAD_REBUILD_POINT_NUM)
      requires r != null && rebuildPtr != null ==> rebuildPtr == root && r !in Node.Repr(newRoot)
      modifies this`root, this`rebuildPtr
      ensures Ready() && phase.Idle? && root == r
      ensures rebuildPtr == if old(rebuildPtr) == null then null else r
    {
      hide WF, Live, Node.Valid, BackgroundSane, Logged, LivePoints, Base, Replay, Count, KdOrdered;
      root := r;
      if rebuildPtr != null { rebuildPtr := r; }
    }

    /** Nearest_Search: the k nearest live points within the radius, nearest first. */
    method NearestSearch(q: Vec, k: nat, maxDist: Option<real>)
      returns (points: seq<Point>, dists: seq<int>)
      requires Sane() && k >= 1
      modifies Node.Repr(root)
      ensures root == old(root) && Sane() && Abs() == old(Abs())
      ensures |points| == |dists|
      ensures NS.KBest(k, NS.Cands(LivePoints(), q, maxDist), multiset(NS.Zip(points, dists)))
      ensures forall i, j :: 0 <= i < j < |dists| ==> dists[i] <= dists[j]
      // The same in coordinates: live points within the radius with their squared distances, and
      // for a live point within the radius that is left out, k points on whose side q lies.
      ensures multiset(points) <= LivePoints() && |points| <= k
      ensures forall i :: 0 <= i < |points| ==> var v := points[i].at;
        dists[i] == (q.x - v.x) * (q.x - v.x) + (q.y - v.y) * (q.y - v.y) + (q.z - v.z) * (q.z - v.z)
      ensures maxDist.Some? ==> forall i :: 0 <= i < |dists| ==> dists[i] as real <= maxDist.value * maxDist.value
      ensures forall p :: LivePoints()[p] > multiset(points)[p] ==> NS.Outdone(q, maxDist, k, points, p)
    {
      hide WF, Live, Node.Valid, Q.Queue.Valid, Q.Queue.Contents, NS.Cands, NS.KBest, SameShape, Count, KdOrdered,
        NS.Outdone, NS.Zip;
      ghost var t := Node.TreeOf(root);
      points, dists := NS.Query(root, q, k, maxDist);
      NS.InCoordinates(k, Live(t), q, maxDist, points, dists);
      SameShapeKept(t, Node.TreeOf(root));
      SameShapeCount(t, Node.TreeOf(root));
    }

    // ---- The background thread ----------------------------------------------------------------

    method FlattenRoot() returns (points: seq<Point>)
      requires Sane()
      modifies Node.Repr(root)
      ensures Sane() && root == old(root) && Abs() == old(Abs())
      ensures multiset(points) == LivePoints()
    {
      hide WF, Live, Node.Valid, SameShape, Count, KdOrdered, BackgroundSane, Base, Logged;
      ghost var t := Node.TreeOf(root);
      points := Flatten(root, []);
      SameShapeCount(t, Node.TreeOf(root));
      SameShapeKept(t, Node.TreeOf(root));
    }

    /** Copy the tree that is to be rebuilt; from here on operations are logged. */
    method CopyTree()
      requires Sane() && Enabled(Abs(), Copy, logger.cap)
      modifies this`rebuildFlag, this`snapshot, this`phase, Node.Repr(root)
      ensures Sane() && root == old(root)
      ensures Abs() == Step(old(Abs()), Copy, logger.cap)
      ensures old(Coupled(Abs())) ==> Coupled(Abs())
    {
      hide Coupled, Sane, Base, LivePoints, Logged, Replay;
      if Coupled(Abs()) { StepCoupled(Abs(), Copy, logger.cap); }
      var points := FlattenRoot();
      StartLogging(points);
    }

    method StartLogging(points: seq<Point>)
      requires Sane() && Enabled(Abs(), Copy, logger.cap) && multiset(points) == LivePoints()
      modifies this`rebuildFlag, this`snapshot, this`phase
      ensures Sane()
      ensures Abs() == Step(old(Abs()), Copy, logger.cap)
    {
      hide WF, Live, Node.Valid, Q.Queue.Valid, Q.Queue.Contents, Count, KdOrdered, LivePoints, Logged;
      rebuildFlag := true;
      snapshot := points;
      phase := Copied;
    }

    /** Build the new tree from the copy, without any lock. */
    method BuildNewTree()
      requires Sane() && Enabled(Abs(), Build, logger.cap)
      modifies this`newRoot, this`phase
      ensures Sane()
      ensures Abs() == Step(old(Abs()), Build, logger.cap)
      ensures old(Coupled(Abs())) ==> Coupled(Abs())
    {
      hide Coupled, WF, Live, Node.Valid, Q.Queue.Valid, Q.Queue.Contents, Count, KdOrdered, LivePoints, Logged;
      if Coupled(Abs()) { StepCoupled(Abs(), Build, logger.cap); }
      var r := OrderedTree(snapshot);
      Install(r);
    }

    /** new_root_node becomes the tree that is kept up to date. */
    method Install(r: Node?)
      requires Sane() && Enabled(Abs(), Build, logger.cap)
      requires Ok(r) && r != null && KdOrdered(r.tree) && Live(r.tree) == multiset(snapshot)
      requires Node.Repr(root) !! r.repr && rebuildPtr !in r.repr
      modifies this`newRoot, this`phase
      ensures Sane()
      ensures Abs() == Step(old(Abs()), Build, logger.cap)
    {
      hide WF, Live, Node.Valid, Q.Queue.Valid, Q.Queue.Contents, Count, KdOrdered, LivePoints, Logged;
      newRoot := r;
      phase := Replaying;
    }

    static method OrderedTree(points: seq<Point>) returns (r: Node?)
      ensures Ok(r) && fresh(Node.Repr(r)) && (r == null <==> points == [])
      ensures KdOrdered(Node.TreeOf(r)) && Live(Node.TreeOf(r)) == multiset(points)
    {
      hide WF, Live, Node.Valid, Count, KdSplit, EvenSplit, KdOrdered;
      r := BuildVector(points);
      BuiltOrdered(Node.TreeOf(r), multiset(points));
    }

    method Unlog() returns (op: Op)
      requires Sane() && Abs().log != []
      modifies logger
      ensures Sane() && op == old(Abs()).log[0]
      ensures Abs() == old(Abs()).(log := old(Abs()).log[1..])
    {
      hide WF, Live, KdOrdered, LivePoints, Base, Node.Valid, Count;
      op := logger.Front();
      logger.Pop();
    }

    /** Take the oldest missed operation off the log. */
    method TakeOperation()
      requires Sane() && Enabled(Abs(), Take, logger.cap)
      modifies this`inflight, logger
      ensures Sane()
      ensures Abs() == Step(old(Abs()), Take, logger.cap)
      ensures old(Coupled(Abs())) ==> Coupled(Abs())
    {
      hide Coupled, WF, Live, Node.Valid, Q.Queue.Valid, Q.Queue.Contents, Count, KdOrdered;
      if Coupled(Abs()) { StepCoupled(Abs(), Take, logger.cap); }
      var op := Unlog();
      inflight := Some(op);
    }

    /** run_operation: the logged operation on the new tree, which is never rebuilt inline. */
    static method RunOn(tree: Node, op: Op, p: Params, rp: Node?)
      requires tree.Valid() && WF(tree.tree) && rp !in tree.repr
      modifies tree.repr
      ensures tree.Valid() && WF(tree.tree) && fresh(tree.repr - old(tree.repr))
      ensures Live(tree.tree) == Apply(op, Live(old(tree.tree)))
      ensures old(KdOrdered(tree.tree)) ==> KdOrdered(tree.tree)
    {
      hide WF, Live, Node.Valid, Inside, Outside, Count, Balanced, Tidy, FitKept, Stored, KdOrdered;
      match op {
        case AddPoint(point) =>
          var r, rp' := AddByPoint(tree, point, false, tree.d.axis, p, NoLock, rp);
          assert r == tree && rp' == rp;
        case DeleteBox(b) =>
          var r, c, rp' := DeleteByRange(tree, b, false, false, p, NoLock, rp);
          assert r == tree && rp' == rp;
        case DownsampleDelete(b) =>
          var r, c, rp' := DeleteByRange(tree, b, false, true, p, NoLock, rp);
          assert r == tree && rp' == rp;
      }
    }

    /** run_operation on the new tree, without any lock. */
    method RunOperation()
      requires Sane() && Enabled(Abs(), Run, logger.cap)
      modifies this`inflight, Node.Repr(newRoot)
      ensures Sane() && root == old(root) && rebuildPtr == old(rebuildPtr)
      ensures Abs() == Step(old(Abs()), Run, logger.cap)
      ensures old(Coupled(Abs())) ==> Coupled(Abs())
    {
      hide Coupled, WF, Live, Q.Queue.Valid, Logged, LivePoints, Node.Linked, Count, Apply, KdOrdered;
      if Coupled(Abs()) { StepCoupled(Abs(), Run, logger.cap); }
      RunOn(newRoot, inflight.value, params, rebuildPtr);
      inflight := None;
    }

    /** Replace the old tree once nothing is left to replay; rebuild_flag stays set. */
    method SwapTrees()
      requires Sane() && Enabled(Abs(), Swap, logger.cap)
      modifies this`root, this`rebuildPtr, this`newRoot, this`phase
      ensures Sane() && phase.Idle? && rebuildPtr == null
      ensures Abs() == Step(old(Abs()), Swap, logger.cap)
      ensures old(Coupled(Abs())) ==> Coupled(Abs()) && LivePoints() == old(LivePoints())
    {
      hide Coupled, WF, Live, Node.Valid, Count, KdOrdered;
      if Coupled(Abs()) { StepCoupled(Abs(), Swap, logger.cap); }
      ghost var base := Live(Node.TreeOf(newRoot));
      NilOrdered();
      root := newRoot;
      rebuildPtr := null;
      newRoot := null;
      phase := Idle;
    }

    /** Clear rebuild_flag, after working_flag_mutex has been released. */
    method ClearFlag()
      requires Sane() && Enabled(Abs(), Clear, logger.cap)
      modifies this`rebuildFlag
      ensures Sane()
      ensures Abs() == Step(old(Abs()), Clear, logger.cap)
      ensures old(Coupled(Abs())) ==> Coupled(Abs())
    {
      hide Coupled, WF, Live, Node.Valid, Count, KdOrdered;
      if Coupled(Abs()) { StepCoupled(Abs(), Clear, logger.cap); }
      rebuildFlag := false;
    }
  }
}
