/** The background rebuild of the whole tree as a transition system on multisets of points.

    The main thread works in rounds.  A round first tests whether the root is the subtree to
    be rebuilt (Begin).  If not, it carries out its operations one by one without any lock and
    without a log entry (Do); each of them may end by asking for a rebuild of the root, and
    the background thread may step in between.  If so, it waits for working_flag_mutex and
    carries out and logs all of them in one section (Section).

    The background thread copies the old tree, builds the new one, takes entries off the log
    and runs them on the new tree, swaps the trees, and clears rebuild_flag afterwards,
    outside of the section that swaps. */
module RebuildProtocol {
  import opened Prelude
  import opened Geometry

  /** Operation_Logger_Type, for the operations that reach the root. */
  datatype Op = AddPoint(point: Point) | DeleteBox(box: Box) | DownsampleDelete(box: Box)

  datatype Phase = Idle | Copied | Replaying

  /** requested: Rebuild_Ptr names the root; flag: rebuild_flag; todo: what is left of the
      current round; waiting: that round goes for the lock. */
  datatype State = State(live: multiset<Point>, phase: Phase, base: multiset<Point>,
                         inflight: Option<Op>, log: seq<Op>, requested: bool, flag: bool,
                         todo: seq<Op>, waiting: bool)

  datatype Action =
    | Begin(ops: seq<Op>) | Do(op: Op, request: bool) | Section(section: seq<Op>)
    | Copy | Build | Take | Run | Swap | Clear

  ghost function Apply(op: Op, m: multiset<Point>): multiset<Point> {
    match op
    case AddPoint(p) => m + multiset{p}
    case DeleteBox(b) => Outside(m, b)
    case DownsampleDelete(b) => Outside(m, b)
  }

  /** The points after all of ops, in order. */
  ghost function Replay(ops: seq<Op>, m: multiset<Point>): multiset<Point> {
    if ops == [] then m else Replay(ops[1..], Apply(ops[0], m))
  }

  /** What the new tree still has to be told. */
  function Pending(s: State): seq<Op> {
    (if s.inflight.Some? then [s.inflight.value] else []) + s.log
  }

  /** qlen is the capacity of the log; a logged section must fit in.  While rebuild_flag is
      set the background thread holds rebuild_ptr_mutex_lock, so no request is made.  A run
      that has copied an empty tree, or whose request was withdrawn, does not go on: the
      source then goes through a null pointer. */
  predicate Enabled(s: State, a: Action, qlen: nat) {
    match a
    case Begin(ops) => s.todo == []
    case Do(op, request) => !s.waiting && s.todo != [] && s.todo[0] == op && (s.flag && request ==> s.requested)
    case Section(ops) => s.waiting && s.todo == ops != [] && (s.flag ==> |s.log| + |ops| <= qlen)
    case Copy => s.phase.Idle? && s.requested && !s.flag
    case Build => s.phase.Copied? && s.base != multiset{}
    case Take => s.phase.Replaying? && s.inflight.None? && s.log != []
    case Run => s.phase.Replaying? && s.inflight.Some?
    case Swap => s.phase.Replaying? && s.inflight.None? && s.log == [] && s.requested
    case Clear => s.phase.Idle? && s.flag
  }

  ghost function Step(s: State, a: Action, qlen: nat): State
    requires Enabled(s, a, qlen)
  {
    match a
    case Begin(ops) => s.(todo := ops, waiting := s.requested)
    case Do(op, request) => s.(live := Apply(op, s.live), todo := s.todo[1..], requested := request)
    case Section(ops) =>
      s.(live := Replay(ops, s.live), todo := [], log := if s.flag then s.log + ops else s.log)
    case Copy => s.(phase := Copied, base := s.live, flag := true)
    case Build => s.(phase := Replaying)
    case Take => s.(inflight := Some(s.log[0]), log := s.log[1..])
    case Run => s.(inflight := None, base := Apply(s.inflight.value, s.base))
    case Swap => s.(phase := Idle, live := s.base, base := multiset{}, requested := false)
    case Clear => s.(flag := false)
  }

  /** Replaying what is pending over the new tree gives the live points of the old one. */
  ghost predicate Coupled(s: State) {
    if s.phase.Idle? then s.inflight.None? && s.log == [] && !(s.flag && s.requested)
    else
      && Replay(Pending(s), s.base) == s.live && (s.phase.Copied? ==> s.inflight.None?)
      && s.flag && s.requested
  }

  lemma {:induction false} ReplayAppend(ops: seq<Op>, more: seq<Op>, m: multiset<Point>)
    ensures Replay(ops + more, m) == Replay(more, Replay(ops, m))
  {
    hide Apply;
    if ops == [] {
      assert ops + more == more;
    } else {
      assert (ops + more)[1..] == ops[1..] + more;
      ReplayAppend(ops[1..], more, Apply(ops[0], m));
    }
  }

  lemma ReplayOne(op: Op, m: multiset<Point>)
    ensures Replay([op], m) == Apply(op, m)
  {
    hide Apply;
    assert [op][1..] == [];
    assert Replay([], Apply(op, m)) == Apply(op, m);
  }

  lemma ReplayTwo(op: Op, next: Op, m: multiset<Point>)
    ensures Replay([op, next], m) == Apply(next, Apply(op, m))
  {
    hide Apply;
    assert [op, next][1..] == [next];
    ReplayOne(next, Apply(op, m));
  }

  /** The two ways of losing step.  An unlocked operation that finds the background thread at
      work (its round tested before an earlier operation of the round made the request) is
      never logged.  A round that waited for the lock while the trees were swapped, and gets it
      before rebuild_flag is cleared, leaves its entries to the next rebuild. */
  ghost predicate Harmless(s: State, a: Action) {
    match a
    case Do(op, request) => s.phase.Idle? || (Apply(op, s.live) == s.live && request)
    case Section(ops) => !(s.phase.Idle? && s.flag)
    case _ => true
  }

  /** What an action of the main thread carries out. */
  function OpsOf(a: Action): seq<Op> {
    match a
    case Do(op, _) => [op]
    case Section(ops) => ops
    case _ => []
  }

  /** An action of either thread keeps the coupling exactly if it is harmless, and only the
      main thread's operations change what is live. */
  lemma {:induction false} StepCoupled(s: State, a: Action, qlen: nat)
    requires Coupled(s) && Enabled(s, a, qlen)
    ensures Coupled(Step(s, a, qlen)) <==> Harmless(s, a)
    ensures Step(s, a, qlen).live == Replay(OpsOf(a), s.live)
  {
    hide Apply;
    var s' := Step(s, a, qlen);
    match a
    case Begin(ops) =>
      assert Pending(s') == Pending(s);
    case Do(op, request) =>
      assert Pending(s') == Pending(s);
      ReplayOne(op, s.live);
    case Section(ops) =>
      if !s.phase.Idle? {
        assert Pending(s') == Pending(s) + ops;
        ReplayAppend(Pending(s), ops, s.base);
      }
    case Copy =>
      assert Pending(s') == [];
    case Build =>
      assert Pending(s') == Pending(s);
    case Take =>
      assert Pending(s') == Pending(s);
    case Run =>
      assert Pending(s)[1..] == Pending(s');
    case Swap =>
      assert Pending(s) == [];
    case Clear =>
  }

  // ---- Runs ----------------------------------------------------------------------------------

  ghost predicate Possible(s: State, run: seq<Action>, qlen: nat)
    decreases |run|
  {
    run == [] || (Enabled(s, run[0], qlen) && Possible(Step(s, run[0], qlen), run[1..], qlen))
  }

  ghost function After(s: State, run: seq<Action>, qlen: nat): State
    requires Possible(s, run, qlen)
    decreases |run|
  {
    if run == [] then s else After(Step(s, run[0], qlen), run[1..], qlen)
  }

  /** The main thread's operations in a run, in order. */
  function MainOps(run: seq<Action>): seq<Op> {
    if run == [] then [] else OpsOf(run[0]) + MainOps(run[1..])
  }

  /** Every action of the run is harmless when it comes. */
  ghost predicate AllHarmless(s: State, run: seq<Action>, qlen: nat)
    requires Possible(s, run, qlen)
    decreases |run|
  {
    run == [] || (Harmless(s, run[0]) && AllHarmless(Step(s, run[0], qlen), run[1..], qlen))
  }

  /** The trees are coupled after every action of the run. */
  ghost predicate AlwaysCoupled(s: State, run: seq<Action>, qlen: nat)
    requires Possible(s, run, qlen)
    decreases |run|
  {
    Coupled(s) && (run == [] || AlwaysCoupled(Step(s, run[0], qlen), run[1..], qlen))
  }

  /** Whatever the interleaving and however many rebuilds it contains: the trees are coupled
      throughout exactly if no action is harmful. */
  lemma {:induction false} RunCoupledIff(s: State, run: seq<Action>, qlen: nat)
    requires Coupled(s) && Possible(s, run, qlen)
    ensures AlwaysCoupled(s, run, qlen) <==> AllHarmless(s, run, qlen)
    decreases |run|
  {
    hide Coupled, Step, Enabled, Harmless;
    if run != [] {
      var s1 := Step(s, run[0], qlen);
      StepCoupled(s, run[0], qlen);
      if Harmless(s, run[0]) {
        RunCoupledIff(s1, run[1..], qlen);
      } else {
        assert !AlwaysCoupled(s1, run[1..], qlen);
      }
    }
  }

  /** In such a run the live points are those that the main thread's operations alone would
      have left. */
  lemma {:induction false} HarmlessInvisible(s: State, run: seq<Action>, qlen: nat)
    requires Coupled(s) && Possible(s, run, qlen) && AllHarmless(s, run, qlen)
    ensures Coupled(After(s, run, qlen))
    ensures After(s, run, qlen).live == Replay(MainOps(run), s.live)
    decreases |run|
  {
    hide Coupled, Step, Enabled, Apply, Harmless;
    if run != [] {
      var s1 := Step(s, run[0], qlen);
      StepCoupled(s, run[0], qlen);
      HarmlessInvisible(s1, run[1..], qlen);
      ReplayAppend(OpsOf(run[0]), MainOps(run[1..]), s.live);
    }
  }

  // ---- A condition on the main thread's rounds -----------------------------------------------

  /** No unlocked operation but the last one of its round leaves a request for the root, and no
      round gets the lock between a swap and the clearing of rebuild_flag. */
  ghost predicate Quiet(s: State, run: seq<Action>, qlen: nat)
    requires Possible(s, run, qlen)
    decreases |run|
  {
    run == [] || (QuietStep(s, run[0]) && Quiet(Step(s, run[0], qlen), run[1..], qlen))
  }

  predicate QuietStep(s: State, a: Action) {
    match a
    case Do(_, request) => |s.todo| > 1 ==> !request
    case Section(_) => !(s.phase.Idle? && s.flag)
    case _ => true
  }

  /** Within an unlocked round the background thread has nothing to do. */
  predicate Undisturbed(s: State) {
    s.todo != [] && !s.waiting ==> s.phase.Idle? && !s.requested
  }

  lemma {:induction false} QuietKept(s: State, a: Action, qlen: nat)
    requires Coupled(s) && Undisturbed(s) && Enabled(s, a, qlen) && QuietStep(s, a)
    ensures Harmless(s, a) && Undisturbed(Step(s, a, qlen))
  {
    hide Apply, Replay;
  }

  lemma {:induction false} QuietHarmless(s: State, run: seq<Action>, qlen: nat)
    requires Coupled(s) && Undisturbed(s) && Possible(s, run, qlen) && Quiet(s, run, qlen)
    ensures AllHarmless(s, run, qlen)
    decreases |run|
  {
    hide Coupled, Step, Enabled, Apply, Harmless, QuietStep, Undisturbed;
    if run != [] {
      QuietKept(s, run[0], qlen);
      StepCoupled(s, run[0], qlen);
      QuietHarmless(Step(s, run[0], qlen), run[1..], qlen);
    }
  }

  /** Whatever the interleaving and however many rebuilds it contains, the live points after a
      quiet run are those that the main thread's operations alone would have left. */
  lemma {:induction false} RebuildInvisible(s: State, run: seq<Action>, qlen: nat)
    requires Coupled(s) && Undisturbed(s) && Possible(s, run, qlen) && Quiet(s, run, qlen)
    ensures AlwaysCoupled(s, run, qlen) && Coupled(After(s, run, qlen))
    ensures After(s, run, qlen).live == Replay(MainOps(run), s.live)
  {
    hide Coupled, Possible, Undisturbed, Quiet, AllHarmless, AlwaysCoupled, After;
    QuietHarmless(s, run, qlen);
    RunCoupledIff(s, run, qlen);
    HarmlessInvisible(s, run, qlen);
  }

  // ---- Between the operations of an unlocked round -------------------------------------------

  /** The background thread's actions. */
  predicate Background(a: Action) {
    a.Copy? || a.Build? || a.Take? || a.Run? || a.Swap? || a.Clear?
  }

  ghost predicate OnlyBackground(run: seq<Action>) {
    forall i :: 0 <= i < |run| ==> Background(run[i])
  }

  /** Whatever the background thread does before the next operation of an unlocked round, the
      trees are coupled after that operation. */
  ghost predicate Safe(s: State, qlen: nat)
    requires s.todo != [] && !s.waiting
  {
    forall run, request ::
      Possible(s, run, qlen) && OnlyBackground(run) && Enabled(After(s, run, qlen), Do(s.todo[0], request), qlen)
      ==> Coupled(Step(After(s, run, qlen), Do(s.todo[0], request), qlen))
  }

  lemma {:induction false} NothingToCopy(s: State, run: seq<Action>, qlen: nat)
    requires Coupled(s) && s.phase.Idle? && !s.requested && Possible(s, run, qlen) && OnlyBackground(run)
    ensures var s' := After(s, run, qlen);
      Coupled(s') && s'.phase.Idle? && s'.todo == s.todo && s'.waiting == s.waiting
    decreases |run|
  {
    hide Apply, Replay;
    if run != [] {
      assert run[0].Clear?;
      NothingToCopy(Step(s, run[0], qlen), run[1..], qlen);
    }
  }

  lemma {:induction false} LateInsertion(s: State, qlen: nat)
    requires Coupled(s) && s.phase.Idle? && s.requested
    requires s.todo != [] && !s.waiting && s.todo[0].AddPoint?
    ensures !Safe(s, qlen)
  {
    hide Replay;
    var s1 := Step(s, Copy, qlen);
    AfterOne(s, Copy, qlen);
    StepCoupled(s, Copy, qlen);
    assert OnlyBackground([Copy]);
    assert Apply(s1.todo[0], s1.live) != s1.live;
    StepCoupled(s1, Do(s.todo[0], true), qlen);
  }

  lemma AfterOne(s: State, a: Action, qlen: nat)
    requires Enabled(s, a, qlen)
    ensures Possible(s, [a], qlen) && After(s, [a], qlen) == Step(s, a, qlen)
    ensures MainOps([a]) == OpsOf(a)
  {
    hide Enabled, Step;
    assert [a][1..] == [];
    assert Possible(Step(s, a, qlen), [], qlen);
  }

  /** With an insertion still to come, the rest of an unlocked round is safe exactly if no
      rebuild of the root has been asked for. */
  lemma {:induction false} GapIff(s: State, qlen: nat)
    requires Coupled(s) && s.phase.Idle? && s.todo != [] && !s.waiting && s.todo[0].AddPoint?
    ensures Safe(s, qlen) <==> !s.requested
  {
    hide Coupled, Possible, After, Apply, Replay, OnlyBackground;
    if s.requested {
      LateInsertion(s, qlen);
    } else {
      forall run, request |
        Possible(s, run, qlen) && OnlyBackground(run) && Enabled(After(s, run, qlen), Do(s.todo[0], request), qlen)
        ensures Coupled(Step(After(s, run, qlen), Do(s.todo[0], request), qlen))
      {
        NothingToCopy(s, run, qlen);
        StepCoupled(After(s, run, qlen), Do(s.todo[0], request), qlen);
      }
    }
  }

  /** The round of a downsampled insertion without a lock (a deletion, then an insertion): it
      keeps the trees coupled at every interleaving exactly if the deletion leaves no request
      for the root. */
  lemma {:induction false} RoundIff(s: State, first: Op, point: Point, request: bool, qlen: nat)
    requires Coupled(s) && s.todo == [] && !s.requested && (s.flag ==> !request)
    ensures var s1 := Step(s, Begin([first, AddPoint(point)]), qlen);
      && Enabled(s1, Do(first, request), qlen)
      && var s2 := Step(s1, Do(first, request), qlen);
      && Coupled(s2) && s2.todo == [AddPoint(point)] && !s2.waiting && (Safe(s2, qlen) <==> !request)
  {
    hide Safe, Apply, Replay;
    var ops := [first, AddPoint(point)];
    var s1 := Step(s, Begin(ops), qlen);
    assert ops[1..] == [AddPoint(point)];
    StepCoupled(s, Begin(ops), qlen);
    StepCoupled(s1, Do(first, request), qlen);
    GapIff(Step(s1, Do(first, request), qlen), qlen);
  }

  // ---- Rounds that run without a break ---------------------------------------------------------

  lemma {:induction false} AfterAppend(s: State, run: seq<Action>, more: seq<Action>, qlen: nat)
    requires Possible(s, run, qlen) && Possible(After(s, run, qlen), more, qlen)
    ensures Possible(s, run + more, qlen)
    ensures After(s, run + more, qlen) == After(After(s, run, qlen), more, qlen)
    ensures MainOps(run + more) == MainOps(run) + MainOps(more)
    decreases |run|
  {
    hide Enabled, Step, OpsOf;
    if run == [] {
      assert run + more == more;
    } else {
      assert (run + more)[1..] == run[1..] + more;
      AfterAppend(Step(s, run[0], qlen), run[1..], more, qlen);
      assert OpsOf(run[0]) + (MainOps(run[1..]) + MainOps(more)) == MainOps(run) + MainOps(more);
    }
  }

  predicate Mine(a: Action) {
    a.Begin? || a.Do? || a.Section?
  }

  /** A run of main-thread actions alone that carries out ops leads from s to s'. */
  ghost predicate Performs(s: State, ops: seq<Op>, s': State, qlen: nat) {
    exists run ::
      && Possible(s, run, qlen) && (forall i :: 0 <= i < |run| ==> Mine(run[i]))
      && MainOps(run) == ops && After(s, run, qlen) == s'
  }

  lemma PerformsNone(s: State, qlen: nat)
    ensures Performs(s, [], s, qlen)
  {
    assert Possible(s, [], qlen) && After(s, [], qlen) == s && MainOps([]) == [];
  }

  /** Performing ops and one more action. */
  lemma PerformsMore(s: State, ops: seq<Op>, s': State, a: Action, qlen: nat)
    requires Performs(s, ops, s', qlen) && Enabled(s', a, qlen) && Mine(a)
    ensures Performs(s, ops + OpsOf(a), Step(s', a, qlen), qlen)
  {
    hide Enabled, Step, OpsOf, Possible, After, MainOps;
    var run :| Possible(s, run, qlen) && (forall i :: 0 <= i < |run| ==> Mine(run[i]))
      && MainOps(run) == ops && After(s, run, qlen) == s';
    AfterOne(s', a, qlen);
    AfterAppend(s, run, [a], qlen);
    assert Possible(s, run + [a], qlen);
  }

  /** From a coupled state between two rounds, a round with the lock keeps the coupling: while
      the root is requested, rebuild_flag is set exactly if the background thread is at work. */
  lemma {:induction false} SectionRound(s: State, ops: seq<Op>, qlen: nat)
    requires Coupled(s) && s.todo == [] && s.requested && ops != []
    requires s.phase.Idle? || |s.log| + |ops| <= qlen
    ensures var s1 := Step(s, Begin(ops), qlen);
      && Enabled(s1, Section(ops), qlen)
      && var s2 := Step(s1, Section(ops), qlen);
      && Coupled(s1) && Coupled(s2) && s2.todo == [] && Performs(s, ops, s2, qlen)
      && s2.live == Replay(ops, s.live)
  {
    hide Performs, Replay, Apply;
    var s1 := Step(s, Begin(ops), qlen);
    StepCoupled(s, Begin(ops), qlen);
    StepCoupled(s1, Section(ops), qlen);
    PerformsNone(s, qlen);
    PerformsMore(s, [], s, Begin(ops), qlen);
    PerformsMore(s, [] + [], s1, Section(ops), qlen);
    assert [] + [] + ops == ops;
  }

  /** So does a round of one operation without the lock. */
  lemma {:induction false} UnlockedRound(s: State, op: Op, request: bool, qlen: nat)
    requires Coupled(s) && s.todo == [] && !s.requested && (s.flag ==> !request)
    ensures var s1 := Step(s, Begin([op]), qlen);
      && Enabled(s1, Do(op, request), qlen)
      && var s2 := Step(s1, Do(op, request), qlen);
      && Coupled(s1) && Coupled(s2) && s2.todo == [] && Performs(s, [op], s2, qlen)
  {
    hide Performs, Replay, Apply;
    var s1 := Step(s, Begin([op]), qlen);
    assert [op][1..] == [];
    StepCoupled(s, Begin([op]), qlen);
    StepCoupled(s1, Do(op, request), qlen);
    PerformsNone(s, qlen);
    PerformsMore(s, [], s, Begin([op]), qlen);
    PerformsMore(s, [] + [], s1, Do(op, request), qlen);
    assert [] + [] + [op] == [op];
  }

  /** And one of two, if nothing comes between them. */
  lemma {:induction false} UnlockedTwo(s: State, op: Op, next: Op, r1: bool, r2: bool, qlen: nat)
    requires Coupled(s) && s.todo == [] && !s.requested && (s.flag ==> !r1 && !r2)
    ensures var s1 := Step(s, Begin([op, next]), qlen);
      && Enabled(s1, Do(op, r1), qlen)
      && var s2 := Step(s1, Do(op, r1), qlen);
      && s2.todo == [next] && Enabled(s2, Do(next, r2), qlen)
      && var s3 := Step(s2, Do(next, r2), qlen);
      && Coupled(s1) && Coupled(s2) && Coupled(s3) && s3.todo == [] && Performs(s, [op, next], s3, qlen)
  {
    hide Performs, Replay, Apply;
    var ops := [op, next];
    var s1 := Step(s, Begin(ops), qlen);
    assert ops[1..] == [next] && [next][1..] == [];
    StepCoupled(s, Begin(ops), qlen);
    StepCoupled(s1, Do(op, r1), qlen);
    var s2 := Step(s1, Do(op, r1), qlen);
    StepCoupled(s2, Do(next, r2), qlen);
    PerformsNone(s, qlen);
    PerformsMore(s, [], s, Begin(ops), qlen);
    PerformsMore(s, [] + [], s1, Do(op, r1), qlen);
    PerformsMore(s, [] + [] + [op], s2, Do(next, r2), qlen);
    assert [] + [] + [op] + [next] == ops;
  }

  // ---- The two ways of going wrong ------------------------------------------------------------

  function Then(a: Action, rest: seq<Action>): seq<Action> {
    [a] + rest
  }

  lemma {:induction false} ThenRun(s: State, a: Action, next: State, rest: seq<Action>, qlen: nat)
    requires Enabled(s, a, qlen) && next == Step(s, a, qlen) && Possible(next, rest, qlen)
    ensures Possible(s, Then(a, rest), qlen) && After(s, Then(a, rest), qlen) == After(next, rest, qlen)
    ensures MainOps(Then(a, rest)) == OpsOf(a) + MainOps(rest)
  {
    hide Enabled, Step, OpsOf;
    assert Then(a, rest)[1..] == rest;
  }

  lemma AtEnd(s: State, qlen: nat)
    ensures Possible(s, [], qlen) && After(s, [], qlen) == s && MainOps([]) == []
  {
  }

  /** The first operation of an unlocked round (the deletion of a downsampled insertion) asks for
      a rebuild, the old tree is copied, and only then comes the second one (the insertion). */
  function Losing(first: Op, next: Op): seq<Action> {
    Then(Begin([first, next]), Then(Do(first, true), Then(Copy, Then(Do(next, true), Then(Build, Then(Swap, []))))))
  }

  lemma {:induction false} LosingSteps(s: State, first: Op, next: Op, qlen: nat)
    requires s.phase.Idle? && s.inflight.None? && s.log == [] && !s.flag && !s.requested && s.todo == []
    requires Apply(first, s.live) != multiset{}
    ensures var run := Losing(first, next);
      && Possible(s, run, qlen) && MainOps(run) == [first, next]
      && After(s, run, qlen).phase.Idle? && After(s, run, qlen).live == Apply(first, s.live)
  {
    hide Possible, After, MainOps, Replay, Apply, Then;
    var ops, rest := [first, next], Apply(first, s.live);
    var s1 := s.(todo := ops, waiting := false);
    var s2 := s1.(live := rest, todo := ops[1..], requested := true);
    var s3 := s2.(phase := Copied, base := rest, flag := true);
    var s4 := s3.(live := Apply(next, rest), todo := ops[1..][1..]);
    var s5 := s4.(phase := Replaying);
    var s6 := s5.(phase := Idle, live := rest, base := multiset{}, requested := false);
    AtEnd(s6, qlen);
    ThenRun(s5, Swap, s6, [], qlen);
    var r5 := Then(Swap, []);
    ThenRun(s4, Build, s5, r5, qlen);
    var r4 := Then(Build, r5);
    ThenRun(s3, Do(next, true), s4, r4, qlen);
    var r3 := Then(Do(next, true), r4);
    ThenRun(s2, Copy, s3, r3, qlen);
    var r2 := Then(Copy, r3);
    ThenRun(s1, Do(first, true), s2, r2, qlen);
    ThenRun(s, Begin(ops), s1, Then(Do(first, true), r2), qlen);
  }

  /** After the swap the effect of the second operation is gone. */
  lemma {:induction false} LosingRun(s: State, first: Op, next: Op, qlen: nat)
    requires Coupled(s) && s.phase.Idle? && !s.flag && !s.requested && s.todo == []
    requires Apply(first, s.live) != multiset{}
    ensures var run := Losing(first, next);
      && Possible(s, run, qlen) && MainOps(run) == [first, next]
      && After(s, run, qlen).phase.Idle?
      && After(s, run, qlen).live == Apply(first, s.live)
      && Replay(MainOps(run), s.live) == Apply(next, Apply(first, s.live))
  {
    hide Possible, After, MainOps, Replay, Apply, Losing;
    LosingSteps(s, first, next, qlen);
    ReplayTwo(first, next, s.live);
  }

  /** A round waits for the lock while the trees are swapped and gets it before rebuild_flag is
      cleared. */
  function LateSection(op: Op): seq<Action> {
    Then(Begin([op]), Then(Swap, Then(Section([op]), Then(Clear, []))))
  }

  /** A rebuild is asked for in the course of an operation, and runs to its end. */
  function NextRebuild(op: Op): seq<Action> {
    Then(Begin([op]), Then(Do(op, true), Then(Copy, Then(Build, Then(Take, Then(Run, Then(Swap, [])))))))
  }

  lemma {:induction false} LateSectionRun(s: State, op: Op, qlen: nat)
    requires s.phase.Replaying? && s.inflight.None? && s.log == [] && s.todo == []
    requires s.base == s.live && s.requested && s.flag && qlen >= 1
    ensures var run := LateSection(op);
      && Possible(s, run, qlen) && MainOps(run) == [op]
      && After(s, run, qlen) == State(Apply(op, s.live), Idle, multiset{}, None, [op], false, false, [], true)
  {
    hide Possible, After, MainOps, Replay, Apply, Then;
    ReplayOne(op, s.live);
    var s1 := s.(todo := [op], waiting := true);
    var s2 := s1.(phase := Idle, live := s.live, base := multiset{}, requested := false);
    var s3 := s2.(live := Apply(op, s.live), todo := [], log := [op]);
    var s4 := s3.(flag := false);
    AtEnd(s4, qlen);
    ThenRun(s3, Clear, s4, [], qlen);
    var r3 := Then(Clear, []);
    ThenRun(s2, Section([op]), s3, r3, qlen);
    var r2 := Then(Section([op]), r3);
    ThenRun(s1, Swap, s2, r2, qlen);
    ThenRun(s, Begin([op]), s1, Then(Swap, r2), qlen);
  }

  lemma {:induction false} NextRebuildRun(s: State, missed: Op, op: Op, qlen: nat)
    requires s.phase.Idle? && s.inflight.None? && s.log == [missed]
    requires !s.requested && !s.flag && s.todo == [] && Apply(op, s.live) != multiset{}
    ensures var run := NextRebuild(op);
      && Possible(s, run, qlen) && MainOps(run) == [op]
      && After(s, run, qlen).live == Apply(missed, Apply(op, s.live)) && After(s, run, qlen).phase.Idle?
  {
    hide Possible, After, MainOps, Replay, Apply, Then;
    var m := Apply(op, s.live);
    var s1 := s.(todo := [op], waiting := false);
    var s2 := s1.(live := m, todo := [], requested := true);
    var s3 := s2.(phase := Copied, base := m, flag := true);
    var s4 := s3.(phase := Replaying);
    var s5 := s4.(inflight := Some(missed), log := []);
    var s6 := s5.(inflight := None, base := Apply(missed, m));
    var s7 := s6.(phase := Idle, live := s6.base, base := multiset{}, requested := false);
    AtEnd(s7, qlen);
    ThenRun(s6, Swap, s7, [], qlen);
    var r6 := Then(Swap, []);
    ThenRun(s5, Run, s6, r6, qlen);
    var r5 := Then(Run, r6);
    ThenRun(s4, Take, s5, r5, qlen);
    var r4 := Then(Take, r5);
    ThenRun(s3, Build, s4, r4, qlen);
    var r3 := Then(Build, r4);
    ThenRun(s2, Copy, s3, r3, qlen);
    var r2 := Then(Copy, r3);
    ThenRun(s1, Do(op, true), s2, r2, qlen);
    ThenRun(s, Begin([op]), s1, Then(Do(op, true), r2), qlen);
  }

  /** Afterwards the first operation has been carried out twice: an inserted point is there
      twice. */
  lemma {:induction false} DuplicatingRun(s: State, p: Point, q: Point, qlen: nat)
    requires Coupled(s) && s.phase.Replaying? && s.inflight.None? && s.log == [] && s.todo == []
    requires qlen >= 1
    ensures var run := LateSection(AddPoint(p)) + NextRebuild(AddPoint(q));
      && Possible(s, run, qlen) && MainOps(run) == [AddPoint(p), AddPoint(q)]
      && After(s, run, qlen).phase.Idle?
      && After(s, run, qlen).live == s.live + multiset{p} + multiset{q} + multiset{p}
      && Replay(MainOps(run), s.live) == s.live + multiset{p} + multiset{q}
  {
    assert Pending(s) == [];
    hide Possible, After, MainOps, LateSection, NextRebuild;
    var a, b := AddPoint(p), AddPoint(q);
    LateSectionRun(s, a, qlen);
    NextRebuildRun(After(s, LateSection(a), qlen), a, b, qlen);
    AfterAppend(s, LateSection(a), NextRebuild(b), qlen);
    assert [a] + [b] == [a, b];
    ReplayTwo(a, b, s.live);
  }
}
