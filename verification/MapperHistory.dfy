/** What the static-map builder exports, over whole runs of clouds, exports and resets. */
module MapperHistory {
  import opened Prelude
  import opened MapperState

  /** A sample as it was taken: with the generation of its occupancy voxel at that moment. */
  datatype Entry = Entry(fineKey: Key, occKey: Key, gen: nat, value: Value)

  datatype Event =
    | Cloud(ps: seq<Sample>, rays: seq<seq<Key>>, stamp: Time)
    | Export(visible: bool)
    | Reset

  function Step(s: State, e: Event, c: Config): State {
    match e
    case Cloud(ps, rays, stamp) => AfterCloud(s, ps, rays, stamp, c)
    case Export(_) => AfterExport(s)
    case Reset => AfterReset(s)
  }

  // ---- The log of samples ------------------------------------------------------------------

  function EntryOf(s: State, p: Sample, stamp: Time, c: Config): Entry {
    Entry(p.fineKey, p.occKey, AfterHit(s, p.occKey, stamp, c).occ[p.occKey].generation, p.value)
  }

  function Entries(s: State, ps: seq<Sample>, stamp: Time, c: Config): seq<Entry> {
    if ps == [] then []
    else
      var front := ps[..|ps| - 1];
      Entries(s, front, stamp, c) + [EntryOf(TakeSamples(s, front, stamp, c), ps[|ps| - 1], stamp, c)]
  }

  /** All samples since the last reset; exports leave no trace in it. */
  function Logged(s: State, log: seq<Entry>, e: Event, c: Config): seq<Entry> {
    match e
    case Cloud(ps, _, stamp) => log + Entries(s.(scan := s.scan + 1), ps, stamp, c)
    case Export(_) => log
    case Reset => []
  }

  /** The latest run of a fine voxel: its samples since its generation last changed. */
  function LatestRun(log: seq<Entry>, k: Key): seq<Entry> {
    if log == [] then []
    else
      var e, run := log[|log| - 1], LatestRun(log[..|log| - 1], k);
      if e.fineKey != k then run
      else if run != [] && run[|run| - 1].gen == e.gen then run + [e]
      else [e]
  }

  function Total(run: seq<Entry>): Value {
    if run == [] then ZERO else Plus(Total(run[..|run| - 1]), run[|run| - 1].value)
  }

  /** The fine voxel that a run of samples amounts to. */
  function Summed(run: seq<Entry>): Fine
    requires run != []
  {
    var e := run[|run| - 1];
    Fine(Total(run), |run|, e.occKey, e.gen)
  }

  // ---- Invariants ------------------------------------------------------------------------------

  /** Generations are unique for ever: among stored voxels, and between a stored voxel and
      every sample ever logged under another key. */
  ghost predicate Generations(s: State, log: seq<Entry>) {
    && (forall k :: k in s.occ ==> s.occ[k].generation < s.nextGen)
    && (forall k, l :: k in s.occ && l in s.occ && s.occ[k].generation == s.occ[l].generation
          ==> k == l)
    && (forall e :: e in log ==> e.gen < s.nextGen)
    && (forall e, k :: e in log && k in s.occ && s.occ[k].generation == e.gen ==> k == e.occKey)
    && (forall e, f :: e in log && f in log && e.gen == f.gen ==> e.occKey == f.occKey)
  }

  /** Every stored fine voxel holds exactly its latest run of samples, and no run whose
      occupancy voxel still exists has been lost. */
  ghost predicate Represents(s: State, log: seq<Entry>) {
    forall k :: Represented(s, log, k)
  }

  ghost predicate Represented(s: State, log: seq<Entry>, k: Key) {
    var run := LatestRun(log, k);
    && (k in s.fine ==> run != [] && s.fine[k] == Summed(run))
    && (run != [] && Current(s.occ, Summed(run)) ==> k in s.fine)
  }

  ghost predicate Good(s: State, log: seq<Entry>) {
    Generations(s, log) && Represents(s, log)
  }

  lemma {:induction false} RunEntries(log: seq<Entry>, k: Key)
    ensures forall e :: e in LatestRun(log, k) ==> e in log && e.fineKey == k
    ensures var run := LatestRun(log, k);
      forall e :: e in run ==> e.gen == run[|run| - 1].gen
  {
    if log != [] {
      RunEntries(log[..|log| - 1], k);
    }
  }

  // ---- Every step keeps the invariants ---------------------------------------------------------

  lemma {:induction false} HitGenerations(s: State, log: seq<Entry>, p: Sample, stamp: Time, c: Config)
    requires Generations(s, log)
    ensures Generations(AfterHit(s, p.occKey, stamp, c), log + [EntryOf(s, p, stamp, c)])
  {
    hide RMin;
  }

  /** A hit changes neither which logged samples are current nor the fine map. */
  lemma {:induction false} HitCurrent(s: State, log: seq<Entry>, key: Key, stamp: Time, c: Config, e: Entry)
    requires Generations(s, log) && e in log
    ensures var f := Fine(ZERO, 0, e.occKey, e.gen);
      Current(AfterHit(s, key, stamp, c).occ, f) == Current(s.occ, f)
  {
    hide RMin;
  }

  lemma SummedAppend(run: seq<Entry>, e: Entry)
    ensures run != [] && run[|run| - 1].gen == e.gen && run[|run| - 1].occKey == e.occKey ==>
      Summed(run + [e]) == Accumulate(Summed(run), e.value)
    ensures Summed([e]) == Accumulate(StartRun(e.occKey, e.gen), e.value)
  {
    assert (run + [e])[..|run|] == run;
    assert [e][..0] == [] && Total([e]) == Plus(Total([e][..0]), e.value);
  }

  lemma {:induction false} SampleRepresented(s: State, log: seq<Entry>, p: Sample, stamp: Time,
                                             c: Config, k: Key)
    requires Good(s, log)
    ensures Represented(TakeSample(s, p, stamp, c), log + [EntryOf(s, p, stamp, c)], k)
  {
    hide HitOcc, Total;
    var s1, e := AfterHit(s, p.occKey, stamp, c), EntryOf(s, p, stamp, c);
    var run := LatestRun(log, k);
    assert (log + [e])[..|log + [e]| - 1] == log;
    assert Represented(s, log, k);
    SummedAppend(run, e);
    if run != [] {
      var last := run[|run| - 1];
      RunEntries(log, k);
      assert last in run;
      HitCurrent(s, log, p.occKey, stamp, c, last);
      if k == p.fineKey && last.gen == e.gen {
        HitGenerations(s, log, p, stamp, c);
        assert last in log + [e] && e in log + [e];
        assert last.occKey == e.occKey;
      }
    }
  }

  lemma {:induction false} SamplesGood(s: State, log: seq<Entry>, ps: seq<Sample>, stamp: Time, c: Config)
    requires Good(s, log)
    ensures Good(TakeSamples(s, ps, stamp, c), log + Entries(s, ps, stamp, c))
  {
    hide Generations, Represented, HitOcc, AfterHit;
    if ps == [] {
      assert log + [] == log;
    } else {
      var front, p := ps[..|ps| - 1], ps[|ps| - 1];
      SamplesGood(s, log, front, stamp, c);
      var s1, log1 := TakeSamples(s, front, stamp, c), log + Entries(s, front, stamp, c);
      SampleGood(s1, log1, p, stamp, c);
      assert log1 + [EntryOf(s1, p, stamp, c)] == log + Entries(s, ps, stamp, c);
    }
  }

  lemma {:induction false} SampleGood(s: State, log: seq<Entry>, p: Sample, stamp: Time, c: Config)
    requires Good(s, log)
    ensures Good(TakeSample(s, p, stamp, c), log + [EntryOf(s, p, stamp, c)])
  {
    hide Represented, HitOcc;
    HitGenerations(s, log, p, stamp, c);
    forall k ensures Represented(TakeSample(s, p, stamp, c), log + [EntryOf(s, p, stamp, c)], k) {
      SampleRepresented(s, log, p, stamp, c, k);
    }
  }

  /** occ' lost voxels or changed their evidence, but made none and moved no generation. */
  ghost predicate Shrunk(occ: map<Key, Occ>, occ': map<Key, Occ>) {
    forall k :: k in occ' ==> k in occ && occ'[k].generation == occ[k].generation
  }

  lemma {:induction false} ShrunkGood(s: State, log: seq<Entry>, s': State)
    requires Good(s, log)
    requires Shrunk(s.occ, s'.occ) && s'.fine == s.fine && s'.nextGen == s.nextGen
    ensures Good(s', log)
  {
    forall k ensures Represented(s', log, k) {
      assert Represented(s, log, k);
    }
  }

  lemma MissesShrink(occ: map<Key, Occ>, missed: set<Key>, scan: nat, stamp: Time, c: Config)
    ensures Shrunk(occ, AfterMisses(occ, missed, scan, stamp, c))
  {
  }

  lemma CleanupShrinks(s: State, now: Time, c: Config)
    ensures Shrunk(s.occ, AfterCleanup(s, now, c).occ)
  {
  }

  lemma {:induction false} ExportGood(s: State, log: seq<Entry>)
    requires Good(s, log)
    ensures Good(AfterExport(s), log)
  {
    forall k ensures Represented(AfterExport(s), log, k) {
      assert Represented(s, log, k);
    }
  }

  lemma {:induction false} CloudGood(s: State, log: seq<Entry>, ps: seq<Sample>,
                                     rays: seq<seq<Key>>, stamp: Time, c: Config)
    requires Good(s, log)
    ensures Good(AfterCloud(s, ps, rays, stamp, c),
                 log + Entries(s.(scan := s.scan + 1), ps, stamp, c))
  {
    hide Good, Shrunk, AfterMisses, AfterCleanup;
    var s0 := s.(scan := s.scan + 1);
    RescanGood(s, log, s.scan + 1);
    SamplesGood(s0, log, ps, stamp, c);
    var s1, log1 := TakeSamples(s0, ps, stamp, c), log + Entries(s0, ps, stamp, c);
    var missed := Visited(rays) - Occupied(ps);
    var s2 := s1.(occ := AfterMisses(s1.occ, missed, s1.scan, stamp, c));
    MissesShrink(s1.occ, missed, s1.scan, stamp, c);
    ShrunkGood(s1, log1, s2);
    CleanupShrinks(s2, stamp, c);
    CleanupKeeps(s2, stamp, c);
    ShrunkGood(s2, log1, AfterCleanup(s2, stamp, c));
  }

  lemma ResetGood(s: State)
    ensures Good(AfterReset(s), [])
  {
    forall k ensures Represented(AfterReset(s), [], k) {}
  }

  /** The invariants hold in every reachable state, across resets too. */
  lemma {:induction false} StepGood(s: State, log: seq<Entry>, e: Event, c: Config)
    requires Good(s, log)
    ensures Good(Step(s, e, c), Logged(s, log, e, c))
  {
    hide Good, AfterCloud, AfterExport, AfterReset, Entries;
    match e
    case Cloud(ps, rays, stamp) => CloudGood(s, log, ps, rays, stamp, c);
    case Export(_) => ExportGood(s, log);
    case Reset => ResetGood(s);
  }

  lemma RescanGood(s: State, log: seq<Entry>, scan: nat)
    requires Good(s, log)
    ensures Good(s.(scan := scan), log)
  {
    forall k ensures Represented(s.(scan := scan), log, k) {
      assert Represented(s, log, k);
    }
  }

  lemma CleanupKeeps(s: State, now: Time, c: Config)
    ensures AfterCleanup(s, now, c).fine == s.fine && AfterCleanup(s, now, c).nextGen == s.nextGen
  {
  }

  lemma InitialGood()
    ensures Good(Initial(), [])
  {
    forall k ensures Represented(Initial(), [], k) {}
  }

  // ---- Exports are a function of the log ---------------------------------------------------------

  function LoggedKeys(log: seq<Entry>): set<Key> {
    set e | e in log :: e.fineKey
  }

  /** The export that the log and the occupancy grid call for. */
  function ExportOf(occ: map<Key, Occ>, log: seq<Entry>, c: Config): map<Key, Fine> {
    map k | k in LoggedKeys(log) && LatestRun(log, k) != []
            && Exportable(occ, Summed(LatestRun(log, k)), c) :: Summed(LatestRun(log, k))
  }

  /** buildMapCloud exports exactly the latest runs of samples whose occupancy voxel still
      exists, unchanged in generation, and is static. */
  lemma {:induction false} ExportIsOfLog(s: State, log: seq<Entry>, c: Config)
    requires Good(s, log)
    ensures Exported(s, c) == ExportOf(s.occ, log, c)
  {
    var a, b := Exported(s, c), ExportOf(s.occ, log, c);
    forall k ensures (k in a <==> k in b) && (k in a ==> a[k] == b[k]) {
      assert Represented(s, log, k);
      var run := LatestRun(log, k);
      RunEntries(log, k);
      if run != [] {
        assert run[|run| - 1] in run;
        assert run[|run| - 1].fineKey in LoggedKeys(log);
      }
    }
  }

  // ---- Extra exports are invisible -------------------------------------------------------------

  function Strip(run: seq<Event>): seq<Event> {
    if run == [] then []
    else (if run[0].Export? && !run[0].visible then [] else [run[0]]) + Strip(run[1..])
  }

  /** The maps exported by the visible exports of a run, in order. */
  function Exports(s: State, run: seq<Event>, c: Config): seq<map<Key, Fine>>
    decreases |run|
  {
    if run == [] then []
    else
      var shown := if run[0].Export? && run[0].visible then [Exported(s, c)] else [];
      shown + Exports(Step(s, run[0], c), run[1..], c)
  }

  /** Two states that differ at most in fine voxels that no export will ever show again. */
  ghost predicate Twins(s: State, t: State, log: seq<Entry>) {
    && Good(s, log) && Good(t, log)
    && t == s.(fine := t.fine)
  }

  /** The occupancy grid, the counters and the log evolve without a look at the fine map. */
  lemma {:induction false} SamplesIgnoreFine(s: State, t: State, ps: seq<Sample>, stamp: Time, c: Config)
    requires t == s.(fine := t.fine)
    ensures var s', t' := TakeSamples(s, ps, stamp, c), TakeSamples(t, ps, stamp, c);
      t' == s'.(fine := t'.fine)
    ensures Entries(s, ps, stamp, c) == Entries(t, ps, stamp, c)
  {
    hide HitOcc;
    if ps != [] {
      SamplesIgnoreFine(s, t, ps[..|ps| - 1], stamp, c);
    }
  }

  lemma {:induction false} StepTwins(s: State, t: State, log: seq<Entry>, e: Event, c: Config)
    requires Twins(s, t, log)
    ensures Twins(Step(s, e, c), Step(t, e, c), Logged(s, log, e, c))
  {
    hide Good, AfterMisses, HitOcc, TakeSamples, Entries;
    StepGood(s, log, e, c);
    StepGood(t, log, e, c);
    if e.Cloud? {
      SamplesIgnoreFine(s.(scan := s.scan + 1), t.(scan := t.scan + 1), e.ps, e.stamp, c);
    }
  }

  /** A run with exports inserted at arbitrary moments shows the same maps at its other
      exports as the run without them: the garbage collection of an export is invisible. */
  lemma {:induction false} ExtraExportsInvisible(s: State, t: State, log: seq<Entry>,
                                                 run: seq<Event>, c: Config)
    requires Twins(s, t, log)
    ensures Exports(s, run, c) == Exports(t, Strip(run), c)
    decreases |run|
  {
    hide Good, Step, Exported, ExportOf;
    if run != [] {
      var e := run[0];
      if e.Export? && !e.visible {
        StepGood(s, log, e, c);
        ExportKeeps(s, e, c);
        assert Logged(s, log, e, c) == log;
        assert Strip(run) == Strip(run[1..]);
        ExtraExportsInvisible(Step(s, e, c), t, log, run[1..], c);
      } else {
        ExportIsOfLog(s, log, c);
        ExportIsOfLog(t, log, c);
        StepTwins(s, t, log, e, c);
        ExtraExportsInvisible(Step(s, e, c), Step(t, e, c), Logged(s, log, e, c), run[1..], c);
        assert Strip(run)[0] == e && Strip(run)[1..] == Strip(run[1..]);
      }
    }
  }

  lemma ExportKeeps(s: State, e: Event, c: Config)
    requires e.Export?
    ensures Step(s, e, c) == s.(fine := Step(s, e, c).fine)
  {
  }

  /** Two exports in a row are equal. */
  lemma {:induction false} ExportTwice(s: State, log: seq<Entry>, c: Config)
    requires Good(s, log)
    ensures Exported(AfterExport(s), c) == Exported(s, c)
  {
    hide Good, Exported, ExportOf;
    ExportGood(s, log);
    ExportIsOfLog(s, log, c);
    ExportIsOfLog(AfterExport(s), log, c);
  }

  // ---- No resurrection ---------------------------------------------------------------------------

  /** Generation g was given out and no stored voxel has it. */
  ghost predicate Dead(s: State, g: nat) {
    g < s.nextGen && forall k :: k in s.occ ==> s.occ[k].generation != g
  }

  lemma {:induction false} SamplesStayDead(s: State, ps: seq<Sample>, stamp: Time, c: Config, g: nat)
    requires Dead(s, g)
    ensures Dead(TakeSamples(s, ps, stamp, c), g)
  {
    hide RMin;
    if ps != [] {
      SamplesStayDead(s, ps[..|ps| - 1], stamp, c, g);
    }
  }

  lemma {:induction false} StepStaysDead(s: State, e: Event, c: Config, g: nat)
    requires Dead(s, g)
    ensures Dead(Step(s, e, c), g)
  {
    hide TakeSamples, AfterMisses, AfterCleanup, Visited, Occupied;
    if e.Cloud? {
      var s0 := s.(scan := s.scan + 1);
      SamplesStayDead(s0, e.ps, e.stamp, c, g);
      var s1 := TakeSamples(s0, e.ps, e.stamp, c);
      var missed := Visited(e.rays) - Occupied(e.ps);
      MissesShrink(s1.occ, missed, s1.scan, e.stamp, c);
      var s2 := s1.(occ := AfterMisses(s1.occ, missed, s1.scan, e.stamp, c));
      CleanupShrinks(s2, e.stamp, c);
      CleanupKeeps(s2, e.stamp, c);
    }
  }

  /** Clearing, expiry or a reset of a voxel kills its generation, even if the voxel is
      stored again at once. */
  lemma {:induction false} LostIsDead(s: State, log: seq<Entry>, e: Event, c: Config, k: Key)
    requires Good(s, log) && k in s.occ
    requires var s' := Step(s, e, c);
      k !in s'.occ || s'.occ[k].generation != s.occ[k].generation
    ensures Dead(Step(s, e, c), s.occ[k].generation)
  {
    hide Represents, TakeSamples, AfterMisses, AfterCleanup, Visited, Occupied;
    if e.Cloud? {
      var s0 := s.(scan := s.scan + 1);
      SamplesKeepGeneration(s0, e.ps, e.stamp, c);
      var s1 := TakeSamples(s0, e.ps, e.stamp, c);
      var missed := Visited(e.rays) - Occupied(e.ps);
      MissesShrink(s1.occ, missed, s1.scan, e.stamp, c);
      var s2 := s1.(occ := AfterMisses(s1.occ, missed, s1.scan, e.stamp, c));
      CleanupShrinks(s2, e.stamp, c);
      CleanupKeeps(s2, e.stamp, c);
    }
  }

  /** Hits keep stored voxels; voxels they make get generations never used before. */
  lemma {:induction false} SamplesKeepGeneration(s: State, ps: seq<Sample>, stamp: Time, c: Config)
    ensures var s' := TakeSamples(s, ps, stamp, c);
      && s'.nextGen >= s.nextGen
      && (forall k :: k in s.occ ==> k in s'.occ && s'.occ[k].generation == s.occ[k].generation)
      && (forall k :: k in s'.occ && k !in s.occ ==> s'.occ[k].generation >= s.nextGen)
  {
    hide RMin;
    if ps != [] {
      SamplesKeepGeneration(s, ps[..|ps| - 1], stamp, c);
    }
  }

  lemma {:induction false} DeadNeverExported(s: State, run: seq<Event>, c: Config, g: nat, i: nat)
    requires Dead(s, g) && i < |Exports(s, run, c)|
    ensures forall k :: k in Exports(s, run, c)[i] ==> Exports(s, run, c)[i][k].occGen != g
    decreases |run|
  {
    hide Step;
    var e := run[0];
    StepStaysDead(s, e, c, g);
    if !(e.Export? && e.visible) {
      DeadNeverExported(Step(s, e, c), run[1..], c, g, i);
    } else if i > 0 {
      DeadNeverExported(Step(s, e, c), run[1..], c, g, i - 1);
    }
  }

  /** No resurrection: once an occupancy voxel is cleared, expired or reset, no later export
      of any run shows a fine voxel of its generation. */
  lemma {:induction false} NoResurrection(s: State, log: seq<Entry>, e: Event, c: Config, k: Key,
                                          later: seq<Event>, i: nat)
    requires Good(s, log) && k in s.occ
    requires var s' := Step(s, e, c);
      k !in s'.occ || s'.occ[k].generation != s.occ[k].generation
    requires i < |Exports(Step(s, e, c), later, c)|
    ensures var shown := Exports(Step(s, e, c), later, c)[i];
      forall f :: f in shown ==> shown[f].occGen != s.occ[k].generation
  {
    hide Good, Step;
    LostIsDead(s, log, e, c, k);
    DeadNeverExported(Step(s, e, c), later, c, s.occ[k].generation, i);
  }

  /** All samples behind an exported voxel were taken under the generation it records. */
  lemma {:induction false} ExportedSamples(s: State, log: seq<Entry>, c: Config, k: Key)
    requires Good(s, log) && k in Exported(s, c)
    ensures var f, run := Exported(s, c)[k], LatestRun(log, k);
      && run != [] && f == Summed(run)
      && forall e :: e in run ==> e in log && e.fineKey == k && e.gen == f.occGen
  {
    assert Represented(s, log, k);
    RunEntries(log, k);
  }
}
