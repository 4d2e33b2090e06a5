/** What the log-odds of a stored voxel are made of: one verdict of each scan that hit it or saw
    through it, in order; and what follows for the exported map. */
module MapperVerdicts {
  import opened Prelude
  import opened MapperState
  import opened MapperHistory
  import opened MapperEvidence
  import M = Mapper

  /** A scan judged a voxel: a point hit it, or a ray went through it and no point hit it. */
  datatype Verdict = Verdict(hit: bool, stamp: Time)

  /** The verdicts on every stored voxel in its current lifetime, oldest first. */
  type Verdicts = map<Key, seq<Verdict>>

  function StepVerdicts(s: State, v: Verdicts, e: Event, c: Config): Verdicts {
    match e
    case Cloud(ps, rays, stamp) =>
      map k | k in Step(s, e, c).occ ::
        (if k in v then v[k] else [])
        + (if k in Occupied(ps) then [Verdict(true, stamp)]
           else if k in Visited(rays) then [Verdict(false, stamp)] else [])
    case Export(_) => v
    case Reset => map[]
  }

  function HitsIn(v: seq<Verdict>): nat {
    if v == [] then 0 else HitsIn(v[..|v| - 1]) + (if v[|v| - 1].hit then 1 else 0)
  }

  /** The sum of the verdicts' weights, held between -4 and 4 at every one of them. */
  function Weight(v: seq<Verdict>, c: Config): real {
    if v == [] then 0.0
    else
      var before := Weight(v[..|v| - 1], c);
      if v[|v| - 1].hit then RMin(4.0, before + c.hit) else RMax(-4.0, before + c.miss)
  }

  predicate Weighed(o: Occ, v: seq<Verdict>, c: Config) {
    && v != [] && o.lastSeen == v[|v| - 1].stamp
    && o.logOdds == Weight(v, c) && o.hitScans == HitsIn(v) && o.missScans == |v| - HitsIn(v)
  }

  ghost predicate AllWeighed(s: State, v: Verdicts, c: Config) {
    v.Keys == s.occ.Keys && forall k :: k in s.occ ==> Weighed(s.occ[k], v[k], c)
  }

  /** What a cloud's points do to the record of a voxel that this scan has not hit yet. */
  lemma {:induction false} HitOnce(s: State, ps: seq<Sample>, stamp: Time, c: Config, k: Key)
    requires k in s.occ ==> s.occ[k].lastHitScan != Some(s.scan)
    ensures var s' := TakeSamples(s, ps, stamp, c);
      k in s'.occ ==>
        var o := if k in s.occ then s.occ[k] else FreshOcc(0);
        var hit := if k in Occupied(ps) then 1 else 0;
        && s'.occ[k].logOdds == (if hit == 1 then RMin(MAX_LOG_ODDS, o.logOdds + c.hit) else o.logOdds)
        && s'.occ[k].hitScans == o.hitScans + hit && s'.occ[k].missScans == o.missScans
        && s'.occ[k].lastSeen == (if hit == 1 then stamp else o.lastSeen)
  {
    hide RMin;
    if ps != [] {
      var front, p := ps[..|ps| - 1], ps[|ps| - 1];
      HitOnce(s, front, stamp, c, k);
      HitsTouch(s, front, stamp, c, k);
      assert ps == front + [p];
      assert k in Occupied(ps) <==> k in Occupied(front) || k == p.occKey;
    }
  }

  lemma {:induction false} OneVerdict(v: seq<Verdict>, x: Verdict, c: Config)
    ensures HitsIn(v + [x]) == HitsIn(v) + if x.hit then 1 else 0
    ensures Weight(v + [x], c) == if x.hit then RMin(4.0, Weight(v, c) + c.hit) else RMax(-4.0, Weight(v, c) + c.miss)
  {
    assert (v + [x])[..|v|] == v;
  }

  lemma NoVerdict(c: Config)
    ensures HitsIn([]) == 0 && Weight([], c) == 0.0
  {
  }

  /** What a whole cloud does to the record of a voxel that is there afterwards. */
  lemma {:induction false} CloudRecord(s: State, ps: seq<Sample>, rays: seq<seq<Key>>, stamp: Time, c: Config, k: Key)
    requires ScansApart(s) && k in AfterCloud(s, ps, rays, stamp, c).occ
    ensures var o := if k in s.occ then s.occ[k] else FreshOcc(0);
      var o' := AfterCloud(s, ps, rays, stamp, c).occ[k];
      && (k in s.occ || k in Occupied(ps))
      && (if k in Occupied(ps) then
            && o'.logOdds == RMin(MAX_LOG_ODDS, o.logOdds + c.hit) && o'.lastSeen == stamp
            && o'.hitScans == o.hitScans + 1 && o'.missScans == o.missScans
          else if k in Visited(rays) then
            && o'.logOdds == RMax(MIN_LOG_ODDS, o.logOdds + c.miss) && o'.lastSeen == stamp
            && o'.hitScans == o.hitScans && o'.missScans == o.missScans + 1
          else
            && o'.logOdds == o.logOdds && o'.lastSeen == o.lastSeen
            && o'.hitScans == o.hitScans && o'.missScans == o.missScans)
  {
    hide TakeSamples, Visited, Occupied, RMax, RMin, Expired, CleanupDue;
    var s0 := s.(scan := s.scan + 1);
    assert k in s.occ ==> Apart(s.occ[k], s.scan);
    HitsTouch(s0, ps, stamp, c, k);
    HitOnce(s0, ps, stamp, c, k);
    OneMissEach(s, ps, rays, stamp, c, k);
  }

  lemma {:induction false} CloudWeighed(s: State, v: Verdicts, ps: seq<Sample>, rays: seq<seq<Key>>, stamp: Time,
                                        c: Config, k: Key)
    requires ScansApart(s) && AllWeighed(s, v, c) && k in AfterCloud(s, ps, rays, stamp, c).occ
    ensures Weighed(AfterCloud(s, ps, rays, stamp, c).occ[k], StepVerdicts(s, v, Cloud(ps, rays, stamp), c)[k], c)
  {
    hide AfterCloud, Visited, Occupied, ScansApart, RMax, RMin, HitsIn, Weight;
    var past := if k in v then v[k] else [];
    CloudRecord(s, ps, rays, stamp, c, k);
    OneVerdict(past, Verdict(true, stamp), c);
    OneVerdict(past, Verdict(false, stamp), c);
    NoVerdict(c);
    assert past + [] == past;
  }

  /** Whatever stamps and configuration: every step keeps the log-odds of every stored voxel the
      held sum of its verdicts, its two counters their numbers, and its last_seen the stamp of
      the last one. */
  lemma {:induction false} StepWeighed(s: State, v: Verdicts, e: Event, c: Config)
    requires ScansApart(s) && AllWeighed(s, v, c)
    ensures AllWeighed(Step(s, e, c), StepVerdicts(s, v, e, c), c)
  {
    hide AfterCloud, Weighed;
    if e.Cloud? {
      var s', v' := Step(s, e, c), StepVerdicts(s, v, e, c);
      assert v'.Keys == s'.occ.Keys;
      forall k | k in s'.occ ensures Weighed(s'.occ[k], v'[k], c) {
        CloudWeighed(s, v, e.ps, e.rays, e.stamp, c, k);
      }
    }
  }

  // ---- Whole runs ----------------------------------------------------------------------------

  function VerdictsAfter(w: World, v: Verdicts, run: seq<Event>, c: Config): Verdicts
    decreases |run|
  {
    if run == [] then v
    else VerdictsAfter(StepWorld(w, run[0], c), StepVerdicts(w.s, v, run[0], c), run[1..], c)
  }

  lemma {:induction false} RunWeighed(w: World, v: Verdicts, run: seq<Event>, c: Config)
    requires ScansApart(w.s) && AllWeighed(w.s, v, c)
    ensures AllWeighed(RunWorld(w, run, c).s, VerdictsAfter(w, v, run, c), c)
    decreases |run|
  {
    hide ScansApart, AllWeighed, Step, Logged, StepHits, StepVerdicts;
    if run != [] {
      StepApart(w.s, run[0], c);
      StepWeighed(w.s, v, run[0], c);
      RunWeighed(StepWorld(w, run[0], c), StepVerdicts(w.s, v, run[0], c), run[1..], c);
    }
  }

  lemma InitialWeighed(c: Config)
    ensures AllWeighed(Initial(), map[], c)
  {
  }

  lemma {:induction false} WeighedFromStart(run: seq<Event>, c: Config)
    ensures AllWeighed(RunWorld(NothingYet(), run, c).s, VerdictsAfter(NothingYet(), map[], run, c), c)
  {
    hide RunWorld, AllWeighed, ScansApart;
    InitialApart();
    InitialWeighed(c);
    RunWeighed(NothingYet(), map[], run, c);
  }

  /** Hits accumulate: without a miss the weight is the number of hits times the weight of one,
      up to 4. */
  lemma {:induction false} OnlyHits(v: seq<Verdict>, c: Config)
    requires HitsIn(v) == |v| && c.hit > 0.0
    ensures Weight(v, c) == RMin(4.0, |v| as real * c.hit)
  {
    if v != [] {
      var front := v[..|v| - 1];
      AtMostAll(front);
      OnlyHits(front, c);
      assert |v| as real * c.hit == |front| as real * c.hit + c.hit;
    }
  }

  lemma AtMostAll(v: seq<Verdict>)
    ensures HitsIn(v) <= |v|
  {
  }

  lemma {:induction false} NeverMissed(o: Occ, v: seq<Verdict>, c: Config)
    requires Weighed(o, v, c) && o.missScans == 0 && c.hit > 0.0
    ensures o.logOdds == RMin(4.0, o.hitScans as real * c.hit)
  {
    hide Weight, HitsIn;
    OnlyHits(v, c);
    assert o.hitScans == |v|;
  }

  /** In every reachable state, whatever the stamps: a voxel that has never been missed has the
      log-odds of its hits, up to 4. */
  lemma {:induction false} HitsAccumulate(run: seq<Event>, c: Config, k: Key)
    requires c.hit > 0.0 && k in RunWorld(NothingYet(), run, c).s.occ
    ensures var o := RunWorld(NothingYet(), run, c).s.occ[k];
      o.missScans == 0 ==> o.logOdds == RMin(4.0, o.hitScans as real * c.hit)
  {
    hide RunWorld, VerdictsAfter, Weighed, RMin;
    WeighedFromStart(run, c);
    var s, v := RunWorld(NothingYet(), run, c).s, VerdictsAfter(NothingYet(), map[], run, c);
    if s.occ[k].missScans == 0 { NeverMissed(s.occ[k], v[k], c); }
  }

  // ---- What is exported ----------------------------------------------------------------------

  /** At least min_hit_scans hits over at least min_observation_span and no miss; so many hits
      weigh enough. */
  ghost predicate Supported(h: seq<Hit>, v: seq<Verdict>, c: Config) {
    && (forall i :: 0 <= i < |v| ==> v[i].hit)
    && h != [] && |h| >= c.minHits && h[|h| - 1].stamp - h[0].stamp >= c.minSpan
    && |h| as real * c.hit >= c.occupied && 4.0 >= c.occupied
  }

  /** Such a voxel is static. */
  lemma {:induction false} SupportedIsStatic(o: Occ, h: seq<Hit>, v: seq<Verdict>, scan: nat, c: Config)
    requires Told(o, h, scan, c) && Weighed(o, v, c) && c.hit > 0.0
    requires Supported(h, v, c)
    ensures IsStatic(o, c)
  {
    hide Weight, HitsIn;
    AllHits(v);
    OnlyHits(v, c);
    assert |v| == |h|;
  }

  /** Such a voxel is exported, with all the samples of its current lifetime. */
  lemma {:induction false} SupportedIsExported(s: State, log: seq<Entry>, h: Hits, v: Verdicts, c: Config,
                                               k: Key, f: Key)
    requires Good(s, log) && AllTold(s, h, c) && AllWeighed(s, v, c) && c.hit > 0.0
    requires k in s.occ && Supported(h[k], v[k], c)
    ensures IsStatic(s.occ[k], c)
    ensures var run := LatestRun(log, f);
      run != [] && run[|run| - 1].occKey == k && run[|run| - 1].gen == s.occ[k].generation ==>
        f in Exported(s, c) && Exported(s, c)[f] == Summed(run)
  {
    hide Good, Weighed, Told, LatestRun, Exported, ExportOf, IsStatic, Supported;
    SupportedIsStatic(s.occ[k], h[k], v[k], s.scan, c);
    ExportIsOfLog(s, log, c);
    var run := LatestRun(log, f);
    if run != [] && run[|run| - 1].occKey == k && run[|run| - 1].gen == s.occ[k].generation {
      InExport(s.occ, log, c, f);
    }
  }

  /** So after any run from the start with non-zero stamps. */
  lemma {:induction false} SupportedIsExportedFromStart(run: seq<Event>, c: Config, k: Key, f: Key)
    requires Sensible(c) && forall e :: e in run && e.Cloud? ==> e.stamp != 0
    ensures var w, v := RunWorld(NothingYet(), run, c), VerdictsAfter(NothingYet(), map[], run, c);
      var latest := LatestRun(w.log, f);
      && v.Keys == w.s.occ.Keys == w.h.Keys
      && (&& k in w.s.occ && Supported(w.h[k], v[k], c)
          && latest != [] && latest[|latest| - 1].occKey == k
          && latest[|latest| - 1].gen == w.s.occ[k].generation
          ==> f in Exported(w.s, c) && Exported(w.s, c)[f] == Summed(latest))
  {
    hide Good, RunWorld, VerdictsAfter, Told, Weighed, LatestRun, Exported, IsStatic, Supported;
    InitialGood();
    InitialTold(c);
    Reachable(NothingYet(), run, c);
    WeighedFromStart(run, c);
    var w, v := RunWorld(NothingYet(), run, c), VerdictsAfter(NothingYet(), map[], run, c);
    if k in w.s.occ && Supported(w.h[k], v[k], c) { SupportedIsExported(w.s, w.log, w.h, v, c, k, f); }
  }

  /** And conversely the verdicts on an exported voxel weigh at least the threshold, whatever
      the stamps. */
  lemma {:induction false} ExportedWeighs(run: seq<Event>, c: Config, f: Key)
    requires f in Exported(RunWorld(NothingYet(), run, c).s, c)
    ensures var w, v := RunWorld(NothingYet(), run, c), VerdictsAfter(NothingYet(), map[], run, c);
      var k := Exported(w.s, c)[f].occKey;
      k in v && Weight(v[k], c) >= c.occupied && HitsIn(v[k]) >= c.minHits
  {
    hide RunWorld, VerdictsAfter, Weight, HitsIn;
    WeighedFromStart(run, c);
    var w, v := RunWorld(NothingYet(), run, c), VerdictsAfter(NothingYet(), map[], run, c);
    var k := Exported(w.s, c)[f].occKey;
    assert Weighed(w.s.occ[k], v[k], c);
  }

  // ---- What a cleanup erases -----------------------------------------------------------------

  /** A cleanup that is due erases a voxel exactly if its last verdict has a stamp, that lies
      further back than the timeout, and something is missing for it to be static: hits, weight,
      or time between the first and the last hit. */
  lemma {:induction false} CleanupErasesIff(s: State, v: Verdicts, now: Time, c: Config, k: Key)
    requires AllWeighed(s, v, c) && k in s.occ
    ensures var o, last := s.occ[k], v[k][|v[k]| - 1].stamp;
      var due := s.lastCleanup == 0 || now - s.lastCleanup >= c.cleanupPeriod || |s.occ| > c.maxVoxels;
      k !in AfterCleanup(s, now, c).occ <==>
        && due && last != 0 && now - last > c.candidateTimeout
        && (|| HitsIn(v[k]) < c.minHits || Weight(v[k], c) < c.occupied
            || o.firstHit == 0 || o.lastHit == 0 || o.lastHit - o.firstHit < c.minSpan)
  {
    hide Weight, HitsIn;
    assert Weighed(s.occ[k], v[k], c);
  }

  lemma {:induction false} AllHits(v: seq<Verdict>)
    requires forall i :: 0 <= i < |v| ==> v[i].hit
    ensures HitsIn(v) == |v|
  {
    if v != [] { AllHits(v[..|v| - 1]); }
  }

  lemma {:induction false} InExport(occ: map<Key, Occ>, log: seq<Entry>, c: Config, f: Key)
    requires LatestRun(log, f) != [] && Exportable(occ, Summed(LatestRun(log, f)), c)
    ensures f in ExportOf(occ, log, c) && ExportOf(occ, log, c)[f] == Summed(LatestRun(log, f))
  {
    hide LatestRun, Exportable, Summed;
    var run := LatestRun(log, f);
    RunEntries(log, f);
    assert run[|run| - 1] in run && run[|run| - 1].fineKey in LoggedKeys(log);
  }

  // ---- The exported points -------------------------------------------------------------------

  /** The sum of one coordinate over samples. */
  function SumOf(coordinate: Value -> real, run: seq<Entry>): real {
    if run == [] then 0.0 else SumOf(coordinate, run[..|run| - 1]) + coordinate(run[|run| - 1].value)
  }

  function XOf(v: Value): real { v.x }
  function YOf(v: Value): real { v.y }
  function ZOf(v: Value): real { v.z }
  function IntensityOf(v: Value): real { v.intensity }

  lemma {:induction false} TotalSums(run: seq<Entry>)
    ensures var t := Total(run);
      && t.x == SumOf(XOf, run) && t.y == SumOf(YOf, run) && t.z == SumOf(ZOf, run)
      && t.intensity == SumOf(IntensityOf, run)
  {
    if run != [] { TotalSums(run[..|run| - 1]); }
  }

  /** After any run from the start: an exported point times the number of samples behind it is
      their sum, in every coordinate. */
  lemma {:induction false} ExportedMean(run: seq<Event>, c: Config, f: Key)
    requires f in Exported(RunWorld(NothingYet(), run, c).s, c)
    ensures var w := RunWorld(NothingYet(), run, c);
      var latest := LatestRun(w.log, f);
      && latest != [] && Exported(w.s, c)[f].count == |latest|
      && var m, n := M.Mean(Exported(w.s, c)[f]), |latest| as real;
      && m.x * n == SumOf(XOf, latest) && m.y * n == SumOf(YOf, latest)
      && m.z * n == SumOf(ZOf, latest) && m.intensity * n == SumOf(IntensityOf, latest)
  {
    hide Good, RunWorld, Exported, LatestRun, Total, SumOf, M.Mean;
    InitialGood();
    GoodRun(NothingYet(), run, c);
    var w := RunWorld(NothingYet(), run, c);
    ExportedSamples(w.s, w.log, c, f);
    var latest := LatestRun(w.log, f);
    TotalSums(latest);
    M.MeanTimesCount(Exported(w.s, c)[f]);
  }
}
