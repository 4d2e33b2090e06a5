/** Evidence accounting of the static-map builder: what the counters of a stored voxel say
    about the scans that hit it. */
module MapperEvidence {
  import opened Prelude
  import opened MapperState
  import opened MapperHistory

  /** A scan that hit a voxel. */
  datatype Hit = Hit(scan: nat, stamp: Time)

  /** The hits of every stored voxel in its current lifetime, oldest first. */
  type Hits = map<Key, seq<Hit>>

  function HitLogged(s: State, h: Hits, key: Key, stamp: Time): Hits {
    var past := if key in h then h[key] else [];
    if past != [] && past[|past| - 1].scan == s.scan then h
    else h[key := past + [Hit(s.scan, stamp)]]
  }

  function HitsLogged(s: State, h: Hits, ps: seq<Sample>, stamp: Time): Hits {
    if ps == [] then h
    else HitLogged(s, HitsLogged(s, h, ps[..|ps| - 1], stamp), ps[|ps| - 1].occKey, stamp)
  }

  /** A voxel that is erased takes its history along. */
  function Kept(h: Hits, occ: map<Key, Occ>): Hits {
    map k | k in h && k in occ :: h[k]
  }

  function StepHits(s: State, h: Hits, e: Event, c: Config): Hits {
    match e
    case Cloud(ps, _, stamp) =>
      Kept(HitsLogged(s.(scan := s.scan + 1), h, ps, stamp), Step(s, e, c).occ)
    case Export(_) => h
    case Reset => map[]
  }

  /** What loadParameters guarantees of the configuration, for a clearing probability of at
      most one half. */
  predicate Sensible(c: Config) {
    c.hit > 0.0 && c.miss < 0.0 && c.clearing <= 0.0
  }

  /** Hits from strictly increasing scans, the last not later than `scan`. */
  ghost predicate Increasing(h: seq<Hit>, scan: nat) {
    && (forall i, j :: 0 <= i < j < |h| ==> h[i].scan < h[j].scan)
    && (forall i :: 0 <= i < |h| ==> h[i].scan <= scan && h[i].stamp != 0)
  }

  /** The counters of voxel o tell its history h truly. */
  ghost predicate Told(o: Occ, h: seq<Hit>, scan: nat, c: Config) {
    && h != [] && Increasing(h, scan)
    && o.hitScans == |h| && o.lastHitScan == Some(h[|h| - 1].scan)
    && o.firstHit == h[0].stamp && o.lastHit == h[|h| - 1].stamp
    && MIN_LOG_ODDS <= o.logOdds <= MAX_LOG_ODDS && o.logOdds > c.clearing
    && (o.lastMissScan.Some? ==> o.lastMissScan.value <= scan)
  }

  ghost predicate AllTold(s: State, h: Hits, c: Config) {
    && h.Keys == s.occ.Keys
    && forall k :: k in s.occ ==> Told(s.occ[k], h[k], s.scan, c)
  }

  lemma {:induction false} HitTold(o: Occ, h: seq<Hit>, scan: nat, stamp: Time, c: Config)
    requires Told(o, h, scan, c) && Sensible(c) && stamp != 0
    ensures Told(HitOcc(o, scan, stamp, c),
                 if h[|h| - 1].scan == scan then h else h + [Hit(scan, stamp)], scan, c)
  {
  }

  lemma {:induction false} FirstHitTold(generation: nat, scan: nat, stamp: Time, c: Config)
    requires Sensible(c) && stamp != 0
    ensures Told(HitOcc(FreshOcc(generation), scan, stamp, c), [Hit(scan, stamp)], scan, c)
  {
  }

  lemma {:induction false} SampleTold(s: State, h: Hits, p: Sample, stamp: Time, c: Config)
    requires AllTold(s, h, c) && Sensible(c) && stamp != 0
    ensures AllTold(TakeSample(s, p, stamp, c), HitLogged(s, h, p.occKey, stamp), c)
  {
    hide Told, HitOcc;
    var key := p.occKey;
    if key in s.occ {
      assert h[key] != [] by { ToldNonEmpty(s.occ[key], h[key], s.scan, c); }
      HitTold(s.occ[key], h[key], s.scan, stamp, c);
    } else {
      assert [] + [Hit(s.scan, stamp)] == [Hit(s.scan, stamp)];
      FirstHitTold(s.nextGen, s.scan, stamp, c);
    }
  }

  lemma ToldNonEmpty(o: Occ, h: seq<Hit>, scan: nat, c: Config)
    requires Told(o, h, scan, c)
    ensures h != []
  {
  }

  lemma {:induction false} SamplesTold(s: State, h: Hits, ps: seq<Sample>, stamp: Time, c: Config)
    requires AllTold(s, h, c) && Sensible(c) && stamp != 0
    ensures AllTold(TakeSamples(s, ps, stamp, c), HitsLogged(s, h, ps, stamp), c)
    ensures TakeSamples(s, ps, stamp, c).scan == s.scan
  {
    hide AllTold, TakeSample, HitLogged;
    if ps != [] {
      var front, p := ps[..|ps| - 1], ps[|ps| - 1];
      SamplesTold(s, h, front, stamp, c);
      var s1 := TakeSamples(s, front, stamp, c);
      SampleTold(s1, HitsLogged(s, h, front, stamp), p, stamp, c);
      SameScan(s1, p, stamp, c);
      HitLoggedScan(s, s1, HitsLogged(s, h, front, stamp), p.occKey, stamp);
    }
  }

  lemma SameScan(s: State, p: Sample, stamp: Time, c: Config)
    ensures TakeSample(s, p, stamp, c).scan == s.scan
  {
  }

  lemma HitLoggedScan(s: State, t: State, h: Hits, key: Key, stamp: Time)
    requires s.scan == t.scan
    ensures HitLogged(s, h, key, stamp) == HitLogged(t, h, key, stamp)
  {
  }

  lemma {:induction false} MissTold(o: Occ, h: seq<Hit>, scan: nat, stamp: Time, c: Config)
    requires Told(o, h, scan, c) && Sensible(c) && !ClearedBy(o, scan, stamp, c)
    ensures Told(MissOcc(o, scan, stamp, c), h, scan, c)
  {
  }

  lemma {:induction false} MissesTold(s: State, h: Hits, missed: set<Key>, stamp: Time, c: Config)
    requires AllTold(s, h, c) && Sensible(c)
    ensures var occ' := AfterMisses(s.occ, missed, s.scan, stamp, c);
      AllTold(s.(occ := occ'), Kept(h, occ'), c)
  {
    hide Told, MissOcc;
    var occ' := AfterMisses(s.occ, missed, s.scan, stamp, c);
    forall k | k in occ' ensures Told(occ'[k], Kept(h, occ')[k], s.scan, c) {
      if k in missed { MissTold(s.occ[k], h[k], s.scan, stamp, c); }
    }
  }

  lemma {:induction false} CleanupTold(s: State, h: Hits, now: Time, c: Config)
    requires AllTold(s, h, c)
    ensures AllTold(AfterCleanup(s, now, c), Kept(h, AfterCleanup(s, now, c).occ), c)
  {
    hide Told, Expired;
  }

  lemma ScanTold(s: State, h: Hits, c: Config)
    requires AllTold(s, h, c)
    ensures AllTold(s.(scan := s.scan + 1), h, c)
  {
  }

  lemma {:induction false} CloudTold(s: State, h: Hits, ps: seq<Sample>, rays: seq<seq<Key>>, stamp: Time, c: Config)
    requires AllTold(s, h, c) && Sensible(c) && stamp != 0
    ensures AllTold(AfterCloud(s, ps, rays, stamp, c), StepHits(s, h, Cloud(ps, rays, stamp), c), c)
  {
    hide AllTold, AfterMisses, AfterCleanup, Visited, Occupied, TakeSamples, HitsLogged;
    var s0 := s.(scan := s.scan + 1);
    ScanTold(s, h, c);
    SamplesTold(s0, h, ps, stamp, c);
    var s1, h1 := TakeSamples(s0, ps, stamp, c), HitsLogged(s0, h, ps, stamp);
    var missed := Visited(rays) - Occupied(ps);
    MissesTold(s1, h1, missed, stamp, c);
    var occ2 := AfterMisses(s1.occ, missed, s1.scan, stamp, c);
    var s2 := s1.(occ := occ2);
    CleanupTold(s2, Kept(h1, occ2), stamp, c);
    MissesShrink(s1.occ, missed, s1.scan, stamp, c);
    CleanupShrinks(s2, stamp, c);
    KeptTwice(h1, occ2, AfterCleanup(s2, stamp, c).occ);
  }

  lemma KeptTwice(h: Hits, occ: map<Key, Occ>, occ': map<Key, Occ>)
    requires Shrunk(occ, occ')
    ensures Kept(Kept(h, occ), occ') == Kept(h, occ')
  {
  }

  /** In every reachable state of a run with non-zero stamps, the counters of every stored
      voxel tell its history truly. */
  lemma {:induction false} StepTold(s: State, h: Hits, e: Event, c: Config)
    requires AllTold(s, h, c) && Sensible(c) && (e.Cloud? ==> e.stamp != 0)
    ensures AllTold(Step(s, e, c), StepHits(s, h, e, c), c)
  {
    hide Told, AfterCloud;
    match e
    case Cloud(ps, rays, stamp) => CloudTold(s, h, ps, rays, stamp, c);
    case Export(_) =>
    case Reset =>
  }

  lemma InitialTold(c: Config)
    ensures AllTold(Initial(), map[], c)
  {
  }

  /** An exported voxel is supported by at least min_hit_scans distinct scans that span at
      least min_observation_span. */
  lemma {:induction false} ExportedIsSupported(s: State, h: Hits, c: Config, k: Key)
    requires AllTold(s, h, c) && k in Exported(s, c)
    ensures var key := Exported(s, c)[k].occKey;
      && key in h && |h[key]| >= c.minHits && Increasing(h[key], s.scan) && h[key] != []
      && h[key][|h[key]| - 1].stamp - h[key][0].stamp >= c.minSpan
  {
    var key := Exported(s, c)[k].occKey;
    assert Told(s.occ[key], h[key], s.scan, c);
  }

  // ---- Whole runs --------------------------------------------------------------------------------

  datatype World = World(s: State, log: seq<Entry>, h: Hits)

  function StepWorld(w: World, e: Event, c: Config): World {
    World(Step(w.s, e, c), Logged(w.s, w.log, e, c), StepHits(w.s, w.h, e, c))
  }

  function RunWorld(w: World, run: seq<Event>, c: Config): World
    decreases |run|
  {
    if run == [] then w
    else RunWorld(StepWorld(w, run[0], c), run[1..], c)
  }

  /** The invariants of MapperHistory hold after every run, whatever the stamps and the
      configuration. */
  lemma {:induction false} GoodRun(w: World, run: seq<Event>, c: Config)
    requires Good(w.s, w.log)
    ensures var w' := RunWorld(w, run, c); Good(w'.s, w'.log)
    decreases |run|
  {
    hide Good, Step, Logged, StepHits;
    if run != [] {
      StepGood(w.s, w.log, run[0], c);
      GoodRun(StepWorld(w, run[0], c), run[1..], c);
    }
  }

  /** Both invariants hold after every run. */
  lemma {:induction false} Reachable(w: World, run: seq<Event>, c: Config)
    requires Good(w.s, w.log) && AllTold(w.s, w.h, c) && Sensible(c)
    requires forall e :: e in run && e.Cloud? ==> e.stamp != 0
    ensures var w' := RunWorld(w, run, c); Good(w'.s, w'.log) && AllTold(w'.s, w'.h, c)
    decreases |run|
  {
    hide Good, AllTold, Step, Logged, StepHits;
    if run != [] {
      StepGood(w.s, w.log, run[0], c);
      StepTold(w.s, w.h, run[0], c);
      Reachable(StepWorld(w, run[0], c), run[1..], c);
    }
  }

  /** The start: nothing is stored, nothing has been seen. */
  function NothingYet(): World {
    World(Initial(), [], map[])
  }

  /** After any run from the start, an export is what the samples still counted call for. */
  lemma {:induction false} GoodFromStart(run: seq<Event>, c: Config)
    ensures var w := RunWorld(NothingYet(), run, c);
      Good(w.s, w.log) && Exported(w.s, c) == ExportOf(w.s.occ, w.log, c)
  {
    hide Good, RunWorld;
    InitialGood();
    GoodRun(NothingYet(), run, c);
    var w := RunWorld(NothingYet(), run, c);
    ExportIsOfLog(w.s, w.log, c);
  }

  /** After any run from the start with non-zero stamps and a sensible configuration, a voxel
      that is exported has been hit in at least min_hit_scans scans over at least
      min_observation_span. */
  lemma {:induction false} SupportedFromStart(run: seq<Event>, c: Config, k: Key)
    requires Sensible(c) && forall e :: e in run && e.Cloud? ==> e.stamp != 0
    requires k in Exported(RunWorld(NothingYet(), run, c).s, c)
    ensures var w := RunWorld(NothingYet(), run, c);
      var key := Exported(w.s, c)[k].occKey;
      && key in w.h && |w.h[key]| >= c.minHits && Increasing(w.h[key], w.s.scan) && w.h[key] != []
      && w.h[key][|w.h[key]| - 1].stamp - w.h[key][0].stamp >= c.minSpan
  {
    hide Good, AllTold, RunWorld, Exported, Increasing;
    InitialGood();
    InitialTold(c);
    Reachable(NothingYet(), run, c);
    var w := RunWorld(NothingYet(), run, c);
    ExportedIsSupported(w.s, w.h, c, k);
  }

  // ---- No sample of a lost voxel comes back ------------------------------------------------------

  lemma {:induction false} DeadRun(w: World, run: seq<Event>, c: Config, g: nat)
    requires Dead(w.s, g)
    ensures Dead(RunWorld(w, run, c).s, g)
    decreases |run|
  {
    hide Dead, Step, Logged, StepHits;
    if run != [] {
      StepStaysDead(w.s, run[0], c, g);
      DeadRun(StepWorld(w, run[0], c), run[1..], c, g);
    }
  }

  lemma DeadNotExported(s: State, c: Config, f: Key, g: nat)
    requires Dead(s, g) && f in Exported(s, c)
    ensures Exported(s, c)[f].occGen != g
  {
  }

  /** Event e clears, expires or resets voxel k; `later` is any run after it.  An export then
      shows fine voxels that sum up logged samples, none of which was taken under the
      generation that k lost. */
  lemma {:induction false} LostSamplesStayLost(w: World, e: Event, k: Key, later: seq<Event>, c: Config, f: Key)
    requires Good(w.s, w.log) && k in w.s.occ
    requires var s' := Step(w.s, e, c);
      k !in s'.occ || s'.occ[k].generation != w.s.occ[k].generation
    requires f in Exported(RunWorld(StepWorld(w, e, c), later, c).s, c)
    ensures var w' := RunWorld(StepWorld(w, e, c), later, c);
      var run := LatestRun(w'.log, f);
      && run != [] && Exported(w'.s, c)[f] == Summed(run)
      && forall x :: x in run ==> x in w'.log && x.gen != w.s.occ[k].generation
  {
    hide Good, Step, Logged, StepHits, Exported, Dead, RunWorld;
    var w1 := StepWorld(w, e, c);
    var w2 := RunWorld(w1, later, c);
    LostIsDead(w.s, w.log, e, c, k);
    StepGood(w.s, w.log, e, c);
    DeadRun(w1, later, c, w.s.occ[k].generation);
    GoodRun(w1, later, c);
    ExportedSamples(w2.s, w2.log, c, f);
    DeadNotExported(w2.s, c, f, w.s.occ[k].generation);
  }

  // ---- Hits and misses of one scan ---------------------------------------------------------------

  /** The last hit and the last miss of a stored voxel lie in the past and in different scans. */
  ghost predicate ScansApart(s: State) {
    forall k :: k in s.occ ==> Apart(s.occ[k], s.scan)
  }

  predicate Apart(o: Occ, scan: nat) {
    && (o.lastHitScan.Some? ==> o.lastHitScan.value <= scan)
    && (o.lastMissScan.Some? ==> o.lastMissScan.value <= scan)
    && (o.lastHitScan.Some? ==> o.lastMissScan != o.lastHitScan)
  }

  /** The hits of a scan touch exactly the voxels of its points, and leave their misses alone. */
  lemma {:induction false} HitsTouch(s: State, ps: seq<Sample>, stamp: Time, c: Config, k: Key)
    ensures var s' := TakeSamples(s, ps, stamp, c);
      && s'.scan == s.scan
      && (k !in Occupied(ps) ==> (k in s'.occ <==> k in s.occ) && (k in s.occ ==> s'.occ[k] == s.occ[k]))
      && (k in Occupied(ps) ==> k in s'.occ && s'.occ[k].lastHitScan == Some(s.scan))
      && (k in s'.occ ==> s'.occ[k].lastMissScan == if k in s.occ then s.occ[k].lastMissScan else None)
  {
    hide RMin;
    if ps != [] {
      var front, p := ps[..|ps| - 1], ps[|ps| - 1];
      HitsTouch(s, front, stamp, c, k);
      assert ps == front + [p];
      assert k in Occupied(ps) <==> k in Occupied(front) || k == p.occKey;
    }
  }

  lemma {:induction false} CloudApart(s: State, ps: seq<Sample>, rays: seq<seq<Key>>, stamp: Time, c: Config)
    requires ScansApart(s)
    ensures ScansApart(AfterCloud(s, ps, rays, stamp, c))
  {
    hide TakeSamples, Visited, Occupied, Expired, CleanupDue, RMax;
    var s0 := s.(scan := s.scan + 1);
    var hit := TakeSamples(s0, ps, stamp, c);
    var s' := AfterCloud(s, ps, rays, stamp, c);
    forall k | k in s'.occ ensures Apart(s'.occ[k], s'.scan) {
      HitsTouch(s0, ps, stamp, c, k);
    }
  }

  lemma {:induction false} StepApart(s: State, e: Event, c: Config)
    requires ScansApart(s)
    ensures ScansApart(Step(s, e, c))
  {
    hide AfterCloud;
    if e.Cloud? { CloudApart(s, e.ps, e.rays, e.stamp, c); }
  }

  /** After any run from the start, whatever the stamps and the configuration, no stored voxel
      has its last hit and its last miss in the same scan: a voxel never gets both in one. */
  lemma {:induction false} NeverBoth(w: World, run: seq<Event>, c: Config)
    requires ScansApart(w.s)
    ensures ScansApart(RunWorld(w, run, c).s)
    decreases |run|
  {
    hide ScansApart, Step, Logged, StepHits;
    if run != [] {
      StepApart(w.s, run[0], c);
      NeverBoth(StepWorld(w, run[0], c), run[1..], c);
    }
  }

  lemma InitialApart()
    ensures ScansApart(Initial())
  {
  }

  lemma {:induction false} NeverBothFromStart(run: seq<Event>, c: Config, k: Key)
    requires k in RunWorld(NothingYet(), run, c).s.occ
    ensures var o := RunWorld(NothingYet(), run, c).s.occ[k];
      o.lastHitScan.Some? ==> o.lastMissScan != o.lastHitScan
  {
    hide RunWorld;
    var w := NothingYet();
    InitialApart();
    NeverBoth(w, run, c);
    var s := RunWorld(w, run, c).s;
    assert Apart(s.occ[k], s.scan);
  }

  /** The free-space pass of a cloud: a stored voxel that some ray visits and no point hits
      gets exactly one miss and is erased exactly if that takes it to the clearing
      threshold; every other voxel is as the hits left it, and none of those hit is missed. */
  lemma {:induction false} OneMissEach(s: State, ps: seq<Sample>, rays: seq<seq<Key>>, stamp: Time,
                                       c: Config, k: Key)
    requires ScansApart(s)
    requires k in TakeSamples(s.(scan := s.scan + 1), ps, stamp, c).occ
    ensures var hit := TakeSamples(s.(scan := s.scan + 1), ps, stamp, c);
      var o, missed := hit.occ[k], k in Visited(rays) && k !in Occupied(ps);
      var occ' := AfterMisses(hit.occ, Visited(rays) - Occupied(ps), hit.scan, stamp, c);
      var lowered := RMax(MIN_LOG_ODDS, o.logOdds + c.miss);
      && (o.lastHitScan == Some(s.scan + 1) <==> k in Occupied(ps))
      && (k in occ' <==> !(missed && lowered <= c.clearing))
      && (k in occ' && !missed ==> occ'[k] == o && o.lastMissScan != Some(s.scan + 1))
      && (k in occ' && missed ==> occ'[k] == o.(logOdds := lowered, missScans := o.missScans + 1,
            lastMissScan := Some(s.scan + 1), lastSeen := stamp))
  {
    hide TakeSamples, Visited, Occupied, RMax;
    HitsTouch(s.(scan := s.scan + 1), ps, stamp, c, k);
  }
}
