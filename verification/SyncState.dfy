/** Pairing lidar scans with the IMU messages of their time span (laserMapping.cpp): the two
    arrival callbacks and sync_packages, as steps of a state.

    Stamps are real seconds; a scan is its stamp, its number of points and the time offset of
    its last point. */
module SyncState {
  import opened Prelude

  /** `tag` stands for the message's contents. */
  datatype Imu = Imu(stamp: real, tag: int)
  datatype Scan = Scan(stamp: real, points: nat, lastOffset: real)

  /** MeasureGroup */
  datatype Group = Group(scan: Scan, begTime: real, endTime: real, imu: seq<Imu>)

  datatype Config = Config(marsim: bool, timeSync: bool, imuDelay: real)

  datatype State = State(lidar: seq<Scan>, times: seq<real>, imu: seq<Imu>,
                         lastLidar: real, lastImu: real, timediff: real, timediffSet: bool,
                         pushed: bool, measScan: Scan, measBeg: real, endTime: real,
                         mean: real, scanNum: nat)

  datatype Event = ImuArrives(m: Imu) | ScanArrives(scan: Scan) | Sync

  function Initial(): State {
    State([], [], [], 0.0, -1.0, 0.0, false, false, Scan(0.0, 0, 0.0), 0.0, 0.0, 0.0, 0)
  }

  // ---- Arrivals ------------------------------------------------------------------------------

  /** The stamp an IMU message is given on the lidar's clock. */
  function Restamped(s: State, m: Imu, c: Config): Imu {
    m.(stamp := if RAbs(s.timediff) > 0.1 && c.timeSync then s.timediff + m.stamp else m.stamp - c.imuDelay)
  }

  /** imu_cbk */
  function AfterImu(s: State, m: Imu, c: Config): State {
    var n := Restamped(s, m, c);
    s.(imu := (if n.stamp < s.lastImu then [] else s.imu) + [n], lastImu := n.stamp)
  }

  predicate SetsTimediff(s: State, scan: Scan, c: Config) {
    c.timeSync && !s.timediffSet && RAbs(scan.stamp - s.lastImu) > 1.0 && s.imu != []
  }

  /** livox_pcl_cbk: a loop back clears lidar_buffer, but not time_buffer. */
  function AfterScan(s: State, scan: Scan, c: Config): State {
    var sync := SetsTimediff(s, scan, c);
    s.(lidar := (if scan.stamp < s.lastLidar then [] else s.lidar) + [scan],
       times := s.times + [scan.stamp], lastLidar := scan.stamp,
       timediffSet := s.timediffSet || sync,
       timediff := if sync then scan.stamp + 0.1 - s.lastImu else s.timediff)
  }

  // ---- sync_packages -------------------------------------------------------------------------

  /** The scan's own duration is counted. */
  predicate Counted(s: State, scan: Scan) {
    scan.points > 1 && scan.lastOffset >= 0.5 * s.mean
  }

  /** The first half: the scan at the front is taken up and its end is worked out. */
  function TakeUp(s: State, c: Config): State
    requires s.lidar != [] && s.times != []
  {
    if s.pushed then s
    else
      var scan, beg := s.lidar[0], s.times[0];
      var t :=
        if Counted(s, scan) then
          s.(scanNum := s.scanNum + 1, endTime := beg + scan.lastOffset,
             mean := s.mean + (scan.lastOffset - s.mean) / (s.scanNum + 1) as real)
        else s.(endTime := beg + s.mean);
      t.(measScan := scan, measBeg := beg, pushed := true, endTime := if c.marsim then beg else t.endTime)
  }

  /** How many messages from the front are older than `end`. */
  function Older(imu: seq<Imu>, end: real): (n: nat)
    ensures n <= |imu|
  {
    if imu == [] || imu[0].stamp >= end then 0 else 1 + Older(imu[1..], end)
  }

  /** How many messages a group takes: the older ones and, behind at least one of them, one
      that is exactly as old as the end of the scan. */
  function Taken(imu: seq<Imu>, end: real): (n: nat)
    ensures n <= |imu|
  {
    var k := Older(imu, end);
    if 0 < k < |imu| && imu[k].stamp == end then k + 1 else k
  }

  /** The call comes back with a group. */
  predicate Delivers(s: State, c: Config)
    requires |s.lidar| <= |s.times|
  {
    s.lidar != [] && s.imu != [] && TakeUp(s, c).endTime <= s.lastImu
  }

  function AfterSync(s: State, c: Config): State
    requires |s.lidar| <= |s.times|
  {
    if s.lidar == [] || s.imu == [] then s
    else
      var t := TakeUp(s, c);
      if s.lastImu < t.endTime then t
      else t.(imu := t.imu[Taken(t.imu, t.endTime)..], lidar := t.lidar[1..], times := t.times[1..], pushed := false)
  }

  function Delivered(s: State, c: Config): Group
    requires |s.lidar| <= |s.times| && Delivers(s, c)
  {
    var t := TakeUp(s, c);
    Group(t.measScan, t.measBeg, t.endTime, t.imu[..Taken(t.imu, t.endTime)])
  }

  // ---- Steps and their history ---------------------------------------------------------------

  /** What has arrived, what has been delivered and which durations have been counted. */
  datatype Trace = Trace(imus: seq<Imu>, scans: seq<Scan>, groups: seq<Group>, durations: seq<real>)

  function Step(s: State, e: Event, c: Config): State
    requires |s.lidar| <= |s.times|
  {
    match e
    case ImuArrives(m) => AfterImu(s, m, c)
    case ScanArrives(scan) => AfterScan(s, scan, c)
    case Sync => AfterSync(s, c)
  }

  function Traced(s: State, tr: Trace, e: Event, c: Config): Trace
    requires |s.lidar| <= |s.times|
  {
    match e
    case ImuArrives(m) => tr.(imus := tr.imus + [Restamped(s, m, c)])
    case ScanArrives(scan) => tr.(scans := tr.scans + [scan])
    case Sync =>
      var tr1 := if s.lidar != [] && s.imu != [] && !s.pushed && Counted(s, s.lidar[0])
                 then tr.(durations := tr.durations + [s.lidar[0].lastOffset]) else tr;
      if Delivers(s, c) then tr1.(groups := tr1.groups + [Delivered(s, c)]) else tr1
  }

  function Sum(d: seq<real>): real {
    if d == [] then 0.0 else Sum(d[..|d| - 1]) + d[|d| - 1]
  }

  function AllImus(gs: seq<Group>): seq<Imu> {
    if gs == [] then [] else AllImus(gs[..|gs| - 1]) + gs[|gs| - 1].imu
  }

  function AllScans(gs: seq<Group>): seq<Scan> {
    if gs == [] then [] else AllScans(gs[..|gs| - 1]) + [gs[|gs| - 1].scan]
  }

  // ---- What holds after every run ------------------------------------------------------------

  predicate Sorted(imu: seq<Imu>) {
    forall i, j :: 0 <= i < j < |imu| ==> imu[i].stamp <= imu[j].stamp
  }

  ghost predicate ExactMean(s: State, tr: Trace) {
    && |tr.durations| == s.scanNum
    && s.mean == if s.scanNum == 0 then 0.0 else Sum(tr.durations) / s.scanNum as real
  }

  /** The IMU buffer is sorted and ends with the last stamp; the mean scan time is the exact
      mean of the counted durations. */
  ghost predicate Always(s: State, tr: Trace) {
    && |s.lidar| <= |s.times| && ExactMean(s, tr)
    && Sorted(s.imu) && (s.imu != [] ==> s.imu[|s.imu| - 1].stamp == s.lastImu)
  }

  lemma MeanStep(mean: real, sum: real, n: nat, d: real)
    requires mean == if n == 0 then 0.0 else sum / n as real
    requires n == 0 ==> sum == 0.0
    ensures mean + (d - mean) / (n + 1) as real == (sum + d) / (n + 1) as real
  {
    var x, y := n as real, (n + 1) as real;
    assert mean * x == sum;
    assert y == x + 1.0;
    assert (mean + (d - mean) / y) * y == mean * y + (d - mean);
  }

  lemma {:induction false} TakeUpMean(s: State, tr: Trace, c: Config)
    requires |s.lidar| <= |s.times| && s.lidar != [] && s.imu != [] && ExactMean(s, tr)
    ensures ExactMean(TakeUp(s, c), Traced(s, tr, Sync, c))
  {
    if !s.pushed && Counted(s, s.lidar[0]) {
      var d := s.lidar[0].lastOffset;
      MeanStep(s.mean, Sum(tr.durations), s.scanNum, d);
      assert (tr.durations + [d])[..|tr.durations|] == tr.durations;
    }
  }

  lemma TakeUpKeeps(s: State, c: Config)
    requires s.lidar != [] && s.times != []
    ensures var t := TakeUp(s, c);
      && t.lidar == s.lidar && t.times == s.times && t.imu == s.imu && t.lastImu == s.lastImu
      && t.lastLidar == s.lastLidar && t.pushed
      && (t.measScan == if s.pushed then s.measScan else s.lidar[0])
      && (t.measBeg == if s.pushed then s.measBeg else s.times[0])
  {
  }

  /** These hold whatever arrives, loop backs included. */
  lemma {:induction false} StepAlways(s: State, tr: Trace, e: Event, c: Config)
    requires Always(s, tr)
    ensures Always(Step(s, e, c), Traced(s, tr, e, c))
  {
    hide TakeUp, Sum, Taken, Counted;
    if e.Sync? && s.lidar != [] && s.imu != [] {
      TakeUpMean(s, tr, c);
      TakeUpKeeps(s, c);
    }
  }

  // ---- What holds as long as no clock loops back ---------------------------------------------

  predicate NoLoopBack(s: State, e: Event, c: Config) {
    match e
    case ImuArrives(m) => Restamped(s, m, c).stamp >= s.lastImu
    case ScanArrives(scan) => scan.stamp >= s.lastLidar
    case Sync => true
  }

  /** Every buffered scan has its own stamp. */
  ghost predicate Paired(s: State) {
    && |s.times| == |s.lidar| && (forall i :: 0 <= i < |s.lidar| ==> s.times[i] == s.lidar[i].stamp)
    && (s.pushed ==> s.lidar != [] && s.measScan == s.lidar[0] && s.measBeg == s.lidar[0].stamp)
  }

  /** Scans are delivered once each in order of arrival; nothing of the IMU is lost. */
  ghost predicate Conserved(s: State, tr: Trace) {
    tr.scans == AllScans(tr.groups) + s.lidar && tr.imus == AllImus(tr.groups) + s.imu
  }

  /** Group g has its scan's stamp and only messages up to its end; what is still to come is
      not older than that. */
  ghost predicate Window(g: Group, s: State) {
    && g.begTime == g.scan.stamp && g.endTime <= s.lastImu
    && (forall m :: m in g.imu ==> m.stamp <= g.endTime)
    && (forall m :: m in s.imu ==> m.stamp >= g.endTime)
  }

  ghost predicate Windows(s: State, tr: Trace) {
    && (forall g :: g in tr.groups ==> Window(g, s))
    && (forall i, j, m :: 0 <= i < j < |tr.groups| && m in tr.groups[j].imu ==> m.stamp >= tr.groups[i].endTime)
  }

  ghost predicate Lossless(s: State, tr: Trace) {
    Paired(s) && Conserved(s, tr) && Windows(s, tr)
  }

  lemma {:induction false} OlderSplits(imu: seq<Imu>, end: real)
    requires Sorted(imu)
    ensures var k := Older(imu, end);
      && (forall i :: 0 <= i < k ==> imu[i].stamp < end)
      && (forall i :: k <= i < |imu| ==> imu[i].stamp >= end)
  {
    if imu != [] && imu[0].stamp < end {
      OlderSplits(imu[1..], end);
      assert forall i :: 1 <= i < |imu| ==> imu[i] == imu[1..][i - 1];
    }
  }

  lemma {:induction false} TakenSplits(imu: seq<Imu>, end: real)
    requires Sorted(imu)
    ensures var n := Taken(imu, end);
      && (forall m :: m in imu[..n] ==> m.stamp <= end)
      && (forall m :: m in imu[n..] ==> m.stamp >= end)
  {
    hide Older;
    OlderSplits(imu, end);
  }

  lemma {:induction false} ArrivalLossless(s: State, tr: Trace, e: Event, c: Config)
    requires Always(s, tr) && Lossless(s, tr) && NoLoopBack(s, e, c) && !e.Sync?
    ensures Lossless(Step(s, e, c), Traced(s, tr, e, c))
  {
    hide AllScans, AllImus, Sum, SetsTimediff, Restamped;
    match e
    case ImuArrives(m) =>
      var n := Restamped(s, m, c);
      assert s.imu + [n] == AfterImu(s, m, c).imu;
      assert AllImus(tr.groups) + s.imu + [n] == AllImus(tr.groups) + (s.imu + [n]);
    case ScanArrives(scan) =>
      assert AllScans(tr.groups) + s.lidar + [scan] == AllScans(tr.groups) + (s.lidar + [scan]);
  }

  lemma {:induction false} SyncLossless(s: State, tr: Trace, c: Config)
    requires Always(s, tr) && Lossless(s, tr)
    ensures Lossless(AfterSync(s, c), Traced(s, tr, Sync, c))
  {
    hide TakeUp, Sum, Taken, Counted, AllScans, AllImus;
    if s.lidar != [] && s.imu != [] {
      TakeUpKeeps(s, c);
      var t := TakeUp(s, c);
      if t.endTime <= s.lastImu { DeliveryLossless(s, tr, c); }
    }
  }

  lemma {:induction false} ConservedMore(gs: seq<Group>, g: Group, lidar: seq<Scan>, imu: seq<Imu>, n: nat)
    requires lidar != [] && g.scan == lidar[0] && n <= |imu| && g.imu == imu[..n]
    ensures AllScans(gs + [g]) + lidar[1..] == AllScans(gs) + lidar
    ensures AllImus(gs + [g]) + imu[n..] == AllImus(gs) + imu
  {
    assert (gs + [g])[..|gs|] == gs;
    assert [g.scan] + lidar[1..] == lidar;
    assert imu[..n] + imu[n..] == imu;
  }

  lemma {:induction false} WindowsMore(s: State, tr: Trace, g: Group, n: nat, s': State)
    requires Windows(s, tr) && n <= |s.imu| && s'.lastImu == s.lastImu && s'.imu == s.imu[n..]
    requires g.imu == s.imu[..n] && Window(g, s')
    ensures Windows(s', tr.(groups := tr.groups + [g]))
  {
    hide Window;
    forall h | h in tr.groups ensures Window(h, s') && forall m :: m in g.imu ==> m.stamp >= h.endTime {
      WindowShrinks(h, s, n, s');
    }
  }

  lemma {:induction false} DeliveryLossless(s: State, tr: Trace, c: Config)
    requires Always(s, tr) && Lossless(s, tr) && Delivers(s, c)
    ensures Lossless(AfterSync(s, c), Traced(s, tr, Sync, c))
  {
    hide TakeUp, Sum, Taken, Counted, Window, Windows, ExactMean, AllScans, AllImus;
    TakeUpKeeps(s, c);
    var t, g, s' := TakeUp(s, c), Delivered(s, c), AfterSync(s, c);
    var n := Taken(t.imu, t.endTime);
    TakenSplits(t.imu, t.endTime);
    ConservedMore(tr.groups, g, s.lidar, s.imu, n);
    WindowOpens(g, s');
    WindowsMore(s, tr, g, n, s');
    WindowsOnly(s', tr.(groups := tr.groups + [g]), Traced(s, tr, Sync, c));
  }

  lemma WindowsOnly(s: State, tr: Trace, tr': Trace)
    requires Windows(s, tr) && tr'.groups == tr.groups
    ensures Windows(s, tr')
  {
  }

  lemma WindowShrinks(h: Group, s: State, n: nat, s': State)
    requires Window(h, s) && n <= |s.imu| && s'.lastImu == s.lastImu && s'.imu == s.imu[n..]
    ensures Window(h, s') && forall m :: m in s.imu[..n] ==> m.stamp >= h.endTime
  {
  }

  lemma WindowOpens(g: Group, s: State)
    requires g.begTime == g.scan.stamp && g.endTime <= s.lastImu
    requires (forall m :: m in g.imu ==> m.stamp <= g.endTime) && (forall m :: m in s.imu ==> m.stamp >= g.endTime)
    ensures Window(g, s)
  {
  }

  /** Batching, step by step. */
  lemma {:induction false} StepLossless(s: State, tr: Trace, e: Event, c: Config)
    requires Always(s, tr) && Lossless(s, tr) && NoLoopBack(s, e, c)
    ensures Lossless(Step(s, e, c), Traced(s, tr, e, c))
  {
    hide Always, Lossless;
    if e.Sync? { SyncLossless(s, tr, c); } else { ArrivalLossless(s, tr, e, c); }
  }

  // ---- Whole runs ----------------------------------------------------------------------------

  datatype World = World(s: State, tr: Trace)

  ghost function StepWorld(w: World, e: Event, c: Config): World
    requires |w.s.lidar| <= |w.s.times|
  {
    World(Step(w.s, e, c), Traced(w.s, w.tr, e, c))
  }

  ghost function Run(w: World, es: seq<Event>, c: Config): World
    requires Always(w.s, w.tr)
    decreases |es|
  {
    if es == [] then w
    else
      StepAlways(w.s, w.tr, es[0], c);
      Run(StepWorld(w, es[0], c), es[1..], c)
  }

  ghost predicate Smooth(w: World, es: seq<Event>, c: Config)
    requires Always(w.s, w.tr)
    decreases |es|
  {
    es != [] ==>
      NoLoopBack(w.s, es[0], c)
      && (StepAlways(w.s, w.tr, es[0], c);
          Smooth(StepWorld(w, es[0], c), es[1..], c))
  }

  lemma AlwaysSized(s: State, tr: Trace)
    requires Always(s, tr)
    ensures |s.lidar| <= |s.times|
  {
  }

  lemma {:induction false} RunAlways(w: World, es: seq<Event>, c: Config)
    requires Always(w.s, w.tr)
    ensures var w' := Run(w, es, c); Always(w'.s, w'.tr)
    decreases |es|
  {
    hide Always, Step, Traced;
    if es != [] {
      AlwaysSized(w.s, w.tr);
      StepAlways(w.s, w.tr, es[0], c);
      RunAlways(StepWorld(w, es[0], c), es[1..], c);
    }
  }

  lemma {:induction false} RunLatest(w: World, es: seq<Event>, c: Config)
    requires Always(w.s, w.tr) && Latest(w.s, w.tr)
    ensures var w' := Run(w, es, c); Latest(w'.s, w'.tr)
    decreases |es|
  {
    hide Always, Latest, Step, Traced;
    if es != [] {
      AlwaysSized(w.s, w.tr);
      StepAlways(w.s, w.tr, es[0], c);
      StepLatest(w.s, w.tr, es[0], c);
      RunLatest(StepWorld(w, es[0], c), es[1..], c);
    }
  }

  lemma {:induction false} RunLossless(w: World, es: seq<Event>, c: Config)
    requires Always(w.s, w.tr) && Lossless(w.s, w.tr) && Smooth(w, es, c)
    ensures var w' := Run(w, es, c); Lossless(w'.s, w'.tr)
    decreases |es|
  {
    hide Always, Lossless, Step, Traced, NoLoopBack;
    if es != [] {
      AlwaysSized(w.s, w.tr);
      StepAlways(w.s, w.tr, es[0], c);
      StepLossless(w.s, w.tr, es[0], c);
      RunLossless(StepWorld(w, es[0], c), es[1..], c);
    }
  }

  // ---- Clock synchronisation -----------------------------------------------------------------

  /** Once the clock difference is set, and unless it is tiny, IMU messages are stamped as if
      the last one before had come 0.1 s after the scan: their distance from it is kept, but
      for the configured delay, which the later stamps no longer contain. */
  lemma SelfSync(s: State, scan: Scan, m: Imu, c: Config)
    requires SetsTimediff(s, scan, c)
    ensures var s' := AfterScan(s, scan, c);
      && s'.timediffSet && !SetsTimediff(s', scan, c)
      && (RAbs(s'.timediff) > 0.1 ==>
            Restamped(s', m, c).stamp == scan.stamp + 0.1 + (m.stamp - s.lastImu))
  {
  }

  // ---- Loop backs ----------------------------------------------------------------------------

  /** The clock difference is set once: no later event changes it. */
  lemma {:induction false} ClockStays(s: State, e: Event, c: Config)
    requires |s.lidar| <= |s.times| && s.timediffSet
    ensures Step(s, e, c).timediffSet && Step(s, e, c).timediff == s.timediff
  {
    hide Taken, Counted;
  }

  lemma {:induction false} RunClockStays(w: World, es: seq<Event>, c: Config)
    requires Always(w.s, w.tr) && w.s.timediffSet
    ensures Run(w, es, c).s.timediffSet && Run(w, es, c).s.timediff == w.s.timediff
    decreases |es|
  {
    hide Always, Step, Traced;
    if es != [] {
      AlwaysSized(w.s, w.tr);
      StepAlways(w.s, w.tr, es[0], c);
      ClockStays(w.s, es[0], c);
      RunClockStays(StepWorld(w, es[0], c), es[1..], c);
    }
  }

  /** After the scan that sets the difference, every later state stamps IMU messages by it. */
  lemma {:induction false} SelfSyncStays(w: World, scan: Scan, es: seq<Event>, m: Imu, c: Config)
    requires Always(w.s, w.tr) && SetsTimediff(w.s, scan, c)
    ensures var s' := Run(w, [ScanArrives(scan)] + es, c).s;
      && s'.timediffSet && s'.timediff == scan.stamp + 0.1 - w.s.lastImu
      && (RAbs(s'.timediff) > 0.1 ==>
            Restamped(s', m, c).stamp == scan.stamp + 0.1 + (m.stamp - w.s.lastImu))
  {
    hide Always;
    var e := ScanArrives(scan);
    AlwaysSized(w.s, w.tr);
    StepAlways(w.s, w.tr, e, c);
    assert ([e] + es)[1..] == es;
    RunClockStays(StepWorld(w, e, c), es, c);
  }

  /** A scan keeps the stamps in step exactly if it does not clear a buffered scan. */
  lemma PairedIff(s: State, scan: Scan, c: Config)
    requires Paired(s)
    ensures Paired(AfterScan(s, scan, c)) <==> scan.stamp >= s.lastLidar || s.lidar == []
  {
    hide SetsTimediff;
    assert (s.times + [scan.stamp])[|s.times|] == scan.stamp;
  }

  /** Stamps that have fallen behind their scans never catch up. */
  lemma {:induction false} LagStays(s: State, e: Event, c: Config)
    requires |s.lidar| <= |s.times|
    ensures var s' := Step(s, e, c); |s'.times| - |s'.lidar| >= |s.times| - |s.lidar|
  {
    hide TakeUp, SetsTimediff, Restamped, Taken;
    if e.Sync? && s.lidar != [] { TakeUpKeeps(s, c); }
  }

  /** An arriving scan clears buffered ones. */
  predicate Clears(s: State, e: Event) {
    e.ScanArrives? && e.scan.stamp < s.lastLidar && s.lidar != []
  }

  lemma {:induction false} StepPaired(s: State, e: Event, c: Config)
    requires Paired(s) && !Clears(s, e)
    ensures Paired(Step(s, e, c))
  {
    hide TakeUp, SetsTimediff, Restamped, Taken;
    if e.Sync? && s.lidar != [] && s.imu != [] { TakeUpKeeps(s, c); }
  }

  lemma ClearLags(s: State, e: Event, c: Config)
    requires |s.lidar| <= |s.times| && Clears(s, e)
    ensures |Step(s, e, c).times| > |Step(s, e, c).lidar|
  {
  }

  lemma {:induction false} RunLags(w: World, es: seq<Event>, c: Config)
    requires Always(w.s, w.tr) && |w.s.times| > |w.s.lidar|
    ensures var s' := Run(w, es, c).s; |s'.times| > |s'.lidar|
    decreases |es|
  {
    hide Always, Step, Traced;
    if es != [] {
      AlwaysSized(w.s, w.tr);
      StepAlways(w.s, w.tr, es[0], c);
      LagStays(w.s, es[0], c);
      RunLags(StepWorld(w, es[0], c), es[1..], c);
    }
  }

  ghost predicate NeverClears(w: World, es: seq<Event>, c: Config)
    requires Always(w.s, w.tr)
    decreases |es|
  {
    es != [] ==>
      !Clears(w.s, es[0])
      && (StepAlways(w.s, w.tr, es[0], c); NeverClears(StepWorld(w, es[0], c), es[1..], c))
  }

  /** After any run that starts with scans and stamps in step (as the initial state is), they
      are in step if and only if no arriving scan cleared a buffered one. */
  lemma {:induction false} RunPairedIff(w: World, es: seq<Event>, c: Config)
    requires Always(w.s, w.tr) && Paired(w.s)
    ensures Paired(Run(w, es, c).s) <==> NeverClears(w, es, c)
    decreases |es|
  {
    hide Always, Step, Traced, Clears;
    if es != [] {
      AlwaysSized(w.s, w.tr);
      StepAlways(w.s, w.tr, es[0], c);
      if Clears(w.s, es[0]) {
        ClearLags(w.s, es[0], c);
        RunLags(StepWorld(w, es[0], c), es[1..], c);
      } else {
        StepPaired(w.s, es[0], c);
        RunPairedIff(StepWorld(w, es[0], c), es[1..], c);
      }
    }
  }

  /** The buffered scans are the latest arrivals, and so are the buffered stamps. */
  ghost predicate Latest(s: State, tr: Trace) {
    var n := |tr.scans|;
    && |s.lidar| <= |s.times| <= n
    && (forall i :: 0 <= i < |s.lidar| ==> s.lidar[i] == tr.scans[n - |s.lidar| + i])
    && (forall i :: 0 <= i < |s.times| ==> s.times[i] == tr.scans[n - |s.times| + i].stamp)
  }

  lemma {:induction false} StepLatest(s: State, tr: Trace, e: Event, c: Config)
    requires Latest(s, tr)
    ensures Latest(Step(s, e, c), Traced(s, tr, e, c))
  {
    hide TakeUp, SetsTimediff, Restamped, Taken, Counted;
    if e.Sync? && s.lidar != [] && s.imu != [] { TakeUpKeeps(s, c); }
  }

  /** After any run, a scan that is taken up gets the stamp of the scan that arrived as many
      scans before it as the stamps have fallen behind. */
  lemma {:induction false} StampOfEarlierScan(s: State, tr: Trace, c: Config)
    requires Latest(s, tr) && s.lidar != [] && !s.pushed
    ensures var i, lag := |tr.scans| - |s.lidar|, |s.times| - |s.lidar|;
      && 0 <= lag <= i < |tr.scans|
      && TakeUp(s, c).measScan == tr.scans[i] && TakeUp(s, c).measBeg == tr.scans[i - lag].stamp
  {
    hide Counted;
    TakeUpKeeps(s, c);
    assert s.lidar[0] == tr.scans[|tr.scans| - |s.lidar| + 0];
    assert s.times[0] == tr.scans[|tr.scans| - |s.times| + 0].stamp;
  }

  /** An IMU message leaves everything before it in place exactly if it does not clear a
      buffered one. */
  lemma ConservedIff(s: State, tr: Trace, m: Imu, c: Config)
    requires |s.lidar| <= |s.times| && Conserved(s, tr)
    ensures var kept := Restamped(s, m, c).stamp >= s.lastImu || s.imu == [];
      Conserved(AfterImu(s, m, c), Traced(s, tr, ImuArrives(m), c)) <==> kept
  {
    hide Restamped, AllImus, AllScans;
    var n := Restamped(s, m, c);
    assert AllImus(tr.groups) + s.imu + [n] == AllImus(tr.groups) + (s.imu + [n]);
    assert |AllImus(tr.groups) + s.imu + [n]| == |AllImus(tr.groups)| + |s.imu| + 1;
  }

  /** Every IMU message that has arrived has gone out in some group, in order, or is buffered. */
  ghost predicate ImuConserved(s: State, tr: Trace) {
    tr.imus == AllImus(tr.groups) + s.imu
  }

  /** An arriving IMU message clears buffered ones. */
  predicate ClearsImu(s: State, e: Event, c: Config) {
    e.ImuArrives? && Restamped(s, e.m, c).stamp < s.lastImu && s.imu != []
  }

  lemma {:induction false} ImusMore(gs: seq<Group>, g: Group, imu: seq<Imu>, n: nat)
    requires n <= |imu| && g.imu == imu[..n]
    ensures AllImus(gs + [g]) + imu[n..] == AllImus(gs) + imu
  {
    assert (gs + [g])[..|gs|] == gs;
    assert imu[..n] + imu[n..] == imu;
  }

  lemma {:induction false} StepImuConserved(s: State, tr: Trace, e: Event, c: Config)
    requires |s.lidar| <= |s.times| && ImuConserved(s, tr) && !ClearsImu(s, e, c)
    ensures ImuConserved(Step(s, e, c), Traced(s, tr, e, c))
  {
    hide TakeUp, Taken, Counted, SetsTimediff, Restamped, AllImus;
    if e.ImuArrives? {
      var n := Restamped(s, e.m, c);
      assert AllImus(tr.groups) + s.imu + [n] == AllImus(tr.groups) + (s.imu + [n]);
    } else if e.Sync? && s.lidar != [] && s.imu != [] {
      TakeUpKeeps(s, c);
      if Delivers(s, c) {
        ImusMore(tr.groups, Delivered(s, c), s.imu, Taken(s.imu, TakeUp(s, c).endTime));
      }
    }
  }

  /** How many messages have been lost. */
  ghost function ImusLost(s: State, tr: Trace): int {
    |tr.imus| - |AllImus(tr.groups)| - |s.imu|
  }

  /** A lost message never comes back. */
  lemma {:induction false} LossStays(s: State, tr: Trace, e: Event, c: Config)
    requires |s.lidar| <= |s.times|
    ensures var lost := ImusLost(Step(s, e, c), Traced(s, tr, e, c));
      lost == ImusLost(s, tr) + if ClearsImu(s, e, c) then |s.imu| else 0
  {
    hide TakeUp, Taken, Counted, SetsTimediff, Restamped, AllImus;
    if e.Sync? && s.lidar != [] && s.imu != [] {
      TakeUpKeeps(s, c);
      if Delivers(s, c) {
        var n := Taken(s.imu, TakeUp(s, c).endTime);
        ImusMore(tr.groups, Delivered(s, c), s.imu, n);
        assert |AllImus(tr.groups + [Delivered(s, c)]) + s.imu[n..]| == |AllImus(tr.groups) + s.imu|;
      }
    }
  }

  lemma {:induction false} RunLoses(w: World, es: seq<Event>, c: Config)
    requires Always(w.s, w.tr) && ImusLost(w.s, w.tr) > 0
    ensures var w' := Run(w, es, c); ImusLost(w'.s, w'.tr) > 0
    decreases |es|
  {
    hide Always, Step, Traced, ImusLost, ClearsImu;
    if es != [] {
      AlwaysSized(w.s, w.tr);
      StepAlways(w.s, w.tr, es[0], c);
      LossStays(w.s, w.tr, es[0], c);
      RunLoses(StepWorld(w, es[0], c), es[1..], c);
    }
  }

  ghost predicate NeverClearsImu(w: World, es: seq<Event>, c: Config)
    requires Always(w.s, w.tr)
    decreases |es|
  {
    es != [] ==>
      !ClearsImu(w.s, es[0], c)
      && (StepAlways(w.s, w.tr, es[0], c); NeverClearsImu(StepWorld(w, es[0], c), es[1..], c))
  }

  /** After any run that starts without loss (as the initial state does), every IMU message has
      gone out or is buffered if and only if none cleared a buffered one. */
  lemma {:induction false} RunConservedIff(w: World, es: seq<Event>, c: Config)
    requires Always(w.s, w.tr) && ImuConserved(w.s, w.tr)
    ensures var w' := Run(w, es, c); ImuConserved(w'.s, w'.tr) <==> NeverClearsImu(w, es, c)
    decreases |es|
  {
    hide Always, Step, Traced, ClearsImu, AllImus;
    if es != [] {
      AlwaysSized(w.s, w.tr);
      StepAlways(w.s, w.tr, es[0], c);
      if ClearsImu(w.s, es[0], c) {
        LossStays(w.s, w.tr, es[0], c);
        ClearedSome(w.s, es[0], c);
        RunLoses(StepWorld(w, es[0], c), es[1..], c);
      } else {
        StepImuConserved(w.s, w.tr, es[0], c);
        RunConservedIff(StepWorld(w, es[0], c), es[1..], c);
      }
    }
  }

  lemma ClearedSome(s: State, e: Event, c: Config)
    requires ClearsImu(s, e, c)
    ensures |s.imu| > 0
  {
  }

  // ---- Where scans end -----------------------------------------------------------------------

  function MeanOf(d: seq<real>): real {
    if d == [] then 0.0 else Sum(d) / |d| as real
  }

  /** A scan's own duration is believed: more than one point, and not less than half the mean of
      the durations believed before. */
  predicate Believed(scan: Scan, d: seq<real>) {
    scan.points > 1 && scan.lastOffset >= 0.5 * MeanOf(d)
  }

  /** The durations believed of scans that were taken up one after the other. */
  function DurationsOf(scans: seq<Scan>): seq<real> {
    if scans == [] then []
    else
      var d, scan := DurationsOf(scans[..|scans| - 1]), scans[|scans| - 1];
      if Believed(scan, d) then d + [scan.lastOffset] else d
  }

  /** A scan that begins at beg ends after its own duration if that is believed, else after the
      mean of those believed before; at once for marsim. */
  predicate EndsRight(beg: real, scan: Scan, end: real, before: seq<Scan>, c: Config) {
    var d := DurationsOf(before);
    end == if c.marsim then beg
           else if Believed(scan, d) then beg + scan.lastOffset
           else beg + MeanOf(d)
  }

  function TakenUp(s: State, tr: Trace): seq<Scan> {
    AllScans(tr.groups) + (if s.pushed then [s.measScan] else [])
  }

  /** Every delivered group, and the scan that waits for its IMU messages, ends as its duration
      and those of the groups delivered before it say. */
  ghost predicate EndsTold(s: State, tr: Trace, c: Config) {
    && tr.durations == DurationsOf(TakenUp(s, tr))
    && (s.pushed ==> EndsRight(s.measBeg, s.measScan, s.endTime, AllScans(tr.groups), c))
    && forall i :: 0 <= i < |tr.groups| ==>
         var g := tr.groups[i];
         EndsRight(g.begTime, g.scan, g.endTime, AllScans(tr.groups[..i]), c)
  }

  lemma {:induction false} TakeUpEnds(s: State, tr: Trace, c: Config)
    requires Always(s, tr) && EndsTold(s, tr, c) && s.lidar != [] && s.imu != []
    ensures var t := TakeUp(s, c);
      && t.pushed && EndsRight(t.measBeg, t.measScan, t.endTime, AllScans(tr.groups), c)
      && Traced(s, tr, Sync, c).durations == DurationsOf(AllScans(tr.groups) + [t.measScan])
  {
    hide AllScans, Sum, Taken, Sorted;
    if !s.pushed {
      var before, scan := AllScans(tr.groups), s.lidar[0];
      assert before + [] == before;
      assert (before + [scan])[..|before|] == before;
      assert s.mean == MeanOf(tr.durations);
    }
  }

  lemma {:induction false} OneMoreGroup(gs: seq<Group>, g: Group)
    ensures AllScans(gs + [g]) == AllScans(gs) + [g.scan]
  {
    assert (gs + [g])[..|gs|] == gs;
  }

  /** Every step keeps that, loop backs included. */
  lemma {:induction false} StepEnds(s: State, tr: Trace, e: Event, c: Config)
    requires Always(s, tr) && EndsTold(s, tr, c)
    ensures EndsTold(Step(s, e, c), Traced(s, tr, e, c), c)
  {
    hide TakeUp, Sum, Taken, Counted, SetsTimediff, Restamped, AllScans, EndsRight, DurationsOf, Sorted, ExactMean;
    if e.Sync? && s.lidar != [] && s.imu != [] {
      TakeUpKeeps(s, c);
      TakeUpEnds(s, tr, c);
      if Delivers(s, c) { DeliveryEnds(s, tr, c); }
    }
  }

  lemma {:induction false} DeliveryEnds(s: State, tr: Trace, c: Config)
    requires Always(s, tr) && EndsTold(s, tr, c) && Delivers(s, c)
    ensures EndsTold(AfterSync(s, c), Traced(s, tr, Sync, c), c)
  {
    hide TakeUp, Sum, Taken, Counted, AllScans, EndsRight, DurationsOf, Sorted, ExactMean;
    TakeUpKeeps(s, c);
    TakeUpEnds(s, tr, c);
    var g, s', tr' := Delivered(s, c), AfterSync(s, c), Traced(s, tr, Sync, c);
    OneMoreGroup(tr.groups, g);
    assert tr'.groups == tr.groups + [g];
    assert AllScans(tr'.groups) + [] == AllScans(tr.groups) + [g.scan];
    assert TakenUp(s', tr') == AllScans(tr.groups) + [TakeUp(s, c).measScan];
    forall i | 0 <= i < |tr'.groups|
      ensures var h := tr'.groups[i]; EndsRight(h.begTime, h.scan, h.endTime, AllScans(tr'.groups[..i]), c)
    {
      assert tr'.groups[..i] == tr.groups[..i];
      assert tr.groups[..|tr.groups|] == tr.groups;
    }
  }

  lemma {:induction false} RunEnds(w: World, es: seq<Event>, c: Config)
    requires Always(w.s, w.tr) && EndsTold(w.s, w.tr, c)
    ensures var w' := Run(w, es, c); EndsTold(w'.s, w'.tr, c)
    decreases |es|
  {
    hide Always, EndsTold, Step, Traced;
    if es != [] {
      AlwaysSized(w.s, w.tr);
      StepAlways(w.s, w.tr, es[0], c);
      StepEnds(w.s, w.tr, es[0], c);
      RunEnds(StepWorld(w, es[0], c), es[1..], c);
    }
  }

  // ---- Stamps without a clock difference -----------------------------------------------------

  /** Until a scan sets the clock difference there is none. */
  predicate NoDifference(s: State) {
    s.timediffSet || s.timediff == 0.0
  }

  lemma {:induction false} StepNoDifference(s: State, e: Event, c: Config)
    requires |s.lidar| <= |s.times| && NoDifference(s)
    ensures NoDifference(Step(s, e, c))
  {
    hide TakeUp, Taken, Counted;
    if e.Sync? && s.lidar != [] && s.imu != [] { DifferenceKept(s, c); }
  }

  lemma DifferenceKept(s: State, c: Config)
    requires s.lidar != [] && s.times != []
    ensures TakeUp(s, c).timediffSet == s.timediffSet && TakeUp(s, c).timediff == s.timediff
  {
  }

  lemma {:induction false} RunNoDifference(w: World, es: seq<Event>, c: Config)
    requires Always(w.s, w.tr) && NoDifference(w.s)
    ensures NoDifference(Run(w, es, c).s)
    decreases |es|
  {
    hide Always, Step, Traced, NoDifference;
    if es != [] {
      AlwaysSized(w.s, w.tr);
      StepAlways(w.s, w.tr, es[0], c);
      StepNoDifference(w.s, es[0], c);
      RunNoDifference(StepWorld(w, es[0], c), es[1..], c);
    }
  }

  /** After any run from the start in which no scan has set the clock difference (as in every run
      without time_sync), an arriving IMU message is stamped the configured delay earlier and
      nothing else about it changes. */
  lemma {:induction false} DelayedFromStart(es: seq<Event>, m: Imu, c: Config)
    ensures Always(NothingYet().s, NothingYet().tr)
    ensures var s := Run(NothingYet(), es, c).s;
      !s.timediffSet || !c.timeSync ==>
        var n := AfterImu(s, m, c).imu;
        n != [] && n[|n| - 1] == Imu(m.stamp - c.imuDelay, m.tag)
  {
    hide Always, Run;
    InitialGood();
    RunNoDifference(NothingYet(), es, c);
  }

  // ---- From the initial state ----------------------------------------------------------------

  function NothingYet(): World {
    World(Initial(), Trace([], [], [], []))
  }

  lemma InitialGood()
    ensures var w := NothingYet();
      Always(w.s, w.tr) && Lossless(w.s, w.tr) && Latest(w.s, w.tr) && ImuConserved(w.s, w.tr)
  {
  }

  lemma InitialEnds(c: Config)
    ensures EndsTold(NothingYet().s, NothingYet().tr, c)
  {
    assert TakenUp(NothingYet().s, NothingYet().tr) == [];
  }

  /** After any run from the start, every delivered group ends at its begin plus the last offset
      of its scan, if the scan has more than one point and that offset is at least half the mean
      of those so counted among the groups before it; else at its begin plus that mean; and at
      its begin for marsim. */
  lemma {:induction false} GroupEnds(es: seq<Event>, c: Config, i: nat)
    ensures Always(NothingYet().s, NothingYet().tr)
    ensures var gs := Run(NothingYet(), es, c).tr.groups;
      i < |gs| ==>
        var g, d := gs[i], DurationsOf(AllScans(gs[..i]));
        var mean := if d == [] then 0.0 else Sum(d) / |d| as real;
        g.endTime - g.begTime ==
          if c.marsim then 0.0
          else if g.scan.points > 1 && 2.0 * g.scan.lastOffset >= mean then g.scan.lastOffset
          else mean
  {
    hide Always, Run, AllScans, DurationsOf, Sum;
    InitialGood();
    InitialEnds(c);
    RunEnds(NothingYet(), es, c);
    var gs := Run(NothingYet(), es, c).tr.groups;
    if i < |gs| {
      assert EndsRight(gs[i].begTime, gs[i].scan, gs[i].endTime, AllScans(gs[..i]), c);
    }
  }

  /** Whatever arrives: the buffer is sorted, the mean is exact, the buffers are the latest
      arrivals, scans and stamps are in step exactly if no scan cleared a buffered one, and no
      IMU message is lost exactly if none cleared a buffered one. */
  lemma {:induction false} FromStart(es: seq<Event>, c: Config)
    ensures Always(NothingYet().s, NothingYet().tr)
    ensures var w := Run(NothingYet(), es, c);
      && Always(w.s, w.tr) && Latest(w.s, w.tr)
      && (Paired(w.s) <==> NeverClears(NothingYet(), es, c))
      && (ImuConserved(w.s, w.tr) <==> NeverClearsImu(NothingYet(), es, c))
  {
    hide Always, Lossless, Latest, ImuConserved, Run;
    InitialGood();
    var w := NothingYet();
    PairedFirst(w.s, w.tr);
    RunAlways(w, es, c);
    RunLatest(w, es, c);
    RunPairedIff(w, es, c);
    RunConservedIff(w, es, c);
  }

  lemma PairedFirst(s: State, tr: Trace)
    requires Lossless(s, tr)
    ensures Paired(s)
  {
  }

  /** As long as no clock loops back, batching loses and misplaces nothing. */
  lemma {:induction false} LosslessFromStart(es: seq<Event>, c: Config)
    ensures Always(NothingYet().s, NothingYet().tr)
    ensures Smooth(NothingYet(), es, c) ==> var w := Run(NothingYet(), es, c); Lossless(w.s, w.tr)
  {
    hide Always, Lossless, Latest, ImuConserved, Run, Smooth;
    InitialGood();
    if Smooth(NothingYet(), es, c) { RunLossless(NothingYet(), es, c); }
  }

  /** A scan with a stamp of 5 clears one with a stamp of 10, and goes out as begun at 10. */
  lemma StaleStamp(c: Config)
    requires !c.marsim && !c.timeSync && c.imuDelay == 0.0
    ensures var s1 := AfterScan(Initial(), Scan(10.0, 2, 1.0), c);
      var s2 := AfterImu(AfterScan(s1, Scan(5.0, 2, 1.0), c), Imu(20.0, 0), c);
      && |s2.lidar| <= |s2.times| && Delivers(s2, c)
      && Delivered(s2, c).scan.stamp == 5.0 && Delivered(s2, c).begTime == 10.0
  {
  }
}
