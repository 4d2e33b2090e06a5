/** The state of the Bayesian static-map builder and what each step of it does
    (pointcloud_mapper_node.cpp).

    The filter is enabled; a point cloud arrives filtered, each point with the keys of its
    occupancy voxel and of its fine map voxel, and a ray is the sequence of voxel keys that
    it samples. */
module MapperState {
  import opened Prelude

  /** Nanoseconds; 0 is the zero time. */
  type Time = int

  datatype Key = Key(x: int, y: int, z: int)

  datatype Occ = Occ(logOdds: real, hitScans: nat, missScans: nat,
                     lastHitScan: Option<nat>, lastMissScan: Option<nat>,
                     firstHit: Time, lastHit: Time, lastSeen: Time, generation: nat)

  datatype Value = Value(x: real, y: real, z: real, intensity: real)

  /** A point of a filtered cloud. */
  datatype Sample = Sample(occKey: Key, fineKey: Key, value: Value)

  datatype Fine = Fine(sum: Value, count: nat, occKey: Key, occGen: nat)

  datatype Config = Config(hit: real, miss: real, occupied: real, clearing: real,
                           minHits: nat, minSpan: Time, candidateTimeout: Time,
                           cleanupPeriod: Time, maxVoxels: nat)

  datatype State = State(occ: map<Key, Occ>, fine: map<Key, Fine>, scan: nat, nextGen: nat,
                         lastCleanup: Time)

  const MIN_LOG_ODDS := -4.0
  const MAX_LOG_ODDS := 4.0

  function FreshOcc(generation: nat): Occ {
    Occ(0.0, 0, 0, None, None, 0, 0, 0, generation)
  }

  function Plus(a: Value, b: Value): Value {
    Value(a.x + b.x, a.y + b.y, a.z + b.z, a.intensity + b.intensity)
  }

  const ZERO := Value(0.0, 0.0, 0.0, 0.0)

  predicate IsStatic(o: Occ, c: Config) {
    && o.hitScans >= c.minHits && o.logOdds >= c.occupied && o.firstHit != 0 && o.lastHit != 0
    && o.lastHit - o.firstHit >= c.minSpan
  }

  // ---- One hit, one miss -------------------------------------------------------------------

  function HitOcc(o: Occ, scan: nat, stamp: Time, c: Config): Occ {
    var seen := o.(lastSeen := stamp);
    if o.lastHitScan == Some(scan) then seen
    else seen.(lastHitScan := Some(scan), logOdds := RMin(MAX_LOG_ODDS, o.logOdds + c.hit),
               hitScans := o.hitScans + 1,
               firstHit := if o.firstHit == 0 then stamp else o.firstHit, lastHit := stamp)
  }

  /** getOrCreateOccupancy followed by the rest of updateHit. */
  function AfterHit(s: State, key: Key, stamp: Time, c: Config): State {
    var isNew := key !in s.occ;
    var o := if isNew then FreshOcc(s.nextGen) else s.occ[key];
    s.(occ := s.occ[key := HitOcc(o, s.scan, stamp, c)],
       nextGen := if isNew then s.nextGen + 1 else s.nextGen)
  }

  function MissOcc(o: Occ, scan: nat, stamp: Time, c: Config): Occ {
    if o.lastMissScan == Some(scan) then o
    else o.(lastMissScan := Some(scan), lastSeen := stamp,
            logOdds := RMax(MIN_LOG_ODDS, o.logOdds + c.miss), missScans := o.missScans + 1)
  }

  /** The voxel is erased by a miss in this scan. */
  predicate ClearedBy(o: Occ, scan: nat, stamp: Time, c: Config) {
    o.lastMissScan != Some(scan) && MissOcc(o, scan, stamp, c).logOdds <= c.clearing
  }

  /** Every stored voxel among `missed` has received one miss; nothing else has changed. */
  function AfterMisses(occ: map<Key, Occ>, missed: set<Key>, scan: nat, stamp: Time, c: Config)
    : map<Key, Occ>
  {
    map k | k in occ && !(k in missed && ClearedBy(occ[k], scan, stamp, c)) ::
      if k in missed then MissOcc(occ[k], scan, stamp, c) else occ[k]
  }

  // ---- One point cloud ---------------------------------------------------------------------

  function StartRun(key: Key, generation: nat): Fine {
    Fine(ZERO, 0, key, generation)
  }

  function Accumulate(f: Fine, v: Value): Fine {
    f.(sum := Plus(f.sum, v), count := f.count + 1)
  }

  /** The fine-map half of the accumulation loop: a voxel whose samples belong to another
      generation starts over. */
  function AddSample(s: State, p: Sample): State
    requires p.occKey in s.occ
  {
    var g := s.occ[p.occKey].generation;
    var f := if p.fineKey in s.fine && s.fine[p.fineKey].count != 0
                && s.fine[p.fineKey].occGen == g
             then s.fine[p.fineKey] else StartRun(p.occKey, g);
    s.(fine := s.fine[p.fineKey := Accumulate(f, p.value)])
  }

  function TakeSample(s: State, p: Sample, stamp: Time, c: Config): State {
    AddSample(AfterHit(s, p.occKey, stamp, c), p)
  }

  function TakeSamples(s: State, ps: seq<Sample>, stamp: Time, c: Config): State {
    if ps == [] then s
    else TakeSample(TakeSamples(s, ps[..|ps| - 1], stamp, c), ps[|ps| - 1], stamp, c)
  }

  /** The points that are published as static: their voxel is static right after their hit. */
  function StaticScan(s: State, ps: seq<Sample>, stamp: Time, c: Config): seq<Sample> {
    if ps == [] then []
    else
      var p := ps[|ps| - 1];
      var before := TakeSamples(s, ps[..|ps| - 1], stamp, c);
      StaticScan(s, ps[..|ps| - 1], stamp, c)
        + (if IsStatic(AfterHit(before, p.occKey, stamp, c).occ[p.occKey], c) then [p] else [])
  }

  /** The keys hit in this scan. */
  function Occupied(ps: seq<Sample>): set<Key> {
    set p | p in ps :: p.occKey
  }

  /** The keys that some ray visits. */
  function Visited(rays: seq<seq<Key>>): set<Key> {
    set r, k | r in rays && k in r :: k
  }

  predicate Expired(o: Occ, now: Time, c: Config) {
    !IsStatic(o, c) && o.lastSeen != 0 && now - o.lastSeen > c.candidateTimeout
  }

  predicate CleanupDue(s: State, now: Time, c: Config) {
    !(s.lastCleanup != 0 && now - s.lastCleanup < c.cleanupPeriod && |s.occ| <= c.maxVoxels)
  }

  function AfterCleanup(s: State, now: Time, c: Config): State {
    if CleanupDue(s, now, c) then
      s.(lastCleanup := now, occ := map k | k in s.occ && !Expired(s.occ[k], now, c) :: s.occ[k])
    else s
  }

  /** cloudCallback. */
  function AfterCloud(s: State, ps: seq<Sample>, rays: seq<seq<Key>>, stamp: Time, c: Config): State {
    var hit := TakeSamples(s.(scan := s.scan + 1), ps, stamp, c);
    var missed := Visited(rays) - Occupied(ps);
    AfterCleanup(hit.(occ := AfterMisses(hit.occ, missed, hit.scan, stamp, c)), stamp, c)
  }

  // ---- Exports and resets ------------------------------------------------------------------

  /** The occupancy voxel under which the samples of f were taken still exists. */
  predicate Current(occ: map<Key, Occ>, f: Fine) {
    f.occKey in occ && occ[f.occKey].generation == f.occGen
  }

  predicate Exportable(occ: map<Key, Occ>, f: Fine, c: Config) {
    Current(occ, f) && IsStatic(occ[f.occKey], c)
  }

  /** What buildMapCloud exports, by fine voxel. */
  function Exported(s: State, c: Config): map<Key, Fine> {
    map k | k in s.fine && s.fine[k].count != 0 && Exportable(s.occ, s.fine[k], c) :: s.fine[k]
  }

  /** What buildMapCloud leaves: the entries without a current occupancy voxel are erased. */
  function AfterExport(s: State): State {
    s.(fine := map k | k in s.fine && s.fine[k].count != 0 && Current(s.occ, s.fine[k]) :: s.fine[k])
  }

  /** resetMap: the generation counter and the time of the last cleanup survive. */
  function AfterReset(s: State): State {
    s.(occ := map[], fine := map[], scan := 0)
  }

  function Initial(): State {
    State(map[], map[], 0, 1, 0)
  }
}
