/** PointcloudMapper: the methods that update its two voxel maps, proved against the steps of
    MapperState. */
module Mapper {
  import opened Prelude
  import opened MapperState

  /** The initial previous_key of a ray.  No voxel of a finite coordinate has it. */
  const NO_KEY := Key(-0x8000_0000_0000_0000, 0, 0)

  /** A point of the exported cloud: the mean of the samples of a fine voxel. */
  function Mean(f: Fine): Value
    requires f.count != 0
  {
    var n := f.count as real;
    Value(f.sum.x / n, f.sum.y / n, f.sum.z / n, f.sum.intensity / n)
  }

  /** The exported point, times the number of samples, is their sum. */
  lemma MeanTimesCount(f: Fine)
    requires f.count != 0
    ensures var m, n := Mean(f), f.count as real;
      m.x * n == f.sum.x && m.y * n == f.sum.y && m.z * n == f.sum.z && m.intensity * n == f.sum.intensity
  {
    Divided(f.sum.x, f.count as real);
    Divided(f.sum.y, f.count as real);
    Divided(f.sum.z, f.count as real);
    Divided(f.sum.intensity, f.count as real);
  }

  lemma Divided(a: real, n: real)
    requires n != 0.0
    ensures a / n * n == a
  {
  }

  /** The cloud of a set of exported voxels, in any order. */
  ghost function CloudOf(m: map<Key, Fine>): multiset<Value>
    requires forall k :: k in m ==> m[k].count != 0
    decreases |m|
  {
    if m == map[] then multiset{}
    else
      var k :| k in m;
      multiset{Mean(m[k])} + CloudOf(m - {k})
  }

  /** The voxel that the definition of CloudOf picks first. */
  lemma CloudOfSome(m: map<Key, Fine>) returns (k: Key)
    requires m != map[] && forall k :: k in m ==> m[k].count != 0
    ensures k in m && CloudOf(m) == multiset{Mean(m[k])} + CloudOf(m - {k})
  {
    hide Mean;
    k :| k in m && CloudOf(m) == multiset{Mean(m[k])} + CloudOf(m - {k});
  }

  lemma {:induction false} CloudOfOne(m: map<Key, Fine>, k: Key)
    requires forall k :: k in m ==> m[k].count != 0
    requires k in m
    ensures CloudOf(m) == multiset{Mean(m[k])} + CloudOf(m - {k})
    decreases |m|
  {
    hide Mean, CloudOf;
    var l := CloudOfSome(m);
    if l != k {
      var rest := m - {k} - {l};
      assert m - {l} - {k} == rest;
      CloudOfOne(m - {l}, k);
      CloudOfOne(m - {k}, l);
    }
  }

  /** updateMiss on the value of the map. */
  function MissOne(occ: map<Key, Occ>, key: Key, scan: nat, stamp: Time, c: Config): map<Key, Occ> {
    if key !in occ || occ[key].lastMissScan == Some(scan) then occ
    else if ClearedBy(occ[key], scan, stamp, c) then occ - {key}
    else occ[key := MissOcc(occ[key], scan, stamp, c)]
  }

  /** One more visited key, seen before in this scan or not. */
  lemma {:induction false} MissOneMore(occ: map<Key, Occ>, missed: set<Key>, key: Key, scan: nat,
                                       stamp: Time, c: Config)
    ensures MissOne(AfterMisses(occ, missed, scan, stamp, c), key, scan, stamp, c)
         == AfterMisses(occ, missed + {key}, scan, stamp, c)
  {
    hide RMax;
    var a := MissOne(AfterMisses(occ, missed, scan, stamp, c), key, scan, stamp, c);
    var b := AfterMisses(occ, missed + {key}, scan, stamp, c);
    assert a.Keys == b.Keys;
    forall k | k in a ensures a[k] == b[k] {}
  }

  function KeysOf(ray: seq<Key>): set<Key> {
    set k | k in ray
  }

  class PointcloudMapper {
    /** temporal_voxels_ and map_voxels_ */
    var occ: map<Key, Occ>
    var fine: map<Key, Fine>
    var scanSequence: nat
    var nextGeneration: nat
    var lastCleanup: Time
    const c: Config

    function Snapshot(): State
      reads this
    {
      State(occ, fine, scanSequence, nextGeneration, lastCleanup)
    }

    constructor (config: Config)
      ensures Snapshot() == Initial() && c == config
    {
      c := config;
      occ, fine, scanSequence, nextGeneration, lastCleanup := map[], map[], 0, 1, 0;
    }

    method GetOrCreateOccupancy(key: Key) returns (o: Occ)
      modifies this`occ, this`nextGeneration
      ensures o == old(if key in occ then occ[key] else FreshOcc(nextGeneration))
      ensures occ == old(occ)[key := o]
      ensures nextGeneration == if key in old(occ) then old(nextGeneration) else old(nextGeneration) + 1
    {
      if key !in occ {
        occ := occ[key := FreshOcc(nextGeneration)];
        nextGeneration := nextGeneration + 1;
      }
      o := occ[key];
    }

    method UpdateHit(key: Key, stamp: Time)
      modifies this`occ, this`nextGeneration
      ensures Snapshot() == AfterHit(old(Snapshot()), key, stamp, c)
    {
      var o := GetOrCreateOccupancy(key);
      o := o.(lastSeen := stamp);
      if o.lastHitScan != Some(scanSequence) {
        o := o.(lastHitScan := Some(scanSequence), logOdds := RMin(MAX_LOG_ODDS, o.logOdds + c.hit));
        o := o.(hitScans := o.hitScans + 1);
        if o.firstHit == 0 { o := o.(firstHit := stamp); }
        o := o.(lastHit := stamp);
      }
      occ := occ[key := o];
    }

    method UpdateMiss(key: Key, stamp: Time)
      modifies this`occ
      ensures occ == MissOne(old(occ), key, scanSequence, stamp, c)
    {
      if key !in occ { return; }
      var o := occ[key];
      if o.lastMissScan == Some(scanSequence) { return; }
      o := o.(lastMissScan := Some(scanSequence), lastSeen := stamp,
              logOdds := RMax(MIN_LOG_ODDS, o.logOdds + c.miss), missScans := o.missScans + 1);
      if o.logOdds <= c.clearing {
        occ := occ - {key};
      } else {
        occ := occ[key := o];
      }
    }

    /** The sampling loop along one ray. */
    method ClearRay(ray: seq<Key>, occupied: set<Key>, stamp: Time, ghost seen: set<Key>,
                    ghost occ0: map<Key, Occ>)
      requires NO_KEY !in ray
      requires occ == AfterMisses(occ0, seen - occupied, scanSequence, stamp, c)
      modifies this`occ
      ensures occ == AfterMisses(occ0, seen + KeysOf(ray) - occupied, scanSequence, stamp, c)
    {
      hide AfterMisses, MissOne;
      var previous := NO_KEY;
      ghost var done := seen;
      for j := 0 to |ray|
        invariant done == seen + KeysOf(ray[..j])
        invariant previous == NO_KEY || previous in done
        invariant occ == AfterMisses(occ0, done - occupied, scanSequence, stamp, c)
      {
        var key := ray[j];
        assert ray[..j + 1] == ray[..j] + [key];
        ghost var more := done + {key};
        assert more == seen + KeysOf(ray[..j + 1]);
        if key == previous {
          assert more - occupied == done - occupied;
        } else {
          previous := key;
          if key in occupied {
            assert more - occupied == done - occupied;
          } else {
            MissOneMore(occ0, done - occupied, key, scanSequence, stamp, c);
            assert more - occupied == done - occupied + {key};
            UpdateMiss(key, stamp);
          }
        }
        done := more;
      }
      assert ray[..|ray|] == ray;
    }

    /** updateFreeSpace: whatever the order, number and overlap of the rays, a stored voxel
        is missed once if any ray visits it and no point of the scan hit it. */
    method UpdateFreeSpace(rays: seq<seq<Key>>, occupied: set<Key>, stamp: Time)
      requires forall r :: r in rays ==> NO_KEY !in r
      modifies this`occ
      ensures occ == AfterMisses(old(occ), Visited(rays) - occupied, scanSequence, stamp, c)
    {
      hide MissOne;
      ghost var occ0 := occ;
      assert Visited([]) - occupied == {};
      assert occ0 == AfterMisses(occ0, {}, scanSequence, stamp, c);
      for i := 0 to |rays|
        invariant occ == AfterMisses(occ0, Visited(rays[..i]) - occupied, scanSequence, stamp, c)
      {
        ClearRay(rays[i], occupied, stamp, Visited(rays[..i]), occ0);
        VisitedMore(rays, i);
      }
      assert rays[..|rays|] == rays;
    }

    lemma VisitedMore(rays: seq<seq<Key>>, i: nat)
      requires i < |rays|
      ensures Visited(rays[..i + 1]) == Visited(rays[..i]) + KeysOf(rays[i])
    {
      assert rays[..i + 1] == rays[..i] + [rays[i]];
    }

    /** One round of the accumulation loop; the result tells whether the point is static. */
    method TakePoint(p: Sample, stamp: Time) returns (isStatic: bool)
      modifies this`occ, this`nextGeneration, this`fine
      ensures Snapshot() == TakeSample(old(Snapshot()), p, stamp, c)
      ensures isStatic == IsStatic(AfterHit(old(Snapshot()), p.occKey, stamp, c).occ[p.occKey], c)
    {
      hide HitOcc;
      UpdateHit(p.occKey, stamp);
      var o := occ[p.occKey];
      isStatic := IsStatic(o, c);
      // map_voxels_[map_key] makes an empty entry if there is none
      var f := if p.fineKey in fine then fine[p.fineKey] else Fine(ZERO, 0, Key(0, 0, 0), 0);
      if f.count == 0 || f.occGen != o.generation {
        f := Fine(ZERO, 0, p.occKey, o.generation);
      }
      f := f.(sum := Plus(f.sum, p.value));
      f := f.(count := f.count + 1);
      fine := fine[p.fineKey := f];
    }

    /** cloudCallback: returns the points published as static. */
    method CloudCallback(ps: seq<Sample>, rays: seq<seq<Key>>, stamp: Time)
      returns (staticScan: seq<Sample>)
      requires forall r :: r in rays ==> NO_KEY !in r
      modifies this
      ensures Snapshot() == AfterCloud(old(Snapshot()), ps, rays, stamp, c)
      ensures staticScan == StaticScan(old(Snapshot()).(scan := old(scanSequence) + 1), ps, stamp, c)
    {
      hide AfterMisses, TakeSample, AfterHit, AfterCleanup, IsStatic;
      scanSequence := scanSequence + 1;
      ghost var s := Snapshot();
      var occupied := Occupied(ps);
      staticScan := [];
      for i := 0 to |ps|
        invariant Snapshot() == TakeSamples(s, ps[..i], stamp, c) && scanSequence == s.scan
        invariant staticScan == StaticScan(s, ps[..i], stamp, c)
      {
        assert ps[..i + 1][..i] == ps[..i];
        var isStatic := TakePoint(ps[i], stamp);
        if isStatic { staticScan := staticScan + [ps[i]]; }
        KeepsScan(TakeSamples(s, ps[..i], stamp, c), ps[i], stamp);
      }
      assert ps[..|ps|] == ps;
      UpdateFreeSpace(rays, occupied, stamp);
      MaybeCleanup(stamp);
    }

    lemma KeepsScan(s: State, p: Sample, stamp: Time)
      ensures TakeSample(s, p, stamp, c).scan == s.scan
    {
    }

    method MaybeCleanup(now: Time)
      modifies this`occ, this`lastCleanup
      ensures Snapshot() == AfterCleanup(old(Snapshot()), now, c)
    {
      hide IsStatic;
      ghost var s := Snapshot();
      if lastCleanup != 0 && now - lastCleanup < c.cleanupPeriod && |occ| <= c.maxVoxels {
        return;
      }
      lastCleanup := now;
      ghost var occ0 := occ;
      var todo := occ.Keys;
      while todo != {}
        invariant todo <= occ.Keys <= occ0.Keys && lastCleanup == now
        invariant forall k :: k in occ ==> occ[k] == occ0[k]
        invariant forall k :: k in occ0 && k !in todo ==> (k in occ <==> !Expired(occ0[k], now, c))
      {
        var k :| k in todo;
        todo := todo - {k};
        var o := occ[k];
        var expired := !IsStatic(o, c) && o.lastSeen != 0 && now - o.lastSeen > c.candidateTimeout;
        if expired { occ := occ - {k}; }
      }
      assert occ == AfterCleanup(s, now, c).occ;
    }

    /** buildMapCloud: the exported cloud, erasing outdated fine voxels on the way. */
    method BuildMapCloud() returns (cloud: seq<Value>)
      modifies this`fine
      ensures multiset(cloud) == CloudOf(Exported(old(Snapshot()), c))
      ensures Snapshot() == AfterExport(old(Snapshot()))
    {
      hide IsStatic, Mean, CloudOf;
      ghost var s := Snapshot();
      var todo := fine.Keys;
      cloud := [];
      ghost var shown: map<Key, Fine> := map[];
      NothingShown();
      while todo != {}
        invariant todo <= fine.Keys <= s.fine.Keys
        invariant forall k :: k in fine ==> fine[k] == s.fine[k]
        invariant forall k :: k in s.fine && k !in todo ==>
          (k in fine <==> s.fine[k].count != 0 && Current(occ, s.fine[k]))
        invariant forall k :: k in shown <==> k in Exported(s, c) && k !in todo
        invariant forall k :: k in shown ==> shown[k] == s.fine[k] && shown[k].count != 0
        invariant multiset(cloud) == CloudOf(shown)
      {
        var k :| k in todo;
        todo := todo - {k};
        var f := fine[k];
        if f.count == 0 {
          fine := fine - {k};
        } else if f.occKey !in occ || occ[f.occKey].generation != f.occGen {
          fine := fine - {k};
        } else if IsStatic(occ[f.occKey], c) {
          cloud := cloud + [Mean(f)];
          CloudOfOne(shown[k := f], k);
          assert shown[k := f] - {k} == shown;
          shown := shown[k := f];
        }
      }
      assert shown == Exported(s, c);
      assert fine == AfterExport(s).fine;
    }

    lemma NothingShown()
      ensures CloudOf(map[]) == multiset{}
    {
    }

    method ResetMap()
      modifies this
      ensures Snapshot() == AfterReset(old(Snapshot()))
    {
      occ := map[];
      fine := map[];
      scanSequence := 0;
    }
  }
}
