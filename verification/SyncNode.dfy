/** The buffers of the mapping node and the callbacks that fill and empty them, proved against
    the steps of SyncState. */
module SyncNode {
  import opened Prelude
  import opened SyncState

  class Buffers {
    var lidarBuffer: seq<Scan>
    var timeBuffer: seq<real>
    var imuBuffer: seq<Imu>
    var lastTimestampLidar: real
    var lastTimestampImu: real
    var timediffLidarWrtImu: real
    var timediffSetFlg: bool
    var lidarPushed: bool
    var measLidar: Scan
    var lidarBegTime: real
    var lidarEndTime: real
    var lidarMeanScantime: real
    var scanNum: nat
    const c: Config

    function Snapshot(): State
      reads this
    {
      State(lidarBuffer, timeBuffer, imuBuffer, lastTimestampLidar, lastTimestampImu,
            timediffLidarWrtImu, timediffSetFlg, lidarPushed, measLidar, lidarBegTime,
            lidarEndTime, lidarMeanScantime, scanNum)
    }

    constructor (config: Config)
      ensures Snapshot() == Initial() && c == config
    {
      c := config;
      lidarBuffer, timeBuffer, imuBuffer := [], [], [];
      lastTimestampLidar, lastTimestampImu := 0.0, -1.0;
      timediffLidarWrtImu, timediffSetFlg, lidarPushed := 0.0, false, false;
      measLidar, lidarBegTime, lidarEndTime := Scan(0.0, 0, 0.0), 0.0, 0.0;
      lidarMeanScantime, scanNum := 0.0, 0;
    }

    method ImuCbk(msgIn: Imu)
      modifies this
      ensures Snapshot() == AfterImu(old(Snapshot()), msgIn, c)
    {
      var msg := msgIn.(stamp := msgIn.stamp - c.imuDelay);
      if RAbs(timediffLidarWrtImu) > 0.1 && c.timeSync {
        msg := msg.(stamp := timediffLidarWrtImu + msgIn.stamp);
      }
      if msg.stamp < lastTimestampImu { imuBuffer := []; }
      lastTimestampImu := msg.stamp;
      imuBuffer := imuBuffer + [msg];
    }

    method LivoxPclCbk(scan: Scan)
      modifies this
      ensures Snapshot() == AfterScan(old(Snapshot()), scan, c)
    {
      if scan.stamp < lastTimestampLidar { lidarBuffer := []; }
      lastTimestampLidar := scan.stamp;
      if c.timeSync && !timediffSetFlg && RAbs(lastTimestampLidar - lastTimestampImu) > 1.0 && imuBuffer != [] {
        timediffSetFlg := true;
        timediffLidarWrtImu := lastTimestampLidar + 0.1 - lastTimestampImu;
      }
      lidarBuffer := lidarBuffer + [scan];
      timeBuffer := timeBuffer + [lastTimestampLidar];
    }

    /** The first half of sync_packages. */
    method PushLidar()
      requires lidarBuffer != [] && timeBuffer != []
      modifies this
      ensures Snapshot() == TakeUp(old(Snapshot()), c)
    {
      if !lidarPushed {
        measLidar, lidarBegTime := lidarBuffer[0], timeBuffer[0];
        if measLidar.points <= 1 {
          lidarEndTime := lidarBegTime + lidarMeanScantime;
        } else if measLidar.lastOffset < 0.5 * lidarMeanScantime {
          lidarEndTime := lidarBegTime + lidarMeanScantime;
        } else {
          scanNum := scanNum + 1;
          lidarEndTime := lidarBegTime + measLidar.lastOffset;
          lidarMeanScantime := lidarMeanScantime + (measLidar.lastOffset - lidarMeanScantime) / scanNum as real;
        }
        if c.marsim { lidarEndTime := lidarBegTime; }
        lidarPushed := true;
      }
    }

    /** The loop of sync_packages: takes the messages of the scan from the buffer. */
    method TakeImu() returns (group: seq<Imu>)
      requires imuBuffer != []
      modifies this`imuBuffer
      ensures var n := Taken(old(imuBuffer), lidarEndTime);
        group == old(imuBuffer)[..n] && imuBuffer == old(imuBuffer)[n..]
    {
      ghost var imu := imuBuffer;
      var imuTime := imuBuffer[0].stamp;
      group := [];
      while imuBuffer != [] && imuTime < lidarEndTime
        invariant group + imuBuffer == imu
        invariant group == [] ==> imuTime == imu[0].stamp
        invariant group != [] ==> imu[0].stamp < lidarEndTime && imuTime == group[|group| - 1].stamp <= lidarEndTime
        invariant forall i :: 0 <= i < |group| - 1 ==> group[i].stamp < lidarEndTime
        decreases |imuBuffer|
      {
        imuTime := imuBuffer[0].stamp;
        if imuTime > lidarEndTime { break; }
        group := group + [imuBuffer[0]];
        imuBuffer := imuBuffer[1..];
      }
      TakenBy(imu, group, imuBuffer, lidarEndTime);
    }

    method SyncPackages() returns (meas: Option<Group>)
      requires |lidarBuffer| <= |timeBuffer|
      modifies this
      ensures Snapshot() == AfterSync(old(Snapshot()), c)
      ensures meas == if Delivers(old(Snapshot()), c) then Some(Delivered(old(Snapshot()), c)) else None
    {
      hide TakeUp, Taken;
      if lidarBuffer == [] || imuBuffer == [] { return None; }
      TakeUpKeeps(Snapshot(), c);
      PushLidar();
      if lastTimestampImu < lidarEndTime { return None; }
      var group := TakeImu();
      lidarBuffer := lidarBuffer[1..];
      timeBuffer := timeBuffer[1..];
      lidarPushed := false;
      meas := Some(Group(measLidar, lidarBegTime, lidarEndTime, group));
    }
  }

  lemma {:induction false} OlderIs(imu: seq<Imu>, end: real, k: nat)
    requires k <= |imu| && (forall i :: 0 <= i < k ==> imu[i].stamp < end)
    requires k < |imu| ==> imu[k].stamp >= end
    ensures Older(imu, end) == k
    decreases k
  {
    if k > 0 { OlderIs(imu[1..], end, k - 1); }
  }

  /** How the loop may have stopped. */
  lemma {:induction false} TakenBy(imu: seq<Imu>, group: seq<Imu>, rest: seq<Imu>, end: real)
    requires imu == group + rest && imu != []
    requires group == [] ==> imu[0].stamp >= end
    requires group != [] ==> imu[0].stamp < end && group[|group| - 1].stamp <= end
    requires forall i :: 0 <= i < |group| - 1 ==> group[i].stamp < end
    requires group != [] && group[|group| - 1].stamp < end && rest != [] ==> rest[0].stamp > end
    ensures group == imu[..Taken(imu, end)] && rest == imu[Taken(imu, end)..]
  {
    hide Older;
    var n := |group|;
    var k := if n > 0 && group[n - 1].stamp == end then n - 1 else n;
    OlderIs(imu, end, k);
  }
}
