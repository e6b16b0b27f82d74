/** The clock of a device and its discovery windows: src/timer.c. */
module Timers {
  import opened Words
  import opened MovingAverages

  const NAN_DW_LENGTH_TU := 16
  const NAN_DW_INTERVAL_TU := 512
  const TU := 1024
  /** 512 time units in microseconds. */
  const INTERVAL := 0x8_0000
  const NAN_INITIAL_SCAN_TIMER_USEC := 1_000_000
  const DISCOVERY_BEACON_INTERVAL_USEC := 102_400

  datatype TimerView = TimerView(
    baseTimeUsec: u64, lastDiscoveryBeaconUsec: u64, warmupDone: bool, initialScanDone: bool, averageError: i32)

  function SyncedTimeUsec(t: TimerView, nowUsec: u64): u64 { Wrap64(nowUsec - t.baseTimeUsec) }

  function SyncedTimeTu(t: TimerView, nowUsec: u64): u64 { SyncedTimeUsec(t, nowUsec) / TU }

  /** The synced time corrected by the average error. */
  function FixedTimeUsec(t: TimerView, nowUsec: u64): u64 { Wrap64(nowUsec - t.baseTimeUsec - t.averageError) }

  function FixedTimeTu(t: TimerView, nowUsec: u64): u64 { FixedTimeUsec(t, nowUsec) / TU }

  /** The time unit within the interval between two discovery windows. */
  function Phase(t: TimerView, nowUsec: u64): nat { FixedTimeTu(t, nowUsec) % NAN_DW_INTERVAL_TU }

  predicate InDw(t: TimerView, nowUsec: u64) { Phase(t, nowUsec) <= NAN_DW_LENGTH_TU }

  function NextDwUsec(t: TimerView, nowUsec: u64): u64 {
    (NAN_DW_INTERVAL_TU - FixedTimeTu(t, nowUsec) % NAN_DW_INTERVAL_TU) * TU
  }

  function DwEndUsec(t: TimerView, nowUsec: u64): u64 {
    if InDw(t, nowUsec) then NextDwUsec(t, Wrap64(nowUsec - NAN_DW_LENGTH_TU * TU))
    else NextDwUsec(t, nowUsec) + NAN_DW_LENGTH_TU * TU
  }

  predicate InitialScanDone(t: TimerView, nowUsec: u64) {
    t.initialScanDone || Wrap64(nowUsec - t.baseTimeUsec) > NAN_INITIAL_SCAN_TIMER_USEC
  }

  /** The first beacon that is received ends the initial scan. */
  function ScanEnded(t: TimerView, nowUsec: u64): TimerView {
    if InitialScanDone(t, nowUsec) then t else t.(initialScanDone := true)
  }

  predicate CanSendDiscoveryBeacon(t: TimerView, nowUsec: u64) {
    Wrap64(nowUsec - t.lastDiscoveryBeaconUsec) >= DISCOVERY_BEACON_INTERVAL_USEC
  }

  function NextDiscoveryBeaconUsec(t: TimerView, nowUsec: u64): u64 {
    if CanSendDiscoveryBeacon(t, nowUsec) then 0
    else Wrap64(nowUsec - t.lastDiscoveryBeaconUsec + DISCOVERY_BEACON_INTERVAL_USEC)
  }

  /** The error that a received timestamp shows, as an int. */
  function ErrorUsec(t: TimerView, nowUsec: u64, timestamp: u64): i32 { ToI32(SyncedTimeUsec(t, nowUsec) - timestamp) }

  function Synced(t: TimerView, nowUsec: u64, timestamp: u64): TimerView {
    t.(baseTimeUsec := Wrap64(t.baseTimeUsec + SyncedTimeUsec(t, nowUsec) - timestamp))
  }

  /** nan_time_difference_dw, with its conversion to 32 bits. */
  function TimeDifferenceDw(oldTime: u64, newTime: u64): u32 {
    Wrap32(newTime / 1024 - oldTime / 1024) / NAN_DW_INTERVAL_TU
  }

  class TimerState {
    var baseTimeUsec: u64
    var lastDiscoveryBeaconUsec: u64
    var warmupDone: bool
    var initialScanDone: bool
    const averageErrorState: MovingAverage

    ghost predicate Valid()
      reads averageErrorState, averageErrorState.buffer
    {
      averageErrorState.Valid() && Between(averageErrorState.history, -INTERVAL, INTERVAL)
    }

    function View(): TimerView
      reads this, averageErrorState
    {
      TimerView(baseTimeUsec, lastDiscoveryBeaconUsec, warmupDone, initialScanDone, averageErrorState.average)
    }

    constructor (nowUsec: u64)
      ensures Valid() && View() == TimerView(nowUsec, 0, false, true, 0)
      ensures fresh(averageErrorState) && fresh(averageErrorState.buffer)
    {
      baseTimeUsec := nowUsec;
      lastDiscoveryBeaconUsec := 0;
      warmupDone := false;
      initialScanDone := true;
      averageErrorState := new MovingAverage();
    }

    /** nan_timer_sync_time */
    method SyncTime(nowUsec: u64, timestamp: u64)
      modifies this`baseTimeUsec
      ensures View() == Synced(old(View()), nowUsec, timestamp)
    {
      var diffUsec := Wrap64(SyncedTimeUsec(View(), nowUsec) - timestamp);
      baseTimeUsec := Wrap64(baseTimeUsec + diffUsec);
    }

    /** nan_timer_sync_error: errors of more than one interval are not taken as samples. */
    method SyncError(nowUsec: u64, timestamp: u64)
      requires Valid() && ErrorUsec(View(), nowUsec, timestamp) != -0x8000_0000
      requires |averageErrorState.history| < 0x4000_0000
      modifies averageErrorState, averageErrorState.buffer
      ensures Valid()
      ensures var e := ErrorUsec(old(View()), nowUsec, timestamp);
              averageErrorState.history
              == if -INTERVAL <= e <= INTERVAL then old(averageErrorState.history) + [e] else old(averageErrorState.history)
      ensures View() == old(View()).(averageError := averageErrorState.average)
    {
      hide Average;
      var errorUsec := ToI32(SyncedTimeUsec(View(), nowUsec) - timestamp);
      if errorUsec > INTERVAL || -errorUsec > INTERVAL {
        return;
      }
      NoOverflow(averageErrorState.history, errorUsec);
      averageErrorState.Add(errorUsec);
    }

    /** nan_timer_warmup_expired: true at most once. */
    method WarmupExpired(nowUsec: u64) returns (expired: bool)
      modifies this`warmupDone
      ensures expired <==> !old(warmupDone) && SyncedTimeUsec(old(View()), nowUsec) >= 120_000_000
      ensures warmupDone == (old(warmupDone) || expired)
    {
      if !warmupDone && Wrap64(nowUsec - baseTimeUsec) >= 120_000_000 {
        warmupDone := true;
        return true;
      }
      return false;
    }

    method InitialScanCancel()
      modifies this`initialScanDone
      ensures View() == old(View()).(initialScanDone := true)
    {
      initialScanDone := true;
    }

    method SetLastDiscoveryBeaconUsec(timeUsec: u64)
      modifies this`lastDiscoveryBeaconUsec
      ensures View() == old(View()).(lastDiscoveryBeaconUsec := timeUsec)
    {
      lastDiscoveryBeaconUsec := timeUsec;
    }
  }

  // ---------------------------------------------------------------- arithmetic modulo 2^64

  lemma WrapModInterval(x: int)
    ensures Wrap64(x) % INTERVAL == x % INTERVAL
  {
    var q := x / 0x1_0000_0000_0000_0000;
    assert x == q * 0x1_0000_0000_0000_0000 + Wrap64(x);
    assert q * 0x1_0000_0000_0000_0000 == (q * 0x2000_0000_0000) * INTERVAL;
    Shifted(Wrap64(x), q * 0x2000_0000_0000);
  }

  lemma Shifted(x: int, k: int)
    ensures (x + k * INTERVAL) % INTERVAL == x % INTERVAL
  {
    var q := x / INTERVAL;
    assert x + k * INTERVAL == (q + k) * INTERVAL + x % INTERVAL;
  }

  /** Where in its interval a clock stands `e` after `now`, in microseconds. */
  function Offset(t: TimerView, nowUsec: int): nat { (nowUsec - t.baseTimeUsec - t.averageError) % INTERVAL }

  lemma PhaseOfOffset(t: TimerView, nowUsec: int)
    ensures Phase(t, Wrap64(nowUsec)) == Offset(t, nowUsec) / TU < NAN_DW_INTERVAL_TU
  {
    var f := FixedTimeUsec(t, Wrap64(nowUsec));
    var x := nowUsec - t.baseTimeUsec - t.averageError;
    WrapModInterval(Wrap64(nowUsec) - t.baseTimeUsec - t.averageError);
    var q := nowUsec / 0x1_0000_0000_0000_0000;
    assert Wrap64(nowUsec) == nowUsec - q * 0x1_0000_0000_0000_0000;
    assert Wrap64(nowUsec) - t.baseTimeUsec - t.averageError == x + (-q * 0x2000_0000_0000) * INTERVAL;
    Shifted(x, -q * 0x2000_0000_0000);
    TimeUnits(f);
  }

  lemma TimeUnits(f: nat)
    ensures f / TU % NAN_DW_INTERVAL_TU == f % INTERVAL / TU
  {
    var q, r := f / INTERVAL, f % INTERVAL;
    assert f == q * INTERVAL + r;
    assert f / TU == q * NAN_DW_INTERVAL_TU + r / TU;
  }

  lemma OffsetLater(t: TimerView, nowUsec: int, e: int)
    ensures Offset(t, nowUsec + e) == (Offset(t, nowUsec) + e) % INTERVAL
  {
    var x := nowUsec - t.baseTimeUsec - t.averageError;
    var q := x / INTERVAL;
    assert x + e == Offset(t, nowUsec) + e + q * INTERVAL;
    Shifted(Offset(t, nowUsec) + e, q);
  }

  /** The phase `e` microseconds from now, on a 64-bit clock. */
  function PhaseAfter(t: TimerView, nowUsec: u64, e: int): nat { Phase(t, Wrap64(nowUsec + e)) }

  lemma PhaseAfterOffset(t: TimerView, nowUsec: u64, e: int)
    ensures PhaseAfter(t, nowUsec, e) == (Offset(t, nowUsec) + e) % INTERVAL / TU
  {
    PhaseOfOffset(t, nowUsec + e);
    OffsetLater(t, nowUsec, e);
  }

  // ---------------------------------------------------------------- windows

  lemma ToNextInterval(f: nat, w: int, e: nat)
    requires f < INTERVAL && w == (NAN_DW_INTERVAL_TU - f / TU) * TU
    ensures TU <= w <= INTERVAL && (f + w) % INTERVAL == f % TU
    ensures e < w ==> ((f + e) % INTERVAL / TU == 0 <==> f + e < TU || w - f % TU <= e)
  {
    assert f + w == INTERVAL + f % TU;
  }

  /**
   * Waiting for the next window ends in the first time unit of an interval, less than one time unit behind its start,
   * and no moment before is in the first time unit of a later interval.
   */
  lemma NextDwLands(t: TimerView, nowUsec: u64)
    ensures var w, f := NextDwUsec(t, nowUsec), Offset(t, nowUsec);
            TU <= w <= INTERVAL && PhaseAfter(t, nowUsec, w) == 0 && Offset(t, nowUsec + w) == f % TU < TU &&
            forall e: nat | e < w :: PhaseAfter(t, nowUsec, e) == 0 <==> f + e < TU || w - f % TU <= e
  {
    hide PhaseAfter, Offset;
    var w, f := NextDwUsec(t, nowUsec), Offset(t, nowUsec);
    PhaseOfOffset(t, nowUsec);
    OffsetLater(t, nowUsec, w);
    PhaseAfterOffset(t, nowUsec, w);
    ToNextInterval(f, w, 0);
    forall e: nat | e < w
      ensures PhaseAfter(t, nowUsec, e) == 0 <==> f + e < TU || w - f % TU <= e
    {
      PhaseAfterOffset(t, nowUsec, e);
      ToNextInterval(f, w, e);
    }
  }

  /** How far the end of a window is: from the last time unit that counts as inside, a whole interval. */
  lemma DwEndWaits(t: TimerView, nowUsec: u64)
    ensures var p := Phase(t, nowUsec);
            DwEndUsec(t, nowUsec) == TU * (if p < 16 then 16 - p else 528 - p)
  {
    hide Offset, NextDwUsec, Phase, Wrap64;
    var f := Offset(t, nowUsec);
    PhaseOfOffset(t, nowUsec);
    NoWrap(nowUsec);
    OffsetSmall(t, nowUsec);
    NextDwOfPhase(t, nowUsec);
    if InDw(t, nowUsec) {
      var earlier := nowUsec - 16 * TU;
      NextDwOfPhase(t, Wrap64(earlier));
      OffsetLater(t, nowUsec, -16 * TU);
      PhaseOfOffset(t, earlier);
      EarlierPhase(f);
    }
  }

  lemma NoWrap(x: u64)
    ensures Wrap64(x) == x
  {}

  lemma OffsetSmall(t: TimerView, nowUsec: int)
    ensures Offset(t, nowUsec) % INTERVAL == Offset(t, nowUsec) < INTERVAL
  {}

  lemma NextDwOfPhase(t: TimerView, nowUsec: u64)
    ensures NextDwUsec(t, nowUsec) == (NAN_DW_INTERVAL_TU - Phase(t, nowUsec)) * TU
  {}

  lemma EarlierPhase(f: nat)
    requires f < INTERVAL && f / TU <= 16
    ensures (f - 16 * TU) % INTERVAL / TU == if f / TU < 16 then f / TU + 496 else 0
  {
    if f / TU < 16 {
      assert f - 16 * TU == (f + 496 * TU) - INTERVAL;
      Shifted(f + 496 * TU, -1);
    }
  }

  lemma ToPhase16(f: nat, w: int, e: nat)
    requires f < INTERVAL && w == TU * (if f / TU < 16 then 16 - f / TU else 528 - f / TU)
    ensures 0 < w <= INTERVAL && (f + w) % INTERVAL / TU == 16 && (f + w) % TU == f % TU
    ensures 0 < e < w ==> ((f + e) % INTERVAL / TU == 16 <==> (f / TU == 16 && f % TU + e < TU) || w - f % TU <= e)
  {
    var p, r := f / TU, f % TU;
    assert f == p * TU + r;
    assert f + w == 16 * TU + r + if p < 16 then 0 else INTERVAL;
    if 0 < e < w {
      if f + e < INTERVAL {
        assert (f + e) % INTERVAL == f + e;
      } else {
        assert (f + e) % INTERVAL == f + e - INTERVAL;
      }
    }
  }

  /**
   * Waiting for the end of the window is the shortest wait in whole time units that reaches time unit 16, from before
   * it, in it and behind it; the only moments before that are in time unit 16 are those of the current and of that one.
   */
  lemma DwEndLands(t: TimerView, nowUsec: u64)
    ensures var w, f := DwEndUsec(t, nowUsec), Offset(t, nowUsec);
            0 < w <= INTERVAL && PhaseAfter(t, nowUsec, w) == 16 &&
            (forall e: nat | 0 < e < w :: PhaseAfter(t, nowUsec, e) == 16
                                          <==> (Phase(t, nowUsec) == 16 && f % TU + e < TU) || w - f % TU <= e) &&
            forall e: nat | 0 < e < w && e % TU == 0 :: PhaseAfter(t, nowUsec, e) != 16
  {
    hide PhaseAfter, Offset, DwEndUsec;
    var w, f := DwEndUsec(t, nowUsec), Offset(t, nowUsec);
    DwEndWaits(t, nowUsec);
    PhaseOfOffset(t, nowUsec);
    PhaseAfterOffset(t, nowUsec, w);
    ToPhase16(f, w, 0);
    forall e: nat | 0 < e < w
      ensures PhaseAfter(t, nowUsec, e) == 16 <==> (Phase(t, nowUsec) == 16 && f % TU + e < TU) || w - f % TU <= e
    {
      PhaseAfterOffset(t, nowUsec, e);
      ToPhase16(f, w, e);
    }
    assert w % TU == 0;
  }

  // ---------------------------------------------------------------- synchronization

  lemma WrapOf(x: int, k: int)
    ensures Wrap64(x + k * 0x1_0000_0000_0000_0000) == Wrap64(x)
  {
    var q := x / 0x1_0000_0000_0000_0000;
    assert x + k * 0x1_0000_0000_0000_0000 == (q + k) * 0x1_0000_0000_0000_0000 + Wrap64(x);
  }

  /** After the clock was set, synced time is the received timestamp plus the time since, modulo 2^64. */
  lemma SyncTimeHolds(t: TimerView, nowUsec: u64, timestamp: u64, later: u64)
    ensures SyncedTimeUsec(Synced(t, nowUsec, timestamp), later) == Wrap64(timestamp + (later - nowUsec))
  {
    var m := 0x1_0000_0000_0000_0000;
    var synced := SyncedTimeUsec(t, nowUsec);
    var q1 := (nowUsec - t.baseTimeUsec) / m;
    var q2 := (t.baseTimeUsec + synced - timestamp) / m;
    var base := Synced(t, nowUsec, timestamp).baseTimeUsec;
    assert synced == nowUsec - t.baseTimeUsec - q1 * m;
    assert base == nowUsec - q1 * m - timestamp - q2 * m;
    assert later - base == timestamp + (later - nowUsec) + (q1 + q2) * m;
    WrapOf(timestamp + (later - nowUsec), q1 + q2);
  }

  /** The initial scan lasts one second of synced time if no beacon comes in. */
  lemma ScanEnds(t: TimerView, nowUsec: u64)
    ensures var done := t.initialScanDone || SyncedTimeUsec(t, nowUsec) > 1_000_000;
            (InitialScanDone(t, nowUsec) <==> done) && ScanEnded(t, nowUsec) == t.(initialScanDone := t.initialScanDone || !done)
  {}

  /** Corrected by `e`, synced time goes back by `e`. */
  lemma CorrectedBy(t: TimerView, nowUsec: u64, e: i32)
    ensures FixedTimeUsec(t.(averageError := e), nowUsec) == Wrap64(SyncedTimeUsec(t, nowUsec) - e)
  {
    var q := (nowUsec - t.baseTimeUsec) / 0x1_0000_0000_0000_0000;
    assert nowUsec - t.baseTimeUsec - e == SyncedTimeUsec(t, nowUsec) - e + q * 0x1_0000_0000_0000_0000;
    WrapOf(SyncedTimeUsec(t, nowUsec) - e, q);
  }

  /** The error is the difference but for a multiple of 2^32. */
  lemma ErrorIs(d: int) returns (j: int)
    ensures ToI32(d) == d - j * 0x1_0000_0000
    ensures -0x8000_0000 <= d < 0x8000_0000 ==> j == 0
  {
    j := d / 0x1_0000_0000 + if Wrap32(d) < 0x8000_0000 then 0 else 1;
  }

  /**
   * What the error corrects. The average of one sample is that sample; corrected time and timestamp then agree in their
   * low 32 bits, and are the same if the true difference is within the range of an int.
   */
  lemma ErrorCorrects(t: TimerView, nowUsec: u64, timestamp: u64)
    ensures var e := ErrorUsec(t, nowUsec, timestamp);
            var corrected := FixedTimeUsec(t.(averageError := e), nowUsec);
            Average([e]) == e && corrected % 0x1_0000_0000 == timestamp % 0x1_0000_0000 &&
            (-0x8000_0000 <= SyncedTimeUsec(t, nowUsec) - timestamp < 0x8000_0000 ==> corrected == timestamp)
  {
    hide ToI32, FixedTimeUsec, SyncedTimeUsec, Average, Wrap64;
    var e := ErrorUsec(t, nowUsec, timestamp);
    var j := ErrorIs(SyncedTimeUsec(t, nowUsec) - timestamp);
    CorrectedBy(t, nowUsec, e);
    LowHalf(timestamp + j * 0x1_0000_0000, timestamp, j);
    NoWrap(timestamp);
    WithinWhileFilling([e], e, e);
  }

  lemma LowHalf(x: int, y: int, j: int)
    requires x == y + j * 0x1_0000_0000
    ensures Wrap64(x) % 0x1_0000_0000 == y % 0x1_0000_0000
  {
    var q, p := x / 0x1_0000_0000_0000_0000, y / 0x1_0000_0000;
    assert Wrap64(x) == y % 0x1_0000_0000 + (p + j - q * 0x1_0000_0000) * 0x1_0000_0000;
    Multiple32(y % 0x1_0000_0000, p + j - q * 0x1_0000_0000);
  }

  lemma Multiple32(r: u32, k: int)
    ensures (r + k * 0x1_0000_0000) % 0x1_0000_0000 == r
  {
    assert (r + k * 0x1_0000_0000) / 0x1_0000_0000 == k;
  }

  predicate CanSendAfter(t: TimerView, nowUsec: u64, e: nat) { CanSendDiscoveryBeacon(t, Wrap64(nowUsec + e)) }

  lemma ElapsedAfter(t: TimerView, nowUsec: u64, e: nat)
    ensures Wrap64(Wrap64(nowUsec + e) - t.lastDiscoveryBeaconUsec) == Wrap64(Wrap64(nowUsec - t.lastDiscoveryBeaconUsec) + e)
  {
    var m := 0x1_0000_0000_0000_0000;
    var q1, q2 := (nowUsec + e) / m, (nowUsec - t.lastDiscoveryBeaconUsec) / m;
    assert Wrap64(nowUsec + e) - t.lastDiscoveryBeaconUsec
      == Wrap64(nowUsec - t.lastDiscoveryBeaconUsec) + e + (q2 - q1) * m;
    WrapOf(Wrap64(nowUsec - t.lastDiscoveryBeaconUsec) + e, q2 - q1);
  }

  /**
   * The wait for the next discovery beacon ends when one may be sent. It is the time to the first such moment exactly
   * if no time has passed since the last beacon, because the time that has passed is added and not subtracted.
   */
  lemma NextBeaconWait(t: TimerView, nowUsec: u64)
    requires !CanSendDiscoveryBeacon(t, nowUsec)
    ensures var w, passed := NextDiscoveryBeaconUsec(t, nowUsec), Wrap64(nowUsec - t.lastDiscoveryBeaconUsec);
            CanSendAfter(t, nowUsec, w) &&
            ((forall e: nat | e < w :: !CanSendAfter(t, nowUsec, e)) <==> passed == 0)
  {
    hide Wrap64;
    var w, passed := NextDiscoveryBeaconUsec(t, nowUsec), Wrap64(nowUsec - t.lastDiscoveryBeaconUsec);
    ElapsedAfter(t, nowUsec, 0);
    SmallWrap(passed + DISCOVERY_BEACON_INTERVAL_USEC);
    NextWrap(nowUsec - t.lastDiscoveryBeaconUsec);
    ElapsedAfter(t, nowUsec, w);
    SmallWrap(passed + w);
    forall e: nat | e < w ensures CanSendAfter(t, nowUsec, e) <==> passed + e >= DISCOVERY_BEACON_INTERVAL_USEC {
      ElapsedAfter(t, nowUsec, e);
      SmallWrap(passed + e);
    }
    if passed > 0 {
      assert CanSendAfter(t, nowUsec, DISCOVERY_BEACON_INTERVAL_USEC - passed);
    }
  }

  lemma SmallWrap(x: nat)
    ensures x < 0x100_0000 ==> Wrap64(x) == x
  {}

  lemma NextWrap(x: int)
    ensures Wrap64(x) < DISCOVERY_BEACON_INTERVAL_USEC ==>
              Wrap64(x + DISCOVERY_BEACON_INTERVAL_USEC) == Wrap64(x) + DISCOVERY_BEACON_INTERVAL_USEC
  {}
}
