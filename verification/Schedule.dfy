/**
 * When the timed handlers of daemon/core.c run, on a clock that is not adjusted meanwhile: the window handlers with timers
 * that expire on time and handlers that take no time, the beacon handler with any delays. Moments are microseconds
 * without wrap-around; handlers see them modulo 2^64.
 */
module Schedule {
  import opened Words
  import opened Timers

  /** The moments for which the two timers are armed. */
  datatype Armed = Armed(window: nat, end: Option<nat>)

  datatype Firing =
    | Window(at: nat)  // the window handler, inside a window: it transmits
    | Idle(at: nat)    // the window handler, outside
    | End(at: nat)     // the handler of the window's end

  /** The timer that expires first fires, and arms what its handler arms. */
  function Fire(t: TimerView, a: Armed): (Armed, Firing) {
    if a.end.Some? && a.end.value < a.window then (a.(end := None), End(a.end.value))
    else
      var now := Wrap64(a.window);
      var next := a.window + NextDwUsec(t, now);
      if !InDw(t, now) || !InitialScanDone(t, now) then (a.(window := next), Idle(a.window))
      else (Armed(next, Some(a.window + DwEndUsec(t, now))), Window(a.window))
  }

  function Firings(t: TimerView, a: Armed, n: nat): (fs: seq<Firing>)
    ensures |fs| == n
    decreases n
  {
    if n == 0 then [] else [Fire(t, a).1] + Firings(t, Fire(t, a).0, n - 1)
  }

  /** The regular course: a window at `at`, its end 16 time units later, and the same an interval later. */
  function Cadence(at: nat, n: nat): (fs: seq<Firing>)
    ensures |fs| == 2 * n
    decreases n
  {
    if n == 0 then [] else [Window(at), End(at + 16 * TU)] + Cadence(at + INTERVAL, n - 1)
  }

  function PhaseAt(t: TimerView, at: nat): nat { Phase(t, Wrap64(at)) }

  lemma {:induction false} CadenceAt(at: nat, n: nat, i: nat)
    requires i < n
    ensures Cadence(at, n)[2 * i] == Window(at + i * INTERVAL)
    ensures Cadence(at, n)[2 * i + 1] == End(at + i * INTERVAL + 16 * TU)
    decreases n
  {
    if i > 0 {
      CadenceAt(at + INTERVAL, n - 1, i - 1);
      assert Cadence(at, n)[2 * i] == Cadence(at + INTERVAL, n - 1)[2 * (i - 1)];
      assert Cadence(at, n)[2 * i + 1] == Cadence(at + INTERVAL, n - 1)[2 * (i - 1) + 1];
    }
  }

  /** A firing in a window, at any time unit that counts as inside. */
  lemma FireInWindow(t: TimerView, a: Armed)
    requires t.initialScanDone && PhaseAt(t, a.window) <= 16 && (a.end.None? || a.end.value > a.window)
    ensures var p := PhaseAt(t, a.window);
            var next := a.window + TU * (512 - p);
            Fire(t, a) == (Armed(next, Some(a.window + TU * (if p < 16 then 16 - p else 512))), Window(a.window)) &&
            PhaseAt(t, next) == 0
  {
    hide InitialScanDone;
    assert InitialScanDone(t, Wrap64(a.window)) by {
      ScanStaysDone(t, Wrap64(a.window));
    }
    DwEndWaits(t, Wrap64(a.window));
    NextIsWindow(t, a.window);
  }

  lemma ScanStaysDone(t: TimerView, now: u64)
    requires t.initialScanDone
    ensures InitialScanDone(t, now)
  {}

  lemma NextIsWindow(t: TimerView, at: nat)
    ensures PhaseAt(t, at + NextDwUsec(t, Wrap64(at))) == 0
  {
    hide Offset;
    var w := NextDwUsec(t, Wrap64(at));
    PhaseOfOffset(t, at);
    OffsetLater(t, at, w);
    PhaseOfOffset(t, at + w);
    ToNextInterval(Offset(t, at), w, 0);
  }

  /** From a firing at the start of a window on, every later one is: one per interval, with the end handler between. */
  lemma {:induction false} Steady(t: TimerView, a: Armed, n: nat)
    requires t.initialScanDone && PhaseAt(t, a.window) == 0 && (a.end.None? || a.end.value > a.window)
    ensures Firings(t, a, 2 * n) == Cadence(a.window, n)
    decreases n
  {
    hide Fire, PhaseAt;
    if n > 0 {
      var b := Fire(t, a).0;
      FireInWindow(t, a);
      FireEnd(t, b);
      Steady(t, Fire(t, b).0, n - 1);
      TwoFirings(t, a, 2 * n);
    }
  }

  lemma FireEnd(t: TimerView, a: Armed)
    requires a.end.Some? && a.end.value < a.window
    ensures Fire(t, a) == (a.(end := None), End(a.end.value))
  {}

  lemma TwoFirings(t: TimerView, a: Armed, n: nat)
    requires n >= 2
    ensures var b := Fire(t, a).0;
            Firings(t, a, n) == [Fire(t, a).1, Fire(t, b).1] + Firings(t, Fire(t, b).0, n - 2)
  {
    var b := Fire(t, a).0;
    assert Firings(t, b, n - 1) == [Fire(t, b).1] + Firings(t, Fire(t, b).0, n - 2);
  }

  /**
   * The whole course after the handler fired inside a window, at time unit `p` of it. If `p` is 16, the end handler of
   * that window never runs: its timer is armed for a whole interval and armed anew at the next window. Otherwise it
   * runs at time unit 16. Everything after is regular.
   */
  lemma AfterFirstWindow(t: TimerView, at: nat, n: nat)
    requires t.initialScanDone && PhaseAt(t, at) <= 16
    ensures var p := PhaseAt(t, at);
            var first := if p < 16 then [Window(at), End(at + TU * (16 - p))] else [Window(at)];
            Firings(t, Armed(at, None), |first| + 2 * n) == first + Cadence(at + TU * (512 - p), n) &&
            PhaseAt(t, at + TU * (512 - p)) == 0
  {
    hide Fire, PhaseAt;
    var a := Armed(at, None);
    var b := Fire(t, a).0;
    FireInWindow(t, a);
    if PhaseAt(t, at) < 16 {
      FireEnd(t, b);
      TwoFirings(t, a, 2 + 2 * n);
      Steady(t, Fire(t, b).0, n);
    } else {
      Steady(t, b, n);
    }
  }

  /** A firing outside every window leads straight to the start of the next one. */
  lemma AfterIdle(t: TimerView, at: nat, n: nat)
    requires t.initialScanDone && PhaseAt(t, at) > 16
    ensures Firings(t, Armed(at, None), 1 + 2 * n) == [Idle(at)] + Cadence(at + TU * (512 - PhaseAt(t, at)), n)
  {
    NextIsWindow(t, at);
    Steady(t, Armed(at + NextDwUsec(t, Wrap64(at)), None), n);
  }

  /** Every window of the regular course starts in time unit 0, exactly one interval after the one before. */
  lemma RegularWindows(t: TimerView, at: nat, n: nat, i: nat)
    requires t.initialScanDone && PhaseAt(t, at) == 0 && i < n
    ensures Firings(t, Armed(at, None), 2 * n)[2 * i] == Window(at + i * INTERVAL)
    ensures Firings(t, Armed(at, None), 2 * n)[2 * i + 1] == End(at + i * INTERVAL + 16 * TU)
    ensures PhaseAt(t, at + i * INTERVAL) == 0 && PhaseAt(t, at + i * INTERVAL + 16 * TU) == 16
  {
    hide PhaseAt, Firings, Cadence;
    Steady(t, Armed(at, None), n);
    CadenceAt(at, n, i);
    PhaseRepeats(t, at, i);
    PhaseSixteen(t, at + i * INTERVAL);
  }

  lemma PhaseRepeats(t: TimerView, at: nat, i: nat)
    ensures PhaseAt(t, at + i * INTERVAL) == PhaseAt(t, at)
  {
    hide Offset, Phase;
    var e: nat := i * INTERVAL;
    PhaseOfOffset(t, at);
    OffsetLater(t, at, e);
    Shifted(Offset(t, at), i);
    OffsetSmall(t, at);
    PhaseOfOffset(t, at + e);
  }

  lemma PhaseSixteen(t: TimerView, at: nat)
    requires PhaseAt(t, at) == 0
    ensures PhaseAt(t, at + 16 * TU) == 16
  {
    hide Offset, Phase;
    PhaseOfOffset(t, at);
    OffsetLater(t, at, 16 * TU);
    PhaseOfOffset(t, at + 16 * TU);
  }

  // ---------------------------------------------------------------- discovery beacons

  /** nan_can_send_discovery_beacon */
  predicate CanSend(t: TimerView, master: bool, now: u64) {
    master && InitialScanDone(t, now) && CanSendDiscoveryBeacon(t, now)
  }

  /** nan_send_discovery_beacon: the timer after it, whether a beacon was sent, and the wait until it runs again. */
  function SendBeacon(t: TimerView, master: bool, now: u64): (TimerView, bool, u64) {
    var sent := CanSend(t, master, now);
    var t' := if sent then t.(lastDiscoveryBeaconUsec := now) else t;
    (t', sent, NextDiscoveryBeaconUsec(t', now))
  }

  /** When a beacon is sent and how long the handler then waits, in microseconds; the time that has passed is added. */
  lemma BeaconDue(t: TimerView, master: bool, now: u64)
    ensures var (after, sent, wait) := SendBeacon(t, master, now);
            var passed := (now - t.lastDiscoveryBeaconUsec) % 0x1_0000_0000_0000_0000;
            var scanned := t.initialScanDone || (now - t.baseTimeUsec) % 0x1_0000_0000_0000_0000 > 1_000_000;
            (sent <==> master && scanned && passed >= 102_400) &&
            after == (if sent then t.(lastDiscoveryBeaconUsec := now) else t) &&
            wait == if sent then 102_400 else if passed >= 102_400 then 0 else passed + 102_400
  {
    NextWrap(now - t.lastDiscoveryBeaconUsec);
    NextWrap(0);
    assert Wrap64(now - now) == 0;
  }

  /** One run of the handler: when, and whether it sent a beacon. */
  datatype Beaconing = Beaconing(at: nat, sent: bool)

  /** The runs of the handler, the next one later than it asked for by as much as `delays` says. */
  function Course(t: TimerView, master: bool, at: nat, delays: seq<nat>): (c: seq<Beaconing>)
    ensures |c| == |delays|
    decreases |delays|
  {
    if delays == [] then []
    else
      var (t', sent, wait) := SendBeacon(t, master, Wrap64(at));
      [Beaconing(at, sent)] + Course(t', master, at + wait + delays[0], delays[1..])
  }

  /** Runs a fixed time apart, apart from the delays. */
  function Spaced(at: nat, wait: nat, sent: bool, delays: seq<nat>): (c: seq<Beaconing>)
    ensures |c| == |delays|
    decreases |delays|
  {
    if delays == [] then [] else [Beaconing(at, sent)] + Spaced(at + wait + delays[0], wait, sent, delays[1..])
  }

  function Total(delays: seq<nat>): nat { if delays == [] then 0 else delays[0] + Total(delays[1..]) }

  /** The handler asks to be run again at once exactly if a beacon is due that it may not send. */
  lemma AtOnce(t: TimerView, master: bool, now: u64)
    ensures SendBeacon(t, master, now).2 == 0 <==>
            CanSendDiscoveryBeacon(t, now) && !(master && InitialScanDone(t, now))
  {
    var passed := Wrap64(now - t.lastDiscoveryBeaconUsec);
    assert Wrap64(now - now) == 0;
    NextWrap(now - t.lastDiscoveryBeaconUsec);
    NextWrap(0);
  }

  /** A beacon that was due stays due until the clock comes round. */
  lemma StaysDue(t: TimerView, at: nat, e: nat)
    requires CanSendDiscoveryBeacon(t, Wrap64(at))
    requires Wrap64(Wrap64(at) - t.lastDiscoveryBeaconUsec) + e < 0x1_0000_0000_0000_0000
    ensures CanSendDiscoveryBeacon(t, Wrap64(at + e))
    ensures Wrap64(Wrap64(at + e) - t.lastDiscoveryBeaconUsec) == Wrap64(Wrap64(at) - t.lastDiscoveryBeaconUsec) + e
  {
    ElapsedAfter(t, Wrap64(at), e);
    WrapTwice(at, e);
  }

  lemma WrapTwice(x: nat, e: nat)
    ensures Wrap64(Wrap64(x) + e) == Wrap64(x + e)
  {
    var q := x / 0x1_0000_0000_0000_0000;
    assert Wrap64(x) + e == x + e + (-q) * 0x1_0000_0000_0000_0000;
    WrapOf(x + e, -q);
  }

  /**
   * A device that is not MASTER and past the interval runs the handler without any wait and without sending, for as long
   * as it stays so: only the time that the runs themselves take lies between them.
   */
  lemma {:induction false} BusyWithoutSending(t: TimerView, at: nat, delays: seq<nat>)
    requires CanSendDiscoveryBeacon(t, Wrap64(at))
    requires Wrap64(Wrap64(at) - t.lastDiscoveryBeaconUsec) + Total(delays) < 0x1_0000_0000_0000_0000
    ensures Course(t, false, at, delays) == Spaced(at, 0, false, delays)
    decreases |delays|
  {
    hide Wrap64, CanSendDiscoveryBeacon;
    if delays != [] {
      AtOnce(t, false, Wrap64(at));
      StaysDue(t, at, delays[0]);
      BusyWithoutSending(t, at + delays[0], delays[1..]);
    }
  }

  /** A MASTER sends in every run, and the runs are the beacon interval apart. */
  lemma {:induction false} RegularBeacons(t: TimerView, at: nat, delays: seq<nat>)
    requires t.initialScanDone && CanSendDiscoveryBeacon(t, Wrap64(at))
    requires forall i | 0 <= i < |delays| :: delays[i] < 0x8000_0000_0000_0000
    ensures Course(t, true, at, delays) == Spaced(at, 102_400, true, delays)
    decreases |delays|
  {
    if delays != [] {
      hide Wrap64, CanSendDiscoveryBeacon, InitialScanDone, NextDiscoveryBeaconUsec;
      ScanStaysDone(t, Wrap64(at));
      var t' := t.(lastDiscoveryBeaconUsec := Wrap64(at));
      AfterSending(t', at, delays[0]);
      RegularBeacons(t', at + DISCOVERY_BEACON_INTERVAL_USEC + delays[0], delays[1..]);
    }
  }

  lemma AfterSending(t: TimerView, at: nat, delay: nat)
    requires t.lastDiscoveryBeaconUsec == Wrap64(at) && delay < 0x8000_0000_0000_0000
    ensures NextDiscoveryBeaconUsec(t, Wrap64(at)) == DISCOVERY_BEACON_INTERVAL_USEC
    ensures CanSendDiscoveryBeacon(t, Wrap64(at + DISCOVERY_BEACON_INTERVAL_USEC + delay))
  {
    ElapsedAfter(t, Wrap64(at), DISCOVERY_BEACON_INTERVAL_USEC + delay);
    WrapTwice(at, DISCOVERY_BEACON_INTERVAL_USEC + delay);
  }
}
