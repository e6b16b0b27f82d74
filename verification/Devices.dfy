/** A received beacon from its bytes to the new state: nan_rx_beacon of src/rx.c and src/cluster.c. */
module Devices {
  import opened Words
  import opened MasterRank
  import opened Peers
  import opened Sync
  import opened Frames
  import opened Wire
  import opened Attributes
  import opened Rx
  import opened Timers
  import opened PeerTables
  import opened Lists
  import opened RoundTrip
  import ReceivedBytes
  import MovingAverages
  import Network
  import Schedule
  import SyncRuns

  /** nan_cluster_compare_grade: whether the second cluster has the higher grade. */
  predicate LowerGrade(preferenceA: u8, timestampA: u64, preferenceB: u8, timestampB: u64) {
    if preferenceA == preferenceB then timestampA % INTERVAL < timestampB % INTERVAL else preferenceA < preferenceB
  }

  /** Grades are strictly ordered: devices do not join each other's clusters in a circle at one moment. */
  lemma GradesAreOrdered(pa: u8, ta: u64, pb: u8, tb: u64, pc: u8, tc: u64)
    ensures !LowerGrade(pa, ta, pa, ta)
    ensures LowerGrade(pa, ta, pb, tb) && LowerGrade(pb, tb, pc, tc) ==> LowerGrade(pa, ta, pc, tc)
    ensures LowerGrade(pa, ta, pb, tb) || LowerGrade(pb, tb, pa, ta) || (pa == pb && ta % INTERVAL == tb % INTERVAL)
  {}

  datatype Hearing = Hearing(kind: BeaconType, timestamp: u64, cluster: EtherAddr, lone: bool, rssi: i8, drawn: u8, now: u64)

  datatype ClockAction = Leave | SetTime | Sample

  /** What of the device a beacon can change; the clock is given as the action on it. */
  datatype Outcome = Outcome(sync: SyncView, peer: PeerView, clusterId: EtherAddr, clock: ClockAction)

  /** What a selection step does to the clock: a new anchor sets it, the same anchor gives a sample. */
  function AfterSelection(before: SyncView, after: SyncView): ClockAction {
    if after.anchorMasterRank != before.anchorMasterRank then SetTime
    else if !IsAnchorMasterSelf(after) then Sample else Leave
  }

  /** The step that a well-formed beacon causes, from the state before it. */
  function BeaconStep(s: SyncView, t: TimerView, clusterId: EtherAddr, p: PeerView, h: Hearing): Outcome {
    var told := p.(rssiAverage := h.rssi, lastTimestamp := h.timestamp);
    var s1 := UpdatePreference(s, told, h.now, h.drawn);
    var p1 := told.(masterCandidate := IsMasterCandidate(s1, told));
    if h.cluster != clusterId || h.lone then
      if LowerGrade(s1.masterPreference, SyncedTimeUsec(t, h.now), p1.masterPreference, h.timestamp)
      then Outcome(s1, p1, h.cluster, SetTime)
      else Outcome(s1, p1, clusterId, Leave)
    else if h.kind == SyncBeacon then
      var s2 := Select(s1, p1, SyncedTimeTu(t, h.now));
      Outcome(s2, p1, clusterId, AfterSelection(s1, s2))
    else Outcome(s1, p1, clusterId, Leave)
  }

  /** The device runs through the events of the synchronization protocol and no others. */
  lemma BeaconIsRun(s: SyncView, t: TimerView, clusterId: EtherAddr, p: PeerView, h: Hearing)
    ensures var told := p.(rssiAverage := h.rssi, lastTimestamp := h.timestamp);
            var o := BeaconStep(s, t, clusterId, p, h);
            o.sync == SyncRuns.Step(s, SyncRuns.Preference(told, h.now, h.drawn)) ||
            o.sync == SyncRuns.Step(SyncRuns.Step(s, SyncRuns.Preference(told, h.now, h.drawn)),
                                    SyncRuns.Beacon(o.peer, SyncedTimeTu(t, h.now)))
  {
    hide UpdatePreference, Select, LowerGrade;
  }

  /**
   * Which cluster wins, for a beacon of another cluster or of the first peer of all: the sender's, if its preference is
   * higher than the device's or as high with a time further in the interval of 2^19 microseconds, and then the clock is
   * set to the sender's time. Otherwise the device stays where it is. The preference of the device is that after it may
   * have been drawn again; without a change of the sender's it is as before.
   */
  lemma HigherGradeWins(s: SyncView, t: TimerView, clusterId: EtherAddr, p: PeerView, h: Hearing)
    requires h.cluster != clusterId || h.lone
    ensures var o := BeaconStep(s, t, clusterId, p, h);
            var time := (h.now - t.baseTimeUsec) % 0x1_0000_0000_0000_0000;
            var own := o.sync.masterPreference;
            (if p.masterPreference > own || (p.masterPreference == own && time % 0x8_0000 < h.timestamp % 0x8_0000)
             then o.clusterId == h.cluster && o.clock == SetTime
             else o.clusterId == clusterId && o.clock == Leave) &&
            (p.masterPreference == p.lastMasterPreference ==> o.sync == s)
  {
    hide Rerank;
    SyncRuns.DrawnAfterWindows(s, p.(rssiAverage := h.rssi, lastTimestamp := h.timestamp), h.now, h.drawn);
  }

  /** Two devices in different clusters, each with its clock, and what each has as its peer of the other. */
  datatype Side = Side(sync: SyncView, timer: TimerView, clusterId: EtherAddr, now: u64)

  function Hears(a: Side, b: Side, p: PeerView, rssi: i8, drawn: u8, kind: BeaconType): Outcome {
    BeaconStep(a.sync, a.timer, a.clusterId, p,
               Hearing(kind, SyncedTimeUsec(b.timer, b.now), b.clusterId, false, rssi, drawn, a.now))
  }

  function TimeAfter(a: Side, b: Side, o: Outcome): u64 {
    SyncedTimeUsec(ClockAfter(a.timer, o.clock, a.now, SyncedTimeUsec(b.timer, b.now)), a.now)
  }

  /**
   * Two devices of different clusters hear each other at one moment: exactly the one of the lower grade moves, and
   * afterwards both are in one cluster with the same time. Of equal grades, neither moves.
   */
  lemma ClustersMerge(a: Side, b: Side, pa: PeerView, pb: PeerView, kind: BeaconType, rssi: i8, drawn: u8)
    requires a.clusterId != b.clusterId
    requires pa.masterPreference == pa.lastMasterPreference == a.sync.masterPreference
    requires pb.masterPreference == pb.lastMasterPreference == b.sync.masterPreference
    ensures var oa, ob := Hears(a, b, pb, rssi, drawn, kind), Hears(b, a, pa, rssi, drawn, kind);
            var ta := SyncedTimeUsec(a.timer, a.now) % 0x8_0000;
            var tb := SyncedTimeUsec(b.timer, b.now) % 0x8_0000;
            var ma, mb := a.sync.masterPreference, b.sync.masterPreference;
            (oa.clusterId == (if ma < mb || (ma == mb && ta < tb) then b.clusterId else a.clusterId)) &&
            (ob.clusterId == (if mb < ma || (ma == mb && tb < ta) then a.clusterId else b.clusterId)) &&
            (oa.clusterId == ob.clusterId <==> ma != mb || ta != tb) &&
            (oa.clusterId == ob.clusterId ==> TimeAfter(a, b, oa) == TimeAfter(b, a, ob))
  {
    hide BeaconStep, Synced;
    var ha := Hearing(kind, SyncedTimeUsec(b.timer, b.now), b.clusterId, false, rssi, drawn, a.now);
    var hb := Hearing(kind, SyncedTimeUsec(a.timer, a.now), a.clusterId, false, rssi, drawn, b.now);
    HigherGradeWins(a.sync, a.timer, a.clusterId, pb, ha);
    HigherGradeWins(b.sync, b.timer, b.clusterId, pa, hb);
    SyncTimeHolds(a.timer, a.now, ha.timestamp, a.now);
    SyncTimeHolds(b.timer, b.now, hb.timestamp, b.now);
    NoWrap(ha.timestamp);
    NoWrap(hb.timestamp);
    hide Wrap64;
  }

  /**
   * A beacon of the device's own cluster from a known peer never moves it to another cluster. The clock is set by a new
   * anchor; as long as the anchor is another device and stays the same each sync beacon is a sample of the error; and
   * discovery beacons leave clock and anchor alone.
   */
  lemma OwnClusterClock(s: SyncView, t: TimerView, clusterId: EtherAddr, p: PeerView, h: Hearing)
    requires h.cluster == clusterId && !h.lone && p.masterPreference == p.lastMasterPreference
    ensures var o := BeaconStep(s, t, clusterId, p, h);
            o.clusterId == clusterId &&
            if h.kind == DiscoveryBeacon then o.sync == s && o.clock == Leave
            else if o.sync.anchorMasterRank != s.anchorMasterRank then o.clock == SetTime
            else if AddressFromMasterRank(s.anchorMasterRank) == AddressFromMasterRank(s.masterRank) then o.clock == Leave
            else o.clock == Sample
  {
    hide AddressFromMasterRank, IsMasterCandidate, LowerGrade, SyncedTimeTu;
  }

  /** What the sender's entry is afterwards: signal and time of the beacon, and whether it is a candidate. */
  lemma PeerAfterBeacon(s: SyncView, t: TimerView, clusterId: EtherAddr, p: PeerView, h: Hearing)
    ensures var o := BeaconStep(s, t, clusterId, p, h);
            o.peer == p.(rssiAverage := h.rssi, lastTimestamp := h.timestamp, masterCandidate := o.peer.masterCandidate) &&
            (p.masterPreference == p.lastMasterPreference ==> o.peer.masterCandidate == IsMasterCandidate(s, p))
  {
    hide IsMasterCandidate, Select, Rerank;
    SameCandidate(s, p, p.(rssiAverage := h.rssi, lastTimestamp := h.timestamp));
  }

  lemma SameCandidate(s: SyncView, p: PeerView, q: PeerView)
    requires q == p.(rssiAverage := q.rssiAverage, lastTimestamp := q.lastTimestamp)
    ensures IsMasterCandidate(s, p) == IsMasterCandidate(s, q)
  {}

  /** A device at one moment, with all errors of its clock that were taken as samples. */
  datatype DeviceView = DeviceView(
    sync: SyncView, timer: TimerView, errors: seq<int>, clusterId: EtherAddr, peers: seq<PeerView>)

  /** The samples after the action. */
  function ErrorsAfter(errors: seq<int>, t: TimerView, action: ClockAction, now: u64, timestamp: u64): seq<int> {
    var e := ErrorUsec(t, now, timestamp);
    if action == Sample && -INTERVAL <= e <= INTERVAL then errors + [e] else errors
  }

  /** The device and the result after a beacon of peer `k`, given what its attributes made of the peer. */
  function AfterBeacon(d: DeviceView, k: nat, parsed: (PeerView, int), h: Hearing): (DeviceView, int)
    requires k < |d.peers|
  {
    if parsed.1 < 0 then (d.(peers := d.peers[k := parsed.0]), parsed.1)
    else
      var o := BeaconStep(d.sync, d.timer, d.clusterId, parsed.0, h);
      var errors := ErrorsAfter(d.errors, d.timer, o.clock, h.now, h.timestamp);
      (DeviceView(o.sync, ClockAfter(d.timer, o.clock, h.now, h.timestamp).(averageError := AverageError(errors)), errors,
                  o.clusterId, d.peers[k := o.peer]), RX_OK)
  }

  /** What the bytes of a beacon come to: the device and the result after them. */
  ghost predicate BeaconReceived(bs: seq<u8>, d: DeviceView, addr: EtherAddr, cluster: EtherAddr, rssi: i8, drawn: u8, now: u64,
                                 unset: u16, k: nat, after: DeviceView, result: int)
  {
    match ParseHead(bs)
    case Rejected(r) => result == r && after == d
    case Beacon(kind, timestamp, attributes) =>
      var ps := Added(d.peers, addr, cluster, now);
      k < |ps| && ps[k].addr == addr &&
      (after, result)
      == AfterBeacon(d.(peers := ps, timer := ScanEnded(d.timer, now)), k, Iterate(HandleBeacon, ps[k], attributes, unset),
                     Hearing(kind, timestamp, cluster, |ps| == 1 && !Known(d.peers, addr), rssi, drawn, now))
  }

  lemma {:induction false} OthersStay(ps: seq<PeerView>, addr: EtherAddr, cluster: EtherAddr, now: u64)
    ensures var after := Added(ps, addr, cluster, now);
            |after| >= |ps| && forall i | 0 <= i < |ps| && ps[i].addr != addr :: after[i] == ps[i]
  {
    if ps != [] && ps[0].addr != addr {
      OthersStay(ps[1..], addr, cluster, now);
    }
  }

  /**
   * A beacon that is not accepted, because of its head or of any of its attributes, can leave its mark in the entry of its
   * sender and end the initial scan; anchor, role, cluster, clock and all other peers are as they were.
   */
  lemma RefusedBeacon(bs: seq<u8>, d: DeviceView, addr: EtherAddr, cluster: EtherAddr, rssi: i8, drawn: u8, now: u64,
                      unset: u16, k: nat, after: DeviceView, result: int)
    requires BeaconReceived(bs, d, addr, cluster, rssi, drawn, now, unset, k, after, result) && result != RX_OK
    ensures after.sync == d.sync && after.clusterId == d.clusterId && after.errors == d.errors
    ensures after.timer == d.timer.(initialScanDone := after.timer.initialScanDone) && |after.peers| >= |d.peers|
    ensures forall i | 0 <= i < |d.peers| && d.peers[i].addr != addr :: after.peers[i] == d.peers[i]
  {
    hide ParseHead, Iterate, Added, BeaconStep;
    OthersStay(d.peers, addr, cluster, now);
    SenderAt(d.peers, addr, cluster, now, k);
  }

  lemma {:induction false} SenderAt(ps: seq<PeerView>, addr: EtherAddr, cluster: EtherAddr, now: u64, k: nat)
    ensures var after := Added(ps, addr, cluster, now);
            k < |after| && after[k].addr == addr ==> k >= |ps| || ps[k].addr == addr
  {
    if ps != [] && ps[0].addr != addr && k > 0 {
      SenderAt(ps[1..], addr, cluster, now, k - 1);
    }
  }

  /** The average that the clock keeps, as an int. */
  function AverageError(errors: seq<int>): i32 { ToI32(MovingAverages.Average(errors)) }

  /** The timer after the action, where it is not a new sample of the average error. */
  function ClockAfter(t: TimerView, action: ClockAction, now: u64, timestamp: u64): TimerView {
    if action == SetTime then Synced(t, now, timestamp) else t
  }

  /**
   * The clock is set by exactly those beacons that move the device to another cluster or, within its cluster, change its
   * anchor; from then on synced time is the sender's time plus the time since.
   */
  lemma ClockFollowsAnchor(s: SyncView, t: TimerView, clusterId: EtherAddr, p: PeerView, h: Hearing, later: u64)
    ensures var told := p.(rssiAverage := h.rssi, lastTimestamp := h.timestamp);
            var own := UpdatePreference(s, told, h.now, h.drawn).anchorMasterRank;
            var o := BeaconStep(s, t, clusterId, p, h);
            (o.clusterId != clusterId || o.sync.anchorMasterRank != own ==> o.clock == SetTime) &&
            (o.clock == SetTime ==>
               (o.sync.anchorMasterRank != own || (o.clusterId == h.cluster && (h.cluster != clusterId || h.lone))) &&
               SyncedTimeUsec(ClockAfter(t, SetTime, h.now, h.timestamp), later) == Wrap64(h.timestamp + (later - h.now)))
  {
    hide UpdatePreference, Select, Synced, LowerGrade;
    SyncTimeHolds(t, h.now, h.timestamp, later);
  }

  /** A beacon of one's own cluster with its bytes: built by a sender, opened, parsed and acted on by a receiver. */
  function OnAir(fcs: bool, source: EtherAddr, cluster: EtherAddr, n: u32, timestamp: u64, kind: BeaconType, sender: SyncView,
                 flags: u8, self: EtherAddr): Head
  {
    var o := OpenFrame(WithFcs(BeaconFrame(fcs, source, cluster, n, timestamp, kind, sender), fcs), |Radiotap(fcs)|, flags, self);
    if o.Opened? then ParseHead(o.body) else Rejected(o.result)
  }

  /**
   * The bytes of a sync beacon do what the network of devices takes a received packet to do: the receiver sees the sender
   * as its packet says and, once its own rank is up to date, makes the one selection step.
   */
  lemma BytesAreReceive(fcs: bool, source: EtherAddr, n: u32, timestamp: u64, sender: SyncView, flags: u8, self: EtherAddr,
                        d: DeviceView, k: nat, unset: u16, h: Hearing, i: nat)
    requires FlagsFor(flags, fcs) && source != self && k < |d.peers|
    requires h.kind == SyncBeacon && h.timestamp == timestamp && h.cluster == d.clusterId && !h.lone
    ensures var head := OnAir(fcs, source, d.clusterId, n, timestamp, SyncBeacon, sender, flags, self);
            head.Beacon? && head.kind == SyncBeacon && head.timestamp == timestamp &&
            var (after, result) :=
              AfterBeacon(d, k, Iterate(HandleBeacon, d.peers[k], head.attributes, unset), h);
            result == RX_OK && |after.peers| == |d.peers| && after.clusterId == d.clusterId &&
            after.peers[k].addr == d.peers[k].addr &&
            Network.SeenAs(Network.PacketOf(sender), after.peers[k]) &&
            after.sync == Network.React(UpdatePreference(d.sync, after.peers[k], h.now, h.drawn),
                                        Network.Receive(i, Network.PacketOf(sender), after.peers[k],
                                                        SyncedTimeTu(d.timer, h.now)))
  {
    hide OpenFrame, BeaconFrame, WithFcs, Radiotap, ParseHead, Iterate, UpdatePreference, Select, LowerGrade, Synced,
      IsMasterCandidate;
    BeaconRoundTrip(fcs, source, d.clusterId, n, timestamp, SyncBeacon, sender, flags, self, d.peers[k], unset);
    var head := OnAir(fcs, source, d.clusterId, n, timestamp, SyncBeacon, sender, flags, self);
    var heard := Iterate(HandleBeacon, d.peers[k], head.attributes, unset).0;
    var told := heard.(rssiAverage := h.rssi, lastTimestamp := h.timestamp);
    var after := AfterBeacon(d, k, (heard, RX_OK), h).0;
    PreferenceOnly(d.sync, told, after.peers[k], h.now, h.drawn);
    assert after.sync == Select(UpdatePreference(d.sync, told, h.now, h.drawn), after.peers[k], SyncedTimeTu(d.timer, h.now));
  }

  lemma PreferenceOnly(s: SyncView, p: PeerView, q: PeerView, now: u64, drawn: u8)
    requires p.masterPreference == q.masterPreference && p.lastMasterPreference == q.lastMasterPreference
    ensures UpdatePreference(s, p, now, drawn) == UpdatePreference(s, q, now, drawn)
  {}

  class Device {
    const selfAddress: EtherAddr
    const sync: SyncState
    const timer: TimerState
    const peers: PeerTable
    var clusterId: EtherAddr

    ghost predicate Valid()
      reads timer, timer.averageErrorState, timer.averageErrorState.buffer, peers, peers.peers, peers.peers.spine
    {
      timer.Valid() && peers.Valid()
    }

    ghost function View(): DeviceView
      reads this, sync, timer, timer.averageErrorState, peers, peers.known
    {
      DeviceView(sync.View(), timer.View(), timer.averageErrorState.history, clusterId, peers.View())
    }

    constructor (selfAddress: EtherAddr, clusterId: EtherAddr, nowUsec: u64)
      ensures Valid() && sync.View() == Init(selfAddress) && timer.View() == TimerView(nowUsec, 0, false, true, 0)
      ensures peers.View() == [] && this.clusterId == clusterId && this.selfAddress == selfAddress
    {
      this.selfAddress, this.clusterId := selfAddress, clusterId;
      sync := new SyncState(selfAddress);
      timer := new TimerState(nowUsec);
      peers := new PeerTable();
    }

    /** nan_rx_beacon behind its attribute loop. */
    method StateStep(peer: Peer, h: Hearing)
      requires timer.Valid() && |timer.averageErrorState.history| < 0x4000_0000
      requires ErrorUsec(timer.View(), h.now, h.timestamp) != -0x8000_0000
      modifies this`clusterId, sync, timer`baseTimeUsec, timer.averageErrorState, timer.averageErrorState.buffer, peer
      ensures var o := BeaconStep(old(sync.View()), old(timer.View()), old(clusterId), old(peer.View()), h);
              sync.View() == o.sync && peer.View() == o.peer && clusterId == o.clusterId &&
              var errors := ErrorsAfter(old(timer.averageErrorState.history), old(timer.View()), o.clock, h.now, h.timestamp);
              timer.averageErrorState.history == errors &&
              timer.View() == ClockAfter(old(timer.View()), o.clock, h.now, h.timestamp).(averageError := AverageError(errors))
      ensures timer.Valid()
    {
      hide UpdatePreference, Select, Synced, LowerGrade, ErrorUsec, IsMasterCandidate, AfterSelection, AverageError;
      AverageIsInt(timer.averageErrorState);
      peer.SetBeaconInformation(h.rssi, h.timestamp);
      var _ := sync.UpdateMasterPreference(peer, h.now, h.drawn);
      sync.CheckMasterCandidate(peer);
      if h.cluster != clusterId || h.lone {
        if LowerGrade(sync.masterPreference, SyncedTimeUsec(timer.View(), h.now), peer.masterPreference, h.timestamp) {
          clusterId := h.cluster;
          timer.SyncTime(h.now, h.timestamp);
        }
      } else if h.kind == SyncBeacon {
        FollowAnchor(peer, h);
      }
    }

    /** A sync beacon of one's own cluster: anchor master selection and the clock. */
    method FollowAnchor(peer: Peer, h: Hearing)
      requires timer.Valid() && |timer.averageErrorState.history| < 0x4000_0000
      requires ErrorUsec(timer.View(), h.now, h.timestamp) != -0x8000_0000
      modifies sync, timer`baseTimeUsec, timer.averageErrorState, timer.averageErrorState.buffer
      ensures var t := old(timer.View());
              var action := AfterSelection(old(sync.View()), sync.View());
              var errors := ErrorsAfter(old(timer.averageErrorState.history), t, action, h.now, h.timestamp);
              sync.View() == Select(old(sync.View()), peer.View(), SyncedTimeTu(t, h.now)) &&
              timer.averageErrorState.history == errors &&
              timer.View() == ClockAfter(t, action, h.now, h.timestamp).(averageError := AverageError(errors))
      ensures timer.Valid()
    {
      hide Select, Synced, ErrorUsec, MovingAverages.Average;
      AverageIsInt(timer.averageErrorState);
      var lastAnchorMaster := sync.anchorMasterRank;
      sync.AnchorMasterSelection(peer, SyncedTimeTu(timer.View(), h.now));
      if sync.anchorMasterRank != lastAnchorMaster {
        timer.SyncTime(h.now, h.timestamp);
      } else if !sync.AnchorIsSelf() {
        timer.SyncError(h.now, h.timestamp);
        AverageIsInt(timer.averageErrorState);
      }
    }

    /** nan_handle_discovery_window_end: election over the table first, then expiry. */
    method WindowEnd(now: u64)
      requires peers.Valid()
      modifies sync
      ensures var s := old(sync.View());
              sync.View() == Expire(s.(role := Elect(s.role, old(peers.View()), s.masterRank, now)))
    {
      hide Elect, Expire, Views, AllDifferent;
      var all := Listed();
      sync.MasterElection(all, now);
      sync.CheckAnchorMasterExpiration();
    }

    /** nan_send_discovery_beacon: whether a beacon is sent, and the wait for which the timer is armed again. */
    method SendDiscoveryBeacon(now: u64) returns (sent: bool, wait: u64)
      modifies timer`lastDiscoveryBeaconUsec
      ensures (timer.View(), sent, wait) == Schedule.SendBeacon(old(timer.View()), sync.role == Master, now)
    {
      hide CanSendDiscoveryBeacon, InitialScanDone, NextDiscoveryBeaconUsec;
      sent := sync.role == Master && InitialScanDone(timer.View(), now) && CanSendDiscoveryBeacon(timer.View(), now);
      if sent {
        timer.SetLastDiscoveryBeaconUsec(now);
      }
      wait := NextDiscoveryBeaconUsec(timer.View(), now);
    }

    /** The peers in the order in which LIST_FOR_EACH meets them. */
    method Listed() returns (all: seq<Peer>)
      requires peers.Valid()
      ensures all == peers.known
    {
      hide AllDifferent;
      var it := new ListIterator(peers.peers);
      all := [];
      while true
        invariant it.Valid() && it.list == peers.peers && peers.peers.Items() == peers.known
        invariant it.done == |all| <= |peers.known| && all == peers.known[..|all|]
        decreases |peers.known| - |all|
      {
        var item, status := it.Next();
        if status == ListNotFound {
          break;
        }
        all := all + [item.value];
      }
    }

    /** list_len of the table */
    method Count() returns (len: nat)
      requires peers.Valid()
      ensures len == |peers.View()|
    {
      len := peers.peers.Len();
    }

    /** The sender is added or stamped, and found. */
    method AddAndGet(addr: EtherAddr, cluster: EtherAddr, now: u64) returns (peer: Peer, added: bool, ghost k: nat)
      requires peers.Valid()
      modifies peers`addCalls, peers`known, peers.peers, peers.peers.spine, peers.known
      ensures peers.Valid() && peers.View() == Added(old(peers.View()), addr, cluster, now)
      ensures added <==> !Known(old(peers.View()), addr)
      ensures k < |peers.known| && peer == peers.known[k] && peers.View()[k].addr == addr
      ensures fresh(peer) || peer in old(peers.known)
    {
      hide Added, AllDifferent, Known, Views, PeerTable.Valid;
      StillKnown(peers.View(), addr, cluster, now);
      var status := peers.Add(addr, cluster, now);
      var found, _, at := peers.Get(addr);
      return found, status == PeerAdd, at;
    }

    /** nan_rx_beacon; `unset` is what the length variable of the attribute loop happens to hold at first. */
    method RxBeacon(frame: Buf, addr: EtherAddr, cluster: EtherAddr, rssi: i8, drawn: u8, now: u64)
      returns (result: int, ghost unset: u16, ghost k: nat)
      requires Valid() && frame.Valid() && frame.error == 0 && |timer.averageErrorState.history| < 0x4000_0000
      requires var head := ParseHead(frame.Left().bytes);
               head.Beacon? ==> ErrorUsec(timer.View(), now, head.timestamp) != -0x8000_0000
      modifies frame`current, frame`error, this`clusterId, sync, timer`initialScanDone, timer`baseTimeUsec
      modifies timer.averageErrorState, timer.averageErrorState.buffer
      modifies peers`addCalls, peers`known, peers.peers, peers.peers.spine, peers.known
      ensures Valid()
      ensures BeaconReceived(old(frame.Left().bytes), old(View()), addr, cluster, rssi, drawn, now, unset, k, View(), result)
      ensures var bs := old(frame.Left().bytes);
              !(|bs| >= 18 && bs[14..18] == [0x50, 0x6f, 0x9a, 0x13] && (FromLE(bs[8..10]) == 100 || FromLE(bs[8..10]) == 512))
              ==> result != RX_OK && View() == old(View())
    {
      hide AfterBeacon, Iterate, Added, Known, ErrorUsec, ScanEnded, Views, HandleBeacon, PeerTable.Valid,
        TimerState.Valid, ParseHead, AllDifferent;
      unset, k := 0, 0;
      ReceivedBytes.BeaconsRecognized(frame.Left().bytes);
      var kind, timestamp;
      result, kind, timestamp := ParseBeaconHeader(frame);
      if result == RX_OK {
        result, unset, k := FromSender(frame, addr, kind.value, timestamp, cluster, rssi, drawn, now);
      }
    }

    /** What nan_rx_beacon does with a beacon of known kind and time. */
    method FromSender(frame: Buf, addr: EtherAddr, kind: BeaconType, timestamp: u64, cluster: EtherAddr, rssi: i8, drawn: u8,
                      now: u64)
      returns (result: int, ghost unset: u16, ghost k: nat)
      requires Valid() && frame.Valid() && frame.error == 0 && |timer.averageErrorState.history| < 0x4000_0000
      requires ErrorUsec(timer.View(), now, timestamp) != -0x8000_0000
      modifies frame`current, frame`error, this`clusterId, sync, timer`initialScanDone, timer`baseTimeUsec
      modifies timer.averageErrorState, timer.averageErrorState.buffer
      modifies peers`addCalls, peers`known, peers.peers, peers.peers.spine, peers.known
      ensures Valid()
      ensures var d := old(View());
              var ps := Added(d.peers, addr, cluster, now);
              var t := ScanEnded(d.timer, now);
              k < |ps| && ps[k].addr == addr &&
              (View(), result)
              == AfterBeacon(d.(peers := ps, timer := t), k,
                             Iterate(HandleBeacon, ps[k], old(frame.Left().bytes), unset),
                             Hearing(kind, timestamp, cluster, |ps| == 1 && !Known(d.peers, addr), rssi, drawn, now))
    {
      hide AfterBeacon, Iterate, Added, AllDifferent, Known, ErrorUsec, ScanEnded, Views, HandleBeacon,
        PeerTable.Valid, TimerState.Valid;
      SameError(timer.View(), now, timestamp);
      var peer, lone;
      peer, lone, k := Prepare(addr, cluster, now);
      result, unset := Process(frame, peer, Hearing(kind, timestamp, cluster, lone, rssi, drawn, now), k);
    }

    /** The table and the scan before the attributes are read. */
    method Prepare(addr: EtherAddr, cluster: EtherAddr, now: u64) returns (peer: Peer, lone: bool, ghost k: nat)
      requires peers.Valid()
      modifies timer`initialScanDone, peers`addCalls, peers`known, peers.peers, peers.peers.spine, peers.known
      ensures peers.Valid()
      ensures var d := old(View());
              View() == d.(peers := Added(d.peers, addr, cluster, now), timer := ScanEnded(d.timer, now)) &&
              (lone <==> |View().peers| == 1 && !Known(d.peers, addr))
      ensures k < |peers.known| && peer == peers.known[k] && View().peers[k].addr == addr
      ensures fresh(peer) || peer in old(peers.known)
    {
      hide Added, AllDifferent, Known, ScanEnded, Views, PeerTable.Valid;
      var added, len;
      peer, added, k := AddAndGet(addr, cluster, now);
      EndScan(now);
      len := Count();
      lone := len == 1 && added;
    }

    /** The attributes and the step. */
    method Process(frame: Buf, peer: Peer, h: Hearing, ghost k: nat) returns (result: int, ghost unset: u16)
      requires peers.Valid() && k < |peers.known| && peer == peers.known[k] && frame.Valid() && frame.error == 0
      requires timer.Valid() && |timer.averageErrorState.history| < 0x4000_0000
      requires ErrorUsec(timer.View(), h.now, h.timestamp) != -0x8000_0000
      modifies frame`current, frame`error, this`clusterId, sync, timer`baseTimeUsec, peer
      modifies timer.averageErrorState, timer.averageErrorState.buffer
      ensures timer.Valid() && peers.known == old(peers.known)
      ensures (View(), result)
              == AfterBeacon(old(View()), k,
                             Iterate(HandleBeacon, old(View()).peers[k], old(frame.Left().bytes), unset), h)
    {
      hide BeaconStep, Iterate, AllDifferent, ErrorUsec, ErrorsAfter, AverageError, ClockAfter, Views, HandleBeacon,
        PeerTable.Valid, TimerState.Valid;
      ghost var ps := peers.View();
      result, unset := Learn(frame, peer, k);
      if result >= 0 {
        Act(peer, h, k);
        assert peers.View() == ps[k := peers.View()[k]];
        result := RX_OK;
      }
    }

    /** The first beacon ends the initial scan. */
    method EndScan(now: u64)
      modifies timer`initialScanDone
      ensures timer.View() == ScanEnded(old(timer.View()), now)
    {
      if !InitialScanDone(timer.View(), now) {
        timer.InitialScanCancel();
      }
    }

    /** The attributes of a beacon go into the entry of its sender. */
    method Learn(frame: Buf, peer: Peer, ghost k: nat) returns (result: int, ghost unset: u16)
      requires peers.Valid() && k < |peers.known| && peer == peers.known[k] && frame.Valid() && frame.error == 0
      modifies frame`current, frame`error, peer
      ensures var (heard, r) := Iterate(HandleBeacon, old(peers.View())[k], old(frame.Left().bytes), unset);
              result == r && peers.View() == old(peers.View())[k := heard]
    {
      hide Iterate, AllDifferent, Views, HandleBeacon, PeerTable.Valid;
      ghost var ps := peers.View();
      AllThere(peers, k);
      result, unset := IterateBeacon(frame, peer);
      ChangedAt(peers.known, k, ps);
    }

    /** The step that a beacon causes, with its effect on the table. */
    method Act(peer: Peer, h: Hearing, ghost k: nat)
      requires peers.Valid() && k < |peers.known| && peer == peers.known[k]
      requires timer.Valid() && |timer.averageErrorState.history| < 0x4000_0000
      requires ErrorUsec(timer.View(), h.now, h.timestamp) != -0x8000_0000
      modifies this`clusterId, sync, peer
      modifies timer`baseTimeUsec, timer.averageErrorState, timer.averageErrorState.buffer
      ensures timer.Valid()
      ensures var o := BeaconStep(old(sync.View()), old(timer.View()), old(clusterId), old(peers.View())[k], h);
              var errors := ErrorsAfter(old(timer.averageErrorState.history), old(timer.View()), o.clock, h.now, h.timestamp);
              sync.View() == o.sync && peers.View() == old(peers.View())[k := o.peer] && clusterId == o.clusterId &&
              timer.averageErrorState.history == errors &&
              timer.View() == ClockAfter(old(timer.View()), o.clock, h.now, h.timestamp).(averageError := AverageError(errors))
    {
      hide BeaconStep, AllDifferent, ErrorUsec, ErrorsAfter, AverageError, ClockAfter, Views, PeerTable.Valid,
        TimerState.Valid;
      ghost var ps := peers.View();
      AllThere(peers, k);
      StateStep(peer, h);
      ChangedAt(peers.known, k, ps);
    }
  }

  /** The average that is kept is an int. */
  lemma AverageIsInt(a: MovingAverages.MovingAverage)
    requires a.Valid()
    ensures a.average == AverageError(a.history)
  {}

  lemma SameError(t: TimerView, now: u64, timestamp: u64)
    ensures ErrorUsec(ScanEnded(t, now), now, timestamp) == ErrorUsec(t, now, timestamp)
  {}

  /** What the table shows, and that no peer is in it twice. */
  lemma AllThere(table: PeerTable, k: nat)
    requires table.Valid() && k < |table.known|
    ensures forall i | 0 <= i < |table.known| :: table.View()[i] == table.known[i].View()
    ensures forall i | 0 <= i < |table.known| && i != k :: table.known[i] != table.known[k]
  {}

  lemma {:induction false} StillKnown(ps: seq<PeerView>, addr: EtherAddr, cluster: EtherAddr, now: u64)
    ensures Known(Added(ps, addr, cluster, now), addr)
  {
    if ps == [] || ps[0].addr == addr {
      assert Added(ps, addr, cluster, now)[0].addr == addr;
    } else {
      StillKnown(ps[1..], addr, cluster, now);
      var i :| 0 <= i < |Added(ps[1..], addr, cluster, now)| && Added(ps[1..], addr, cluster, now)[i].addr == addr;
      assert Added(ps, addr, cluster, now)[i + 1].addr == addr;
    }
  }

  /** What the table shows when one of its peers has changed. */
  lemma ChangedAt(known: seq<Peer>, k: nat, ps: seq<PeerView>)
    requires k < |known| == |ps| && forall i | 0 <= i < |known| && i != k :: known[i].View() == ps[i]
    ensures Views(known) == ps[k := known[k].View()]
  {}
}
