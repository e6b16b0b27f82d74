/** A received frame from its first byte to what it does: nan_rx of src/rx.c. */
module Reception {
  import opened Words
  import opened MasterRank
  import opened Peers
  import opened Frames
  import opened Wire
  import opened Attributes
  import opened Rx
  import opened Timers
  import opened PeerTables
  import opened Devices
  import opened Discovery
  import opened RoundTrip
  import opened Sync
  import Network
  import S = Services

  /** Type and subtype of a frame, without version and flags: bits 2 to 7 of the frame control field. */
  function KindOf(frameControl: u16): nat { frameControl % 0x100 / 4 * 4 }

  /** From the low bits up: version, type, subtype and flags. Management frames have type 0; beacons are 8, actions 13. */
  lemma FrameKinds(version: nat, kind: nat, subtype: nat, flags: u8)
    requires version < 4 && kind < 4 && subtype < 16
    ensures var control := version + 4 * kind + 16 * subtype + 256 * flags;
            control < 0x1_0000 &&
            (KindOf(control) == 0x80 <==> kind == 0 && subtype == 8) &&
            (KindOf(control) == 0xd0 <==> kind == 0 && subtype == 13)
  {
    var low := version + 4 * kind + 16 * subtype;
    assert (low + 256 * flags) % 0x100 == low;
    assert low / 4 == kind + 4 * subtype;
  }

  /** What a frame comes to, given which of the handlers it reaches. */
  ghost predicate FrameReceived(o: Opened, d: DeviceView, after: DeviceView, result: int, rssi: i8, drawn: u8, now: u64,
                                unset: u16, k: nat, was: seq<S.ServiceView>, others: seq<S.ServiceView>,
                                published: seq<S.ServiceView>, forUs: bool, reports: seq<S.Report>)
  {
    match o
    case Refused(r) => result == r && after == d && published == was && reports == []
    case Opened(control, _, source, cluster, body) =>
      if KindOf(control) == 0x80 then
        BeaconReceived(body, d, source, cluster, rssi, drawn, now, unset, k, after, result) &&
        published == was && reports == []
      else if KindOf(control) == 0xd0 then
        after == d.(peers := if NamesSender(body) then Added(d.peers, source, cluster, now) else d.peers) &&
        ActionReceived(body, unset, was, others, forUs, result, published, reports)
      else result == RX_UNEXPECTED_TYPE && after == d && published == was && reports == []
  }

  /** An action frame at a device: only the peer table and the published services can change. */
  method TakeAction(frame: Buf, device: Device, services: S.ServiceState, interfaceAddress: EtherAddr, source: EtherAddr,
                    destination: EtherAddr, cluster: EtherAddr, now: u64)
    returns (result: int, reports: seq<S.Report>, ghost unset: u16)
    requires frame.Valid() && frame.error == 0 && device.Valid() && services.Valid()
    modifies frame`current, frame`error, services.publishedServices
    modifies device.peers`addCalls, device.peers`known, device.peers.peers, device.peers.peers.spine, device.peers.known
    ensures device.Valid() && services.Valid()
    ensures device.View()
            == old(device.View()).(peers := if NamesSender(old(frame.Left().bytes))
                                            then Added(old(device.View()).peers, source, cluster, now)
                                            else old(device.View()).peers)
    ensures ActionReceived(old(frame.Left().bytes), unset, old(S.Views(services.publishedServices)),
                           old(S.Views(services.subscribedServices)), interfaceAddress == destination, result,
                           S.Views(services.publishedServices), reports)
  {
    hide S.Views, S.ServiceState.Valid, ActionReceived, Added, PeerTable.Valid, TimerState.Valid;
    result, reports, unset := RxAction(frame, device.peers, services, interfaceAddress, source, destination, cluster, now);
  }

  /** The second half of nan_rx: the type of the frame decides who takes it. */
  method Dispatch(frame: Buf, o: Opened, device: Device, services: S.ServiceState, interfaceAddress: EtherAddr, rssi: i8,
                  drawn: u8, now: u64)
    returns (result: int, reports: seq<S.Report>, ghost unset: u16, ghost k: nat)
    requires frame.Valid() && frame.error == 0 && device.Valid() && services.Valid()
    requires o.Opened? && frame.Left().bytes == o.body && |device.timer.averageErrorState.history| < 0x4000_0000
    requires ParseHead(o.body).Beacon? ==>
               ErrorUsec(device.timer.View(), now, ParseHead(o.body).timestamp) != -0x8000_0000
    modifies frame`current, frame`error, device`clusterId, device.sync, device.timer`initialScanDone
    modifies device.timer`baseTimeUsec, device.timer.averageErrorState, device.timer.averageErrorState.buffer
    modifies device.peers`addCalls, device.peers`known, device.peers.peers, device.peers.peers.spine, device.peers.known
    modifies services.publishedServices
    ensures device.Valid() && services.Valid()
    ensures FrameReceived(o, old(device.View()), device.View(), result, rssi, drawn, now, unset, k,
                          old(S.Views(services.publishedServices)), old(S.Views(services.subscribedServices)),
                          S.Views(services.publishedServices), interfaceAddress == o.destination, reports)
  {
    hide ParseHead, ErrorUsec, S.Views, S.ServiceState.Valid, Device.Valid, BeaconReceived, ActionReceived, Added,
      PeerTable.Valid, TimerState.Valid, KindOf, NamesSender;
    result, reports, unset, k := RX_UNEXPECTED_TYPE, [], 0, 0;
    if KindOf(o.frameControl) == 0x80 {
      result, unset, k := device.RxBeacon(frame, o.source, o.cluster, rssi, drawn, now);
    } else if KindOf(o.frameControl) == 0xd0 {
      result, reports, unset := TakeAction(frame, device, services, interfaceAddress, o.source, o.destination, o.cluster, now);
    }
  }

  /** nan_rx; the length and the flags of the radiotap header come from the library that reads it. */
  method Receive(frame: Buf, headerLength: u16, flags: u8, device: Device, services: S.ServiceState,
                 interfaceAddress: EtherAddr, rssi: i8, drawn: u8, now: u64)
    returns (result: int, reports: seq<S.Report>, ghost unset: u16, ghost k: nat)
    requires frame.Valid() && frame.error == 0 && device.Valid() && services.Valid()
    requires |device.timer.averageErrorState.history| < 0x4000_0000
    requires var o := OpenFrame(frame.Left().bytes, headerLength, flags, device.selfAddress);
             o.Opened? && ParseHead(o.body).Beacon? ==>
               ErrorUsec(device.timer.View(), now, ParseHead(o.body).timestamp) != -0x8000_0000
    modifies frame`current, frame`end, frame`error, device`clusterId, device.sync, device.timer`initialScanDone
    modifies device.timer`baseTimeUsec, device.timer.averageErrorState, device.timer.averageErrorState.buffer
    modifies device.peers`addCalls, device.peers`known, device.peers.peers, device.peers.peers.spine, device.peers.known
    modifies services.publishedServices
    ensures device.Valid() && services.Valid()
    ensures var o := OpenFrame(old(frame.Left().bytes), headerLength, flags, device.selfAddress);
            FrameReceived(o, old(device.View()), device.View(), result, rssi, drawn, now, unset, k,
                          old(S.Views(services.publishedServices)), old(S.Views(services.subscribedServices)),
                          S.Views(services.publishedServices), o.Opened? && interfaceAddress == o.destination, reports)
  {
    hide OpenFrame, ParseHead, ErrorUsec, S.Views, S.ServiceState.Valid, Device.Valid, BeaconReceived, ActionReceived, Added,
      PeerTable.Valid, TimerState.Valid, KindOf, NamesSender;
    var o := Open(frame, headerLength, flags, device.selfAddress);
    if o.Refused? {
      return o.result, [], 0, 0;
    }
    result, reports, unset, k := Dispatch(frame, o, device, services, interfaceAddress, rssi, drawn, now);
  }

  /**
   * From one device to another: a sync beacon of the receiver's cluster from a peer that it knows does what the network of
   * devices takes a received packet to do, whatever else the frame and the receiver hold.
   */
  lemma SyncBeaconArrives(fcs: bool, source: EtherAddr, n: u32, timestamp: u64, sender: SyncView, flags: u8, self: EtherAddr,
                          d: DeviceView, after: DeviceView, result: int, rssi: i8, drawn: u8, now: u64, unset: u16, k: nat,
                          was: seq<S.ServiceView>, others: seq<S.ServiceView>, published: seq<S.ServiceView>, forUs: bool,
                          reports: seq<S.Report>, i: nat)
    requires FlagsFor(flags, fcs) && source != self && PeerTables.Known(d.peers, source)
    requires var frame := WithFcs(BeaconFrame(fcs, source, d.clusterId, n, timestamp, SyncBeacon, sender), fcs);
             FrameReceived(OpenFrame(frame, |Radiotap(fcs)|, flags, self), d, after, result, rssi, drawn, now, unset, k, was,
                           others, published, forUs, reports)
    ensures result == RX_OK && published == was && reports == [] && after.clusterId == d.clusterId
    ensures k < |after.peers| && after.peers[k].addr == source && Network.SeenAs(Network.PacketOf(sender), after.peers[k])
    ensures after.sync
            == Network.React(UpdatePreference(d.sync, after.peers[k], now, drawn),
                             Network.Receive(i, Network.PacketOf(sender), after.peers[k], SyncedTimeTu(d.timer, now)))
  {
    hide OpenFrame, BeaconFrame, WithFcs, Radiotap, ParseHead, Iterate, UpdatePreference, Added, PeerTables.Known, BeaconStep,
      AverageError, ErrorsAfter, ClockAfter, Network.SeenAs, Network.React, Network.PacketOf;
    BeaconRoundTrip(fcs, source, d.clusterId, n, timestamp, SyncBeacon, sender, flags, self, NewPeer(source, source), unset);
    var ps := Added(d.peers, source, d.clusterId, now);
    var h := Hearing(SyncBeacon, timestamp, d.clusterId, false, rssi, drawn, now);
    var ready := d.(peers := ps, timer := ScanEnded(d.timer, now));
    BytesAreReceive(fcs, source, n, timestamp, sender, flags, self, ready, k, unset, h, i);
  }
}
