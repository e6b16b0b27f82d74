/** Parsing undoes building: src/tx.c against src/rx.c. */
module RoundTrip {
  import opened Words
  import opened MasterRank
  import opened Services
  import opened Peers
  import opened Sync
  import opened Frames
  import opened Attributes

  /** The receiver's driver reports an FCS exactly if the sender appended one, and has not found it wrong. */
  predicate FlagsFor(flags: u8, fcs: bool) {
    !Bit(flags, 0x40) && (Bit(flags, 0x10) <==> fcs)
  }

  /** A frame around `body`, from the radiotap header to the 802.11 header. */
  function Framed(fcs: bool, source: EtherAddr, destination: EtherAddr, cluster: EtherAddr, n: u32, kind: u16,
                  body: seq<u8>): seq<u8>
  {
    Radiotap(fcs) + NanHeader(source, destination, cluster, n, kind) + body
  }

  lemma HeaderFields(source: EtherAddr, destination: EtherAddr, cluster: EtherAddr, n: u32, kind: u16, body: seq<u8>)
    ensures var bs := NanHeader(source, destination, cluster, n, kind) + body;
            |bs| >= 24 && FromLE(bs[..2]) == kind && bs[4..10] == destination && bs[10..16] == source &&
            bs[16..22] == cluster && bs[24..] == body
  {
    hide ToLE, FromLE;
    var bs := NanHeader(source, destination, cluster, n, kind) + body;
    assert bs[..2] == ToLE(kind, 2);
    PowValues();
    ValueRoundTrip(kind, 2);
  }

  /** The receiver finds the body that the sender put in, whatever headers and FCS came around it. */
  lemma OpensFramed(fcs: bool, source: EtherAddr, destination: EtherAddr, cluster: EtherAddr, n: u32, kind: u16,
                    body: seq<u8>, flags: u8, self: EtherAddr)
    requires FlagsFor(flags, fcs) && source != self
    ensures OpenFrame(WithFcs(Framed(fcs, source, destination, cluster, n, kind, body), fcs), |Radiotap(fcs)|, flags, self)
            == Opened(kind, destination, source, cluster, body)
  {
    hide ToLE, FromLE, Radiotap, NanHeader, Fcs, Bit;
    var frame := Framed(fcs, source, destination, cluster, n, kind, body);
    var inner := NanHeader(source, destination, cluster, n, kind) + body;
    HeaderFields(source, destination, cluster, n, kind, body);
    assert frame[|Radiotap(fcs)|..] == inner;
    if fcs {
      assert WithFcs(frame, fcs)[|Radiotap(fcs)|..] == inner + Fcs(frame);
      assert (inner + Fcs(frame))[..|inner|] == inner;
    }
  }

  lemma HeadOfBeacon(timestamp: u64, kind: BeaconType, length: u8, attributes: seq<u8>)
    ensures ParseHead(BeaconHeader(timestamp, kind, length) + attributes) == Beacon(kind, timestamp, attributes)
  {
    hide ToLE, FromLE;
    var bs := BeaconHeader(timestamp, kind, length) + attributes;
    assert bs[..8] == ToLE(timestamp, 8) && bs[8..10] == ToLE(Interval(kind), 2);
    PowValues();
    ValueRoundTrip(timestamp, 8);
    ValueRoundTrip(Interval(kind), 2);
    assert bs[14..17] == NAN_OUI && bs[17] == NAN_OUI_TYPE_BEACON && bs[18..] == attributes;
  }

  /** What a peer is known to be after one of its beacons. */
  function Heard(p: PeerView, s: SyncView): PeerView {
    WithAnchor(WithIndication(p, s.masterPreference, s.randomFactor), s.anchorMasterRank, s.ambtt, s.hopCount)
  }

  lemma ClusterHandled(p: PeerView, s: SyncView)
    ensures HandleBeacon(p, ClusterAttribute(s.anchorMasterRank, s.hopCount, s.ambtt))
            == (WithAnchor(p, s.anchorMasterRank, s.ambtt, s.hopCount), RX_OK)
  {
    hide ToLE, FromLE;
    var body := ClusterAttribute(s.anchorMasterRank, s.hopCount, s.ambtt).body;
    assert body[..8] == ToLE(s.anchorMasterRank, 8) && body[9..13] == ToLE(s.ambtt, 4);
    PowValues();
    ValueRoundTrip(s.anchorMasterRank, 8);
    ValueRoundTrip(s.ambtt, 4);
  }

  lemma BeaconHandled(p: PeerView, s: SyncView, unset: u16)
    ensures Iterate(HandleBeacon, p, EncodeAll(BeaconAttributes(s)), unset) == (Heard(p, s), RX_OK)
  {
    hide HandleBeacon, Iterate, EncodeAll;
    var a := BeaconAttributes(s);
    var h: (PeerView, Attribute) -> (PeerView, int) := HandleBeacon;
    HandledNothing(h, p);
    HandledNext(h, p, [], a[0]);
    assert [] + [a[0]] == [a[0]] && [a[0]] + [a[1]] == a;
    assert HandleBeacon(p, a[0]) == (WithIndication(p, s.masterPreference, s.randomFactor), RX_OK) by {
      IndicationHandled(p, s);
    }
    ClusterHandled(WithIndication(p, s.masterPreference, s.randomFactor), s);
    HandledNext(h, p, [a[0]], a[1]);
    LoopOnEncoded(h, p, a, unset);
  }

  lemma IndicationHandled(p: PeerView, s: SyncView)
    ensures HandleBeacon(p, MasterIndication(s.masterPreference, s.randomFactor))
            == (WithIndication(p, s.masterPreference, s.randomFactor), RX_OK)
  {}

  /**
   * A beacon built from any state of the sender is accepted, and the receiver learns from it what the sender is and
   * believes: time, kind, preference, random factor, anchor rank, hop count. The announced beacon time of the anchor
   * is taken over from a relaying sender; for a sender that is the anchor itself it is the time of its beacon before.
   */
  lemma BeaconRoundTrip(fcs: bool, source: EtherAddr, cluster: EtherAddr, n: u32, timestamp: u64, kind: BeaconType,
                        s: SyncView, flags: u8, self: EtherAddr, p: PeerView, unset: u16)
    requires FlagsFor(flags, fcs) && source != self
    ensures var o := OpenFrame(WithFcs(BeaconFrame(fcs, source, cluster, n, timestamp, kind, s), fcs), |Radiotap(fcs)|, flags, self);
            o.Opened? && o.frameControl == IEEE80211_FCTL_BEACON && o.source == source && o.cluster == cluster &&
            var head := ParseHead(o.body);
            head.Beacon? && head.kind == kind && head.timestamp == timestamp &&
            var (heard, result) := Iterate(HandleBeacon, p, head.attributes, unset);
            result == RX_OK &&
            heard.masterPreference == s.masterPreference && heard.randomFactor == s.randomFactor &&
            heard.anchorMasterRank == s.anchorMasterRank && heard.hopCount == s.hopCount &&
            heard.ambtt == (if s.hopCount == 0 then Wrap32(p.lastTimestamp) else s.ambtt) &&
            heard.lastAnchorMasterRank == p.anchorMasterRank && heard.lastMasterPreference == p.masterPreference &&
            heard.addr == p.addr
  {
    hide Iterate, ParseHead, Radiotap, NanHeader, BeaconHeader, EncodeAll, Fcs, OpenFrame;
    var body := BeaconHeader(timestamp, kind, 25) + EncodeAll(BeaconAttributes(s));
    assert BeaconFrame(fcs, source, cluster, n, timestamp, kind, s)
      == Framed(fcs, source, NAN_BROADCAST_ADDRESS, cluster, n, IEEE80211_FCTL_BEACON, body);
    OpensFramed(fcs, source, NAN_BROADCAST_ADDRESS, cluster, n, IEEE80211_FCTL_BEACON, body, flags, self);
    HeadOfBeacon(timestamp, kind, 25, EncodeAll(BeaconAttributes(s)));
    BeaconHandled(p, s, unset);
  }

  // ---------------------------------------------------------------- service discovery

  function Control(s: ServiceView): ControlType {
    if s.parameters.Subscribed? then Subscribe else Publish
  }

  /** What arrives of a descriptor: information too long for it is not in it. */
  function Arrived(serviceId: ServiceId, instanceId: u8, requestor: u8, control: ControlType, info: Option<seq<u8>>):
    ServiceDescriptor
  {
    ServiceDescriptor(serviceId, instanceId, requestor, ControlCode(control) + if Short(info) then 0x10 else 0,
                      if Short(info) then info else None)
  }

  function Described(s: ServiceView): ServiceDescriptor {
    Arrived(s.serviceId, s.instanceId, 0, Control(s), s.info)
  }

  /** The reader takes the first four bytes of long information for an OUI and a protocol type. */
  function Extended(s: ServiceView): DescriptorExtension {
    DescriptorExtension(s.instanceId, if s.parameters.Published? then 0x200 else 0,
                        if s.parameters.Published? then Some(s.serviceUpdateIndicator) else None,
                        if Long(s.info) then Info(s.info.value[4..]) else NoInfo)
  }

  lemma ControlBits(c: u8)
    requires c == 0 || c == 1 || c == 2 || c == 0x10 || c == 0x11 || c == 0x12
    ensures !Bit(c, 0x40) && !Bit(c, 0x4) && !Bit(c, 0x8) && (Bit(c, 0x10) <==> c >= 0x10)
  {}

  lemma DescriptorRoundTrip(serviceId: ServiceId, instanceId: u8, requestor: u8, control: ControlType, info: Option<seq<u8>>)
    requires control != Unknown
    ensures ParseDescriptor(DescriptorBody(serviceId, instanceId, requestor, control, info))
            == Some(Arrived(serviceId, instanceId, requestor, control, info))
  {
    hide Bit;
    var body := DescriptorBody(serviceId, instanceId, requestor, control, info);
    var c := Arrived(serviceId, instanceId, requestor, control, info).control;
    ControlBits(c);
    assert body[..6] == serviceId && body[6] == instanceId && body[7] == requestor && body[8] == c;
    if Short(info) {
      assert body[9..] == [|info.value|] + info.value;
      assert body[9..][1..1 + |info.value|] == info.value;
    }
  }

  lemma LongInfoRead(info: seq<u8>)
    requires 256 <= |info| < 0x1_0000
    ensures ParseExtensionInfo(ToLE(|info|, 2) + info) == Some(Info(info[4..]))
  {
    hide ToLE, FromLE;
    var rest := ToLE(|info|, 2) + info;
    assert rest[..2] == ToLE(|info|, 2);
    PowValues();
    ValueRoundTrip(|info|, 2);
    assert rest[6..|info| + 2] == info[4..];
  }

  lemma ExtensionControlRead(s: ServiceView, info: seq<u8>)
    ensures ParseExtensionControl(ExtensionControl(s) + info) == Some((Extended(s).(info := NoInfo), info))
  {
    var body := ExtensionControl(s) + info;
    var control: nat := if s.parameters.Published? then 0x200 else 0;
    assert body[1..3] == ToLE(control, 2) by {
      assert ToLE(control / 0x100, 1) == [control / 0x100] + [];
    }
    PowValues();
    ValueRoundTrip(control, 2);
    assert body[3..][0..] == body[3..];
    assert s.parameters.Published? ==> body[3..][1..] == info;
  }

  lemma ExtensionRoundTrip(s: ServiceView)
    requires |Extension(s).body| < 0x1_0000
    ensures ParseExtension(Extension(s).body) == Some(Extended(s))
  {
    hide ParseExtensionControl, ParseExtensionInfo, ExtensionControl, ToLE;
    ExtensionControlRead(s, LongInfo(s.info));
    if Long(s.info) {
      LongInfoRead(s.info.value);
    } else {
      assert ParseExtensionInfo([]) == Some(NoInfo) by {
        EmptyInfo();
      }
    }
  }

  lemma EmptyInfo()
    ensures ParseExtensionInfo([]) == Some(NoInfo)
  {}

  /** In a frame of ordinary size every length fits its two bytes. */
  lemma {:induction false} SizeIsSayable(attributes: seq<Attribute>)
    requires |EncodeAll(attributes)| < 0x1_0000
    ensures Sayable(attributes)
    decreases |attributes|
  {
    if attributes != [] {
      SizeIsSayable(attributes[1..]);
      assert forall a <- attributes :: a == attributes[0] || a in attributes[1..];
    }
  }

  function DescribedAll(services: seq<ServiceView>): Received {
    Received(seq(|services|, i requires 0 <= i < |services| => Described(services[i])),
             seq(|services|, i requires 0 <= i < |services| => Extended(services[i])))
  }

  lemma ServiceHandled(r: Received, s: ServiceView)
    requires |Extension(s).body| < 0x1_0000
    ensures HandleDiscovery(r, Descriptor(s)) == (r.(descriptors := r.descriptors + [Described(s)]), RX_OK)
    ensures HandleDiscovery(r, Extension(s)) == (r.(extensions := r.extensions + [Extended(s)]), RX_OK)
  {
    hide ParseDescriptor, ParseExtension, DescriptorBody, ExtensionBody;
    DescriptorRoundTrip(s.serviceId, s.instanceId, 0, Control(s), s.info);
    ExtensionRoundTrip(s);
  }

  lemma {:induction false} ServicesHandled(services: seq<ServiceView>)
    requires Sayable(DiscoveryAttributes(services))
    ensures Handled(HandleDiscovery, Received([], []), DiscoveryAttributes(services)).0 == DescribedAll(services)
    ensures Handled(HandleDiscovery, Received([], []), DiscoveryAttributes(services)).1 >= 0
    decreases |services|
  {
    hide HandleDiscovery, Handled, Descriptor, Extension, DeviceCapability, Availability;
    var h: (Received, Attribute) -> (Received, int) := HandleDiscovery;
    var start := Received([], []);
    if services == [] {
      var d, a := DeviceCapability(), Availability();
      assert DiscoveryAttributes(services) == [] + [d] + [a];
      OthersIgnored(start);
      HandledNothing(h, start);
      HandledNext(h, start, [], d);
      HandledNext(h, start, [] + [d], a);
    } else {
      var n := |services| - 1;
      var s, before := services[n], DiscoveryAttributes(services[..n]);
      assert DiscoveryAttributes(services) == before + [Descriptor(s)] + [Extension(s)];
      ServicesHandled(services[..n]);
      ServiceHandled(DescribedAll(services[..n]), s);
      HandledNext(h, start, before, Descriptor(s));
      var r := Handled(h, start, before + [Descriptor(s)]).0;
      ServiceHandled(r, s);
      HandledNext(h, start, before + [Descriptor(s)], Extension(s));
    }
  }

  lemma OthersIgnored(r: Received)
    ensures HandleDiscovery(r, DeviceCapability()) == (r, RX_IGNORE) && HandleDiscovery(r, Availability()) == (r, RX_IGNORE)
  {}

  /** A service discovery frame as it is received: type, header and attributes. */
  lemma OpensDiscovery(fcs: bool, source: EtherAddr, destination: EtherAddr, cluster: EtherAddr, n: u32,
                       attributes: seq<Attribute>, flags: u8, self: EtherAddr)
    requires FlagsFor(flags, fcs) && source != self
    ensures OpenFrame(WithFcs(ServiceDiscoveryFrame(fcs, source, destination, cluster, n, attributes), fcs), |Radiotap(fcs)|,
                      flags, self)
            == Opened(IEEE80211_FCTL_ACTION, destination, source, cluster, ServiceDiscoveryHeader() + EncodeAll(attributes))
  {
    hide Radiotap, NanHeader, ServiceDiscoveryHeader, EncodeAll, Fcs, OpenFrame;
    var body := ServiceDiscoveryHeader() + EncodeAll(attributes);
    assert ServiceDiscoveryFrame(fcs, source, destination, cluster, n, attributes)
      == Framed(fcs, source, destination, cluster, n, IEEE80211_FCTL_ACTION, body);
    OpensFramed(fcs, source, destination, cluster, n, IEEE80211_FCTL_ACTION, body, flags, self);
  }

  /**
   * The frame that announces a list of services is accepted and yields exactly one descriptor for each service, in
   * order, with its service id, instance id, control type and information; information of 256 bytes and more is in the
   * extension and not in the descriptor.
   */
  lemma DiscoveryRoundTrip(fcs: bool, source: EtherAddr, destination: EtherAddr, cluster: EtherAddr, n: u32,
                           services: seq<ServiceView>, flags: u8, self: EtherAddr, unset: u16)
    requires FlagsFor(flags, fcs) && source != self
    requires |EncodeAll(DiscoveryAttributes(services))| < 0x1_0000
    ensures var o := OpenFrame(WithFcs(ServiceDiscoveryFrame(fcs, source, destination, cluster, n, DiscoveryAttributes(services)),
                                       fcs), |Radiotap(fcs)|, flags, self);
            o.Opened? && o.frameControl == IEEE80211_FCTL_ACTION && o.source == source && o.destination == destination &&
            o.cluster == cluster && |o.body| >= 6 && o.body[..6] == ServiceDiscoveryHeader() &&
            var (found, result) := Iterate(HandleDiscovery, Received([], []), o.body[6..], unset);
            result == RX_OK && |found.descriptors| == |services| == |found.extensions| &&
            forall i | 0 <= i < |services| ::
              found.descriptors[i].serviceId == services[i].serviceId &&
              found.descriptors[i].instanceId == services[i].instanceId &&
              found.descriptors[i].control % 4 == ControlCode(Control(services[i])) &&
              found.descriptors[i].info == (if Long(services[i].info) then None else services[i].info)
  {
    hide Iterate, Radiotap, NanHeader, EncodeAll, Fcs, OpenFrame, Handled, DiscoveryAttributes, ServiceDiscoveryFrame;
    OpensDiscovery(fcs, source, destination, cluster, n, DiscoveryAttributes(services), flags, self);
    SizeIsSayable(DiscoveryAttributes(services));
    ServicesHandled(services);
    LoopOnEncoded(HandleDiscovery, Received([], []), DiscoveryAttributes(services), unset);
  }

  /** A follow-up arrives as one descriptor that names the receiver's instance and, if it is short, carries the information. */
  lemma FollowUpRoundTrip(s: ServiceView, requestor: u8, info: Option<seq<u8>>, unset: u16)
    requires |EncodeAll(FollowUpAttributes(s, requestor, info))| < 0x1_0000
    ensures var (found, result) := Iterate(HandleDiscovery, Received([], []), EncodeAll(FollowUpAttributes(s, requestor, info)), unset);
            result == RX_OK && found.descriptors == [Arrived(s.serviceId, s.instanceId, requestor, FollowUp, info)]
  {
    hide Iterate, EncodeAll, Handled, ParseDescriptor, ParseExtension, DescriptorBody;
    var h: (Received, Attribute) -> (Received, int) := HandleDiscovery;
    var start, a := Received([], []), FollowUpAttributes(s, requestor, info);
    SizeIsSayable(a);
    DescriptorRoundTrip(s.serviceId, s.instanceId, requestor, FollowUp, info);
    HandledNothing(h, start);
    HandledNext(h, start, [], a[0]);
    assert [] + [a[0]] == [a[0]];
    if Long(info) {
      assert a == [a[0]] + [a[1]];
      assert a[1] == Extension(s.(info := info));
      ExtensionRoundTrip(s.(info := info));
      HandledNext(h, start, [a[0]], a[1]);
    } else {
      assert a == [a[0]];
    }
    LoopOnEncoded(h, start, a, unset);
  }
}
