/** The layouts of frames and attributes: src/frame.h, src/attributes.h and src/ieee80211.h. */
module Frames {
  import opened Words
  import opened MasterRank
  import opened Services
  import opened Sync
  import Crc32

  const MASTER_INDICATION_ATTRIBUTE: u8 := 0x00
  const CLUSTER_ATTRIBUTE: u8 := 0x01
  const SERVICE_DESCRIPTOR_ATTRIBUTE: u8 := 0x03
  const SERVICE_DESCRIPTOR_EXTENSION_ATTRIBUTE: u8 := 0x0e
  const DEVICE_CAPABILITY_ATTRIBUTE: u8 := 0x0f
  const NAN_AVAILABILITY_ATTRIBUTE: u8 := 0x12

  const NAN_OUI: seq<u8> := [0x50, 0x6f, 0x9a]
  const NAN_OUI_TYPE_BEACON: u8 := 0x13
  const NAN_OUI_TYPE_SERVICE_DISCOVERY: u8 := 0x13
  const NAN_OUI_TYPE_ACTION: u8 := 0x18
  const NAN_SYNC_BEACON_INTERVAL_TU: u16 := 512
  const NAN_DISCOVERY_BEACON_INTERVAL_TU: u16 := 100
  const IEEE80211_FCTL_BEACON: u16 := 0x80
  const IEEE80211_FCTL_ACTION: u16 := 0xd0
  const NAN_BROADCAST_ADDRESS: EtherAddr := [0xff, 0xff, 0xff, 0xff, 0xff, 0xff]

  datatype BeaconType = SyncBeacon | DiscoveryBeacon

  datatype ControlType = Publish | Subscribe | FollowUp | Unknown

  function ControlCode(t: ControlType): (c: u8) {
    match t
    case Publish => 0
    case Subscribe => 1
    case FollowUp => 2
    case Unknown => 3
  }

  datatype Attribute = Attribute(id: u8, body: seq<u8>)

  /** An attribute on the air: id, length of the body in two bytes, body. */
  function Encode(a: Attribute): (bs: seq<u8>)
    ensures |bs| == 3 + |a.body|
  {
    [a.id] + ToLE(|a.body|, 2) + a.body
  }

  function EncodeAll(attributes: seq<Attribute>): seq<u8>
    decreases |attributes|
  {
    if attributes == [] then [] else Encode(attributes[0]) + EncodeAll(attributes[1..])
  }

  // ---------------------------------------------------------------- what is sent

  /** The fields of the radiotap header: flags, sent only with an FCS, then rate and signal. */
  function RadiotapFields(fcs: bool): seq<u8> {
    if fcs then [0x10, 2, 200] else [2, 200]
  }

  /** The header that the driver consumes; its bit mask says which fields are there. */
  function Radiotap(fcs: bool): (bs: seq<u8>)
    ensures |bs| == if fcs then 11 else 10
  {
    [0, 0] + ToLE(8 + |RadiotapFields(fcs)|, 2) + ToLE(if fcs then 0x26 else 0x24, 4) + RadiotapFields(fcs)
  }

  function NanHeader(source: EtherAddr, destination: EtherAddr, bssid: EtherAddr, sequenceNumber: u32, kind: u16):
    (bs: seq<u8>)
    ensures |bs| == 24
  {
    ToLE(kind, 2) + ToLE(0, 2) + destination + source + bssid + ToLE(16 * sequenceNumber, 2)
  }

  function Interval(kind: BeaconType): u16 {
    if kind.SyncBeacon? then NAN_SYNC_BEACON_INTERVAL_TU else NAN_DISCOVERY_BEACON_INTERVAL_TU
  }

  /** The beacon header with the length of the vendor element that it opens. */
  function BeaconHeader(timestamp: u64, kind: BeaconType, length: u8): (bs: seq<u8>)
    ensures |bs| == 18
  {
    ToLE(timestamp, 8) + ToLE(Interval(kind), 2) + ToLE(0x0420, 2) + [0xdd, length] + NAN_OUI + [NAN_OUI_TYPE_BEACON]
  }

  function MasterIndication(masterPreference: u8, randomFactor: u8): Attribute {
    Attribute(MASTER_INDICATION_ATTRIBUTE, [masterPreference, randomFactor])
  }

  function ClusterAttribute(anchorMasterRank: u64, hopCount: u8, ambtt: u32): Attribute {
    Attribute(CLUSTER_ATTRIBUTE, ToLE(anchorMasterRank, 8) + [hopCount] + ToLE(ambtt, 4))
  }

  function ServiceDiscoveryHeader(): (bs: seq<u8>)
    ensures |bs| == 6
  {
    [0x04, 0x09] + NAN_OUI + [NAN_OUI_TYPE_SERVICE_DISCOVERY]
  }

  function DeviceCapability(): Attribute {
    Attribute(DEVICE_CAPABILITY_ATTRIBUTE, [0, 1, 0, 4, 0, 0, 0, 0, 0])
  }

  function Availability(): Attribute {
    Attribute(NAN_AVAILABILITY_ATTRIBUTE, [0, 1, 0, 5, 0, 1, 0, 0, 0, 0])
  }

  /** Information that is too long for the one length byte of a descriptor goes into the extension. */
  predicate Short(info: Option<seq<u8>>) { info.Some? && |info.value| < 256 }

  predicate Long(info: Option<seq<u8>>) { info.Some? && |info.value| >= 256 }

  function ControlAndInfo(control: ControlType, info: Option<seq<u8>>): seq<u8> {
    if Short(info) then [ControlCode(control) + 0x10, |info.value|] + info.value else [ControlCode(control)]
  }

  function DescriptorBody(serviceId: ServiceId, instanceId: u8, requestor: u8, control: ControlType, info: Option<seq<u8>>):
    seq<u8>
  {
    serviceId + [instanceId, requestor] + ControlAndInfo(control, info)
  }

  /** Only a published service has the update indicator. */
  function ExtensionControl(s: ServiceView): seq<u8> {
    if s.parameters.Published? then [s.instanceId, 0, 2, s.serviceUpdateIndicator] else [s.instanceId, 0, 0]
  }

  function LongInfo(info: Option<seq<u8>>): seq<u8> {
    if Long(info) then ToLE(|info.value|, 2) + info.value else []
  }

  function ExtensionBody(s: ServiceView, info: Option<seq<u8>>): seq<u8> {
    ExtensionControl(s) + LongInfo(info)
  }

  function Descriptor(s: ServiceView): Attribute {
    Attribute(SERVICE_DESCRIPTOR_ATTRIBUTE,
              DescriptorBody(s.serviceId, s.instanceId, 0, if s.parameters.Subscribed? then Subscribe else Publish, s.info))
  }

  function Extension(s: ServiceView): Attribute {
    Attribute(SERVICE_DESCRIPTOR_EXTENSION_ATTRIBUTE, ExtensionBody(s, s.info))
  }

  /** Two attributes for each service, in order. */
  function Announcements(services: seq<ServiceView>): (attributes: seq<Attribute>)
    ensures |attributes| == 2 * |services|
    decreases |services|
  {
    if services == [] then []
    else Announcements(services[..|services| - 1]) + [Descriptor(services[|services| - 1]), Extension(services[|services| - 1])]
  }

  function Bytes(bs: seq<bv8>): (r: seq<u8>)
    ensures |r| == |bs|
  {
    seq(|bs|, i requires 0 <= i < |bs| => bs[i] as int)
  }

  /** The frame check sequence over everything before it. */
  function Fcs(frame: seq<u8>): (bs: seq<u8>)
    ensures |bs| == 4
  {
    Crc32.WordBytesLength(Crc32.Crc(Crc32.AsBytes(frame)));
    Bytes(Crc32.WordBytes(Crc32.Crc(Crc32.AsBytes(frame))))
  }

  function WithFcs(frame: seq<u8>, fcs: bool): seq<u8> {
    if fcs then frame + Fcs(frame) else frame
  }

  /** A beacon up to its FCS. */
  function BeaconFrame(fcs: bool, source: EtherAddr, cluster: EtherAddr, sequenceNumber: u32, timestamp: u64,
                       kind: BeaconType, s: SyncView): seq<u8>
  {
    Radiotap(fcs) + NanHeader(source, NAN_BROADCAST_ADDRESS, cluster, sequenceNumber, IEEE80211_FCTL_BEACON)
    + BeaconHeader(timestamp, kind, 25) + EncodeAll(BeaconAttributes(s))
  }

  function BeaconAttributes(s: SyncView): seq<Attribute> {
    [MasterIndication(s.masterPreference, s.randomFactor), ClusterAttribute(s.anchorMasterRank, s.hopCount, s.ambtt)]
  }

  /** A service discovery frame up to its FCS. */
  function ServiceDiscoveryFrame(fcs: bool, source: EtherAddr, destination: EtherAddr, cluster: EtherAddr,
                                 sequenceNumber: u32, attributes: seq<Attribute>): (bs: seq<u8>)
    ensures |bs| == |Radiotap(fcs)| + 30 + |EncodeAll(attributes)|
  {
    Radiotap(fcs) + NanHeader(source, destination, cluster, sequenceNumber, IEEE80211_FCTL_ACTION)
    + ServiceDiscoveryHeader() + EncodeAll(attributes)
  }

  function DiscoveryAttributes(services: seq<ServiceView>): seq<Attribute> {
    [DeviceCapability(), Availability()] + Announcements(services)
  }

  /** A follow-up: one descriptor, and an extension if the information is long. */
  function FollowUpAttributes(s: ServiceView, requestor: u8, info: Option<seq<u8>>): seq<Attribute> {
    [Attribute(SERVICE_DESCRIPTOR_ATTRIBUTE, DescriptorBody(s.serviceId, s.instanceId, requestor, FollowUp, info))]
    + if Long(info) then [Attribute(SERVICE_DESCRIPTOR_EXTENSION_ATTRIBUTE, ExtensionBody(s, info))] else []
  }

  lemma {:induction false} EncodeAllAppend(a: seq<Attribute>, b: seq<Attribute>)
    ensures EncodeAll(a + b) == EncodeAll(a) + EncodeAll(b)
    decreases |a|
  {
    hide Encode;
    if a == [] {
      assert a + b == b;
    } else {
      assert (a + b)[1..] == a[1..] + b;
      EncodeAllAppend(a[1..], b);
      assert Encode(a[0]) + (EncodeAll(a[1..]) + EncodeAll(b)) == Encode(a[0]) + EncodeAll(a[1..]) + EncodeAll(b);
    }
  }

  /** The services behind the first `i` add their attributes at the end. */
  lemma {:induction false} AnnouncementsSplit(services: seq<ServiceView>, i: nat)
    requires i <= |services|
    ensures Announcements(services[..i]) <= Announcements(services)
    decreases |services|
  {
    hide Descriptor, Extension;
    var n := |services| - 1;
    if i <= n {
      AnnouncementsSplit(services[..n], i);
      assert services[..n][..i] == services[..i];
    } else {
      assert services[..i] == services;
    }
  }

  /** More attributes make the frame longer by their bytes. */
  lemma FrameGrows(fcs: bool, source: EtherAddr, destination: EtherAddr, cluster: EtherAddr, sequenceNumber: u32,
                   a: seq<Attribute>, b: seq<Attribute>)
    ensures ServiceDiscoveryFrame(fcs, source, destination, cluster, sequenceNumber, a + b)
            == ServiceDiscoveryFrame(fcs, source, destination, cluster, sequenceNumber, a) + EncodeAll(b)
  {
    hide EncodeAll, Radiotap, NanHeader;
    EncodeAllAppend(a, b);
    var front := Radiotap(fcs) + NanHeader(source, destination, cluster, sequenceNumber, IEEE80211_FCTL_ACTION)
      + ServiceDiscoveryHeader();
    assert front + (EncodeAll(a) + EncodeAll(b)) == front + EncodeAll(a) + EncodeAll(b);
  }

  /** The first two attributes, and one more pair. */
  lemma FrameSteps(fcs: bool, source: EtherAddr, destination: EtherAddr, cluster: EtherAddr, sequenceNumber: u32,
                   attributes: seq<Attribute>, a: Attribute, b: Attribute)
    ensures ServiceDiscoveryFrame(fcs, source, destination, cluster, sequenceNumber, attributes + [a, b])
            == ServiceDiscoveryFrame(fcs, source, destination, cluster, sequenceNumber, attributes) + Encode(a) + Encode(b)
  {
    hide EncodeAll, Encode, ServiceDiscoveryFrame;
    FrameGrows(fcs, source, destination, cluster, sequenceNumber, attributes, [a, b]);
    EncodeTwo(a, b);
    var frame := ServiceDiscoveryFrame(fcs, source, destination, cluster, sequenceNumber, attributes);
    assert frame + (Encode(a) + Encode(b)) == frame + Encode(a) + Encode(b);
  }

  lemma StartOfAttributes(services: seq<ServiceView>)
    ensures DiscoveryAttributes([]) == [] + [DeviceCapability(), Availability()]
    ensures |EncodeAll(DiscoveryAttributes(services))| >= 25 && EncodeAll([]) == []
    ensures |DeviceCapability().body| == 9 && |Availability().body| == 10
  {
    hide Encode;
    EncodeTwo(DeviceCapability(), Availability());
    EncodeAllAppend([DeviceCapability(), Availability()], Announcements(services));
  }

  /** The attributes of the first services take no more room than those of all. */
  lemma PrefixFits(services: seq<ServiceView>, i: nat)
    requires i < |services|
    ensures |EncodeAll(DiscoveryAttributes(services[..i]))| + |Encode(Descriptor(services[i]))|
            + |Encode(Extension(services[i]))| <= |EncodeAll(DiscoveryAttributes(services))|
    ensures DiscoveryAttributes(services[..i + 1])
            == DiscoveryAttributes(services[..i]) + [Descriptor(services[i]), Extension(services[i])]
  {
    hide Descriptor, Extension, EncodeAll, Encode, DeviceCapability, Availability;
    AnnouncementsSplit(services, i + 1);
    assert services[..i + 1][..i] == services[..i];
    var two := [Descriptor(services[i]), Extension(services[i])];
    var some, all := DiscoveryAttributes(services[..i]), DiscoveryAttributes(services);
    assert DiscoveryAttributes(services[..i + 1]) == some + two;
    assert all == some + two + all[|some| + 2..];
    EncodeAllAppend(some + two, all[|some| + 2..]);
    EncodeAllAppend(some, two);
    EncodeTwo(two[0], two[1]);
  }

  lemma EncodeTwo(a: Attribute, b: Attribute)
    ensures EncodeAll([a, b]) == Encode(a) + Encode(b)
  {
    hide Encode;
    assert [a, b][1..] == [b] && [b][1..] == [];
    assert EncodeAll([b]) == Encode(b) + EncodeAll([]) == Encode(b);
  }

  lemma AttributeBytes(s: SyncView)
    ensures |EncodeAll(BeaconAttributes(s))| == 21
  {
    hide Encode, ToLE;
    EncodeTwo(BeaconAttributes(s)[0], BeaconAttributes(s)[1]);
  }

  /** The length byte of the vendor element in a beacon counts what follows it up to the FCS. */
  lemma ElementLength(fcs: bool, source: EtherAddr, cluster: EtherAddr, sequenceNumber: u32, timestamp: u64,
                      kind: BeaconType, s: SyncView)
    ensures var frame := BeaconFrame(fcs, source, cluster, sequenceNumber, timestamp, kind, s);
            var at := |Radiotap(fcs)| + 24 + 13;
            at < |frame| && frame[at - 1] == 0xdd && frame[at] == |frame| - at - 1
  {
    hide Encode, ToLE, NanHeader, EncodeAll;
    AttributeBytes(s);
  }

  lemma ByteThere(b: bv8)
    ensures (b as int) as bv8 == b
  {}

  lemma BytesThere(bs: seq<bv8>)
    ensures Crc32.AsBytes(Bytes(bs)) == bs
  {
    forall i | 0 <= i < |bs| ensures Crc32.AsBytes(Bytes(bs))[i] == bs[i] {
      ByteThere(bs[i]);
    }
  }

  /** A frame with its FCS has one and the same checksum, whatever was written. */
  lemma ResidueOfFrame(frame: seq<u8>)
    ensures Crc32.Crc(Crc32.AsBytes(WithFcs(frame, true))) == Crc32.RESIDUE
  {
    hide Crc32.Crc, Crc32.WordBytes;
    var d := Crc32.AsBytes(frame);
    var w := Crc32.WordBytes(Crc32.Crc(d));
    Crc32.WordBytesLength(Crc32.Crc(d));
    BytesThere(w);
    Crc32.CheckedMessage(d, w);
    assert Crc32.AsBytes(frame + Fcs(frame)) == d + w;
  }

  // ---------------------------------------------------------------- the checksum on the air

  /** The radiotap header of a frame with FCS, in three parts. */
  const RADIOTAP1: seq<bv8> := [0, 0, 11, 0]
  const RADIOTAP2: seq<bv8> := [0x26, 0, 0, 0]
  const RADIOTAP3: seq<bv8> := [0x10, 2, 200]

  lemma Numbers()
    ensures Bytes(RADIOTAP1) == [0, 0, 11, 0] && Bytes(RADIOTAP2) == [0x26, 0, 0, 0] && Bytes(RADIOTAP3) == [0x10, 2, 200]
  {}

  lemma RadiotapNumbers()
    ensures Radiotap(true) == [0, 0] + [11, 0] + [0x26, 0, 0, 0] + [0x10, 2, 200]
  {
    assert ToLE(0, 2) == [0] + ToLE(0, 1) && ToLE(0, 1) == [0] + [];
    assert ToLE(11, 2) == [11] + ToLE(0, 1);
    assert ToLE(0x26, 4) == [0x26] + ToLE(0, 3) && ToLE(0, 3) == [0] + ToLE(0, 2);
  }

  lemma RadiotapBytes()
    ensures Crc32.AsBytes(Radiotap(true)) == RADIOTAP1 + RADIOTAP2 + RADIOTAP3
  {
    hide Radiotap, Bytes;
    RadiotapNumbers();
    Numbers();
    var b := RADIOTAP1 + RADIOTAP2 + RADIOTAP3;
    assert Radiotap(true) == Bytes(b) by {
      BytesOfThree(RADIOTAP1, RADIOTAP2, RADIOTAP3);
    }
    BytesThere(b);
  }

  lemma BytesOfThree(a: seq<bv8>, b: seq<bv8>, c: seq<bv8>)
    ensures Bytes(a + b + c) == Bytes(a) + Bytes(b) + Bytes(c)
  {}

  lemma Register1()
    ensures Crc32.Feed(0xffff_ffff, Crc32.Bits(RADIOTAP1)) == 0x3d4ff928
  {
    hide Crc32.Feed, Crc32.Bits, Crc32.LowBits;
    Crc32.FeedFour(0xffff_ffff, 0, 0, 11, 0);
    Crc32.FeedByte(0xffff_ffff, 0);
    Crc32.FeedByte(0x2dfd1072, 0);
    Crc32.FeedByte(0xbe26ed00, 11);
    Crc32.FeedByte(0x976cff65, 0);
  }

  lemma Register2()
    ensures Crc32.Feed(0x3d4ff928, Crc32.Bits(RADIOTAP2)) == 0x754320b7
  {
    hide Crc32.Feed, Crc32.Bits, Crc32.LowBits;
    Crc32.FeedFour(0x3d4ff928, 0x26, 0, 0, 0);
    Crc32.FeedByte(0x3d4ff928, 0x26);
    Crc32.FeedByte(0xe78562fe, 0);
    Crc32.FeedByte(0x5ae25a79, 0);
    Crc32.FeedByte(0x29832bc2, 0);
  }

  lemma Register3()
    ensures Crc32.Feed(0x754320b7, Crc32.Bits(RADIOTAP3)) == 0x01ef5718
  {
    hide Crc32.Feed, Crc32.Bits, Crc32.LowBits;
    Crc32.FeedFirst(0x754320b7, RADIOTAP3);
    Crc32.FeedFirst(0x48c7756b, [2, 200]);
    Crc32.FeedFirst(0x34261e89, [200]);
    assert RADIOTAP3[1..] == [2, 200] && RADIOTAP3[1..][1..] == [200] && [2 as bv8, 200][1..] == [200] && [200 as bv8][1..] == [];
    Crc32.FeedNothing(0x01ef5718);
  }

  /** The register after the radiotap header is not the one to start with. */
  lemma RadiotapRegister()
    ensures Crc32.Feed(0xffff_ffff, Crc32.Bits(Crc32.AsBytes(Radiotap(true)))) == 0x01ef5718
  {
    hide Crc32.Feed, Crc32.Bits, Radiotap;
    RadiotapBytes();
    Crc32.FeedThree(RADIOTAP1, RADIOTAP2, RADIOTAP3);
    Register1();
    Register2();
    Register3();
  }

  /**
   * The radiotap header is for the driver and is not sent. Of a frame with its FCS, what goes out behind the header never
   * passes the check that section 9.2.4.8 of IEEE Std 802.11-2016 asks for, whatever the frame says; with the FCS over
   * just that part it always would.
   */
  lemma NoFrameChecksOnAir(inner: seq<u8>)
    ensures var sent := WithFcs(Radiotap(true) + inner, true)[|Radiotap(true)|..];
            sent == inner + Fcs(Radiotap(true) + inner) &&
            Crc32.Crc(Crc32.AsBytes(sent)) != Crc32.RESIDUE &&
            Crc32.Crc(Crc32.AsBytes(inner + Fcs(inner))) == Crc32.RESIDUE
  {
    hide Crc32.Crc, Crc32.WordBytes, Crc32.Feed, Crc32.Bits, Radiotap;
    var head, d := Crc32.AsBytes(Radiotap(true)), Crc32.AsBytes(inner);
    assert Crc32.AsBytes(Radiotap(true) + inner) == head + d;
    var w := Crc32.WordBytes(Crc32.Crc(head + d));
    Crc32.WordBytesLength(Crc32.Crc(head + d));
    BytesThere(w);
    assert Crc32.AsBytes(inner + Fcs(Radiotap(true) + inner)) == d + w;
    Crc32.UnseenPrefix(head, d);
    RadiotapRegister();
    ResidueOfFrame(inner);
  }
}
