/** Building frames in place: src/tx.c and the header and FCS functions of src/ieee80211.c. */
module Tx {
  import opened Words
  import opened MasterRank
  import opened Services
  import opened Sync
  import opened Frames
  import opened Wire
  import Crc32

  const BUF_MAX_LENGTH := 65535

  class Ieee80211State {
    var sequenceNumber: u32
    var fcs: bool

    constructor ()
      ensures sequenceNumber == 0 && fcs
    {
      sequenceNumber, fcs := 0, true;
    }

    method NextSequenceNumber() returns (n: u32)
      modifies this`sequenceNumber
      ensures n == old(sequenceNumber) && sequenceNumber == Wrap32(n + 1)
    {
      n := sequenceNumber;
      sequenceNumber := Wrap32(sequenceNumber + 1);
    }
  }

  lemma LowBytesOnly(x: nat)
    ensures ToLE(Wrap16(x), 2) == ToLE(x, 2)
  {
    var hi := x / 0x1_0000;
    assert x == 0x1_0000 * hi + Wrap16(x);
    assert ToLE(x / 0x100, 1) == [x / 0x100 % 0x100] + [];
    assert ToLE(Wrap16(x) / 0x100, 1) == [Wrap16(x) / 0x100 % 0x100] + [];
  }

  lemma LengthPatched(before: seq<u8>, a: Attribute, gap: seq<u8>)
    requires |gap| == 2
    ensures Patched(before + ([a.id] + gap) + a.body, |before| + 1, ToLE(|a.body|, 2)) == before + Encode(a)
  {
    hide Patched, ToLE;
    var front := before + [a.id];
    Together(before, [a.id], gap);
    PatchedWithin(front, gap, a.body, ToLE(|a.body|, 2));
    Together(before, [a.id], ToLE(|a.body|, 2));
    Together(before, [a.id] + ToLE(|a.body|, 2), a.body);
  }

  /** The header of an attribute is begun in place; its length follows when the body has been written. */
  method BeginAttribute(buf: Buf, id: u8) returns (header: nat, ghost gap: seq<u8>)
    requires buf.Valid() && buf.Room() >= 3
    modifies buf`current, buf`error, buf.data
    ensures header == old(buf.current) && |gap| == 2 && buf.Appended([id] + gap)
  {
    header := buf.current;
    gap := buf.data[header + 1..header + 3];
    BegunAt(buf.data[..], buf.base, header, id);
    ghost var was := buf.data[..];
    buf.Poke(header, [id]);
    assert buf.data[..] == was[..header] + [id] + was[header + 1..];
    var _ := buf.Advance(3);
    assert buf.Written() == buf.data[..][buf.base..header + 3];
  }

  /** The header gets the length of the body that follows it. */
  method EndAttribute(buf: Buf, header: nat, length: nat, ghost before: seq<u8>, ghost gap: seq<u8>, ghost a: Attribute)
    requires buf.Valid() && header == buf.base + |before| && |gap| == 2 && length == |a.body|
    requires buf.Written() == before + ([a.id] + gap) + a.body
    modifies buf.data
    ensures buf.Written() == before + Encode(a)
  {
    LowBytesOnly(length);
    LengthPatched(before, a, gap);
    buf.Patch(header + 1, ToLE(Wrap16(length), 2));
  }

  method AddMasterIndicationAttribute(buf: Buf, s: SyncView) returns (n: nat)
    requires buf.Valid() && buf.Room() >= 5
    modifies buf`current, buf`error, buf.data
    ensures n == 5 && buf.Appended(Encode(MasterIndication(s.masterPreference, s.randomFactor)))
  {
    buf.Fill([MASTER_INDICATION_ATTRIBUTE] + ToLE(2, 2) + [s.masterPreference, s.randomFactor]);
    return 5;
  }

  method AddClusterAttribute(buf: Buf, s: SyncView) returns (n: nat)
    requires buf.Valid() && buf.Room() >= 16
    modifies buf`current, buf`error, buf.data
    ensures n == 16 && buf.Appended(Encode(ClusterAttribute(s.anchorMasterRank, s.hopCount, s.ambtt)))
  {
    hide ToLE;
    var bytes := [CLUSTER_ATTRIBUTE] + ToLE(13, 2) + ToLE(s.anchorMasterRank, 8) + [s.hopCount] + ToLE(s.ambtt, 4);
    assert bytes == Encode(ClusterAttribute(s.anchorMasterRank, s.hopCount, s.ambtt));
    buf.Fill(bytes);
    return 16;
  }

  /** The fixed part of a service descriptor. */
  method AddServiceIdentity(buf: Buf, serviceId: ServiceId, instanceId: u8, requestor: u8) returns (n: int)
    requires buf.Valid() && buf.Room() >= 8
    modifies buf`current, buf`error, buf.data
    ensures n == 8 && buf.Appended(serviceId + [instanceId, requestor])
  {
    var k1 := buf.Write(serviceId, -1);
    var k2 := buf.WriteU8(instanceId);
    var k3 := buf.WriteU8(requestor);
    return k1 + k2 + k3;
  }

  /** The control byte of a service descriptor and the information, if it is short enough for a length byte. */
  method AddControlAndInfo(buf: Buf, control: ControlType, info: Option<seq<u8>>) returns (n: int)
    requires buf.Valid() && buf.Room() >= |ControlAndInfo(control, info)|
    modifies buf`current, buf`error, buf.data
    ensures n == |ControlAndInfo(control, info)| && buf.Appended(ControlAndInfo(control, info))
  {
    hide Patched, Buf.Written;
    ghost var before := buf.Written();
    var at := buf.current;
    var control0, control1 := [ControlCode(control)], [ControlCode(control) + 0x10];
    buf.Fill(control0);
    n := 1;
    if info.Some? && |info.value| < 256 {
      PatchedLast(before, control0, control1);
      buf.Patch(at, control1);
      var k1 := buf.WriteU8(|info.value|);
      var k2 := buf.Write(info.value, -1);
      n := n + k1 + k2;
      Together(before, control1, [|info.value|]);
      assert control1 + [|info.value|] == [ControlCode(control) + 0x10, |info.value|];
      Together(before, control1 + [|info.value|], info.value);
    }
  }

  /** nan_add_service_descriptor_attribute; an absent information is a null pointer. */
  method AddServiceDescriptorAttribute(buf: Buf, serviceId: ServiceId, instanceId: u8, control: ControlType,
                                       requestor: u8, info: Option<seq<u8>>) returns (n: nat)
    requires buf.Valid() && buf.Room() >= 3 + |DescriptorBody(serviceId, instanceId, requestor, control, info)|
    modifies buf`current, buf`error, buf.data
    ensures n == 3 + |DescriptorBody(serviceId, instanceId, requestor, control, info)|
    ensures buf.Appended(Encode(Attribute(SERVICE_DESCRIPTOR_ATTRIBUTE,
                                          DescriptorBody(serviceId, instanceId, requestor, control, info))))
  {
    hide ControlAndInfo, Encode;
    ghost var a := Attribute(SERVICE_DESCRIPTOR_ATTRIBUTE, DescriptorBody(serviceId, instanceId, requestor, control, info));
    ghost var before := buf.Written();
    var header, gap := BeginAttribute(buf, SERVICE_DESCRIPTOR_ATTRIBUTE);
    var k1 := AddServiceIdentity(buf, serviceId, instanceId, requestor);
    var k2 := AddControlAndInfo(buf, control, info);
    EndAttribute(buf, header, k1 + k2, before, gap, a);
    return k1 + k2 + 3;
  }

  /** nan_add_service_descriptor_extension_attribute */
  method AddServiceDescriptorExtensionAttribute(buf: Buf, s: ServiceView, info: Option<seq<u8>>) returns (n: nat)
    requires buf.Valid() && buf.Room() >= 3 + |ExtensionBody(s, info)| && |ExtensionBody(s, info)| < 0x1_0000
    modifies buf`current, buf`error, buf.data
    ensures n == 3 + |ExtensionBody(s, info)|
    ensures buf.Appended(Encode(Attribute(SERVICE_DESCRIPTOR_EXTENSION_ATTRIBUTE, ExtensionBody(s, info))))
  {
    hide Encode, ExtensionControl, LongInfo, ToLE;
    ghost var a := Attribute(SERVICE_DESCRIPTOR_EXTENSION_ATTRIBUTE, ExtensionBody(s, info));
    ghost var before := buf.Written();
    var header, gap := BeginAttribute(buf, SERVICE_DESCRIPTOR_EXTENSION_ATTRIBUTE);
    var k1 := AddExtensionControl(buf, s);
    var k2 := AddLongInfo(buf, info);
    EndAttribute(buf, header, k1 + k2, before, gap, a);
    return k1 + k2 + 3;
  }

  /** The instance and the control field of the extension, with the update indicator of a published service. */
  method AddExtensionControl(buf: Buf, s: ServiceView) returns (n: nat)
    requires buf.Valid() && buf.Room() >= |ExtensionControl(s)|
    modifies buf`current, buf`error, buf.data
    ensures n == |ExtensionControl(s)| && buf.Appended(ExtensionControl(s))
  {
    n := buf.WriteU8(s.instanceId);
    var at := buf.current;
    buf.Fill([0, 0]);
    n := n + 2;
    if s.parameters.Published? {
      buf.Patch(at, [0, 2]);
      assert buf.Written() == old(buf.Written()) + [s.instanceId, 0, 2];
      var k := buf.WriteU8(s.serviceUpdateIndicator);
      n := n + k;
    }
  }

  method AddLongInfo(buf: Buf, info: Option<seq<u8>>) returns (n: nat)
    requires buf.Valid() && buf.Room() >= |LongInfo(info)| && |LongInfo(info)| < 0x1_0000
    modifies buf`current, buf`error, buf.data
    ensures n == |LongInfo(info)| && buf.Appended(LongInfo(info))
  {
    hide ToLE;
    n := 0;
    if info.Some? && |info.value| >= 256 {
      var k1 := buf.WriteLe16(|info.value|);
      var k2 := buf.Write(info.value, -1);
      n := k1 + k2;
    }
  }

  method AddDeviceCapabilityAttribute(buf: Buf) returns (n: nat)
    requires buf.Valid() && buf.Room() >= 12
    modifies buf`current, buf`error, buf.data
    ensures n == 12 && buf.Appended(Encode(DeviceCapability()))
  {
    buf.Fill([DEVICE_CAPABILITY_ATTRIBUTE] + ToLE(9, 2) + [0, 1, 0, 4, 0, 0, 0, 0, 0]);
    return 12;
  }

  method AddAvailabilityAttribute(buf: Buf) returns (n: nat)
    requires buf.Valid() && buf.Room() >= 13
    modifies buf`current, buf`error, buf.data
    ensures n == 13 && buf.Appended(Encode(Availability()))
  {
    hide Encode;
    ghost var before := buf.Written();
    var header, gap := BeginAttribute(buf, NAN_AVAILABILITY_ATTRIBUTE);
    var k1 := buf.Write([0, 1, 0], -1);
    var k2 := buf.Write([5, 0, 1, 0, 0, 0, 0], -1);
    EndAttribute(buf, header, k1 + k2, before, gap, Availability());
    return k1 + k2 + 3;
  }

  /** The optional fields, with their length and the bits that announce them. */
  method AddRadiotapFields(buf: Buf, state: Ieee80211State) returns (n: nat, present: u32)
    requires buf.Valid() && buf.Room() >= 3
    modifies buf`current, buf`error, buf.data
    ensures n == |RadiotapFields(state.fcs)| && present == (if state.fcs then 0x26 else 0x24)
    ensures buf.Appended(RadiotapFields(state.fcs))
  {
    n, present := 0, 0;
    if state.fcs {
      present := present + 0x2;
      n := buf.WriteU8(0x10);
    }
    present := present + 0x4;
    var k1 := buf.WriteU8(2);
    present := present + 0x20;
    var k2 := buf.WriteU8(200);
    n := n + k1 + k2;
  }

  /** ieee80211_add_radiotap_header: length and bit mask are filled in when the fields are written. */
  method AddRadiotapHeader(buf: Buf, state: Ieee80211State)
    requires buf.Valid() && buf.Room() >= 11
    modifies buf`current, buf`error, buf.data
    ensures buf.Appended(Radiotap(state.fcs))
  {
    hide ToLE, RadiotapFields, Patched, Buf.Written;
    ghost var before := buf.Written();
    var header := buf.current;
    buf.Fill([0, 0] + [0, 0, 0, 0, 0, 0]);
    var length, present := AddRadiotapFields(buf, state);
    var found := ToLE(8 + length, 2) + ToLE(present, 4);
    Together(before, [0, 0], [0, 0, 0, 0, 0, 0]);
    PatchedWithin(before + [0, 0], [0, 0, 0, 0, 0, 0], RadiotapFields(state.fcs), found);
    buf.Patch(header + 2, found);
    Together(before, [0, 0], found);
    Together(before, [0, 0] + found, RadiotapFields(state.fcs));
    Together([0, 0], ToLE(8 + length, 2), ToLE(present, 4));
  }

  /** ieee80211_add_nan_header */
  method AddNanHeader(buf: Buf, source: EtherAddr, destination: EtherAddr, bssid: EtherAddr, state: Ieee80211State, kind: u16)
    requires buf.Valid() && buf.Room() >= 24
    modifies buf`current, buf`error, buf.data, state`sequenceNumber
    ensures buf.Appended(NanHeader(source, destination, bssid, old(state.sequenceNumber), kind))
    ensures state.sequenceNumber == Wrap32(old(state.sequenceNumber) + 1)
  {
    hide ToLE;
    var n: int := state.NextSequenceNumber();
    var control := 16 * n;
    LowBytesOnly(control);
    buf.Fill(ToLE(kind, 2) + ToLE(0, 2) + destination + source + bssid + ToLE(Wrap16(control), 2));
  }

  /** ieee80211_add_fcs: over everything from the beginning of the buffer, the radiotap header included. */
  method AddFcs(buf: Buf)
    requires buf.Valid() && buf.base == 0 && buf.Room() >= 4
    modifies buf`current, buf`error, buf.data
    ensures buf.Appended(Fcs(old(buf.Written())))
  {
    hide ToLE, FromLE, Crc32.Crc, Crc32.WordBytes;
    var crc := Crc32.ComputeCrc32(buf.data, buf.current);
    assert buf.data[..buf.current] == buf.Written();
    Crc32.WordBytesLength(crc);
    var bytes := Bytes(Crc32.WordBytes(crc));
    BytesRoundTrip(bytes, []);
    assert bytes + [] == bytes;
    FromLEBound(bytes);
    PowValues();
    var _ := buf.WriteLe32(FromLE(bytes));
  }

  /** nan_add_beacon_header; the place of the element length is handed back to be completed. */
  method AddBeaconHeader(buf: Buf, state: Ieee80211State, source: EtherAddr, cluster: EtherAddr, kind: BeaconType,
                         syncedTime: u64) returns (dataLength: nat)
    requires buf.Valid() && buf.Room() >= 53
    modifies buf`current, buf`error, buf.data, state`sequenceNumber
    ensures dataLength == old(buf.current) + |Radiotap(state.fcs)| + 37
    ensures buf.Appended(Radiotap(state.fcs)
                         + NanHeader(source, NAN_BROADCAST_ADDRESS, cluster, old(state.sequenceNumber), IEEE80211_FCTL_BEACON)
                         + BeaconHeader(syncedTime, kind, 4))
    ensures state.sequenceNumber == Wrap32(old(state.sequenceNumber) + 1)
  {
    hide ToLE, NanHeader, Buf.Written;
    ghost var before := buf.Written();
    AddRadiotapHeader(buf, state);
    AddNanHeader(buf, source, NAN_BROADCAST_ADDRESS, cluster, state, IEEE80211_FCTL_BEACON);
    var header := buf.current;
    var interval := if kind == SyncBeacon then NAN_SYNC_BEACON_INTERVAL_TU else NAN_DISCOVERY_BEACON_INTERVAL_TU;
    buf.Fill(ToLE(syncedTime, 8) + ToLE(interval, 2) + ToLE(0x0420, 2) + [0xdd, 4] + NAN_OUI + [NAN_OUI_TYPE_BEACON]);
    ghost var h := NanHeader(source, NAN_BROADCAST_ADDRESS, cluster, old(state.sequenceNumber), IEEE80211_FCTL_BEACON);
    Together(before, Radiotap(state.fcs), h);
    Together(before, Radiotap(state.fcs) + h, BeaconHeader(syncedTime, kind, 4));
    return header + 13;
  }

  /** The length byte of a beacon header that opens an element of another length. */
  lemma HeaderPatched(before: seq<u8>, timestamp: u64, kind: BeaconType, rest: seq<u8>)
    ensures Patched(before + BeaconHeader(timestamp, kind, 4) + rest, |before| + 13, [25])
            == before + BeaconHeader(timestamp, kind, 25) + rest
  {
    hide ToLE;
  }

  /** Both attributes of a beacon, with their length in the program's eight bits. */
  method AddBeaconAttributes(buf: Buf, s: SyncView) returns (n: u8)
    requires buf.Valid() && buf.Room() >= 21
    modifies buf`current, buf`error, buf.data
    ensures n == 21 && buf.Appended(EncodeAll(BeaconAttributes(s)))
  {
    hide ToLE, Encode, Buf.Written;
    ghost var before, attributes := buf.Written(), BeaconAttributes(s);
    var k1 := AddMasterIndicationAttribute(buf, s);
    var k2 := AddClusterAttribute(buf, s);
    n := Wrap8(k1 + k2);
    Together(before, Encode(attributes[0]), Encode(attributes[1]));
    EncodeTwo(attributes[0], attributes[1]);
  }

  /** nan_build_beacon_frame, in a buffer that is long enough. */
  method BuildBeaconFrame(buf: Buf, state: Ieee80211State, source: EtherAddr, cluster: EtherAddr, s: SyncView,
                          kind: BeaconType, syncedTime: u64)
    requires buf.Valid() && buf.base == buf.current == 0 && buf.Room() >= 78
    modifies buf`current, buf`error, buf.data, state`sequenceNumber
    ensures buf.Valid() && buf.error == old(buf.error)
    ensures buf.Written()
            == WithFcs(BeaconFrame(state.fcs, source, cluster, old(state.sequenceNumber), syncedTime, kind, s), state.fcs)
  {
    hide ToLE, NanHeader, Encode, Radiotap, BeaconHeader, Fcs, Buf.Written, Patched;
    AttributeBytes(s);
    ghost var front := Radiotap(state.fcs)
      + NanHeader(source, NAN_BROADCAST_ADDRESS, cluster, state.sequenceNumber, IEEE80211_FCTL_BEACON);
    ghost var header := front + BeaconHeader(syncedTime, kind, 4);
    ghost var attributes := BeaconAttributes(s);
    var dataLength := AddBeaconHeader(buf, state, source, cluster, kind, syncedTime);
    assert buf.Written() == header;
    var k := AddBeaconAttributes(buf, s);
    HeaderPatched(front, syncedTime, kind, EncodeAll(attributes));
    buf.Patch(dataLength, [Wrap8(4 + k)]);
    if state.fcs {
      AddFcs(buf);
    }
  }

  /** nan_add_service_discovery_header */
  method AddServiceDiscoveryHeader(buf: Buf, state: Ieee80211State, source: EtherAddr, destination: EtherAddr,
                                   cluster: EtherAddr)
    requires buf.Valid() && buf.Room() >= 41
    modifies buf`current, buf`error, buf.data, state`sequenceNumber
    ensures buf.Appended(ServiceDiscoveryFrame(state.fcs, source, destination, cluster, old(state.sequenceNumber), []))
    ensures state.sequenceNumber == Wrap32(old(state.sequenceNumber) + 1)
  {
    hide ToLE, NanHeader, Radiotap, Buf.Written;
    ghost var before := buf.Written();
    ghost var h := NanHeader(source, destination, cluster, state.sequenceNumber, IEEE80211_FCTL_ACTION);
    AddRadiotapHeader(buf, state);
    AddNanHeader(buf, source, destination, cluster, state, IEEE80211_FCTL_ACTION);
    buf.Fill([0x04, 0x09] + NAN_OUI + [NAN_OUI_TYPE_SERVICE_DISCOVERY]);
    Together(before, Radiotap(state.fcs), h);
    Together(before, Radiotap(state.fcs) + h, ServiceDiscoveryHeader());
  }

  /** The two attributes of an announced service. */
  method AddAnnouncement(buf: Buf, service: ServiceView)
    requires buf.Valid() && |Encode(Descriptor(service))| + |Encode(Extension(service))| <= buf.Room() <= BUF_MAX_LENGTH
    modifies buf`current, buf`error, buf.data
    ensures buf.Appended(Encode(Descriptor(service)) + Encode(Extension(service)))
  {
    hide Encode, DescriptorBody, ExtensionBody, Buf.Written;
    var control := if service.parameters.Subscribed? then Subscribe else Publish;
    ghost var before := buf.Written();
    var _ := AddServiceDescriptorAttribute(buf, service.serviceId, service.instanceId, control, 0, service.info);
    var _ := AddServiceDescriptorExtensionAttribute(buf, service, service.info);
    Together(before, Encode(Descriptor(service)), Encode(Extension(service)));
  }

  /** A service discovery frame before the services are added. */
  method AddFrameStart(buf: Buf, state: Ieee80211State, source: EtherAddr, destination: EtherAddr, cluster: EtherAddr)
    requires buf.Valid() && buf.base == buf.current == 0 && buf.Room() >= 66
    modifies buf`current, buf`error, buf.data, state`sequenceNumber
    ensures buf.Valid() && buf.error == old(buf.error) && buf.end == old(buf.end)
    ensures buf.Written() == ServiceDiscoveryFrame(state.fcs, source, destination, cluster, old(state.sequenceNumber),
                                                   DiscoveryAttributes([]))
    ensures state.sequenceNumber == Wrap32(old(state.sequenceNumber) + 1)
  {
    hide ToLE, Encode, EncodeAll, Buf.Written, ServiceDiscoveryFrame, DiscoveryAttributes, DeviceCapability, Availability;
    StartOfAttributes([]);
    FrameSteps(state.fcs, source, destination, cluster, state.sequenceNumber, [], DeviceCapability(), Availability());
    AddServiceDiscoveryHeader(buf, state, source, destination, cluster);
    var _ := AddDeviceCapabilityAttribute(buf);
    var _ := AddAvailabilityAttribute(buf);
  }

  /** nan_build_service_discovery_frame, in a buffer that is long enough for the whole frame. */
  method BuildServiceDiscoveryFrame(buf: Buf, state: Ieee80211State, source: EtherAddr, destination: EtherAddr,
                                    cluster: EtherAddr, announced: seq<ServiceView>)
    requires buf.Valid() && buf.base == buf.current == 0
    requires 45 + |EncodeAll(DiscoveryAttributes(announced))| <= buf.Room() <= BUF_MAX_LENGTH
    modifies buf`current, buf`error, buf.data, state`sequenceNumber
    ensures buf.Valid() && buf.error == old(buf.error)
    ensures buf.Written()
            == WithFcs(ServiceDiscoveryFrame(state.fcs, source, destination, cluster, old(state.sequenceNumber),
                                             DiscoveryAttributes(announced)), state.fcs)
  {
    hide ToLE, Encode, EncodeAll, Fcs, Buf.Written, ServiceDiscoveryFrame, Descriptor, Extension,
      DiscoveryAttributes, DeviceCapability, Availability;
    ghost var fcs, n := state.fcs, state.sequenceNumber;
    StartOfAttributes(announced);
    AddFrameStart(buf, state, source, destination, cluster);
    for i := 0 to |announced|
      invariant buf.Valid() && buf.end == old(buf.end) && buf.error == old(buf.error)
      invariant buf.Written()
                == ServiceDiscoveryFrame(fcs, source, destination, cluster, n, DiscoveryAttributes(announced[..i]))
    {
      var service := announced[i];
      PrefixFits(announced, i);
      FrameSteps(fcs, source, destination, cluster, n, DiscoveryAttributes(announced[..i]), Descriptor(service),
                 Extension(service));
      Together(buf.Written(), Encode(Descriptor(service)), Encode(Extension(service)));
      AddAnnouncement(buf, service);
    }
    assert announced[..|announced|] == announced;
    if state.fcs {
      AddFcs(buf);
    }
  }
}
