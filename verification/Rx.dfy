/** The parsers of src/rx.c, which move the cursor of a buffer. */
module Rx {
  import opened Words
  import opened MasterRank
  import opened Services
  import opened Peers
  import opened Frames
  import opened Wire
  import opened Attributes

  /** nan_parse_master_indication_attribute */
  method ParseMasterIndicationAttribute(buf: Buf, peer: Peer) returns (result: int)
    requires buf.Valid() && !buf.Left().failed
    modifies buf`current, buf`error, peer
    ensures (peer.View(), result) == HandleBeacon(old(peer.View()), Attribute(MASTER_INDICATION_ATTRIBUTE, old(buf.Left().bytes)))
  {
    var masterPreference: u8 := *;
    var randomFactor: u8 := *;
    masterPreference := buf.ReadU8(masterPreference);
    randomFactor := buf.ReadU8(randomFactor);
    if buf.error != 0 {
      return RX_TOO_SHORT;
    }
    peer.SetMasterIndication(masterPreference, randomFactor);
    return RX_OK;
  }

  /** nan_parse_cluster_attribute */
  method ParseClusterAttribute(buf: Buf, peer: Peer) returns (result: int)
    requires buf.Valid() && !buf.Left().failed
    modifies buf`current, buf`error, peer
    ensures (peer.View(), result) == HandleBeacon(old(peer.View()), Attribute(CLUSTER_ATTRIBUTE, old(buf.Left().bytes)))
  {
    var anchorMasterRank: u64 := *;
    var ambtt: u32 := *;
    var hopCount: u8 := *;
    ghost var body := buf.Left().bytes;
    anchorMasterRank := buf.ReadLe64(anchorMasterRank);
    hopCount := buf.ReadU8(hopCount);
    ambtt := buf.ReadLe32(ambtt);
    if buf.error != 0 {
      return RX_TOO_SHORT;
    }
    assert body[8..][..1] == [body[8]] && body[8..][1..][..4] == body[9..13];
    OneByte(body[8]);
    peer.SetAnchorMasterInformation(anchorMasterRank, ambtt, hopCount);
    return RX_OK;
  }

  /** A byte and a 16-bit number: the id and the length of an attribute, or the start of an extension. */
  method ReadHeader(frame: Buf, wasId: u8, wasLength: u16) returns (id: u8, length: u16)
    requires frame.Valid() && frame.error == 0
    modifies frame`current, frame`error
    ensures frame.Valid() && frame.end == old(frame.end)
    ensures frame.Position() >= old(frame.Position()) + 3 || old(frame.Room()) <= 2
    ensures var bs := old(frame.Left().bytes);
            if |bs| >= 3
            then id == bs[0] && length == FromLE(bs[1..3]) && frame.Left() == Cursor(bs[3..], false)
            else length == wasLength && frame.error == -1 && frame.Room() == if |bs| == 2 then 1 else 0
  {
    hide FromLE;
    ghost var bs := frame.Left().bytes;
    if |bs| >= 3 {
      assert bs[..1] == [bs[0]] && bs[1..][..2] == bs[1..3] && bs[1..][2..] == bs[3..];
      OneByte(bs[0]);
    }
    id := frame.ReadU8(wasId);
    length := frame.ReadLe16(wasLength);
  }

  /** The header decides whether the attribute is whole, and what is left if it is not. */
  lemma NextAttribute(bs: seq<u8>, id: u8, length: u16, wasLength: u16)
    requires if |bs| >= 3 then id == bs[0] && length == FromLE(bs[1..3]) else length == wasLength
    ensures Whole(bs) <==> |bs| >= 3 && length <= |bs[3..]|
    ensures Whole(bs) ==> First(bs) == Attribute(id, bs[3..][..length]) && Behind(bs) == bs[3..][length..]
    ensures !Whole(bs) ==>
              Unread(bs, wasLength) == if |bs| >= 3 then |bs| - 3 else if |bs| == 2 && length != 1 then 1 else 0
  {
    hide FromLE;
  }

  /** nan_attribute_read_next; `id` and `length` keep their values where they cannot be read. */
  method ReadNext(frame: Buf, wasId: u8, wasLength: u16) returns (id: u8, length: u16, data: nat, n: int)
    requires frame.Valid() && frame.error == 0
    modifies frame`current, frame`error
    ensures frame.Valid() && frame.end == old(frame.end)
    ensures Whole(old(frame.Left().bytes)) ==>
              data + length <= frame.data.Length && n > 0 && frame.error == 0 &&
              Attribute(id, frame.data[data..data + length]) == First(old(frame.Left().bytes)) &&
              frame.Left().bytes == Behind(old(frame.Left().bytes))
    ensures !Whole(old(frame.Left().bytes)) ==> n < 0 && frame.Room() == Unread(old(frame.Left().bytes), wasLength)
  {
    hide FromLE, Whole, First, Behind, Unread;
    ghost var bs := frame.Left().bytes;
    id, length := ReadHeader(frame, wasId, wasLength);
    NextAttribute(bs, id, length, wasLength);
    data := ReadBody(frame, length);
    n := if frame.error < 0 then RX_TOO_SHORT else 3 + length as int;
  }

  /** The body of an attribute, handed out as its place in the frame. */
  method ReadBody(frame: Buf, length: u16) returns (data: nat)
    requires frame.Valid()
    modifies frame`current, frame`error
    ensures frame.Passed(length)
    ensures length <= |old(frame.Left().bytes)| ==>
              data + length <= frame.data.Length && frame.error == old(frame.error) &&
              frame.data[data..data + length] == old(frame.Left().bytes)[..length] &&
              frame.Left().bytes == old(frame.Left().bytes)[length..]
    ensures length > |old(frame.Left().bytes)| ==> frame.error < 0 && frame.Room() == old(frame.Room())
  {
    data := frame.current;
    var body, _ := frame.Read(length, []);
  }

  /** What can still be read, unless something was missing already. */
  function Rest(c: Cursor): Option<seq<u8>> {
    if c.failed then None else Some(c.bytes)
  }

  /** An optional part with a length byte is passed over. */
  method SkipCounted(buf: Buf, present: bool)
    requires buf.Valid()
    modifies buf`current, buf`error
    ensures buf.Valid() && buf.end == old(buf.end)
    ensures Rest(buf.Left()) == if present then PastCounted(old(Rest(buf.Left()))) else old(Rest(buf.Left()))
  {
    if present {
      ghost var bs := buf.Left().bytes;
      var length: u8 := *;
      if |bs| >= 1 {
        assert bs[..1] == [bs[0]];
        OneByte(bs[0]);
        if |bs| >= 1 + bs[0] as int {
          assert bs[1..][bs[0]..] == bs[1 + bs[0] as int..];
        }
      }
      length := buf.ReadU8(length);
      var _ := buf.Advance(length);
    }
  }

  /** The information of a service descriptor, copied out. */
  method ReadInfo(buf: Buf) returns (info: seq<u8>)
    requires buf.Valid()
    modifies buf`current, buf`error
    ensures buf.Valid() && buf.end == old(buf.end)
    ensures buf.Left().failed == Counted(old(Rest(buf.Left()))).None?
    ensures Counted(old(Rest(buf.Left()))).Some? ==> info == Counted(old(Rest(buf.Left()))).value
  {
    ghost var bs := buf.Left().bytes;
    var length: u8 := *;
    if |bs| >= 1 {
      assert bs[..1] == [bs[0]];
      OneByte(bs[0]);
      if |bs| >= 1 + bs[0] as int {
        assert bs[1..][..bs[0]] == bs[1..1 + bs[0] as int];
      }
    }
    length := buf.ReadU8(length);
    var n: nat;
    info, n := buf.Read(length, []);
  }

  /** The fixed part of a service descriptor. */
  method ReadIdentity(buf: Buf) returns (serviceId: ServiceId, instanceId: u8, requestorInstanceId: u8, control: u8)
    requires buf.Valid() && !buf.Left().failed
    modifies buf`current, buf`error
    ensures buf.Valid() && buf.end == old(buf.end)
    ensures var body := old(buf.Left().bytes);
            if |body| < 9 then buf.Left().failed
            else buf.Left() == Cursor(body[9..], false) && serviceId == body[..6] && instanceId == body[6] &&
                 requestorInstanceId == body[7] && control == body[8]
  {
    ghost var body := buf.Left().bytes;
    if |body| >= 9 {
      assert body[6..][..1] == [body[6]] && body[6..][1..] == body[7..];
      assert body[7..][..1] == [body[7]] && body[7..][1..] == body[8..];
      assert body[8..][..1] == [body[8]] && body[8..][1..] == body[9..];
      OneByte(body[6]);
      OneByte(body[7]);
      OneByte(body[8]);
    }
    instanceId, requestorInstanceId, control := *, *, *;
    var bytes, _ := buf.Read(NAN_SERVICE_ID_LENGTH, [0, 0, 0, 0, 0, 0]);
    serviceId := bytes;
    instanceId := buf.ReadU8(instanceId);
    requestorInstanceId := buf.ReadU8(requestorInstanceId);
    control := buf.ReadU8(control);
  }

  /** The optional parts before the information. */
  method SkipFilters(buf: Buf, control: u8)
    requires buf.Valid()
    modifies buf`current, buf`error
    ensures buf.Valid() && buf.end == old(buf.end)
    ensures Rest(buf.Left()) == BehindFilters(control, old(Rest(buf.Left())))
  {
    hide PastCounted, Bit;
    if Bit(control, 0x40) {
      var _ := buf.Advance(2);
    }
    SkipCounted(buf, Bit(control, 0x4));
    SkipCounted(buf, Bit(control, 0x8));
  }

  lemma NothingBehind(control: u8)
    ensures BehindFilters(control, None) == None && Counted(None) == None
  {}

  /** nan_parse_sda, for a buffer that holds the body of the attribute. */
  method ParseSda(buf: Buf) returns (result: int, descriptor: Option<ServiceDescriptor>)
    requires buf.Valid() && !buf.Left().failed
    modifies buf`current, buf`error
    ensures descriptor == ParseDescriptor(old(buf.Left().bytes))
    ensures result == if descriptor.Some? then RX_OK else RX_TOO_SHORT
  {
    hide BehindFilters, Counted, Bit;
    var serviceId, instanceId, requestorInstanceId, control := ReadIdentity(buf);
    NothingBehind(control);
    SkipFilters(buf, control);
    var info: Option<seq<u8>> := None;
    if Bit(control, 0x10) {
      var bytes := ReadInfo(buf);
      info := Some(bytes);
    }
    if buf.error != 0 {
      return RX_TOO_SHORT, None;
    }
    return RX_OK, Some(ServiceDescriptor(serviceId, instanceId, requestorInstanceId, control, info));
  }

  lemma InfoWithin(bs: seq<u8>, length: u16)
    requires 4 <= length
    ensures |bs| >= length + 2 ==> bs[2..][3..][1..][..length - 4] == bs[6..length + 2]
  {}

  /** The last part of nan_parse_sdea: information behind its length, the OUI and the protocol type. */
  method ReadExtensionInfo(buf: Buf, size: nat) returns (info: ExtensionInfo)
    requires buf.Valid() && size == buf.end - buf.base && (buf.Position() >= 3 || size <= 2)
    modifies buf`current, buf`error
    ensures buf.Valid() && buf.end == old(buf.end)
    ensures var rest := old(Rest(buf.Left()));
            if rest.None? || ParseExtensionInfo(rest.value).None? then buf.Left().failed
            else !buf.Left().failed && info == ParseExtensionInfo(rest.value).value
  {
    hide FromLE;
    info := NoInfo;
    if buf.Position() + 2 < size {
      ghost var bs := buf.Left().bytes;
      var length: u16 := *;
      length := buf.ReadLe16(length);
      var oui, _ := buf.Read(3, []);
      var _ := buf.Advance(1);
      if length >= 4 {
        InfoWithin(bs, length);
        var bytes, _ := buf.Read(length - 4, []);
        info := Info(bytes);
      } else {
        // The unsigned difference is taken for a negative int: no bounds are violated and the cursor moves back.
        buf.current := buf.current - (4 - length);
        info := WrappedInfo(Wrap64(length - 4));
      }
    }
  }

  /** The first part of nan_parse_sdea. */
  method ReadExtensionControl(buf: Buf) returns (extension: DescriptorExtension)
    requires buf.Valid() && !buf.Left().failed && buf.Position() == 0
    modifies buf`current, buf`error
    ensures buf.Valid() && buf.end == old(buf.end) && (buf.Position() >= 3 || buf.end - buf.base <= 2)
    ensures var start := ParseExtensionControl(old(buf.Left().bytes));
            if start.None? then buf.Left().failed
            else extension == start.value.0 && buf.Left() == Cursor(start.value.1, false)
  {
    hide FromLE, Bit;
    var instanceId: u8 := *;
    var control: u16 := *;
    var indicator: u8 := *;
    instanceId, control := ReadHeader(buf, instanceId, control);
    if Bit(control, 0x100) {
      var _ := buf.Advance(4);
    }
    var updateIndicator := None;
    if Bit(control, 0x200) {
      indicator := ReadOne(buf, indicator);
      updateIndicator := Some(indicator);
    }
    return DescriptorExtension(instanceId, control, updateIndicator, NoInfo);
  }

  method ReadOne(buf: Buf, was: u8) returns (value: u8)
    requires buf.Valid()
    modifies buf`current, buf`error
    ensures buf.Passed(1) && value == if old(buf.Left().bytes) == [] then was else old(buf.Left().bytes)[0]
  {
    ghost var r := buf.Left().bytes;
    if r != [] {
      assert r[..1] == [r[0]];
      OneByte(r[0]);
    }
    value := buf.ReadU8(was);
  }

  /** nan_parse_sdea, for a buffer that holds the body of the attribute. */
  method ParseSdea(buf: Buf, length: u16) returns (result: int, extension: Option<DescriptorExtension>)
    requires buf.Valid() && !buf.Left().failed && buf.Position() == 0 && length == buf.end - buf.base
    modifies buf`current, buf`error
    ensures extension == ParseExtension(old(buf.Left().bytes))
    ensures result == if extension.Some? then RX_OK else RX_TOO_SHORT
  {
    hide ParseExtensionControl, ParseExtensionInfo;
    var attribute := ReadExtensionControl(buf);
    var info := ReadExtensionInfo(buf, length);
    if buf.error != 0 {
      return RX_TOO_SHORT, None;
    }
    return RX_OK, Some(attribute.(info := info));
  }

  /** One attribute of a beacon, through a buffer of its own over the same bytes. */
  method HandleBeaconAttribute(frame: Buf, id: u8, data: nat, length: u16, peer: Peer) returns (result: int)
    requires data + length <= frame.data.Length < 0x8000_0000
    modifies peer
    ensures (peer.View(), result) == HandleBeacon(old(peer.View()), Attribute(id, frame.data[data..data + length]))
  {
    var attribute := new Buf.Const(frame.data, data, length);
    if id == MASTER_INDICATION_ATTRIBUTE {
      result := ParseMasterIndicationAttribute(attribute, peer);
    } else if id == CLUSTER_ATTRIBUTE {
      result := ParseClusterAttribute(attribute, peer);
    } else {
      result := RX_IGNORE;
    }
  }

  /** The attribute loop of nan_rx_beacon; `unset` is what its length variable happens to hold at first. */
  method IterateBeacon(frame: Buf, peer: Peer) returns (result: int, ghost unset: u16)
    requires frame.Valid() && frame.error == 0
    modifies frame`current, frame`error, peer
    ensures (peer.View(), result) == Iterate(HandleBeacon, old(peer.View()), old(frame.Left().bytes), unset)
  {
    hide HandleBeacon, Whole, First, Behind, Handled;
    ghost var bs, p0 := frame.Left().bytes, peer.View();
    ghost var done: seq<Attribute> := [];
    var id: u8 := *;
    var length: u16 := *;
    var data, n;
    result, unset := RX_OK, length;
    HandledNothing(HandleBeacon, p0);
    while true
      invariant frame.Valid() && frame.error == 0
      invariant Complete(bs) == done + Complete(frame.Left().bytes) && Trailing(bs) == Trailing(frame.Left().bytes)
      invariant Handled(HandleBeacon, p0, done) == (peer.View(), result) && result >= 0
      invariant length == LastLength(done, unset)
      decreases |frame.Left().bytes|
    {
      ghost var rest := frame.Left().bytes;
      LoopStep(HandleBeacon, p0, bs, done, rest);
      id, length, data, n := ReadNext(frame, id, length);
      if n <= 0 {
        break;
      }
      result := HandleBeaconAttribute(frame, id, data, length, peer);
      done := done + [First(rest)];
      if result < 0 {
        return;
      }
    }
    result := if frame.Room() > 0 then RX_UNEXPECTED_FORMAT else RX_OK;
  }

  /** One attribute of a service discovery frame. */
  method HandleDiscoveryAttribute(frame: Buf, id: u8, data: nat, length: u16,
                                  descriptors: seq<ServiceDescriptor>, extensions: seq<DescriptorExtension>)
    returns (result: int, descriptors': seq<ServiceDescriptor>, extensions': seq<DescriptorExtension>)
    requires data + length <= frame.data.Length < 0x8000_0000
    ensures (Received(descriptors', extensions'), result)
            == HandleDiscovery(Received(descriptors, extensions), Attribute(id, frame.data[data..data + length]))
  {
    hide ParseDescriptor, ParseExtension;
    descriptors', extensions' := descriptors, extensions;
    var attribute := new Buf.Const(frame.data, data, length);
    if id == SERVICE_DESCRIPTOR_ATTRIBUTE {
      var d;
      result, d := ParseSda(attribute);
      if d.Some? {
        descriptors' := descriptors + [d.value];
      }
    } else if id == SERVICE_DESCRIPTOR_EXTENSION_ATTRIBUTE {
      var e;
      result, e := ParseSdea(attribute, length);
      if e.Some? {
        extensions' := extensions + [e.value];
      }
    } else {
      result := RX_IGNORE;
    }
  }

  /** The attribute loop of nan_rx_service_discovery. */
  method IterateDiscovery(frame: Buf)
    returns (result: int, descriptors: seq<ServiceDescriptor>, extensions: seq<DescriptorExtension>, ghost unset: u16)
    requires frame.Valid() && frame.error == 0
    modifies frame`current, frame`error
    ensures (Received(descriptors, extensions), result)
            == Iterate(HandleDiscovery, Received([], []), old(frame.Left().bytes), unset)
  {
    hide HandleDiscovery, Whole, First, Behind, Handled;
    ghost var bs, start := frame.Left().bytes, Received([], []);
    ghost var done: seq<Attribute> := [];
    var id: u8 := *;
    var length: u16 := *;
    var data, n;
    result, descriptors, extensions, unset := RX_OK, [], [], length;
    HandledNothing(HandleDiscovery, start);
    while true
      invariant frame.Valid() && frame.error == 0
      invariant Complete(bs) == done + Complete(frame.Left().bytes) && Trailing(bs) == Trailing(frame.Left().bytes)
      invariant Handled(HandleDiscovery, start, done) == (Received(descriptors, extensions), result) && result >= 0
      invariant length == LastLength(done, unset)
      decreases |frame.Left().bytes|
    {
      ghost var rest := frame.Left().bytes;
      LoopStep(HandleDiscovery, start, bs, done, rest);
      id, length, data, n := ReadNext(frame, id, length);
      if n <= 0 {
        break;
      }
      result, descriptors, extensions := HandleDiscoveryAttribute(frame, id, data, length, descriptors, extensions);
      done := done + [First(rest)];
      if result < 0 {
        return;
      }
    }
    result := if frame.Room() > 0 then RX_UNEXPECTED_FORMAT else RX_OK;
  }

  /** nan_parse_beacon_header */
  method ParseBeaconHeader(frame: Buf) returns (result: int, kind: Option<BeaconType>, timestamp: u64)
    requires frame.Valid() && frame.error == 0
    modifies frame`current, frame`error
    ensures frame.Valid() && frame.end == old(frame.end)
    ensures match ParseHead(old(frame.Left().bytes))
            case Rejected(r) => result == r && r != RX_OK
            case Beacon(k, t, attributes) =>
              result == RX_OK && kind == Some(k) && timestamp == t && frame.Left() == Cursor(attributes, false)
  {
    hide FromLE;
    ghost var bs := frame.Left().bytes;
    var beaconInterval: u16, oui: seq<u8>, ouiType: u8;
    timestamp, beaconInterval := ReadTimes(frame);
    oui, ouiType := ReadElementHeader(frame);
    kind := None;
    if frame.error != 0 {
      return RX_TOO_SHORT, None, timestamp;
    }
    assert bs[10..][4..7] == bs[14..17] && bs[10..][8..] == bs[18..];
    if oui != NAN_OUI || ouiType != NAN_OUI_TYPE_BEACON {
      return RX_IGNORE_OUI, None, timestamp;
    }
    if beaconInterval == NAN_DISCOVERY_BEACON_INTERVAL_TU {
      kind := Some(DiscoveryBeacon);
    } else if beaconInterval == NAN_SYNC_BEACON_INTERVAL_TU {
      kind := Some(SyncBeacon);
    }
    if kind.None? {
      return RX_UNEXPECTED_TYPE, None, timestamp;
    }
    return RX_OK, kind, timestamp;
  }

  /** The first two fields of a beacon. */
  method ReadTimes(frame: Buf) returns (timestamp: u64, beaconInterval: u16)
    requires frame.Valid() && frame.error == 0
    modifies frame`current, frame`error
    ensures frame.Valid() && frame.end == old(frame.end)
    ensures var bs := old(frame.Left().bytes);
            if |bs| < 10 then frame.error != 0
            else frame.Left() == Cursor(bs[10..], false) && timestamp == FromLE(bs[..8]) && beaconInterval == FromLE(bs[8..10])
  {
    hide FromLE;
    ghost var bs := frame.Left().bytes;
    if |bs| >= 10 {
      assert bs[8..][..2] == bs[8..10] && bs[8..][2..] == bs[10..];
    }
    timestamp, beaconInterval := 0, *;
    timestamp := frame.ReadLe64(timestamp);
    beaconInterval := frame.ReadLe16(beaconInterval);
  }

  /** Capability, element id and length are not looked at. */
  method ReadElementHeader(frame: Buf) returns (oui: seq<u8>, ouiType: u8)
    requires frame.Valid()
    modifies frame`current, frame`error
    ensures frame.Valid() && frame.end == old(frame.end)
    ensures var bs := old(frame.Left().bytes);
            if |bs| < 8 then frame.error != 0
            else frame.Left() == Cursor(bs[8..], old(frame.Left().failed)) && oui == bs[4..7] && ouiType == bs[7]
  {
    hide FromLE;
    ghost var bs := frame.Left().bytes;
    if |bs| >= 8 {
      assert bs[2..][1..][1..] == bs[4..] && bs[4..][..3] == bs[4..7] && bs[4..][3..] == bs[7..] && bs[7..][1..] == bs[8..];
    }
    var capability: u16, elementId: u8, length: u8 := *, *, *;
    ouiType := *;
    capability := frame.ReadLe16(capability);
    elementId := frame.ReadU8(elementId);
    length := frame.ReadU8(length);
    oui := ReadThree(frame);
    ouiType := ReadOne(frame, ouiType);
  }

  method ReadThree(frame: Buf) returns (bytes: seq<u8>)
    requires frame.Valid()
    modifies frame`current, frame`error
    ensures frame.Passed(3) && bytes == Next(old(frame.Left()), 3, [])
  {
    var n: nat;
    bytes, n := frame.Read(3, []);
  }

  /** ieee80211_parse_fcs */
  method ParseFcs(frame: Buf, flags: u8) returns (result: int)
    requires frame.Valid() && frame.error == 0
    modifies frame`end, frame`error
    ensures frame.Valid()
    ensures result < 0 <==> Bit(flags, 0x40) || (Bit(flags, 0x10) && |old(frame.Left().bytes)| < 4)
    ensures result >= 0 ==>
              var bs := old(frame.Left().bytes);
              frame.Left() == Cursor(if Bit(flags, 0x10) then bs[..|bs| - 4] else bs, false)
  {
    hide Bit;
    if Bit(flags, 0x40) {
      return -1;
    }
    if Bit(flags, 0x10) {
      result := frame.Take(4);
      return result;
    }
    return 0;
  }

  /** FCS and 802.11 header, which is looked at and not yet passed over. */
  method OpenWithFcs(frame: Buf, flags: u8) returns (o: Opened)
    requires frame.Valid() && frame.error == 0
    modifies frame`end, frame`error
    ensures frame.Valid() && o == WithoutFcs(old(frame.Left().bytes), flags)
    ensures o.Opened? ==> frame.error == 0 && frame.Room() >= 24 && frame.Left().bytes[24..] == o.body
  {
    hide FromLE, Bit;
    var n := ParseFcs(frame, flags);
    if n < 0 {
      return Refused(RX_IGNORE_FAILED_CRC);
    }
    if frame.Room() < 24 {
      return Refused(RX_TOO_SHORT);
    }
    o := ReadIeee80211Header(frame);
  }

  /** The first half of nan_rx: radiotap header, FCS, 802.11 header, frames of one's own. */
  method Open(frame: Buf, headerLength: u16, flags: u8, self: EtherAddr) returns (o: Opened)
    requires frame.Valid() && frame.error == 0
    modifies frame`current, frame`end, frame`error
    ensures frame.Valid() && o == OpenFrame(old(frame.Left().bytes), headerLength, flags, self)
    ensures o.Opened? ==> frame.Left() == Cursor(o.body, false)
  {
    hide WithoutFcs;
    var n := frame.Advance(headerLength);
    if n < 0 {
      return Refused(RX_UNEXPECTED_FORMAT);
    }
    o := OpenWithFcs(frame, flags);
    if o.Refused? {
      return o;
    }
    if o.source == self {
      return Refused(RX_IGNORE_FROM_SELF);
    }
    n := frame.Advance(24);
  }

  /** The fields of the 802.11 header at the cursor. */
  method ReadIeee80211Header(frame: Buf) returns (head: Opened)
    requires frame.Valid() && frame.Room() >= 24
    ensures var bs := frame.Left().bytes;
            head.Opened? && head.frameControl == FromLE(bs[..2]) && head.destination == bs[4..10] &&
            head.source == bs[10..16] && head.cluster == bs[16..22] && head.body == bs[24..]
  {
    hide FromLE;
    var at := frame.current;
    ghost var bs := frame.Left().bytes;
    Inside(frame.data, at, frame.end, 0, 2);
    Inside(frame.data, at, frame.end, 4, 10);
    Inside(frame.data, at, frame.end, 10, 16);
    Inside(frame.data, at, frame.end, 16, 22);
    Inside(frame.data, at, frame.end, 24, |bs|);
    assert bs[0..2] == bs[..2] && bs[24..|bs|] == bs[24..];
    FromLEBound(bs[..2]);
    PowValues();
    head := Opened(FromLE(frame.data[at..at + 2]), frame.data[at + 4..at + 10], frame.data[at + 10..at + 16],
                   frame.data[at + 16..at + 22], frame.data[at + 24..frame.end]);
  }
}
