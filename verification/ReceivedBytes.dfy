/** What the receiver accepts and reads, byte by byte, and what the sender puts on the air. */
module ReceivedBytes {
  import opened Words
  import opened MasterRank
  import opened Services
  import opened Peers
  import opened Sync
  import opened Frames
  import opened Attributes
  import opened Discovery

  /** Little-endian numbers of two and four bytes. */
  lemma LittleEndian(a: u8, b: u8, c: u8, d: u8)
    ensures FromLE([a, b]) == a + 256 * b
    ensures FromLE([a, b, c, d]) == a + 256 * b + 65536 * c + 16777216 * d
  {
    assert [a, b][1..] == [b] && [a, b, c, d][1..] == [b, c, d] && [b, c, d][1..] == [c, d] && [c, d][1..] == [d];
    OneByte(b);
    OneByte(d);
    assert FromLE([c, d]) == c + 256 * d;
    assert FromLE([b, c, d]) == b + 256 * FromLE([c, d]);
  }

  // ---------------------------------------------------------------- the front of a frame

  /**
   * The receiver goes on with exactly those frames that have their radiotap header, are not flagged as wrong, hold the FCS
   * that they are flagged to have and an 802.11 header, and do not come from itself; and what it sees of them.
   */
  lemma FramesOpened(bs: seq<u8>, headerLength: u16, flags: u8, self: EtherAddr)
    ensures var o := OpenFrame(bs, headerLength, flags, self);
            var h, fcs := headerLength as int, if flags / 16 % 2 == 1 then 4 else 0;
            (o.Opened? <==> flags / 64 % 2 == 0 && |bs| >= h + fcs + 24 && bs[h + 10..h + 16] != self) &&
            (o.Opened? ==>
               o.frameControl == FromLE(bs[h..h + 2]) && o.destination == bs[h + 4..h + 10] &&
               o.source == bs[h + 10..h + 16] && o.cluster == bs[h + 16..h + 22] && o.body == bs[h + 24..|bs| - fcs]) &&
            (o.Refused? ==>
               o.result == if |bs| < h then -2
                           else if flags / 64 % 2 == 1 || |bs| - h < fcs then 4
                           else if |bs| < h + fcs + 24 then -1 else 2)
  {
    hide FromLE;
    if |bs| >= headerLength {
      var h, fcs := headerLength as int, if flags / 16 % 2 == 1 then 4 else 0;
      var inner := bs[h..];
      if |inner| >= fcs + 24 {
        var rest := if fcs == 4 then inner[..|inner| - 4] else inner;
        assert rest[..2] == bs[h..h + 2] && rest[4..10] == bs[h + 4..h + 10] && rest[10..16] == bs[h + 10..h + 16];
        assert rest[16..22] == bs[h + 16..h + 22] && rest[24..] == bs[h + 24..|bs| - fcs];
      }
    }
  }

  // ---------------------------------------------------------------- beacons

  /** Exactly these bytes are a NAN beacon, and what its head says; any other bytes are refused, with these results. */
  lemma BeaconsRecognized(bs: seq<u8>)
    ensures var head := ParseHead(bs);
            (head.Beacon? <==>
             |bs| >= 18 && bs[14..18] == [0x50, 0x6f, 0x9a, 0x13] && (FromLE(bs[8..10]) == 100 || FromLE(bs[8..10]) == 512)) &&
            (head.Beacon? ==>
               head.timestamp == FromLE(bs[..8]) && head.attributes == bs[18..] &&
               (head.kind == SyncBeacon <==> FromLE(bs[8..10]) == 512)) &&
            (head.Rejected? ==>
               head.result == if |bs| < 18 then -1 else if bs[14..18] != [0x50, 0x6f, 0x9a, 0x13] then 7 else -3)
  {
    hide FromLE;
    if |bs| >= 18 {
      assert bs[14..18] == bs[14..17] + [bs[17]];
      assert [0x50, 0x6f, 0x9a, 0x13] == [0x50, 0x6f, 0x9a] + [0x13];
      if bs[14..18] == [0x50, 0x6f, 0x9a, 0x13] {
        assert bs[14..17] == bs[14..18][..3] && bs[17] == bs[14..18][3];
      }
    }
  }

  /**
   * What a peer is known to be after an attribute of one of its beacons: from attribute 0 preference and factor, from
   * attribute 1 rank, distance and time of its anchor; a peer that is the anchor itself gets the low half of the time of
   * its beacon before. Attributes that are too short, and all others, change nothing.
   */
  lemma BeaconAttributesRead(p: PeerView, id: u8, body: seq<u8>)
    ensures var (q, result) := HandleBeacon(p, Attribute(id, body));
            if id == 0 && |body| >= 2 then
              result == 0 &&
              q == p.(masterPreference := body[0], randomFactor := body[1], lastMasterPreference := p.masterPreference)
            else if id == 1 && |body| >= 13 then
              result == 0 &&
              q == p.(anchorMasterRank := q.anchorMasterRank, lastAnchorMasterRank := p.anchorMasterRank, hopCount := body[8],
                      ambtt := q.ambtt) &&
              q.anchorMasterRank == FromLE(body[..8]) &&
              q.ambtt == if body[8] == 0 then p.lastTimestamp % 0x1_0000_0000 else FromLE(body[9..13])
            else q == p && result == if id <= 1 then -1 else 1
  {
    hide FromLE;
  }

  // ---------------------------------------------------------------- service descriptors

  /** An optional part with its length byte. */
  function Part(present: bool, part: seq<u8>): seq<u8>
    requires |part| < 256
  {
    if present then [|part|] + part else []
  }

  /** Binding bitmap, matching filter and response filter, each if the control byte says so, and what follows. */
  function FilterBytes(control: u8, bitmap: seq<u8>, filter: seq<u8>, response: seq<u8>, more: seq<u8>): seq<u8>
    requires |filter| < 256 && |response| < 256
  {
    (if control / 64 % 2 == 1 then bitmap else [])
    + (Part(control / 4 % 2 == 1, filter) + (Part(control / 8 % 2 == 1, response) + more))
  }

  /** A descriptor with all its optional parts, and what follows. */
  function DescriptorBytes(d: ServiceDescriptor, bitmap: seq<u8>, filter: seq<u8>, response: seq<u8>, info: seq<u8>,
                           more: seq<u8>): seq<u8>
    requires |filter| < 256 && |response| < 256 && |info| < 256
  {
    d.serviceId + [d.instanceId, d.requestorInstanceId, d.control]
    + FilterBytes(d.control, bitmap, filter, response, Part(d.control / 16 % 2 == 1, info) + more)
  }

  lemma PartRead(part: seq<u8>, more: seq<u8>)
    requires |part| < 256
    ensures var bs := Part(true, part) + more; PastCounted(Some(bs)) == Some(more) && Counted(Some(bs)) == Some(part)
    ensures Part(false, part) + more == more
  {
    var bs := Part(true, part) + more;
    assert bs[1 + |part|..] == more && bs[1..1 + |part|] == part;
  }

  lemma PartWritten(bs: seq<u8>)
    ensures PastCounted(Some(bs)).Some? <==> Counted(Some(bs)).Some?
    ensures PastCounted(Some(bs)).Some? ==>
              var part := Counted(Some(bs)).value;
              |part| < 256 && bs == Part(true, part) + PastCounted(Some(bs)).value
  {}

  lemma FiltersRead(control: u8, bitmap: seq<u8>, filter: seq<u8>, response: seq<u8>, more: seq<u8>)
    requires |bitmap| == 2 && |filter| < 256 && |response| < 256
    ensures BehindFilters(control, Some(FilterBytes(control, bitmap, filter, response, more))) == Some(more)
  {
    hide PastCounted, Part;
    var r2 := Part(control / 8 % 2 == 1, response) + more;
    var r1 := Part(control / 4 % 2 == 1, filter) + r2;
    assert (bitmap + r1)[2..] == r1 && ([] + r1)[0..] == r1 && [] + r1 == r1;
    PartRead(filter, r2);
    PartRead(response, more);
  }

  lemma FiltersOnly(control: u8, bs: seq<u8>) returns (bitmap: seq<u8>, filter: seq<u8>, response: seq<u8>)
    requires BehindFilters(control, Some(bs)).Some?
    ensures |bitmap| == 2 && |filter| < 256 && |response| < 256
    ensures bs == FilterBytes(control, bitmap, filter, response, BehindFilters(control, Some(bs)).value)
  {
    hide PastCounted, Part, Counted;
    bitmap, filter, response := [0, 0], [], [];
    PastNothing();
    var r1 := bs;
    if control / 64 % 2 == 1 {
      bitmap, r1 := bs[..2], bs[2..];
      assert bs == bitmap + r1;
    } else {
      assert bs[0..] == bs && bs == [] + r1;
    }
    var r2 := r1;
    PartWritten(r1);
    if control / 4 % 2 == 1 {
      filter, r2 := Counted(Some(r1)).value, PastCounted(Some(r1)).value;
    } else {
      PartRead(filter, r2);
    }
    PartWritten(r2);
    if control / 8 % 2 == 1 {
      response := Counted(Some(r2)).value;
    } else {
      PartRead(response, r2);
    }
  }

  lemma PastNothing()
    ensures PastCounted(None) == None
  {}

  /**
   * Every descriptor with optional parts is read as what it says, whatever follows it, and nothing else is read as a
   * descriptor.
   */
  lemma DescriptorsRead(d: ServiceDescriptor, bitmap: seq<u8>, filter: seq<u8>, response: seq<u8>, info: seq<u8>, more: seq<u8>)
    requires |bitmap| == 2 && |filter| < 256 && |response| < 256 && |info| < 256
    ensures ParseDescriptor(DescriptorBytes(d, bitmap, filter, response, info, more))
            == Some(d.(info := if d.control / 16 % 2 == 1 then Some(info) else None))
  {
    hide BehindFilters, Counted, FilterBytes, Part;
    var rest := Part(d.control / 16 % 2 == 1, info) + more;
    var behind := FilterBytes(d.control, bitmap, filter, response, rest);
    var body := d.serviceId + [d.instanceId, d.requestorInstanceId, d.control] + behind;
    assert body[..6] == d.serviceId && body[6] == d.instanceId && body[7] == d.requestorInstanceId && body[8] == d.control;
    assert body[9..] == behind;
    FiltersRead(d.control, bitmap, filter, response, rest);
    PartRead(info, more);
  }

  lemma DescriptorsOnly(body: seq<u8>) returns (bitmap: seq<u8>, filter: seq<u8>, response: seq<u8>, info: seq<u8>, more: seq<u8>)
    requires ParseDescriptor(body).Some?
    ensures |bitmap| == 2 && |filter| < 256 && |response| < 256 && |info| < 256
    ensures body == DescriptorBytes(ParseDescriptor(body).value, bitmap, filter, response, info, more)
  {
    hide BehindFilters, Counted, PastCounted, FilterBytes, Part;
    var c := body[8];
    assert body == body[..6] + [body[6], body[7], c] + body[9..];
    bitmap, filter, response := FiltersOnly(c, body[9..]);
    var rest := BehindFilters(c, Some(body[9..])).value;
    info, more := [], rest;
    PartWritten(rest);
    if c / 16 % 2 == 1 {
      info, more := Counted(Some(rest)).value, PastCounted(Some(rest)).value;
    } else {
      PartRead(info, more);
    }
  }

  // ---------------------------------------------------------------- extensions

  /** An extension with its optional parts, and what follows. */
  function ExtensionBytes(instanceId: u8, control: u16, range: seq<u8>, indicator: u8, more: seq<u8>): seq<u8> {
    [instanceId] + ToLE(control, 2)
    + ((if control / 256 % 2 == 1 then range else []) + ((if control / 512 % 2 == 1 then [indicator] else []) + more))
  }

  /** The start of an extension is read as what it says, and nothing else is read as one. */
  lemma ExtensionStartsRead(instanceId: u8, control: u16, range: seq<u8>, indicator: u8, more: seq<u8>)
    requires |range| == 4
    ensures ParseExtensionControl(ExtensionBytes(instanceId, control, range, indicator, more))
            == Some((DescriptorExtension(instanceId, control, if control / 512 % 2 == 1 then Some(indicator) else None, NoInfo),
                     more))
  {
    hide ToLE, FromLE;
    var r2 := (if control / 512 % 2 == 1 then [indicator] else []) + more;
    var r1 := (if control / 256 % 2 == 1 then range else []) + r2;
    var body := [instanceId] + ToLE(control, 2) + r1;
    assert body[1..3] == ToLE(control, 2) && body[3..] == r1;
    PowValues();
    ValueRoundTrip(control, 2);
    assert r1[if control / 256 % 2 == 1 then 4 else 0..] == r2 && r2[if control / 512 % 2 == 1 then 1 else 0..] == more;
  }

  lemma ExtensionStartsOnly(body: seq<u8>) returns (range: seq<u8>, indicator: u8)
    requires ParseExtensionControl(body).Some?
    ensures |range| == 4
    ensures var (e, more) := ParseExtensionControl(body).value;
            body == ExtensionBytes(e.instanceId, e.control, range, indicator, more) &&
            (e.updateIndicator.Some? ==> e.updateIndicator == Some(indicator))
  {
    hide ToLE, FromLE;
    var (e, more) := ParseExtensionControl(body).value;
    BytesRoundTrip(body[1..3], []);
    assert body[1..3] + [] == body[1..3];
    range := if e.control / 256 % 2 == 1 then body[3..7] else [0, 0, 0, 0];
    var r1 := if e.control / 256 % 2 == 1 then body[7..] else body[3..];
    indicator := if e.control / 512 % 2 == 1 then r1[0] else 0;
    assert body == [body[0]] + body[1..3] + body[3..];
    assert body[3..] == (if e.control / 256 % 2 == 1 then range else []) + r1;
    assert r1 == (if e.control / 512 % 2 == 1 then [indicator] else []) + more;
  }

  /**
   * What follows is information if it is longer than two bytes: behind its length, an OUI and a protocol type, which the
   * length counts. A stated length below four is accepted and wraps around; anything else is refused.
   */
  lemma InformationRead(rest: seq<u8>)
    ensures var info := ParseExtensionInfo(rest);
            if |rest| <= 2 then info == Some(NoInfo)
            else if |rest| >= 6 && FromLE(rest[..2]) < 4 then
              info == Some(WrappedInfo(0x1_0000_0000_0000_0000 - (4 - FromLE(rest[..2]))))
            else if |rest| >= 6 && FromLE(rest[..2]) <= |rest| - 2 then
              info.Some? && info.value.Info? && info.value.bytes == rest[6..2 + FromLE(rest[..2])]
            else info == None
  {
    hide FromLE;
  }

  /** Attribute 3 is a descriptor, attribute 14 an extension; all others are ignored. */
  lemma DiscoveryAttributesRead(r: Received, id: u8, body: seq<u8>)
    ensures var (q, result) := HandleDiscovery(r, Attribute(id, body));
            if id == 3 && ParseDescriptor(body).Some? then
              result == 0 && q == Received(r.descriptors + [ParseDescriptor(body).value], r.extensions)
            else if id == 14 && ParseExtension(body).Some? then
              result == 0 && q == Received(r.descriptors, r.extensions + [ParseExtension(body).value])
            else q == r && result == if id == 3 || id == 14 then -1 else 1
  {
    hide ParseDescriptor, ParseExtension;
  }

  /** Which action frames are which; one byte behind a service discovery header is needed. */
  lemma ActionsRecognized(bs: seq<u8>)
    ensures ParseAction(bs).ServiceDiscovery? <==> |bs| >= 7 && bs[2..6] == [0x50, 0x6f, 0x9a, 0x13]
    ensures ParseAction(bs).ServiceDiscovery? ==> ParseAction(bs).attributes == bs[6..]
    ensures ParseAction(bs).OtherAction? <==> |bs| >= 7 && bs[2..6] == [0x50, 0x6f, 0x9a, 0x18]
    ensures ParseAction(bs).Ignored? ==>
              ParseAction(bs).result == if |bs| < 7 then -1 else if bs[2..5] != [0x50, 0x6f, 0x9a] then 7 else 1
    ensures NamesSender(bs) <==> |bs| >= 7 && bs[2..5] == [0x50, 0x6f, 0x9a]
  {
    if |bs| >= 7 {
      assert bs[2..6] == bs[2..5] + [bs[5]];
      assert bs[2..6][..3] == bs[2..5] && bs[2..6][3] == bs[5];
      assert [0x50, 0x6f, 0x9a, 0x13] == [0x50, 0x6f, 0x9a] + [0x13] && [0x50, 0x6f, 0x9a, 0x18] == [0x50, 0x6f, 0x9a] + [0x18];
    }
  }

  // ---------------------------------------------------------------- what is sent

  lemma HeaderBytes(source: EtherAddr, destination: EtherAddr, cluster: EtherAddr, n: u32)
    ensures NanHeader(source, destination, cluster, n, IEEE80211_FCTL_BEACON)
            == [0x80, 0, 0, 0] + destination + source + cluster + ToLE(16 * n, 2)
    ensures NanHeader(source, destination, cluster, n, IEEE80211_FCTL_ACTION)
            == [0xd0, 0, 0, 0] + destination + source + cluster + ToLE(16 * n, 2)
  {
    ConstantBytes();
    hide ToLE;
    assert [0x80, 0] + [0, 0] == [0x80, 0, 0, 0] && [0xd0, 0] + [0, 0] == [0xd0, 0, 0, 0];
  }

  lemma BeaconHeadBytes(timestamp: u64, kind: BeaconType)
    ensures BeaconHeader(timestamp, kind, 25)
            == ToLE(timestamp, 8) + [if kind == SyncBeacon then 0 else 100, if kind == SyncBeacon then 2 else 0]
               + [0x20, 4, 0xdd, 25, 0x50, 0x6f, 0x9a, 0x13]
  {
    ConstantBytes();
    hide ToLE;
  }

  lemma BeaconAttributeBytes(s: SyncView)
    ensures EncodeAll(BeaconAttributes(s))
            == [0, 2, 0, s.masterPreference, s.randomFactor]
               + ([1, 13, 0] + ToLE(s.anchorMasterRank, 8) + [s.hopCount] + ToLE(s.ambtt, 4))
  {
    ConstantBytes();
    hide ToLE;
    var a := BeaconAttributes(s);
    EncodeTwo(a[0], a[1]);
    assert [0] + [2, 0] + [s.masterPreference, s.randomFactor] == [0, 2, 0, s.masterPreference, s.randomFactor];
    var body := ToLE(s.anchorMasterRank, 8) + [s.hopCount] + ToLE(s.ambtt, 4);
    assert [1] + [13, 0] + body == [1, 13, 0] + ToLE(s.anchorMasterRank, 8) + [s.hopCount] + ToLE(s.ambtt, 4);
  }

  /** A beacon up to its FCS, written out behind the radiotap header. */
  lemma BeaconBytes(fcs: bool, source: EtherAddr, cluster: EtherAddr, n: u32, timestamp: u64, kind: BeaconType, s: SyncView)
    ensures var frame := BeaconFrame(fcs, source, cluster, n, timestamp, kind, s);
            frame[|Radiotap(fcs)|..]
            == ([0x80, 0, 0, 0] + [255, 255, 255, 255, 255, 255] + source + cluster + ToLE(16 * n, 2))
               + (ToLE(timestamp, 8) + [if kind == SyncBeacon then 0 else 100, if kind == SyncBeacon then 2 else 0]
                  + [0x20, 4, 0xdd, 25, 0x50, 0x6f, 0x9a, 0x13])
               + ([0, 2, 0, s.masterPreference, s.randomFactor]
                  + ([1, 13, 0] + ToLE(s.anchorMasterRank, 8) + [s.hopCount] + ToLE(s.ambtt, 4)))
  {
    hide ToLE, Radiotap, NanHeader, BeaconHeader, EncodeAll;
    HeaderBytes(source, NAN_BROADCAST_ADDRESS, cluster, n);
    BeaconHeadBytes(timestamp, kind);
    BeaconAttributeBytes(s);
  }

  lemma ConstantBytes()
    ensures ToLE(0x80, 2) == [0x80, 0] && ToLE(0xd0, 2) == [0xd0, 0] && ToLE(0, 2) == [0, 0] && ToLE(0x420, 2) == [0x20, 4]
    ensures ToLE(512, 2) == [0, 2] && ToLE(100, 2) == [100, 0] && ToLE(2, 2) == [2, 0] && ToLE(13, 2) == [13, 0]
    ensures ToLE(9, 2) == [9, 0] && ToLE(10, 2) == [10, 0]
  {
    assert ToLE(0, 1) == [0] && ToLE(1, 1) == [1] && ToLE(2, 1) == [2] && ToLE(4, 1) == [4];
  }

  /** The radiotap header with and without FCS: its length, the fields that are there, and the fields. */
  lemma RadiotapHeader()
    ensures Radiotap(true) == [0, 0, 11, 0, 0x26, 0, 0, 0, 0x10, 2, 200]
    ensures Radiotap(false) == [0, 0, 10, 0, 0x24, 0, 0, 0, 2, 200]
  {
    hide Radiotap;
    RadiotapNumbers();
    RadiotapWithout();
  }

  lemma RadiotapWithout()
    ensures Radiotap(false) == [0, 0] + [10, 0] + [0x24, 0, 0, 0] + [2, 200]
  {
    assert ToLE(0, 2) == [0] + ToLE(0, 1) && ToLE(0, 1) == [0] + [];
    assert ToLE(10, 2) == [10] + ToLE(0, 1);
    assert ToLE(0x24, 4) == [0x24] + ToLE(0, 3) && ToLE(0, 3) == [0] + ToLE(0, 2);
  }

  lemma OtherAttributeBytes()
    ensures Encode(DeviceCapability()) == [15, 9, 0, 0, 1, 0, 4, 0, 0, 0, 0, 0]
    ensures Encode(Availability()) == [18, 10, 0, 0, 1, 0, 5, 0, 1, 0, 0, 0, 0]
  {
    ConstantBytes();
    hide ToLE;
  }

  /** The front of every service discovery frame, up to its first descriptor. */
  lemma DiscoveryBytes(fcs: bool, source: EtherAddr, destination: EtherAddr, cluster: EtherAddr, n: u32,
                       services: seq<ServiceView>)
    ensures var frame := ServiceDiscoveryFrame(fcs, source, destination, cluster, n, DiscoveryAttributes(services));
            frame[|Radiotap(fcs)|..]
            == ([0xd0, 0, 0, 0] + destination + source + cluster + ToLE(16 * n, 2))
               + [4, 9, 0x50, 0x6f, 0x9a, 0x13]
               + ([15, 9, 0, 0, 1, 0, 4, 0, 0, 0, 0, 0] + [18, 10, 0, 0, 1, 0, 5, 0, 1, 0, 0, 0, 0]
                  + EncodeAll(Announcements(services)))
  {
    hide ToLE, Radiotap, EncodeAll, Announcements, NanHeader, Encode, DeviceCapability, Availability;
    HeaderBytes(source, destination, cluster, n);
    OtherAttributeBytes();
    var d, a := DeviceCapability(), Availability();
    EncodeTwo(d, a);
    EncodeAllAppend([d, a], Announcements(services));
    assert ServiceDiscoveryHeader() == [4, 9, 0x50, 0x6f, 0x9a, 0x13];
  }

  /** The descriptor of an announced service: its control byte says publish or subscribe, and 16 more with information. */
  lemma AnnouncementBytes(s: ServiceView)
    ensures var kind := if s.parameters.Subscribed? then 1 else 0;
            Descriptor(s).id == 3 &&
            Descriptor(s).body
            == s.serviceId + [s.instanceId, 0]
               + (if s.info.Some? && |s.info.value| < 256 then [kind + 16, |s.info.value|] + s.info.value else [kind])
    ensures Extension(s).id == 14 &&
            Extension(s).body
            == [s.instanceId, 0] + (if s.parameters.Published? then [2, s.serviceUpdateIndicator] else [0])
               + if s.info.Some? && |s.info.value| >= 256 then ToLE(|s.info.value|, 2) + s.info.value else []
  {
    hide ToLE;
  }

  /** A follow-up is a descriptor of kind 2; it has no update indicator but in the extension for long information. */
  lemma FollowUpBytes(s: ServiceView, requestor: u8, info: Option<seq<u8>>)
    ensures var a := FollowUpAttributes(s, requestor, info);
            var long := info.Some? && |info.value| >= 256;
            |a| == (if long then 2 else 1) && a[0].id == 3 &&
            a[0].body
            == s.serviceId + [s.instanceId, requestor]
               + (if info.Some? && !long then [18, |info.value|] + info.value else [2]) &&
            (long ==> a[1].id == 14 && a[1].body == Extension(s.(info := info)).body)
  {
    hide ToLE;
  }
}
