/** What the attribute loop of src/rx.c makes of a byte string, said without a cursor. */
module Attributes {
  import opened Words
  import opened MasterRank
  import opened Services
  import opened Peers
  import opened Frames

  const RX_OK := 0
  const RX_IGNORE := 1
  const RX_IGNORE_FROM_SELF := 2
  const RX_IGNORE_FAILED_CRC := 4
  const RX_IGNORE_OUI := 7
  const RX_TOO_SHORT := -1
  const RX_UNEXPECTED_FORMAT := -2
  const RX_UNEXPECTED_TYPE := -3

  // ---------------------------------------------------------------- splitting

  /** A byte string that begins with an attribute and all of its body. */
  predicate Whole(bs: seq<u8>) { |bs| >= 3 && 3 + FromLE(bs[1..3]) <= |bs| }

  function First(bs: seq<u8>): Attribute
    requires Whole(bs)
  {
    Attribute(bs[0], bs[3..3 + FromLE(bs[1..3])])
  }

  function Behind(bs: seq<u8>): seq<u8>
    requires Whole(bs)
  {
    bs[3 + FromLE(bs[1..3])..]
  }

  /** The attributes that are there as wholes, up to the first that is not. */
  function Complete(bs: seq<u8>): seq<Attribute>
    decreases |bs|
  {
    if Whole(bs) then [First(bs)] + Complete(Behind(bs)) else []
  }

  function Trailing(bs: seq<u8>): seq<u8>
    decreases |bs|
  {
    if Whole(bs) then Trailing(Behind(bs)) else bs
  }

  /** The length of a body can be said in two bytes. */
  predicate Sayable(attributes: seq<Attribute>) { forall a <- attributes :: |a.body| < 0x1_0000 }

  lemma EncodedIsWhole(a: Attribute, more: seq<u8>)
    requires |a.body| < 0x1_0000
    ensures var bs := Encode(a) + more; Whole(bs) && First(bs) == a && Behind(bs) == more
  {
    var bs := Encode(a) + more;
    assert bs[1..3] == ToLE(|a.body|, 2);
    PowValues();
    ValueRoundTrip(|a.body|, 2);
  }

  lemma WholeIsEncoded(bs: seq<u8>)
    requires Whole(bs)
    ensures bs == Encode(First(bs)) + Behind(bs) && |First(bs).body| < 0x1_0000
  {
    FromLEBound(bs[1..3]);
    PowValues();
    BytesRoundTrip(bs[1..3], []);
    assert bs[1..3] + [] == bs[1..3];
  }

  /** Splitting undoes encoding. */
  lemma {:induction false} SplitOfEncoded(attributes: seq<Attribute>, rest: seq<u8>)
    requires Sayable(attributes) && !Whole(rest)
    ensures Complete(EncodeAll(attributes) + rest) == attributes && Trailing(EncodeAll(attributes) + rest) == rest
    decreases |attributes|
  {
    hide Whole, First, Behind, Encode;
    if attributes == [] {
      assert EncodeAll(attributes) + rest == rest;
    } else {
      var more := EncodeAll(attributes[1..]) + rest;
      EncodedIsWhole(attributes[0], more);
      assert Encode(attributes[0]) + EncodeAll(attributes[1..]) + rest == Encode(attributes[0]) + more;
      SplitOfEncoded(attributes[1..], rest);
    }
  }

  /** Every byte string is some attributes and a rest that does not begin with a whole one. */
  lemma {:induction false} EncodedOfSplit(bs: seq<u8>)
    ensures bs == EncodeAll(Complete(bs)) + Trailing(bs) && Sayable(Complete(bs)) && !Whole(Trailing(bs))
    decreases |bs|
  {
    hide Encode;
    if Whole(bs) {
      EncodedOfSplit(Behind(bs));
      WholeIsEncoded(bs);
      var a := Complete(bs);
      assert a[1..] == Complete(Behind(bs));
      assert Encode(a[0]) + (EncodeAll(a[1..]) + Trailing(bs)) == Encode(a[0]) + EncodeAll(a[1..]) + Trailing(bs);
    } else {
      assert EncodeAll([]) + bs == bs;
    }
  }

  // ---------------------------------------------------------------- the loop

  /** Attributes are handled in order until one fails. */
  function Handled<S>(handle: (S, Attribute) -> (S, int), s: S, attributes: seq<Attribute>): (S, int)
    decreases |attributes|
  {
    if attributes == [] then (s, RX_OK)
    else
      var before := Handled(handle, s, attributes[..|attributes| - 1]);
      if before.1 < 0 then before else handle(before.0, attributes[|attributes| - 1])
  }

  lemma {:induction false} HandledStops<S>(handle: (S, Attribute) -> (S, int), s: S, a: seq<Attribute>, b: seq<Attribute>)
    requires Handled(handle, s, a).1 < 0
    ensures Handled(handle, s, a + b) == Handled(handle, s, a)
    decreases |b|
  {
    if b == [] {
      assert a + b == a;
    } else {
      var n := |b| - 1;
      assert (a + b)[..|a + b| - 1] == a + b[..n];
      HandledStops(handle, s, a, b[..n]);
    }
  }

  lemma HandledNothing<S>(handle: (S, Attribute) -> (S, int), s: S)
    ensures Handled(handle, s, []) == (s, RX_OK)
  {}

  lemma HandledNext<S>(handle: (S, Attribute) -> (S, int), s: S, a: seq<Attribute>, next: Attribute)
    requires Handled(handle, s, a).1 >= 0
    ensures Handled(handle, s, a + [next]) == handle(Handled(handle, s, a).0, next)
  {
    assert (a + [next])[..|a + [next]| - 1] == a;
  }

  /**
   * How many bytes of a rest without a whole attribute remain when the reader gives up: it may have passed over the
   * id, the length and, where the length cannot be read, as many bytes as the length before it said.
   */
  function Unread(rest: seq<u8>, lastLength: u16): nat {
    if |rest| <= 1 then 0
    else if |rest| == 2 then if lastLength == 1 then 0 else 1
    else |rest| - 3
  }

  /** What the length variable of the loop holds, in its 16 bits. */
  function LastLength(attributes: seq<Attribute>, unset: u16): u16 {
    if attributes == [] then unset else Wrap16(|attributes[|attributes| - 1].body|)
  }

  /** The attribute loop; `unset` is what its length variable holds at the start. */
  function Iterate<S>(handle: (S, Attribute) -> (S, int), s: S, bs: seq<u8>, unset: u16): (S, int) {
    var (last, result) := Handled(handle, s, Complete(bs));
    if result < 0 then (last, result)
    else if Unread(Trailing(bs), LastLength(Complete(bs), unset)) == 0 then (last, RX_OK)
    else (last, RX_UNEXPECTED_FORMAT)
  }

  /** One turn of the loop. */
  lemma LoopStep<S>(handle: (S, Attribute) -> (S, int), s: S, bs: seq<u8>, done: seq<Attribute>, rest: seq<u8>)
    requires Complete(bs) == done + Complete(rest) && Trailing(bs) == Trailing(rest)
    requires Handled(handle, s, done).1 >= 0
    ensures Whole(rest) ==>
              var next := done + [First(rest)];
              Complete(bs) == next + Complete(Behind(rest)) && Trailing(bs) == Trailing(Behind(rest)) &&
              Handled(handle, s, next) == handle(Handled(handle, s, done).0, First(rest)) &&
              (Handled(handle, s, next).1 < 0 ==> Handled(handle, s, Complete(bs)) == Handled(handle, s, next)) &&
              |Behind(rest)| < |rest| && Wrap16(|First(rest).body|) == |First(rest).body|
    ensures !Whole(rest) ==> Complete(bs) == done && Trailing(bs) == rest
  {
    hide Handled, First, Behind, Whole;
    if Whole(rest) {
      WholeIsEncoded(rest);
      HandledNext(handle, s, done, First(rest));
      if Handled(handle, s, done + [First(rest)]).1 < 0 {
        HandledStops(handle, s, done + [First(rest)], Complete(Behind(rest)));
      }
    }
  }

  /** The endings that the loop takes for the end of a well-formed frame. */
  predicate AcceptedRest(rest: seq<u8>, lastLength: u16) {
    rest == [] || |rest| == 1 || (|rest| == 2 && lastLength == 1) || (|rest| == 3 && FromLE(rest[1..3]) > 0)
  }

  /**
   * The loop succeeds on exactly these byte strings: attributes that can be handled, and then nothing, one byte, an
   * attribute header whose whole body is missing, or two bytes behind a body of length one.
   */
  lemma LoopAccepts<S>(handle: (S, Attribute) -> (S, int), s: S, bs: seq<u8>, unset: u16)
    ensures Iterate(handle, s, bs, unset).1 == RX_OK <==>
            exists attributes, rest ::
              bs == EncodeAll(attributes) + rest && Sayable(attributes) && Handled(handle, s, attributes).1 >= 0 &&
              AcceptedRest(rest, LastLength(attributes, unset))
  {
    hide EncodeAll, Handled;
    EncodedOfSplit(bs);
    if Iterate(handle, s, bs, unset).1 == RX_OK {
      var attributes, rest := Complete(bs), Trailing(bs);
      assert AcceptedRest(rest, LastLength(attributes, unset));
    }
    if attributes, rest :|
      bs == EncodeAll(attributes) + rest && Sayable(attributes) && Handled(handle, s, attributes).1 >= 0 &&
      AcceptedRest(rest, LastLength(attributes, unset))
    {
      SplitOfEncoded(attributes, rest);
    }
  }

  /** On the bytes of attributes and nothing else, the loop handles just these attributes. */
  lemma LoopOnEncoded<S>(handle: (S, Attribute) -> (S, int), s: S, attributes: seq<Attribute>, unset: u16)
    requires Sayable(attributes) && Handled(handle, s, attributes).1 >= 0
    ensures Iterate(handle, s, EncodeAll(attributes), unset) == (Handled(handle, s, attributes).0, RX_OK)
  {
    hide EncodeAll, Handled;
    SplitOfEncoded(attributes, []);
    assert EncodeAll(attributes) + [] == EncodeAll(attributes);
  }

  // ---------------------------------------------------------------- the attributes of a beacon

  function HandleBeacon(p: PeerView, a: Attribute): (PeerView, int) {
    if a.id == MASTER_INDICATION_ATTRIBUTE then
      if |a.body| < 2 then (p, RX_TOO_SHORT) else (WithIndication(p, a.body[0], a.body[1]), RX_OK)
    else if a.id == CLUSTER_ATTRIBUTE then
      if |a.body| < 13 then (p, RX_TOO_SHORT)
      else
        FromLEBound(a.body[..8]);
        FromLEBound(a.body[9..13]);
        PowValues();
        (WithAnchor(p, FromLE(a.body[..8]), FromLE(a.body[9..13]), a.body[8]), RX_OK)
    else (p, RX_IGNORE)
  }

  // ---------------------------------------------------------------- service descriptors

  /** The information of an extension; a stated length below four wraps around and leaves no bytes to point to. */
  datatype ExtensionInfo = NoInfo | Info(bytes: seq<u8>) | WrappedInfo(length: u64)

  datatype DescriptorExtension =
    DescriptorExtension(instanceId: u8, control: u16, updateIndicator: Option<u8>, info: ExtensionInfo)

  predicate Bit(control: nat, weight: nat)
    requires weight > 0
  {
    control / weight % 2 == 1
  }

  /** The rest behind `n` bytes. */
  function Past(rest: Option<seq<u8>>, n: nat): Option<seq<u8>> {
    if rest.None? || |rest.value| < n then None else Some(rest.value[n..])
  }

  /** The rest behind a length byte and as many bytes. */
  function PastCounted(rest: Option<seq<u8>>): Option<seq<u8>> {
    if rest.None? || rest.value == [] then None else Past(rest, rest.value[0] as int + 1)
  }

  /** The bytes that a length byte counts. */
  function Counted(rest: Option<seq<u8>>): Option<seq<u8>> {
    if PastCounted(rest).None? then None else Some(rest.value[1..1 + rest.value[0] as int])
  }

  /** Binding bitmap, matching filter and response filter are passed over where the control byte announces them. */
  function BehindFilters(control: u8, rest: Option<seq<u8>>): Option<seq<u8>> {
    var r1 := Past(rest, if Bit(control, 0x40) then 2 else 0);
    var r2 := if Bit(control, 0x4) then PastCounted(r1) else r1;
    if Bit(control, 0x8) then PastCounted(r2) else r2
  }

  function ParseDescriptor(body: seq<u8>): Option<ServiceDescriptor> {
    if |body| < 9 then None
    else
      var rest := BehindFilters(body[8], Some(body[9..]));
      var info := Counted(rest);
      if rest.None? || (Bit(body[8], 0x10) && info.None?) then None
      else Some(ServiceDescriptor(body[..6], body[6], body[7], body[8], if Bit(body[8], 0x10) then info else None))
  }

  /** The part of an extension before the information, and what comes behind it. */
  function ParseExtensionControl(body: seq<u8>): Option<(DescriptorExtension, seq<u8>)> {
    if |body| < 3 then None
    else
      FromLEBound(body[1..3]);
      PowValues();
      var control: u16 := FromLE(body[1..3]);
      var r1 := Past(Some(body[3..]), if Bit(control, 0x100) then 4 else 0);
      var r2 := Past(r1, if Bit(control, 0x200) then 1 else 0);
      if r2.None? then None
      else
        Some((DescriptorExtension(body[0], control, if Bit(control, 0x200) then Some(r1.value[0]) else None, NoInfo), r2.value))
  }

  function ParseExtension(body: seq<u8>): Option<DescriptorExtension> {
    var start := ParseExtensionControl(body);
    if start.None? then None
    else
      var info := ParseExtensionInfo(start.value.1);
      if info.None? then None else Some(start.value.0.(info := info.value))
  }

  /** At most two bytes are no information; otherwise length, OUI and protocol type come before it. */
  function ParseExtensionInfo(rest: seq<u8>): Option<ExtensionInfo> {
    if |rest| <= 2 then Some(NoInfo)
    else if |rest| < 6 then None
    else
      var length := FromLE(rest[..2]);
      if length < 4 then Some(WrappedInfo(Wrap64(length - 4)))
      else if |rest| < length + 2 then None
      else Some(Info(rest[6..length + 2]))
  }

  datatype Received = Received(descriptors: seq<ServiceDescriptor>, extensions: seq<DescriptorExtension>)

  function HandleDiscovery(s: Received, a: Attribute): (Received, int) {
    if a.id == SERVICE_DESCRIPTOR_ATTRIBUTE then
      match ParseDescriptor(a.body)
      case None => (s, RX_TOO_SHORT)
      case Some(d) => (s.(descriptors := s.descriptors + [d]), RX_OK)
    else if a.id == SERVICE_DESCRIPTOR_EXTENSION_ATTRIBUTE then
      match ParseExtension(a.body)
      case None => (s, RX_TOO_SHORT)
      case Some(e) => (s.(extensions := s.extensions + [e]), RX_OK)
    else (s, RX_IGNORE)
  }

  // ---------------------------------------------------------------- frame headers

  datatype Head = Rejected(result: int) | Beacon(kind: BeaconType, timestamp: u64, attributes: seq<u8>)

  /** The fixed part of a beacon and what follows it. */
  function ParseHead(bs: seq<u8>): Head {
    if |bs| < 18 then Rejected(RX_TOO_SHORT)
    else if bs[14..17] != NAN_OUI || bs[17] != NAN_OUI_TYPE_BEACON then Rejected(RX_IGNORE_OUI)
    else
      FromLEBound(bs[..8]);
      PowValues();
      if FromLE(bs[8..10]) == NAN_SYNC_BEACON_INTERVAL_TU then Beacon(SyncBeacon, FromLE(bs[..8]), bs[18..])
      else if FromLE(bs[8..10]) == NAN_DISCOVERY_BEACON_INTERVAL_TU then Beacon(DiscoveryBeacon, FromLE(bs[..8]), bs[18..])
      else Rejected(RX_UNEXPECTED_TYPE)
  }

  datatype Opened = Refused(result: int)
                  | Opened(frameControl: u16, destination: EtherAddr, source: EtherAddr, cluster: EtherAddr, body: seq<u8>)

  /** The radiotap flags say whether the frame ends in an FCS and whether the hardware found it wrong. */
  function WithoutFcs(bs: seq<u8>, flags: u8): Opened {
    if Bit(flags, 0x40) || (Bit(flags, 0x10) && |bs| < 4) then Refused(RX_IGNORE_FAILED_CRC)
    else
      var rest := if Bit(flags, 0x10) then bs[..|bs| - 4] else bs;
      if |rest| < 24 then Refused(RX_TOO_SHORT)
      else
        FromLEBound(rest[..2]);
        PowValues();
        Opened(FromLE(rest[..2]), rest[4..10], rest[10..16], rest[16..22], rest[24..])
  }

  /** What the receiver makes of a frame before it looks at the type; length and flags are those of the radiotap header. */
  function OpenFrame(bs: seq<u8>, headerLength: u16, flags: u8, self: EtherAddr): Opened {
    if |bs| < headerLength then Refused(RX_UNEXPECTED_FORMAT)
    else
      var o := WithoutFcs(bs[headerLength..], flags);
      if o.Opened? && o.source == self then Refused(RX_IGNORE_FROM_SELF) else o
  }
}
