/** Follow-up frames on their way out: nan_transmit of src/tx.c and the drain of daemon/core.c. */
module Transmit {
  import opened Words
  import opened MasterRank
  import opened Services
  import opened Frames
  import opened Wire
  import opened Tx
  import opened CircularBuffers

  lemma FollowUpSize(s: ServiceView, requestor: u8, info: Option<seq<u8>>)
    ensures var a := FollowUpAttributes(s, requestor, info);
            9 <= |a[0].body| <= 10 + (if Long(info) then 0 else InfoLength(info)) &&
            (Long(info) ==> |a[1].body| <= 6 + InfoLength(info)) &&
            |EncodeAll(a)| == |Encode(a[0])| + if Long(info) then |Encode(a[1])| else 0
  {
    hide Encode;
    var a := FollowUpAttributes(s, requestor, info);
    if Long(info) {
      assert a == [a[0], a[1]];
      EncodeTwo(a[0], a[1]);
    } else {
      assert a == [a[0]] && a[1..] == [];
      assert EncodeAll(a) == Encode(a[0]) + [];
    }
  }

  /** The follow-up grows by its attributes. */
  lemma FollowUpFrame(fcs: bool, source: EtherAddr, destination: EtherAddr, cluster: EtherAddr, n: u32, s: ServiceView,
                      requestor: u8, info: Option<seq<u8>>)
    ensures var a := FollowUpAttributes(s, requestor, info);
            var start := ServiceDiscoveryFrame(fcs, source, destination, cluster, n, []);
            ServiceDiscoveryFrame(fcs, source, destination, cluster, n, a)
            == if Long(info) then start + Encode(a[0]) + Encode(a[1]) else start + Encode(a[0])
    ensures |ServiceDiscoveryFrame(fcs, source, destination, cluster, n, [])| == |Radiotap(fcs)| + 30
  {
    hide Encode, ServiceDiscoveryFrame, DescriptorBody, ExtensionBody;
    var a := FollowUpAttributes(s, requestor, info);
    if Long(info) {
      assert [] + [a[0], a[1]] == a;
      FrameSteps(fcs, source, destination, cluster, n, [], a[0], a[1]);
    } else {
      assert [] + a == a && a[1..] == [];
      FrameGrows(fcs, source, destination, cluster, n, [], a);
      assert EncodeAll(a) == Encode(a[0]) + [] == Encode(a[0]);
    }
  }

  /** The frame that nan_transmit builds. */
  method BuildFollowUp(state: Ieee80211State, source: EtherAddr, destination: EtherAddr, cluster: EtherAddr,
                       s: ServiceView, requestor: u8, info: Option<seq<u8>>) returns (buf: Buf)
    requires InfoLength(info) <= 65000
    modifies state`sequenceNumber
    ensures fresh(buf) && buf.Valid() && buf.error == 0
    ensures buf.Written()
            == WithFcs(ServiceDiscoveryFrame(state.fcs, source, destination, cluster, old(state.sequenceNumber),
                                             FollowUpAttributes(s, requestor, info)), state.fcs)
    ensures state.sequenceNumber == Wrap32(old(state.sequenceNumber) + 1)
  {
    hide Encode, ServiceDiscoveryFrame, DescriptorBody, ExtensionBody, Fcs, Buf.Written;
    FollowUpSize(s, requestor, info);
    FollowUpFrame(state.fcs, source, destination, cluster, state.sequenceNumber, s, requestor, info);
    buf := new Buf.Owned(BUF_MAX_LENGTH);
    AddServiceDiscoveryHeader(buf, state, source, destination, cluster);
    assert buf.Written() == ServiceDiscoveryFrame(state.fcs, source, destination, cluster, old(state.sequenceNumber), []);
    var _ := AddServiceDescriptorAttribute(buf, s.serviceId, s.instanceId, FollowUp, requestor, info);
    if info.Some? && |info.value| >= 256 {
      var _ := AddServiceDescriptorExtensionAttribute(buf, s, info);
    }
    if state.fcs {
      AddFcs(buf);
    }
  }

  /**
   * nan_transmit: a frame for a known service goes to the end of the buffer, if the buffer is not full. With an unknown
   * service nothing happens, not even a sequence number is used.
   */
  method NanTransmit(services: ServiceState, state: Ieee80211State, buffer: CircularBuffer<Buf?>, source: EtherAddr,
                     destination: EtherAddr, cluster: EtherAddr, instanceId: u8, requestor: u8, info: Option<seq<u8>>)
    returns (result: int, ghost frame: seq<u8>)
    requires buffer.Valid() && InfoLength(info) <= 65000
    modifies state`sequenceNumber, buffer, buffer.buffer
    ensures buffer.Valid()
    ensures result == 0 ==>
              |buffer.Contents()| > 0 &&
              var buf := buffer.Contents()[|buffer.Contents()| - 1];
              buf != null && buf.Valid() && buf.Written() == frame &&
              buffer.Whole() == Apply(old(buffer.Whole()), Put(buf), buffer.buffer.Length)
    ensures result != 0 ==> result == -1 && buffer.Whole() == old(buffer.Whole())
    ensures var p, s := Views(services.publishedServices), Views(services.subscribedServices);
            if forall t <- p + s :: t.instanceId != instanceId
            then result == -1 && state.sequenceNumber == old(state.sequenceNumber)
            else (result == 0 <==> |old(buffer.Contents())| < buffer.buffer.Length) &&
                 state.sequenceNumber == Wrap32(old(state.sequenceNumber) + 1) &&
                 exists t :: GoesBy(p, s, instanceId, t) &&
                             frame == WithFcs(ServiceDiscoveryFrame(
                                                state.fcs, source, destination, cluster, old(state.sequenceNumber),
                                                FollowUpAttributes(t, requestor, info)), state.fcs)
  {
    hide ServiceDiscoveryFrame, FollowUpAttributes, WithFcs, Buf.Written, CircularBuffer.Contents, GoesBy, Views, Buf.Valid;
    frame := [];
    var service := services.GetServiceByInstanceId(instanceId);
    if service == null {
      return -1, [];
    }
    GoesByIsThere(Views(services.publishedServices), Views(services.subscribedServices), instanceId, service.View());
    var buf := BuildFollowUp(state, source, destination, cluster, service.View(), requestor, info);
    frame := buf.Written();
    result := buffer.Put(buf);
  }
}
