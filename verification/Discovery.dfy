/** Received service discovery frames and the services they concern: nan_rx_action and nan_rx_service_discovery of src/rx.c. */
module Discovery {
  import opened Words
  import opened MasterRank
  import opened Frames
  import opened Wire
  import opened Attributes
  import opened Rx
  import opened RoundTrip
  import S = Services
  import opened Services
  import opened PeerTables

  // ---------------------------------------------------------------- the kind of an action frame

  datatype Action = ServiceDiscovery(attributes: seq<u8>) | OtherAction | Ignored(result: int)

  /** A service discovery header is a byte shorter than what an action frame must have at least. */
  function ParseAction(bs: seq<u8>): Action {
    if |bs| < 7 then Ignored(RX_TOO_SHORT)
    else if bs[2..5] != NAN_OUI then Ignored(RX_IGNORE_OUI)
    else if bs[5] == NAN_OUI_TYPE_SERVICE_DISCOVERY then ServiceDiscovery(bs[6..])
    else if bs[5] == NAN_OUI_TYPE_ACTION then OtherAction
    else Ignored(RX_IGNORE)
  }

  /** The sender of a frame with the right OUI is entered into the peer table, whatever the frame is. */
  predicate NamesSender(bs: seq<u8>) { |bs| >= 7 && bs[2..5] == NAN_OUI }

  // ---------------------------------------------------------------- descriptors as events

  /** Only subscribes change the published services. */
  function Subscribes(ds: seq<ServiceDescriptor>): seq<S.Event> {
    if ds == [] then []
    else
      var n := |ds| - 1;
      Subscribes(ds[..n]) + if TypeOf(ds[n]) == 1 then [ReceivedSubscribe(ds[n].serviceId)] else []
  }

  lemma RunMore(services: seq<ServiceView>, es: seq<S.Event>, e: S.Event)
    ensures S.Run(services, es + [e]) == S.Step(S.Run(services, es), e)
  {
    assert (es + [e])[..|es + [e]| - 1] == es;
  }

  lemma OneMore(services: seq<ServiceView>, ds: seq<ServiceDescriptor>, k: nat)
    requires k < |ds|
    ensures S.Run(services, Subscribes(ds[..k + 1]))
            == if TypeOf(ds[k]) == 1 then S.Step(S.Run(services, Subscribes(ds[..k])), ReceivedSubscribe(ds[k].serviceId))
               else S.Run(services, Subscribes(ds[..k]))
  {
    hide S.Run, S.Step;
    assert ds[..k + 1][..k] == ds[..k];
    if TypeOf(ds[k]) == 1 {
      RunMore(services, Subscribes(ds[..k]), ReceivedSubscribe(ds[k].serviceId));
    } else {
      assert Subscribes(ds[..k + 1]) == Subscribes(ds[..k]) + [] == Subscribes(ds[..k]);
    }
  }

  /** What each descriptor reports, from the state that the descriptors before it left. */
  ghost predicate AllReported(ds: seq<ServiceDescriptor>, forUs: bool, published: seq<ServiceView>,
                              subscribed: seq<ServiceView>, reports: seq<Report>)
  {
    |reports| <= |ds| &&
    forall j | 0 <= j < |reports| ::
      Reported(ds[j], forUs, S.Run(published, Subscribes(ds[..j])), subscribed, reports[j])
  }

  lemma ReportsGrow(ds: seq<ServiceDescriptor>, forUs: bool, published: seq<ServiceView>, subscribed: seq<ServiceView>,
                    reports: seq<Report>, r: Report)
    requires AllReported(ds, forUs, published, subscribed, reports) && |reports| < |ds|
    requires Reported(ds[|reports|], forUs, S.Run(published, Subscribes(ds[..|reports|])), subscribed, r)
    ensures AllReported(ds, forUs, published, subscribed, reports + [r])
  {
    hide S.Run, S.Reported;
  }

  lemma NothingReported(ds: seq<ServiceDescriptor>, forUs: bool, published: seq<ServiceView>, subscribed: seq<ServiceView>)
    ensures AllReported(ds, forUs, published, subscribed, [])
  {}

  /** The loop over the descriptors at the end of nan_rx_service_discovery. */
  method HandleAll(services: ServiceState, ds: seq<ServiceDescriptor>, selfAddress: EtherAddr, destination: EtherAddr)
    returns (reports: seq<Report>)
    requires services.Valid()
    modifies services.publishedServices
    ensures services.Valid() && |reports| == |ds|
    ensures S.Views(services.publishedServices) == S.Run(old(S.Views(services.publishedServices)), Subscribes(ds))
    ensures AllReported(ds, selfAddress == destination, old(S.Views(services.publishedServices)),
                        old(S.Views(services.subscribedServices)), reports)
  {
    hide S.Run, S.Step, S.Reported, S.Views, ServiceState.Valid, AllReported;
    ghost var was, others := S.Views(services.publishedServices), S.Views(services.subscribedServices);
    reports := [];
    RunNothing(was);
    NothingReported(ds, selfAddress == destination, was, others);
    for i := 0 to |ds|
      invariant services.Valid() && |reports| == i
      invariant S.Views(services.publishedServices) == S.Run(was, Subscribes(ds[..i]))
      invariant S.Views(services.subscribedServices) == others
      invariant AllReported(ds, selfAddress == destination, was, others, reports)
    {
      OneMore(was, ds, i);
      var report := services.HandleReceived(ds[i], selfAddress, destination);
      ReportsGrow(ds, selfAddress == destination, was, others, reports, report);
      reports := reports + [report];
    }
    assert ds[..|ds|] == ds;
  }

  /** What the attributes of a service discovery frame come to: result, published services and reports. */
  ghost predicate Discovered(attributes: seq<u8>, unset: u16, was: seq<ServiceView>, others: seq<ServiceView>, forUs: bool,
                             result: int, published: seq<ServiceView>, reports: seq<Report>)
  {
    var (found, r) := Iterate(HandleDiscovery, Received([], []), attributes, unset);
    result == r &&
    if r < 0 then published == was && reports == []
    else published == S.Run(was, Subscribes(found.descriptors)) && |reports| == |found.descriptors| &&
         AllReported(found.descriptors, forUs, was, others, reports)
  }

  /** What an action frame behind the 802.11 header comes to. */
  ghost predicate ActionReceived(bs: seq<u8>, unset: u16, was: seq<ServiceView>, others: seq<ServiceView>, forUs: bool,
                                 result: int, published: seq<ServiceView>, reports: seq<Report>)
  {
    match ParseAction(bs)
    case Ignored(r) => result == r && published == was && reports == []
    case OtherAction => result == RX_OK && published == was && reports == []
    case ServiceDiscovery(attributes) => Discovered(attributes, unset, was, others, forUs, result, published, reports)
  }

  /** nan_rx_service_discovery: a frame with a malformed attribute reaches no service. */
  method RxServiceDiscovery(frame: Buf, services: ServiceState, selfAddress: EtherAddr, destination: EtherAddr)
    returns (result: int, reports: seq<Report>, ghost unset: u16)
    requires frame.Valid() && frame.error == 0 && services.Valid()
    modifies frame`current, frame`error, services.publishedServices
    ensures services.Valid()
    ensures Discovered(old(frame.Left().bytes), unset, old(S.Views(services.publishedServices)),
                       old(S.Views(services.subscribedServices)), selfAddress == destination, result,
                       S.Views(services.publishedServices), reports)
  {
    hide Iterate, HandleDiscovery, S.Run, AllReported, S.Views, ServiceState.Valid;
    var descriptors, extensions;
    result, descriptors, extensions, unset := IterateDiscovery(frame);
    if result < 0 {
      return result, [], unset;
    }
    reports := HandleAll(services, descriptors, selfAddress, destination);
  }

  /** nan_rx_action, behind the 802.11 header. */
  method RxAction(frame: Buf, peers: PeerTable, services: ServiceState, selfAddress: EtherAddr, source: EtherAddr,
                  destination: EtherAddr, cluster: EtherAddr, now: u64)
    returns (result: int, reports: seq<Report>, ghost unset: u16)
    requires frame.Valid() && frame.error == 0 && services.Valid() && peers.Valid()
    modifies frame`current, frame`error, services.publishedServices
    modifies peers`addCalls, peers`known, peers.peers, peers.peers.spine, peers.known
    ensures services.Valid() && peers.Valid()
    ensures var bs := old(frame.Left().bytes);
            peers.View() == if NamesSender(bs) then Added(old(peers.View()), source, cluster, now) else old(peers.View())
    ensures ActionReceived(old(frame.Left().bytes), unset, old(S.Views(services.publishedServices)),
                           old(S.Views(services.subscribedServices)), selfAddress == destination, result,
                           S.Views(services.publishedServices), reports)
  {
    hide Added, S.Views, ServiceState.Valid, PeerTable.Valid, Discovered, PeerTables.Known;
    if frame.Room() < 7 {
      return RX_TOO_SHORT, [], 0;
    }
    var at := frame.current;
    Inside(frame.data, at, frame.end, 2, 5);
    if frame.data[at + 2..at + 5] != NAN_OUI {
      return RX_IGNORE_OUI, [], 0;
    }
    var _ := peers.Add(source, cluster, now);
    result, reports, unset := DispatchAction(frame, services, selfAddress, destination);
  }

  /** The type of an action frame with the right OUI. */
  method DispatchAction(frame: Buf, services: ServiceState, selfAddress: EtherAddr, destination: EtherAddr)
    returns (result: int, reports: seq<Report>, ghost unset: u16)
    requires frame.Valid() && frame.error == 0 && services.Valid() && NamesSender(frame.Left().bytes)
    modifies frame`current, frame`error, services.publishedServices
    ensures services.Valid()
    ensures ActionReceived(old(frame.Left().bytes), unset, old(S.Views(services.publishedServices)),
                           old(S.Views(services.subscribedServices)), selfAddress == destination, result,
                           S.Views(services.publishedServices), reports)
  {
    hide S.Views, ServiceState.Valid, Discovered;
    ghost var bs := frame.Left().bytes;
    var ouiType := frame.data[frame.current + 5];
    assert ouiType == bs[5];
    if ouiType == NAN_OUI_TYPE_SERVICE_DISCOVERY {
      var _ := frame.Advance(6);
      result, reports, unset := RxServiceDiscovery(frame, services, selfAddress, destination);
      return;
    }
    if ouiType != NAN_OUI_TYPE_ACTION {
      return RX_IGNORE, [], 0;
    }
    var _ := frame.Advance(7);
    return RX_OK, [], 0;
  }

  lemma RunNothing(services: seq<ServiceView>)
    ensures S.Run(services, Subscribes([])) == services
  {}

  // ---------------------------------------------------------------- a subscribe is answered

  lemma {:induction false} SubscribesKeepIds(services: seq<ServiceView>, ds: seq<ServiceDescriptor>)
    ensures var after := S.Run(services, Subscribes(ds));
            |after| == |services| &&
            forall i | 0 <= i < |services| ::
              after[i].serviceId == services[i].serviceId && after[i].timeToLive == services[i].timeToLive &&
              (after[i].parameters.Published? <==> services[i].parameters.Published?) &&
              (services[i].parameters.Published? && services[i].parameters.doPublish ==> after[i].parameters.doPublish)
    decreases |ds|
  {
    hide S.Run;
    if ds == [] {
      RunNothing(services);
    } else {
      var n := |ds| - 1;
      SubscribesKeepIds(services, ds[..n]);
      OneMore(services, ds, n);
      assert ds[..n + 1] == ds;
    }
  }

  /** A subscribe among the descriptors leaves the first published service of its id asked for. */
  lemma {:induction false} SubscribeSolicits(services: seq<ServiceView>, ds: seq<ServiceDescriptor>, k: nat, i: nat)
    requires k < |ds| && TypeOf(ds[k]) == 1 && FirstWith(services, ds[k].serviceId, i) && services[i].parameters.Published?
    ensures var after := S.Run(services, Subscribes(ds));
            i < |after| && after[i].parameters.Published? && after[i].parameters.doPublish &&
            after[i].timeToLive == services[i].timeToLive
    decreases |ds|
  {
    hide S.Run;
    var n := |ds| - 1;
    OneMore(services, ds, n);
    assert ds[..n + 1] == ds;
    SubscribesKeepIds(services, ds[..n]);
    if k < n {
      SubscribeSolicits(services, ds[..n], k, i);
    }
  }

  /**
   * From one device to another: when a subscriber announces its services, a publisher that receives the frame will
   * announce its first service with a subscribed id in its next window, unless the time to live is used up. This is what
   * makes solicited publishing work, and for an unsolicited service it changes nothing.
   */
  lemma SubscriberIsAnswered(fcs: bool, source: EtherAddr, destination: EtherAddr, cluster: EtherAddr, n: u32,
                             theirs: seq<ServiceView>, flags: u8, self: EtherAddr, unset: u16,
                             ours: seq<ServiceView>, k: nat, i: nat)
    requires FlagsFor(flags, fcs) && source != self
    requires |EncodeAll(DiscoveryAttributes(theirs))| < 0x1_0000
    requires k < |theirs| && theirs[k].parameters.Subscribed?
    requires FirstWith(ours, theirs[k].serviceId, i) && ours[i].parameters.Published?
    ensures var o := OpenFrame(WithFcs(ServiceDiscoveryFrame(fcs, source, destination, cluster, n, DiscoveryAttributes(theirs)),
                                       fcs), |Radiotap(fcs)|, flags, self);
            o.Opened? && ParseAction(o.body).ServiceDiscovery? &&
            var (found, result) := Iterate(HandleDiscovery, Received([], []), ParseAction(o.body).attributes, unset);
            var after := S.Run(ours, Subscribes(found.descriptors));
            result == RX_OK && i < |after| && (ShouldAnnounce(after[i]) <==> ours[i].timeToLive != 0)
  {
    hide Iterate, Radiotap, NanHeader, EncodeAll, Fcs, OpenFrame, DiscoveryAttributes, ServiceDiscoveryFrame, S.Run;
    StartOfAttributes(theirs);
    OpensDiscovery(fcs, source, destination, cluster, n, DiscoveryAttributes(theirs), flags, self);
    ActionOfDiscovery(EncodeAll(DiscoveryAttributes(theirs)));
    DiscoveryRoundTrip(fcs, source, destination, cluster, n, theirs, flags, self, unset);
    var found := Iterate(HandleDiscovery, Received([], []), EncodeAll(DiscoveryAttributes(theirs)), unset).0;
    SubscribeSolicits(ours, found.descriptors, k, i);
  }

  /**
   * The other direction: when a publisher announces its services, a subscriber of one of them is told which instance
   * offers it, for its first subscribe with that id, and with the information unless that is too long for a descriptor.
   */
  lemma PublisherIsFound(fcs: bool, source: EtherAddr, destination: EtherAddr, cluster: EtherAddr, n: u32,
                         theirs: seq<ServiceView>, flags: u8, self: EtherAddr, unset: u16, forUs: bool,
                         published: seq<ServiceView>, subscribed: seq<ServiceView>, k: nat, i: nat, r: Report)
    requires FlagsFor(flags, fcs) && source != self
    requires |EncodeAll(DiscoveryAttributes(theirs))| < 0x1_0000
    requires k < |theirs| && theirs[k].parameters.Published? && FirstWith(subscribed, theirs[k].serviceId, i)
    ensures var o := OpenFrame(WithFcs(ServiceDiscoveryFrame(fcs, source, destination, cluster, n, DiscoveryAttributes(theirs)),
                                       fcs), |Radiotap(fcs)|, flags, self);
            o.Opened? && ParseAction(o.body).ServiceDiscovery? &&
            var (found, result) := Iterate(HandleDiscovery, Received([], []), ParseAction(o.body).attributes, unset);
            result == RX_OK && k < |found.descriptors| &&
            (Reported(found.descriptors[k], forUs, published, subscribed, r) <==>
             r == DiscoveryResult(theirs[k].instanceId, subscribed[i].instanceId, subscribed[i].serviceUpdateIndicator,
                                  if Long(theirs[k].info) then None else theirs[k].info))
  {
    hide Iterate, Radiotap, NanHeader, EncodeAll, Fcs, OpenFrame, DiscoveryAttributes, ServiceDiscoveryFrame, Reported;
    StartOfAttributes(theirs);
    OpensDiscovery(fcs, source, destination, cluster, n, DiscoveryAttributes(theirs), flags, self);
    ActionOfDiscovery(EncodeAll(DiscoveryAttributes(theirs)));
    DiscoveryRoundTrip(fcs, source, destination, cluster, n, theirs, flags, self, unset);
    var found := Iterate(HandleDiscovery, Received([], []), EncodeAll(DiscoveryAttributes(theirs)), unset).0;
    PublishReported(found.descriptors[k], forUs, published, subscribed, i, r);
  }

  lemma PublishReported(d: ServiceDescriptor, forUs: bool, published: seq<ServiceView>, subscribed: seq<ServiceView>, i: nat,
                        r: Report)
    requires d.control % 4 == 0 && FirstWith(subscribed, d.serviceId, i)
    ensures Reported(d, forUs, published, subscribed, r) <==>
            r == DiscoveryResult(d.instanceId, subscribed[i].instanceId, subscribed[i].serviceUpdateIndicator, d.info)
  {
    hide FirstWith;
    OnlyFirst(subscribed, d.serviceId);
  }

  lemma OnlyFirst(services: seq<ServiceView>, id: ServiceId)
    ensures forall i: nat, j: nat :: FirstWith(services, id, i) && FirstWith(services, id, j) ==> i == j
  {}

  /**
   * A follow-up sent to this device is delivered to the service with its id, subscribed ones first, with the sender's
   * instance and the information unless that is too long for a descriptor; sent to another device, it is not delivered.
   */
  lemma FollowUpIsDelivered(s: ServiceView, requestor: u8, info: Option<seq<u8>>, unset: u16, forUs: bool,
                            published: seq<ServiceView>, subscribed: seq<ServiceView>, i: nat, r: Report)
    requires |EncodeAll(FollowUpAttributes(s, requestor, info))| < 0x1_0000
    requires FirstWith(subscribed, s.serviceId, i) || (!HasId(subscribed, s.serviceId) && FirstWith(published, s.serviceId, i))
    ensures var (found, result) := Iterate(HandleDiscovery, Received([], []), EncodeAll(FollowUpAttributes(s, requestor, info)), unset);
            result == RX_OK && |found.descriptors| == 1 && found.descriptors[0].requestorInstanceId == requestor &&
            (Reported(found.descriptors[0], forUs, published, subscribed, r) <==>
             r == if !forUs then NoReport
                  else Receive((if FirstWith(subscribed, s.serviceId, i) then subscribed[i] else published[i]).instanceId,
                               s.instanceId, if Long(info) then None else info))
  {
    hide Iterate, EncodeAll, FollowUpAttributes, Reported, FirstWith;
    FollowUpRoundTrip(s, requestor, info, unset);
    FollowUpReported(Arrived(s.serviceId, s.instanceId, requestor, FollowUp, info), forUs, published, subscribed, i, r);
  }

  lemma FollowUpReported(d: ServiceDescriptor, forUs: bool, published: seq<ServiceView>, subscribed: seq<ServiceView>, i: nat,
                         r: Report)
    requires d.control % 4 == 2
    requires FirstWith(subscribed, d.serviceId, i) || (!HasId(subscribed, d.serviceId) && FirstWith(published, d.serviceId, i))
    ensures Reported(d, forUs, published, subscribed, r) <==>
            r == if !forUs then NoReport
                 else Receive((if FirstWith(subscribed, d.serviceId, i) then subscribed[i] else published[i]).instanceId,
                              d.instanceId, d.info)
  {
    OnlyFirst(subscribed, d.serviceId);
    OnlyFirst(published, d.serviceId);
    hide FirstWith;
  }

  lemma ActionOfDiscovery(attributes: seq<u8>)
    requires attributes != []
    ensures ParseAction(ServiceDiscoveryHeader() + attributes) == ServiceDiscovery(attributes)
    ensures (ServiceDiscoveryHeader() + attributes)[6..] == attributes
  {
    assert (ServiceDiscoveryHeader() + attributes)[2..5] == NAN_OUI;
    assert (ServiceDiscoveryHeader() + attributes)[6..] == attributes;
  }
}
