/** Published and subscribed services: src/service.c. */
module Services {
  import opened Words
  import Sha256
  import Sha256Spec
  import Sha256Vector

  const NAN_SERVICE_ID_LENGTH := 6

  type ServiceId = id: seq<u8> | |id| == 6 witness [0, 0, 0, 0, 0, 0]

  datatype PublishType = Unsolicited | Solicited | Both

  datatype SubscribeType = Passive | Active

  datatype Parameters =
    | Published(publishType: PublishType, doPublish: bool)
    | Subscribed(subscribeType: SubscribeType, isSubscribed: bool)

  /** The fields of a service at one moment; names are byte strings. */
  datatype ServiceView = ServiceView(
    serviceName: seq<u8>, instanceId: u8, serviceId: ServiceId, info: Option<seq<u8>>, serviceUpdateIndicator: u8,
    timeToLive: i32, parameters: Parameters)

  // ---------------------------------------------------------------- service ids

  function ToLower(c: u8): u8 { if 0x41 <= c <= 0x5a then c + 0x20 else c }

  function Lower(name: seq<u8>): (l: seq<u8>)
    ensures |l| == |name|
  {
    seq(|name|, i requires 0 <= i < |name| => ToLower(name[i]))
  }

  /** The first six bytes of the SHA-256 digest of the name in lower case. */
  function ServiceIdOf(name: seq<u8>): ServiceId { Sha256Spec.Digest(Lower(name))[..6] }

  /** Equal, or the upper and the lower case of one of the letters from A to Z. */
  predicate SameLetter(x: u8, y: u8) { x == y || (65 <= x <= 90 && y == x + 32) || (65 <= y <= 90 && x == y + 32) }

  predicate SameButForCase(a: seq<u8>, b: seq<u8>) { |a| == |b| && forall i | 0 <= i < |a| :: SameLetter(a[i], b[i]) }

  /**
   * What goes into the digest: the name but for the case of letters, without any upper-case letter, and the same for two
   * names exactly if they differ in nothing but case. Such names have the same id.
   */
  lemma CaseDoesNotMatter(a: seq<u8>, b: seq<u8>)
    ensures SameButForCase(Lower(a), a) && forall c <- Lower(a) :: !(65 <= c <= 90)
    ensures Lower(a) == Lower(b) <==> SameButForCase(a, b)
    ensures SameButForCase(a, b) ==> ServiceIdOf(a) == ServiceIdOf(b)
  {
    hide Sha256Spec.Digest;
    if SameButForCase(a, b) {
      assert Lower(a) == Lower(b);
    }
    if Lower(a) == Lower(b) {
      assert |a| == |b|;
      forall i | 0 <= i < |a| ensures SameLetter(a[i], b[i]) {
        assert Lower(a)[i] == ToLower(a[i]) && Lower(b)[i] == ToLower(b[i]);
      }
    }
  }

  /** The id of the service "ABC". */
  lemma IdOfName()
    ensures ServiceIdOf([65, 66, 67]) == [0xba, 0x78, 0x16, 0xbf, 0x8f, 0x01]
  {
    hide Sha256Spec.Digest;
    assert Lower([65, 66, 67]) == Sha256Vector.MESSAGE;
    Sha256Vector.DigestOfVector();
  }

  /** nan_service_id_create */
  method ServiceIdCreate(serviceName: seq<u8>) returns (serviceId: ServiceId)
    ensures serviceId == ServiceIdOf(serviceName)
  {
    hide Sha256Spec.Digest, Sha256Spec.HashBlocks;
    var lowerCaseName: seq<u8> := [];
    for i := 0 to |serviceName|
      invariant |lowerCaseName| == i && forall k | 0 <= k < i :: lowerCaseName[k] == ToLower(serviceName[k])
    {
      lowerCaseName := lowerCaseName + [ToLower(serviceName[i])];
    }
    assert lowerCaseName == Lower(serviceName);
    var hash := new u8[128];
    var context := new Sha256.Context();
    context.Update(lowerCaseName);
    assert context.Fed() == Lower(serviceName);
    context.Done(hash);
    assert hash[..32][..6] == hash[..6];
    return hash[..6];
  }

  /** increase_non_zero_id: ids go round and leave out zero. */
  function NextId(last: u8): (id: u8)
    ensures id != 0
  {
    if last == 0xff then 1 else last + 1
  }

  /** The `k`-th id that is given out, counted from one. */
  function NthId(k: nat): u8 { if k == 0 then 0 else NextId(NthId(k - 1)) }

  lemma {:induction false} NthIdValue(k: nat)
    requires k > 0
    ensures NthId(k) == (k - 1) % 255 + 1
  {
    if k > 1 {
      NthIdValue(k - 1);
    }
  }

  /** Two services get the same id exactly if a multiple of 255 services lies between them. */
  lemma IdsComeRound(i: nat, j: nat)
    requires 0 < i <= j
    ensures NthId(i) == NthId(j) <==> (j - i) % 255 == 0
  {
    hide NthId;
    NthIdValue(i);
    NthIdValue(j);
    SameRemainder(i - 1, j - 1);
  }

  lemma SameRemainder(x: nat, y: nat)
    requires x <= y
    ensures x % 255 == y % 255 <==> (y - x) % 255 == 0
  {
    var q, r, p, t := x / 255, x % 255, y / 255, y % 255;
    assert y - x == (t - r) + 255 * (p - q);
    MultipleOf255(t - r, p - q);
  }

  lemma MultipleOf255(d: int, q: int)
    requires -255 < d < 255
    ensures (d + 255 * q) % 255 == 0 <==> d == 0
  {
    if d >= 0 {
      assert (d + 255 * q) / 255 == q;
    } else {
      assert d + 255 * q == (d + 255) + 255 * (q - 1);
      assert (d + 255 * q) / 255 == q - 1;
    }
  }

  // ---------------------------------------------------------------- what is announced

  /** nan_should_announce_service */
  predicate ShouldAnnounce(s: ServiceView) {
    match s.parameters
    case Published(t, doPublish) => s.timeToLive != 0 && !(t == Solicited && !doPublish)
    case Subscribed(t, isSubscribed) => t != Passive && !isSubscribed && s.timeToLive != 0
  }

  /** What an announcement uses up; a negative time to live is no limit. */
  function AfterAnnouncement(s: ServiceView): ServiceView {
    s.(timeToLive := if s.timeToLive > 0 then s.timeToLive - 1 else s.timeToLive,
       parameters := if s.parameters.Published? then s.parameters.(doPublish := false) else s.parameters)
  }

  function AfterWindow(s: ServiceView): ServiceView { if ShouldAnnounce(s) then AfterAnnouncement(s) else s }

  function Announced(services: seq<ServiceView>): seq<ServiceView> {
    if services == [] then []
    else
      var n := |services| - 1;
      Announced(services[..n]) + if ShouldAnnounce(services[n]) then [services[n]] else []
  }

  /** A list is announced part by part, each service at most once and in its place. */
  lemma {:induction false} AnnouncedInOrder(a: seq<ServiceView>, b: seq<ServiceView>)
    ensures Announced(a + b) == Announced(a) + Announced(b)
    ensures |a| == 1 ==> Announced(a) == if ShouldAnnounce(a[0]) then a else []
    decreases |b|
  {
    hide ShouldAnnounce;
    assert a[..0] == [];
    if b == [] {
      assert a + b == a;
    } else {
      var n := |b| - 1;
      AnnouncedInOrder(a, b[..n]);
      assert (a + b)[..|a + b| - 1] == a + b[..n];
    }
  }

  function WindowPassed(services: seq<ServiceView>): (r: seq<ServiceView>)
    ensures |r| == |services|
  {
    seq(|services|, i requires 0 <= i < |services| => AfterWindow(services[i]))
  }

  /** Whether service `i` is the first with this id. */
  predicate FirstWith(services: seq<ServiceView>, id: ServiceId, i: nat) {
    i < |services| && services[i].serviceId == id && forall j | 0 <= j < i :: services[j].serviceId != id
  }

  /** A received subscribe solicits the first published service with its id, and no other. */
  function Solicit(services: seq<ServiceView>, id: ServiceId): (r: seq<ServiceView>)
    ensures |r| == |services|
  {
    seq(|services|, i requires 0 <= i < |services| =>
      if FirstWith(services, id, i) && services[i].parameters.Published?
      then services[i].(parameters := services[i].parameters.(doPublish := true)) else services[i])
  }

  // ---------------------------------------------------------------- one service over a run

  datatype Happening = Window | Solicitation | Nothing

  function Happens(s: ServiceView, h: Happening): ServiceView {
    match h
    case Window => AfterWindow(s)
    case Solicitation => if s.parameters.Published? then s.(parameters := s.parameters.(doPublish := true)) else s
    case Nothing => s
  }

  /** The service after a run, with the number of its announcements. */
  function Account(s: ServiceView, hs: seq<Happening>): (ServiceView, nat) {
    if hs == [] then (s, 0)
    else
      var (before, count) := Account(s, hs[..|hs| - 1]);
      var h := hs[|hs| - 1];
      (Happens(before, h), count + if h == Window && ShouldAnnounce(before) then 1 else 0)
  }

  function Windows(hs: seq<Happening>): nat {
    if hs == [] then 0 else Windows(hs[..|hs| - 1]) + if hs[|hs| - 1] == Window then 1 else 0
  }

  /** Whether a service that was asked for at the start if `pending` has been asked for since the last window. */
  predicate Pending(hs: seq<Happening>, pending: bool) {
    if hs == [] then pending
    else
      match hs[|hs| - 1]
      case Window => false
      case Solicitation => true
      case Nothing => Pending(hs[..|hs| - 1], pending)
  }

  /** The windows before which a subscribe came in since the window before. */
  function SolicitedWindows(hs: seq<Happening>, pending: bool): nat {
    if hs == [] then 0
    else
      SolicitedWindows(hs[..|hs| - 1], pending)
      + if hs[|hs| - 1] == Window && Pending(hs[..|hs| - 1], pending) then 1 else 0
  }

  predicate AnnouncedUnasked(s: ServiceView) {
    match s.parameters
    case Published(t, _) => t != Solicited
    case Subscribed(t, isSubscribed) => t == Active && !isSubscribed
  }

  function Min(a: nat, b: nat): nat { if a < b then a else b }

  /**
   * A published service that needs no asking and an active subscribe that is not answered are announced in the first
   * N windows and in no other, if their time to live is N, and in every window if it is negative. Whatever else comes in
   * between changes nothing about it.
   */
  lemma {:induction false} UnaskedAccount(s: ServiceView, hs: seq<Happening>)
    requires AnnouncedUnasked(s)
    ensures var (after, count) := Account(s, hs);
            AnnouncedUnasked(after) &&
            (s.timeToLive >= 0 ==> count == Min(Windows(hs), s.timeToLive) && count + after.timeToLive == s.timeToLive) &&
            (s.timeToLive < 0 ==> count == Windows(hs) && after.timeToLive == s.timeToLive)
  {
    if hs != [] {
      UnaskedAccount(s, hs[..|hs| - 1]);
    }
  }

  /**
   * A solicited service is announced in a window exactly if a subscribe came in since the window before and it has been
   * announced fewer than N times.
   */
  lemma {:induction false} SolicitedAccount(s: ServiceView, hs: seq<Happening>)
    requires s.parameters.Published? && s.parameters.publishType == Solicited
    ensures var (after, count) := Account(s, hs);
            var asked := SolicitedWindows(hs, s.parameters.doPublish);
            after.parameters.Published? && after.parameters.publishType == Solicited &&
            (after.timeToLive != 0 ==> after.parameters.doPublish == Pending(hs, s.parameters.doPublish)) &&
            (s.timeToLive >= 0 ==> count == Min(asked, s.timeToLive) && count + after.timeToLive == s.timeToLive) &&
            (s.timeToLive < 0 ==> count == asked && after.timeToLive == s.timeToLive)
  {
    if hs != [] {
      SolicitedAccount(s, hs[..|hs| - 1]);
    }
  }

  function Solicitations(hs: seq<Happening>): nat {
    if hs == [] then 0 else Solicitations(hs[..|hs| - 1]) + if hs[|hs| - 1] == Solicitation then 1 else 0
  }

  /** There is at most one such window for each subscribe that came in. */
  lemma {:induction false} OneWindowEach(hs: seq<Happening>, pending: bool)
    ensures SolicitedWindows(hs, pending) + (if Pending(hs, pending) then 1 else 0)
            <= Solicitations(hs) + if pending then 1 else 0
  {
    if hs != [] {
      OneWindowEach(hs[..|hs| - 1], pending);
    }
  }

  /** A passive subscribe, and one that is answered, is never announced. */
  lemma {:induction false} SilentAccount(s: ServiceView, hs: seq<Happening>)
    requires s.parameters.Subscribed? && !AnnouncedUnasked(s)
    ensures Account(s, hs) == (s, 0)
  {
    if hs != [] {
      SilentAccount(s, hs[..|hs| - 1]);
    }
  }

  // ---------------------------------------------------------------- the published services over a run

  datatype Event =
    | WindowStart
    | ReceivedSubscribe(id: ServiceId)
    | NewService(service: ServiceView)
    | Cancelled(instanceId: u8)

  /** Where the first service with this instance id is, or the length if there is none. */
  function IndexOf(services: seq<ServiceView>, instanceId: u8): (k: nat)
    ensures k <= |services| && (k < |services| ==> services[k].instanceId == instanceId)
    ensures forall i | 0 <= i < k :: services[i].instanceId != instanceId
  {
    if services == [] || services[0].instanceId == instanceId then 0 else 1 + IndexOf(services[1..], instanceId)
  }

  /** Whether service `k` is the first with this instance id. */
  predicate FirstInstance(services: seq<ServiceView>, instanceId: u8, k: nat) {
    k < |services| && services[k].instanceId == instanceId && forall i | 0 <= i < k :: services[i].instanceId != instanceId
  }

  /** The service that goes by an instance id: subscribed ones first. */
  ghost predicate GoesBy(published: seq<ServiceView>, subscribed: seq<ServiceView>, instanceId: u8, s: ServiceView) {
    (exists k | 0 <= k < |subscribed| :: FirstInstance(subscribed, instanceId, k) && s == subscribed[k]) ||
    ((forall t <- subscribed :: t.instanceId != instanceId) &&
     exists k | 0 <= k < |published| :: FirstInstance(published, instanceId, k) && s == published[k])
  }

  lemma GoesByIsThere(published: seq<ServiceView>, subscribed: seq<ServiceView>, instanceId: u8, s: ServiceView)
    requires GoesBy(published, subscribed, instanceId, s)
    ensures s in published + subscribed && s.instanceId == instanceId
  {}

  function CutAt(services: seq<ServiceView>, k: nat): seq<ServiceView> {
    if k < |services| then services[..k] + services[k + 1..] else services
  }

  function Step(services: seq<ServiceView>, e: Event): seq<ServiceView> {
    match e
    case WindowStart => WindowPassed(services)
    case ReceivedSubscribe(id) => Solicit(services, id)
    case NewService(s) => services + [s]
    case Cancelled(instanceId) => CutAt(services, IndexOf(services, instanceId))
  }

  function Run(services: seq<ServiceView>, es: seq<Event>): seq<ServiceView> {
    if es == [] then services else Step(Run(services, es[..|es| - 1]), es[|es| - 1])
  }

  /** Where service `i` is after an event, unless it was cancelled. */
  function Moved(services: seq<ServiceView>, e: Event, i: nat): Option<nat> {
    match e
    case Cancelled(instanceId) =>
      var k := IndexOf(services, instanceId);
      if i < k then Some(i) else if i == k then None else Some(i - 1)
    case _ => Some(i)
  }

  function Place(services: seq<ServiceView>, es: seq<Event>, i: nat): Option<nat> {
    if es == [] then Some(i)
    else
      var before := Place(services, es[..|es| - 1], i);
      if before.None? then None else Moved(Run(services, es[..|es| - 1]), es[|es| - 1], before.value)
  }

  /** What an event is for service `i`. */
  function Concerns(services: seq<ServiceView>, e: Event, i: nat): Happening {
    match e
    case WindowStart => Window
    case ReceivedSubscribe(id) => if FirstWith(services, id, i) then Solicitation else Nothing
    case NewService(_) => Nothing
    case Cancelled(_) => Nothing
  }

  function History(services: seq<ServiceView>, es: seq<Event>, i: nat): seq<Happening> {
    if es == [] then []
    else
      var n := |es| - 1;
      var before := Place(services, es[..n], i);
      History(services, es[..n], i)
      + if before.None? then [] else [Concerns(Run(services, es[..n]), es[n], before.value)]
  }

  lemma StepConcerns(services: seq<ServiceView>, e: Event, i: nat)
    requires i < |services| && Moved(services, e, i).Some?
    ensures var j := Moved(services, e, i).value;
            j < |Step(services, e)| && Step(services, e)[j] == Happens(services[i], Concerns(services, e, i))
  {
    hide IndexOf, ShouldAnnounce, AfterAnnouncement;
  }

  /** How often service `i` of the list is announced: the windows in which it is among the services to announce. */
  function TimesAnnounced(services: seq<ServiceView>, es: seq<Event>, i: nat): nat {
    if es == [] then 0
    else
      var n := |es| - 1;
      var now, at := Run(services, es[..n]), Place(services, es[..n], i);
      TimesAnnounced(services, es[..n], i)
      + if es[n] == WindowStart && at.Some? && at.value < |now| && ShouldAnnounce(now[at.value]) then 1 else 0
  }

  function WindowStarts(es: seq<Event>): nat {
    if es == [] then 0 else WindowStarts(es[..|es| - 1]) + if es[|es| - 1] == WindowStart then 1 else 0
  }

  lemma ConcernsWindow(services: seq<ServiceView>, e: Event, i: nat)
    ensures Concerns(services, e, i) == Window <==> e == WindowStart
  {}

  /**
   * Services do not interfere: as long as it is not cancelled, each goes through the run as if it were alone, with the
   * windows and with the subscribes for which it is the first of its id, and is announced as often.
   */
  lemma {:induction false} EachIsAlone(services: seq<ServiceView>, es: seq<Event>, i: nat)
    requires i < |services| && Place(services, es, i).Some?
    ensures var j := Place(services, es, i).value;
            var hs := History(services, es, i);
            j < |Run(services, es)| && Account(services[i], hs) == (Run(services, es)[j], TimesAnnounced(services, es, i)) &&
            Windows(hs) == WindowStarts(es)
  {
    if es != [] {
      hide Step, Moved, Concerns, Happens, ShouldAnnounce, Run, Place, History, Account, Windows, WindowStarts, TimesAnnounced;
      var n := |es| - 1;
      LastEvent(services, es, i);
      EachIsAlone(services, es[..n], i);
      var now, before := Run(services, es[..n]), Place(services, es[..n], i).value;
      StepConcerns(now, es[n], before);
      ConcernsWindow(now, es[n], before);
      LastHappening(services[i], History(services, es[..n], i), Concerns(now, es[n], before));
    }
  }

  lemma LastHappening(s: ServiceView, hs: seq<Happening>, h: Happening)
    ensures var (before, count) := Account(s, hs);
            Account(s, hs + [h]) == (Happens(before, h), count + if h == Window && ShouldAnnounce(before) then 1 else 0)
    ensures Windows(hs + [h]) == Windows(hs) + if h == Window then 1 else 0
  {
    assert (hs + [h])[..|hs + [h]| - 1] == hs;
  }

  lemma LastEvent(services: seq<ServiceView>, es: seq<Event>, i: nat)
    requires es != [] && Place(services, es, i).Some?
    ensures var n := |es| - 1;
            var now, before := Run(services, es[..n]), Place(services, es[..n], i);
            before.Some? && Run(services, es) == Step(now, es[n]) && Place(services, es, i) == Moved(now, es[n], before.value) &&
            History(services, es, i) == History(services, es[..n], i) + [Concerns(now, es[n], before.value)] &&
            WindowStarts(es) == WindowStarts(es[..n]) + (if es[n] == WindowStart then 1 else 0) &&
            TimesAnnounced(services, es, i)
            == TimesAnnounced(services, es[..n], i)
               + if es[n] == WindowStart && before.value < |now| && ShouldAnnounce(now[before.value]) then 1 else 0
  {
    hide Step, Moved, Concerns, ShouldAnnounce;
  }

  /**
   * In every run of windows, subscribes, publishing and cancelling, a service of the list that needs no asking and is not
   * cancelled is announced in exactly the first N windows if its time to live is N, and in all if that is negative.
   */
  lemma ListedUnasked(services: seq<ServiceView>, es: seq<Event>, i: nat)
    requires i < |services| && Place(services, es, i).Some? && AnnouncedUnasked(services[i])
    ensures var j, n := Place(services, es, i).value, services[i].timeToLive;
            j < |Run(services, es)| &&
            (n >= 0 ==> TimesAnnounced(services, es, i) == Min(WindowStarts(es), n) &&
                        TimesAnnounced(services, es, i) + Run(services, es)[j].timeToLive == n) &&
            (n < 0 ==> TimesAnnounced(services, es, i) == WindowStarts(es))
  {
    hide Account;
    EachIsAlone(services, es, i);
    UnaskedAccount(services[i], History(services, es, i));
  }

  /**
   * A solicited one is announced at most N times, and at most once for each subscribe for which it is the first of its id,
   * or in advance if it was asked for at the start.
   */
  lemma ListedSolicited(services: seq<ServiceView>, es: seq<Event>, i: nat)
    requires i < |services| && Place(services, es, i).Some?
    requires services[i].parameters.Published? && services[i].parameters.publishType == Solicited
    ensures var j, n := Place(services, es, i).value, services[i].timeToLive;
            var hs, pending := History(services, es, i), services[i].parameters.doPublish;
            j < |Run(services, es)| &&
            (n >= 0 ==> TimesAnnounced(services, es, i) == Min(SolicitedWindows(hs, pending), n) &&
                        TimesAnnounced(services, es, i) + Run(services, es)[j].timeToLive == n) &&
            (n < 0 ==> TimesAnnounced(services, es, i) == SolicitedWindows(hs, pending)) &&
            SolicitedWindows(hs, pending) <= Solicitations(hs) + if pending then 1 else 0
  {
    hide Account;
    EachIsAlone(services, es, i);
    SolicitedAccount(services[i], History(services, es, i));
    OneWindowEach(History(services, es, i), services[i].parameters.doPublish);
  }

  // ---------------------------------------------------------------- the state

  function Views(services: seq<Service>): (vs: seq<ServiceView>)
    reads services
    ensures |vs| == |services|
  {
    seq(|services|, i requires 0 <= i < |services| reads services => services[i].View())
  }

  class Service {
    const serviceName: seq<u8>
    const instanceId: u8
    const serviceId: ServiceId
    var info: Option<seq<u8>>
    var serviceUpdateIndicator: u8
    var timeToLive: i32
    var parameters: Parameters

    function View(): ServiceView
      reads this
    {
      ServiceView(serviceName, instanceId, serviceId, info, serviceUpdateIndicator, timeToLive, parameters)
    }

    /** nan_service_new with the parameters that its callers set; the update indicator is never set. */
    constructor (serviceName: seq<u8>, instanceId: u8, serviceId: ServiceId, timeToLive: i32, info: Option<seq<u8>>,
                 parameters: Parameters, indicator: u8)
      ensures View() == ServiceView(serviceName, instanceId, serviceId, info, indicator, timeToLive, parameters)
    {
      this.serviceName, this.instanceId, this.serviceId := serviceName, instanceId, serviceId;
      this.info, this.timeToLive, this.parameters := info, timeToLive, parameters;
      serviceUpdateIndicator := indicator;
    }
  }

  predicate Different(services: seq<Service>) { forall i, j | 0 <= i < j < |services| :: services[i] != services[j] }

  lemma DifferentCut(services: seq<Service>, k: nat)
    requires Different(services) && k < |services|
    ensures Different(services[..k] + services[k + 1..])
    ensures Views(services[..k] + services[k + 1..]) == CutAt(Views(services), k)
  {}

  lemma DifferentTogether(a: seq<Service>, b: seq<Service>)
    requires Different(a) && Different(b) && forall i, j | 0 <= i < |a| && 0 <= j < |b| :: a[i] != b[j]
    ensures Different(a + b)
  {}

  function InfoLength(info: Option<seq<u8>>): nat { if info.Some? then |info.value| else 0 }

  /** What the stored length makes of new information. */
  function UpdatedInfo(old': Option<seq<u8>>, info: seq<u8>, behind: seq<u8>): seq<u8>
    requires InfoLength(old') <= |info| + |behind|
  {
    (info + behind)[..InfoLength(old')]
  }

  /**
   * An update is announced as it was given if and only if it is as long as the information before. Longer information is
   * cut off, and shorter information is followed by what lies behind it.
   */
  lemma UpdateTakes(old': Option<seq<u8>>, info: seq<u8>, behind: seq<u8>)
    requires InfoLength(old') <= |info| + |behind|
    ensures UpdatedInfo(old', info, behind) == info <==> |info| == InfoLength(old')
    ensures |info| > InfoLength(old') ==> UpdatedInfo(old', info, behind) == info[..InfoLength(old')]
    ensures |info| < InfoLength(old') ==>
              UpdatedInfo(old', info, behind) == info + behind[..InfoLength(old') - |info|]
  {}

  /** Information of length zero is no information. */
  function NonEmpty(info: Option<seq<u8>>): Option<seq<u8>> { if info == Some([]) then None else info }

  class ServiceState {
    var publishedServices: seq<Service>
    var subscribedServices: seq<Service>
    var lastInstanceId: u8

    ghost predicate Valid()
      reads this, publishedServices, subscribedServices
    {
      Different(publishedServices) && Different(subscribedServices) &&
      (forall s <- publishedServices :: s.parameters.Published?) &&
      (forall s <- subscribedServices :: s.parameters.Subscribed?)
    }

    constructor ()
      ensures Valid() && publishedServices == [] && subscribedServices == [] && lastInstanceId == 0
    {
      publishedServices, subscribedServices, lastInstanceId := [], [], 0;
    }

    /** nan_service_new, with the parameters that its callers set. */
    method ServiceNew(serviceName: seq<u8>, timeToLive: i32, info: Option<seq<u8>>, parameters: Parameters, indicator: u8)
      returns (service: Service)
      modifies this`lastInstanceId
      ensures lastInstanceId == NextId(old(lastInstanceId)) && fresh(service)
      ensures service.View() == ServiceView(serviceName, lastInstanceId, ServiceIdOf(serviceName), NonEmpty(info), indicator,
                                            timeToLive, parameters)
      ensures service.info == if InfoLength(info) == 0 then None else info
    {
      hide ServiceIdOf;
      lastInstanceId := NextId(lastInstanceId);
      var serviceId := ServiceIdCreate(serviceName);
      service := new Service(serviceName, lastInstanceId, serviceId, timeToLive, NonEmpty(info), parameters, indicator);
    }

    /** nan_publish */
    method Publish(serviceName: seq<u8>, publishType: PublishType, timeToLive: i32, info: Option<seq<u8>>, indicator: u8)
      returns (id: u8)
      requires Valid()
      modifies this`publishedServices, this`lastInstanceId
      ensures Valid() && id == lastInstanceId == NextId(old(lastInstanceId)) && id != 0
      ensures Views(publishedServices)
              == Step(old(Views(publishedServices)),
                      NewService(ServiceView(serviceName, id, ServiceIdOf(serviceName), NonEmpty(info), indicator, timeToLive,
                                             Published(publishType, false))))
    {
      hide ServiceIdOf;
      var service := ServiceNew(serviceName, timeToLive, info, Published(publishType, false), indicator);
      publishedServices := publishedServices + [service];
      return lastInstanceId;
    }

    /** nan_subscribe */
    method Subscribe(serviceName: seq<u8>, subscribeType: SubscribeType, timeToLive: i32, info: Option<seq<u8>>, indicator: u8)
      returns (id: u8)
      requires Valid()
      modifies this`subscribedServices, this`lastInstanceId
      ensures Valid() && id == lastInstanceId == NextId(old(lastInstanceId)) && id != 0
      ensures Views(subscribedServices)
              == Step(old(Views(subscribedServices)),
                      NewService(ServiceView(serviceName, id, ServiceIdOf(serviceName), NonEmpty(info), indicator, timeToLive,
                                             Subscribed(subscribeType, false))))
    {
      hide ServiceIdOf;
      var service := ServiceNew(serviceName, timeToLive, info, Subscribed(subscribeType, false), indicator);
      subscribedServices := subscribedServices + [service];
      return lastInstanceId;
    }

    /** nan_cancel_publish */
    method CancelPublish(publishId: u8) returns (result: int)
      requires Valid()
      modifies this`publishedServices
      ensures Valid() && Views(publishedServices) == Step(old(Views(publishedServices)), Cancelled(publishId))
      ensures result == 0 ==>
                exists k | 0 <= k < |old(publishedServices)| ::
                  old(publishedServices)[k].instanceId == publishId &&
                  (forall i | 0 <= i < k :: old(publishedServices)[i].instanceId != publishId) &&
                  publishedServices == old(publishedServices)[..k] + old(publishedServices)[k + 1..]
      ensures result != 0 ==>
                result == -1 && publishedServices == old(publishedServices) &&
                forall s <- publishedServices :: s.instanceId != publishId
    {
      hide Different, IndexOf, Views, FirstInstance;
      var k := Find(publishedServices, publishId);
      if k < |publishedServices| {
        assert publishedServices[k].instanceId == publishId;
        DifferentCut(publishedServices, k);
        publishedServices := publishedServices[..k] + publishedServices[k + 1..];
        return 0;
      }
      return -1;
    }

    /** nan_cancel_subscribe */
    method CancelSubscribe(subscribeId: u8) returns (result: int)
      requires Valid()
      modifies this`subscribedServices
      ensures Valid() && Views(subscribedServices) == Step(old(Views(subscribedServices)), Cancelled(subscribeId))
      ensures result == 0 ==>
                exists k | 0 <= k < |old(subscribedServices)| ::
                  old(subscribedServices)[k].instanceId == subscribeId &&
                  (forall i | 0 <= i < k :: old(subscribedServices)[i].instanceId != subscribeId) &&
                  subscribedServices == old(subscribedServices)[..k] + old(subscribedServices)[k + 1..]
      ensures result != 0 ==>
                result == -1 && subscribedServices == old(subscribedServices) &&
                forall s <- subscribedServices :: s.instanceId != subscribeId
    {
      hide Different, IndexOf, Views, FirstInstance;
      var k := Find(subscribedServices, subscribeId);
      if k < |subscribedServices| {
        assert subscribedServices[k].instanceId == subscribeId;
        DifferentCut(subscribedServices, k);
        subscribedServices := subscribedServices[..k] + subscribedServices[k + 1..];
        return 0;
      }
      return -1;
    }

    /**
     * nan_update_publish: the bytes are exchanged and their number is not, so what will be announced is as long as what
     * was announced before. `behind` is whatever the memory behind the new bytes holds.
     */
    method UpdatePublish(publishId: u8, info: seq<u8>, behind: seq<u8>) returns (result: int)
      requires Valid()
      requires forall k | 0 <= k < |publishedServices| && FirstInstance(Views(publishedServices), publishId, k) ::
                 InfoLength(publishedServices[k].info) <= |info| + |behind|
      modifies publishedServices
      ensures Valid()
      ensures var was := old(Views(publishedServices));
              result == 0 ==>
                exists k | 0 <= k < |was| ::
                  FirstInstance(was, publishId, k) && InfoLength(was[k].info) <= |info| + |behind| &&
                  Views(publishedServices)
                  == was[k := was[k].(info := Some((info + behind)[..InfoLength(was[k].info)]))]
      ensures result != 0 ==>
                result == -1 && Views(publishedServices) == old(Views(publishedServices)) &&
                forall s <- publishedServices :: s.instanceId != publishId
    {
      var k := Find(publishedServices, publishId);
      if k < |publishedServices| {
        var service := publishedServices[k];
        service.info := Some(UpdatedInfo(service.info, info, behind));
        assert Views(publishedServices) == old(Views(publishedServices))[k := service.View()];
        return 0;
      }
      return -1;
    }

    /** LIST_FIND by instance id. */
    method Find(services: seq<Service>, instanceId: u8) returns (k: nat)
      ensures k == IndexOf(Views(services), instanceId) <= |services|
      ensures k < |services| ==> FirstInstance(Views(services), instanceId, k) && services[k].instanceId == instanceId
      ensures forall i | 0 <= i < k :: services[i].instanceId != instanceId
    {
      k := 0;
      while k < |services| && services[k].instanceId != instanceId
        invariant k <= |services| && forall i | 0 <= i < k :: services[i].instanceId != instanceId
        invariant IndexOf(Views(services), instanceId) == k + IndexOf(Views(services)[k..], instanceId)
      {
        assert Views(services)[k..][1..] == Views(services)[k + 1..];
        k := k + 1;
      }
    }

    /** One loop of nan_get_services_to_announce. */
    method Filter(services: seq<Service>) returns (announced: seq<Service>)
      ensures Views(announced) == Announced(Views(services))
      ensures forall s :: s in announced <==> s in services && ShouldAnnounce(s.View())
      ensures Different(services) ==> Different(announced)
    {
      announced := [];
      for i := 0 to |services|
        invariant Views(announced) == Announced(Views(services)[..i])
        invariant forall s :: s in announced <==> s in services[..i] && ShouldAnnounce(s.View())
        invariant Different(services) ==> Different(announced)
      {
        assert Views(services)[..i + 1][..i] == Views(services)[..i];
        if ShouldAnnounce(services[i].View()) {
          announced := announced + [services[i]];
        }
      }
      assert Views(services)[..|services|] == Views(services);
    }

    /** nan_get_services_to_announce */
    method GetServicesToAnnounce() returns (announced: seq<Service>)
      requires Valid()
      ensures Views(announced) == Announced(Views(publishedServices)) + Announced(Views(subscribedServices))
      ensures forall s :: s in announced <==> s in publishedServices + subscribedServices && ShouldAnnounce(s.View())
      ensures Different(announced)
    {
      hide ShouldAnnounce, Announced;
      var published := Filter(publishedServices);
      var subscribed := Filter(subscribedServices);
      forall i, j | 0 <= i < |published| && 0 <= j < |subscribed| ensures published[i] != subscribed[j] {
        assert published[i] in published && subscribed[j] in subscribed;
        assert published[i].parameters.Published? && subscribed[j].parameters.Subscribed?;
      }
      DifferentTogether(published, subscribed);
      return published + subscribed;
    }

    /** nan_update_announced_services */
    method UpdateAnnouncedServices(announced: seq<Service>)
      requires Different(announced)
      modifies announced
      ensures forall s <- announced :: s.View() == AfterAnnouncement(old(s.View()))
    {
      for i := 0 to |announced|
        invariant forall k | 0 <= k < |announced| ::
                    announced[k].View() == if k < i then AfterAnnouncement(old(announced[k].View()))
                                           else old(announced[k].View())
      {
        var service := announced[i];
        if service.timeToLive > 0 {
          service.timeToLive := service.timeToLive - 1;
        }
        if service.parameters.Published? {
          service.parameters := service.parameters.(doPublish := false);
        }
      }
    }

    /** The services of nan_send_service_discovery_frame: what goes into the frame, and what that uses up. */
    method Announce() returns (announced: seq<ServiceView>)
      requires Valid()
      modifies publishedServices, subscribedServices
      ensures Valid()
      ensures announced == Announced(old(Views(publishedServices))) + Announced(old(Views(subscribedServices)))
      ensures Views(publishedServices) == Step(old(Views(publishedServices)), WindowStart)
      ensures Views(subscribedServices) == Step(old(Views(subscribedServices)), WindowStart)
    {
      hide ShouldAnnounce, Announced;
      var services := GetServicesToAnnounce();
      announced := Views(services);
      forall i | 0 <= i < |services| ensures services[i] in publishedServices || services[i] in subscribedServices {
        assert services[i] in services;
      }
      if |services| > 0 {
        UpdateAnnouncedServices(services);
      }
      forall s <- publishedServices + subscribedServices
        ensures s.parameters.Published? <==> old(s.parameters.Published?)
      {
        assert s.View() == if s in services then AfterAnnouncement(old(s.View())) else old(s.View());
      }
      assert Views(publishedServices) == WindowPassed(old(Views(publishedServices)));
      assert Views(subscribedServices) == WindowPassed(old(Views(subscribedServices)));
    }

    /** nan_get_service_by_instance_id among all services: subscribed ones first. */
    method GetServiceByInstanceId(instanceId: u8) returns (service: Service?)
      ensures service != null ==>
                service in publishedServices + subscribedServices && service.instanceId == instanceId &&
                GoesBy(Views(publishedServices), Views(subscribedServices), instanceId, service.View())
      ensures service == null ==>
                forall s <- Views(publishedServices) + Views(subscribedServices) :: s.instanceId != instanceId
    {
      var j := Find(subscribedServices, instanceId);
      if j < |subscribedServices| {
        return subscribedServices[j];
      }
      var i := Find(publishedServices, instanceId);
      if i < |publishedServices| {
        return publishedServices[i];
      }
      return null;
    }

    /** LIST_FIND by service id. */
    method FindId(services: seq<Service>, id: ServiceId) returns (k: nat)
      ensures k <= |services| && if k < |services| then FirstWith(Views(services), id, k)
                                 else forall i | 0 <= i < |services| :: Views(services)[i].serviceId != id
      ensures HasId(Views(services), id) <==> k < |services|
    {
      k := 0;
      while k < |services| && services[k].serviceId != id
        invariant k <= |services| && forall i | 0 <= i < k :: Views(services)[i].serviceId != id
      {
        k := k + 1;
      }
      assert k < |services| ==> FirstWith(Views(services), id, k);
    }

    /**
     * nan_handle_received_service_discovery: a publish is reported to the subscriber, a subscribe solicits the publisher,
     * and a follow-up to this device is reported to the service it names, subscribed ones first.
     */
    method HandleReceived(d: ServiceDescriptor, selfAddress: seq<u8>, destination: seq<u8>) returns (report: Report)
      requires Valid()
      modifies publishedServices
      ensures Valid()
      ensures Views(publishedServices)
              == if TypeOf(d) == 1 then Step(old(Views(publishedServices)), ReceivedSubscribe(d.serviceId))
                 else old(Views(publishedServices))
      ensures Views(subscribedServices) == old(Views(subscribedServices))
      ensures Reported(d, selfAddress == destination, old(Views(publishedServices)), old(Views(subscribedServices)), report)
    {
      report := NoReport;
      if TypeOf(d) == 0 {
        var k := FindId(subscribedServices, d.serviceId);
        if k == |subscribedServices| {
          return;
        }
        report := DiscoveryResult(d.instanceId, subscribedServices[k].instanceId,
                                  subscribedServices[k].serviceUpdateIndicator, d.info);
      } else if TypeOf(d) == 1 {
        var k := FindId(publishedServices, d.serviceId);
        if k == |publishedServices| {
          assert Views(publishedServices) == Solicit(Views(publishedServices), d.serviceId);
          return;
        }
        Solicited(k, d.serviceId);
      } else if TypeOf(d) == 2 {
        if selfAddress != destination {
          return;
        }
        var k := FindId(subscribedServices, d.serviceId);
        if k < |subscribedServices| {
          report := Receive(subscribedServices[k].instanceId, d.instanceId, d.info);
          return;
        }
        k := FindId(publishedServices, d.serviceId);
        if k < |publishedServices| {
          report := Receive(publishedServices[k].instanceId, d.instanceId, d.info);
        }
      }
    }

    method Solicited(k: nat, id: ServiceId)
      requires Valid() && FirstWith(Views(publishedServices), id, k)
      modifies publishedServices[k]
      ensures Valid() && Views(publishedServices) == Solicit(old(Views(publishedServices)), id)
    {
      var service := publishedServices[k];
      service.parameters := service.parameters.(doPublish := true);
    }
  }

  /** What the parser stores of a received service descriptor. */
  datatype ServiceDescriptor =
    ServiceDescriptor(serviceId: ServiceId, instanceId: u8, requestorInstanceId: u8, control: u8, info: Option<seq<u8>>)

  /** Publish, subscribe or follow-up: the two lowest bits of the control byte. */
  function TypeOf(d: ServiceDescriptor): nat { d.control % 4 }

  datatype Report =
    | NoReport
    | DiscoveryResult(publishId: u8, subscribeId: u8, serviceUpdateIndicator: u8, info: Option<seq<u8>>)
    | Receive(instanceId: u8, peerInstanceId: u8, info: Option<seq<u8>>)

  ghost predicate HasId(services: seq<ServiceView>, id: ServiceId) { exists i: nat :: FirstWith(services, id, i) }

  /** The event that a descriptor leads to. */
  ghost predicate Reported(d: ServiceDescriptor, forUs: bool, published: seq<ServiceView>, subscribed: seq<ServiceView>, r: Report) {
    match r
    case DiscoveryResult(publishId, subscribeId, indicator, info) =>
      TypeOf(d) == 0 && publishId == d.instanceId && info == d.info &&
      exists i: nat :: FirstWith(subscribed, d.serviceId, i) && subscribed[i].instanceId == subscribeId &&
                  subscribed[i].serviceUpdateIndicator == indicator
    case Receive(instanceId, peerInstanceId, info) =>
      TypeOf(d) == 2 && forUs && peerInstanceId == d.instanceId && info == d.info &&
      if HasId(subscribed, d.serviceId)
      then exists i: nat :: FirstWith(subscribed, d.serviceId, i) && subscribed[i].instanceId == instanceId
      else exists i: nat :: FirstWith(published, d.serviceId, i) && published[i].instanceId == instanceId
    case NoReport =>
      (TypeOf(d) == 0 ==> !HasId(subscribed, d.serviceId)) &&
      (TypeOf(d) == 2 && forUs ==> !HasId(subscribed, d.serviceId) && !HasId(published, d.serviceId))
  }
}
