/** What holds of one device in every run of synchronization events. */
module SyncRuns {
  import opened Words
  import opened MasterRank
  import opened Peers
  import opened Sync

  datatype Event =
    | Beacon(peer: PeerView, syncedTimeTu: u64)
    | Preference(peer: PeerView, nowUsec: u64, drawn: u8)
    | SetFactor(factor: u8, own: EtherAddr)
    | SetPreference(preference: u8, own: EtherAddr)
    | Election(peers: seq<PeerView>, nowUsec: u64)
    | Expiry

  function Step(s: SyncView, e: Event): SyncView {
    match e
    case Beacon(p, t) => Select(s, p, t)
    case Preference(p, now, drawn) => UpdatePreference(s, p, now, drawn)
    case SetFactor(rf, own) => Rerank(s.(randomFactor := rf), own)
    case SetPreference(mp, own) => Rerank(s.(masterPreference := mp), own)
    case Election(ps, now) => s.(role := Elect(s.role, ps, s.masterRank, now))
    case Expiry => Expire(s)
  }

  function Run(s: SyncView, es: seq<Event>): SyncView {
    if es == [] then s else Step(Run(s, es[..|es| - 1]), es[|es| - 1])
  }

  // ------------------------------------------------ the rank is packed and never above the anchor

  /** The own rank is the packing of the current preference, factor and own address. */
  predicate Packed(s: SyncView) {
    s.masterRank == CalculateMasterRank(s.masterPreference, s.randomFactor, AddressFromMasterRank(s.masterRank))
  }

  lemma RerankPacks(s: SyncView, a: EtherAddr)
    ensures var n := Rerank(s, a);
            Packed(n) && AddressFromMasterRank(n.masterRank) == a
            && (s.masterRank <= s.anchorMasterRank ==> n.masterRank <= n.anchorMasterRank)
  {
    IssuerIsPackedAddress(s.masterPreference, s.randomFactor, a, a);
  }

  /** Whatever arrives in whatever order, the anchor never ranks below the device itself. */
  lemma {:induction false} RankInvariant(a: EtherAddr, es: seq<Event>)
    ensures var s := Run(Init(a), es);
            Packed(s) && s.masterRank <= s.anchorMasterRank
  {
    if es == [] {
      IssuerIsPackedAddress(0, 0, a, a);
    } else {
      RankInvariant(a, es[..|es| - 1]);
      var s, e := Run(Init(a), es[..|es| - 1]), es[|es| - 1];
      match e {
        case SetFactor(rf, own) => RerankPacks(s.(randomFactor := rf), own);
        case SetPreference(mp, own) => RerankPacks(s.(masterPreference := mp), own);
        case Preference(p, now, drawn) => PreferencePacks(s, p, now, drawn);
        case _ =>
      }
    }
  }

  lemma PreferencePacks(s: SyncView, p: PeerView, now: u64, drawn: u8)
    requires Packed(s) && s.masterRank <= s.anchorMasterRank
    ensures var n := UpdatePreference(s, p, now, drawn);
            Packed(n) && n.masterRank <= n.anchorMasterRank
            && AddressFromMasterRank(n.masterRank) == AddressFromMasterRank(s.masterRank)
  {
    var a := AddressFromMasterRank(s.masterRank);
    var n := s.(randomFactor := drawn, factorUpdateUsec := now);
    RerankPacks(n, a);
    RerankPacks(n.(masterPreference := NAN_MASTER_PREFERENCE, preferenceUpdateUsec := now), a);
  }

  /**
   * When another preference of a peer lets factor and preference be drawn again: more than 120 windows after the last new
   * preference the factor, after more than 240 the preference too, which is always 200.
   */
  lemma DrawnAfterWindows(s: SyncView, p: PeerView, now: u64, drawn: u8)
    ensures var n := UpdatePreference(s, p, now, drawn);
            var windows := (now / 1024 - s.preferenceUpdateUsec / 1024) % 0x1_0000_0000 / 512;
            if p.masterPreference == p.lastMasterPreference || windows <= 120 then n == s
            else
              n.randomFactor == drawn && n.factorUpdateUsec == now &&
              n.masterPreference == (if windows > 240 then 200 else s.masterPreference) &&
              n.preferenceUpdateUsec == (if windows > 240 then now else s.preferenceUpdateUsec) &&
              n.masterRank == CalculateMasterRank(n.masterPreference, drawn, AddressFromMasterRank(s.masterRank))
  {
    hide CalculateMasterRank, IsAnchorMasterSelf;
  }

  /**
   * How the anchor follows a new rank of the device: its own anchor goes along with it, up or down; another anchor is
   * given up exactly if it is overtaken, and then saved.
   */
  lemma AnchorFollowsRank(s: SyncView, own: EtherAddr)
    requires own == AddressFromMasterRank(s.masterRank) && SelfExact(s)
    ensures var n := Rerank(s, own);
            n.masterRank == CalculateMasterRank(s.masterPreference, s.randomFactor, own) &&
            n == s.(masterRank := n.masterRank, anchorMasterRank := n.anchorMasterRank, ambtt := n.ambtt,
                    hopCount := n.hopCount, lastAnchorMasterRank := n.lastAnchorMasterRank, lastAmbtt := n.lastAmbtt) &&
            if IsAnchorMasterSelf(s) then
              n.anchorMasterRank == n.masterRank && n.ambtt == 0 && n.hopCount == 0 && n.lastAmbtt == s.lastAmbtt &&
              (n.masterRank != s.masterRank ==> n.lastAnchorMasterRank == s.anchorMasterRank)
            else if n.masterRank > s.anchorMasterRank && n.masterRank != s.masterRank then
              n.anchorMasterRank == n.masterRank && n.ambtt == 0 && n.hopCount == 0 &&
              n.lastAnchorMasterRank == s.anchorMasterRank && n.lastAmbtt == s.ambtt
            else n == s.(masterRank := n.masterRank)
  {
    IssuerIsPackedAddress(s.masterPreference, s.randomFactor, own, own);
  }

  /** Distance to the anchor and rank in one number, of which less is better. */
  function Standing(hopCount: u8, rank: u64): nat { hopCount * 0x1_0000_0000_0000_0000 + (0xffff_ffff_ffff_ffff - rank) }

  /** A master candidate is a peer with the same anchor that stands better. */
  lemma CandidateStandsBetter(s: SyncView, p: PeerView)
    ensures IsMasterCandidate(s, p) <==>
            p.anchorMasterRank == s.anchorMasterRank &&
            Standing(p.hopCount, PeerMasterRank(p)) < Standing(s.hopCount, s.masterRank)
  {
    hide PeerMasterRank;
  }

  // ------------------------------------------------ being one's own anchor

  /** The device believes in itself exactly when the anchor rank is its rank, and then has no distance to it. */
  predicate SelfExact(s: SyncView) {
    (IsAnchorMasterSelf(s) <==> s.anchorMasterRank == s.masterRank) &&
    (IsAnchorMasterSelf(s) ==> s.ambtt == 0 && s.hopCount == 0)
  }

  /** The event keeps the own address and, if a beacon, does not carry an own rank above the current one. */
  predicate Faithful(s: SyncView, e: Event) {
    match e
    case Beacon(p, _) => IsSameMasterRankIssuer(s.masterRank, p.anchorMasterRank) ==> p.anchorMasterRank <= s.masterRank
    case SetFactor(_, own) => own == AddressFromMasterRank(s.masterRank)
    case SetPreference(_, own) => own == AddressFromMasterRank(s.masterRank)
    case _ => true
  }

  predicate FaithfulRun(a: EtherAddr, es: seq<Event>) {
    forall k | 0 <= k < |es| :: Faithful(Run(Init(a), es[..k]), es[k])
  }

  lemma {:induction false} SelfInvariant(a: EtherAddr, es: seq<Event>)
    requires FaithfulRun(a, es)
    ensures SelfExact(Run(Init(a), es))
  {
    if es != [] {
      var pre := es[..|es| - 1];
      forall k | 0 <= k < |pre| ensures Faithful(Run(Init(a), pre[..k]), pre[k]) {
        assert pre[..k] == es[..k];
      }
      SelfInvariant(a, pre);
      RankInvariant(a, pre);
      assert Faithful(Run(Init(a), es[..|es| - 1]), es[|es| - 1]);
      SelfStep(Run(Init(a), pre), es[|es| - 1]);
    }
  }

  lemma SelfStep(s: SyncView, e: Event)
    requires Packed(s) && s.masterRank <= s.anchorMasterRank && SelfExact(s) && Faithful(s, e)
    ensures SelfExact(Step(s, e))
  {
    match e {
      case SetFactor(rf, own) => RerankPacks(s.(randomFactor := rf), own);
      case SetPreference(mp, own) => RerankPacks(s.(masterPreference := mp), own);
      case Preference(p, now, drawn) => PreferencePacks(s, p, now, drawn);
      case _ =>
    }
  }

  /** News that the device itself has left behind. */
  predicate Outdated(s: SyncView, p: PeerView) {
    p.anchorMasterRank == s.lastAnchorMasterRank && p.ambtt <= s.lastAmbtt
  }

  /**
   * The condition on beacons is needed and sharp: a selection step on an exact state with the rank invariant stays exact
   * if and only if it is not the case that another device is the anchor and a better rank of the device's own comes in
   * that is not outdated.
   */
  lemma SelfStepExactly(s: SyncView, p: PeerView, t: u64)
    requires s.masterRank <= s.anchorMasterRank && SelfExact(s)
    ensures SelfExact(Select(s, p, t)) <==>
            !(!IsAnchorMasterSelf(s) && s.anchorMasterRank < p.anchorMasterRank &&
              IsSameMasterRankIssuer(s.masterRank, p.anchorMasterRank) && !Outdated(s, p))
  {}

  /** An echo of an own earlier, higher rank makes a device its own anchor at a rank that is not its own. */
  lemma EchoBreaksSelf(s: SyncView, p: PeerView, t: u64)
    requires !IsAnchorMasterSelf(s) && SelfExact(s)
    requires s.masterRank <= s.anchorMasterRank < p.anchorMasterRank && !Outdated(s, p)
    requires IsSameMasterRankIssuer(s.masterRank, p.anchorMasterRank)
    ensures var n := Select(s, p, t);
            IsAnchorMasterSelf(n) && n.anchorMasterRank > n.masterRank && n.hopCount == Wrap8(p.hopCount + 1)
  {}

  lemma RunMore(s: SyncView, es: seq<Event>, e: Event)
    ensures Run(s, es + [e]) == Step(Run(s, es), e)
  {
    assert (es + [e])[..|es + [e]| - 1] == es;
  }

  /** The same rank for a device that has set its preference and is its own anchor. */
  lemma SetWhileSelf(s: SyncView, preference: u8, a: EtherAddr)
    requires s.masterRank == CalculateMasterRank(s.masterPreference, 0, a) == s.anchorMasterRank
    requires s.randomFactor == 0 && s.ambtt == 0 && s.hopCount == 0
    ensures var n := Step(s, SetPreference(preference, a));
            n.masterRank == CalculateMasterRank(preference, 0, a) == n.anchorMasterRank && n.masterPreference == preference &&
            n.randomFactor == 0 && n.ambtt == 0 && n.hopCount == 0
  {
    IssuerIsPackedAddress(s.masterPreference, 0, a, a);
    IssuerIsPackedAddress(preference, 0, a, a);
  }

  /**
   * A run that gets there: the preference is set high and low again, a device in between becomes the anchor, and a beacon
   * that still carries the high rank comes in.
   */
  lemma EchoHappens(a: EtherAddr, b: EtherAddr, low: u8, mid: u8, high: u8, other: PeerView, echo: PeerView, t: u64)
    requires a != b && low < mid < high
    requires other.anchorMasterRank == CalculateMasterRank(mid, 0, b)
    requires echo.anchorMasterRank == CalculateMasterRank(high, 0, a)
    ensures var n := Run(Init(a), [SetPreference(high, a), SetPreference(low, a), Beacon(other, t), Beacon(echo, t)]);
            IsAnchorMasterSelf(n) && n.anchorMasterRank == CalculateMasterRank(high, 0, a) &&
            n.masterRank == CalculateMasterRank(low, 0, a) < n.anchorMasterRank && !SelfExact(n)
  {
    hide Run, CalculateMasterRank, Rerank;
    var e1, e2, e3, e4 := SetPreference(high, a), SetPreference(low, a), Beacon(other, t), Beacon(echo, t);
    var s1 := Step(Init(a), e1);
    var s2 := Step(s1, e2);
    var s3 := Step(s2, e3);
    RunNothing(Init(a));
    RunMore(Init(a), [], e1);
    RunMore(Init(a), [e1], e2);
    RunMore(Init(a), [e1, e2], e3);
    RunMore(Init(a), [e1, e2, e3], e4);
    assert [] + [e1] == [e1] && [e1] + [e2] == [e1, e2] && [e1, e2] + [e3] == [e1, e2, e3];
    assert [e1, e2, e3] + [e4] == [e1, e2, e3, e4];
    SetWhileSelf(Init(a), high, a);
    SetWhileSelf(s1, low, a);
    RankOrder(low, 0, a, mid, 0, b);
    RankOrder(mid, 0, b, high, 0, a);
    RankOrder(low, 0, a, high, 0, a);
    IssuerIsPackedAddress(low, 0, a, b);
    EchoIssuers(a, b, low, mid, high);
    SelfTakes(s2, other, t);
    EchoBreaksSelf(s3, echo, t);
  }

  lemma RunNothing(s: SyncView)
    ensures Run(s, []) == s
  {}

  lemma EchoIssuers(a: EtherAddr, b: EtherAddr, low: u8, mid: u8, high: u8)
    requires a != b
    ensures !IsSameMasterRankIssuer(CalculateMasterRank(low, 0, a), CalculateMasterRank(mid, 0, b))
    ensures IsSameMasterRankIssuer(CalculateMasterRank(low, 0, a), CalculateMasterRank(high, 0, a))
    ensures IsSameMasterRankIssuer(CalculateMasterRank(low, 0, a), CalculateMasterRank(low, 0, a))
  {
    IssuerIsPackedAddress(low, 0, a, a);
    IssuerIsPackedAddress(mid, 0, b, a);
    IssuerIsPackedAddress(high, 0, a, a);
  }

  /** A device that is its own anchor takes any better rank of another issuer. */
  lemma SelfTakes(s: SyncView, p: PeerView, t: u64)
    requires s.masterRank == s.anchorMasterRank < p.anchorMasterRank && IsAnchorMasterSelf(s)
    requires !IsSameMasterRankIssuer(s.masterRank, p.anchorMasterRank)
    ensures Select(s, p, t) == AnchorOther(s, p) && !IsAnchorMasterSelf(Select(s, p, t))
  {}

  // ------------------------------------------------ single steps

  /**
   * The anchor only falls on news from the anchor itself, and then to the better of that news and the own rank.
   */
  lemma AnchorFallsOnlyByItself(s: SyncView, p: PeerView, t: u64)
    requires s.masterRank <= s.anchorMasterRank && SelfExact(s)
    requires Select(s, p, t).anchorMasterRank < s.anchorMasterRank
    ensures IsSameMasterRankIssuer(s.anchorMasterRank, p.anchorMasterRank)
    ensures Select(s, p, t).anchorMasterRank ==
            if s.masterRank > p.anchorMasterRank then s.masterRank else p.anchorMasterRank
  {}

  /** A better rank that comes in, or other news of the present anchor that still beats the device. */
  predicate NewAnchor(s: SyncView, p: PeerView) {
    if IsAnchorMasterSelf(s) then p.anchorMasterRank > s.masterRank
    else (p.anchorMasterRank > s.anchorMasterRank && !Outdated(s, p)) ||
         (s.masterRank <= p.anchorMasterRank < s.anchorMasterRank &&
          IsSameMasterRankIssuer(s.anchorMasterRank, p.anchorMasterRank))
  }

  /** The present anchor's rank has fallen below the device's own. */
  predicate AnchorBeaten(s: SyncView, p: PeerView) {
    !IsAnchorMasterSelf(s) && p.anchorMasterRank < s.masterRank &&
    IsSameMasterRankIssuer(s.anchorMasterRank, p.anchorMasterRank)
  }

  /** A later beacon time for the anchor that the device has. */
  predicate LaterTime(s: SyncView, p: PeerView, syncedTimeTu: u64) {
    p.anchorMasterRank == s.anchorMasterRank && p.ambtt > Wrap64(syncedTimeTu * 16 * 512)
  }

  /**
   * A selection step, field by field. A new anchor is taken over with its time at one hop more; a beaten one is given up
   * for the device itself; a later time of the present one is kept, with a distance that is shorter by more than one hop;
   * and nothing else has any effect. Only the first two save the anchor that is left.
   */
  lemma SelectionFields(s: SyncView, p: PeerView, t: u64)
    requires s.masterRank <= s.anchorMasterRank && SelfExact(s) && Faithful(s, Beacon(p, t))
    ensures Select(s, p, t)
            == if NewAnchor(s, p) then
                 s.(anchorMasterRank := p.anchorMasterRank, ambtt := p.ambtt, hopCount := (p.hopCount + 1) % 256,
                    lastAnchorMasterRank := s.anchorMasterRank, lastAmbtt := s.ambtt)
               else if AnchorBeaten(s, p) then
                 s.(anchorMasterRank := s.masterRank, ambtt := 0, hopCount := 0,
                    lastAnchorMasterRank := s.anchorMasterRank, lastAmbtt := s.ambtt)
               else if !IsAnchorMasterSelf(s) && LaterTime(s, p, t) then
                 s.(ambtt := if p.ambtt > s.ambtt then p.ambtt else s.ambtt,
                    hopCount := if p.hopCount + 1 < s.hopCount then p.hopCount else s.hopCount)
               else s
  {}

  /**
   * When a device shows distance 0 to an anchor that is another device, which is never its distance. It takes a new anchor
   * from a sender at distance 255, where the increment wraps; or it keeps an anchor that is not beaten and was at 0 before,
   * or hears a later time from a sender at distance 0 while it is two or more hops away, where that distance is copied
   * without the increment.
   */
  lemma ZeroHopsWithoutBeingAnchor(s: SyncView, p: PeerView, t: u64)
    requires s.masterRank <= s.anchorMasterRank && SelfExact(s) && Faithful(s, Beacon(p, t))
    ensures var n := Select(s, p, t);
            !IsAnchorMasterSelf(n) && n.hopCount == 0 <==>
            if NewAnchor(s, p) then p.hopCount == 255
            else !IsAnchorMasterSelf(s) && !AnchorBeaten(s, p) &&
                 (s.hopCount == 0 || (LaterTime(s, p, t) && p.hopCount == 0 && s.hopCount > 1))
  {}

  /** Both happen from the start: one beacon from distance 255, or one from a relay and then one from the anchor. */
  lemma ZeroHopsHappen(a: EtherAddr, far: PeerView, near: PeerView, t: u64)
    requires far.anchorMasterRank > CalculateMasterRank(0, 0, a) && far.hopCount > 0
    requires !IsSameMasterRankIssuer(CalculateMasterRank(0, 0, a), far.anchorMasterRank)
    requires near.anchorMasterRank == far.anchorMasterRank && near.hopCount == 0 && near.ambtt > Wrap64(t * 16 * 512)
    ensures var n := Run(Init(a), if far.hopCount == 255 then [Beacon(far, t)] else [Beacon(far, t), Beacon(near, t)]);
            !IsAnchorMasterSelf(n) && n.hopCount == 0 && n.anchorMasterRank == far.anchorMasterRank
  {
    hide Run, CalculateMasterRank;
    IssuerIsPackedAddress(0, 0, a, a);
    RunNothing(Init(a));
    RunMore(Init(a), [], Beacon(far, t));
    RunMore(Init(a), [Beacon(far, t)], Beacon(near, t));
    assert [] + [Beacon(far, t)] == [Beacon(far, t)];
    assert [Beacon(far, t)] + [Beacon(near, t)] == [Beacon(far, t), Beacon(near, t)];
    SelfTakes(Init(a), far, t);
  }

  // ------------------------------------------------ expiry

  function Expired(s: SyncView, windows: nat): SyncView {
    if windows == 0 then s else Expire(Expired(s, windows - 1))
  }

  /** How many quiet windows the counter still allows; from 255 it wraps to 0 first. */
  function WindowsLeft(count: u8): nat {
    if count == 255 then 4 else if count >= 2 then 1 else 3 - count
  }

  /**
   * A silent anchor. After any number of window ends with nothing received, the device has fallen back to itself if and
   * only if the anchor's time equals the saved one and the counter has run out. The saved time is that of the anchor
   * before, taken when this one was adopted, and not that of the window before.
   */
  lemma {:induction false} SilentAnchor(s: SyncView, windows: nat)
    requires SelfExact(s) && !IsAnchorMasterSelf(s)
    ensures var n := Expired(s, windows);
            (IsAnchorMasterSelf(n) <==> s.ambtt == s.lastAmbtt && windows >= WindowsLeft(s.dwsWithoutAmbtt))
            && (!IsAnchorMasterSelf(n) ==>
                  n.anchorMasterRank == s.anchorMasterRank && n.ambtt == s.ambtt && n.lastAmbtt == s.lastAmbtt
                  && n.masterRank == s.masterRank
                  && n.dwsWithoutAmbtt ==
                     if windows == 0 then s.dwsWithoutAmbtt
                     else if s.ambtt == s.lastAmbtt then Wrap8(s.dwsWithoutAmbtt + windows) else 0)
            && (IsAnchorMasterSelf(n) ==>
                  n.anchorMasterRank == s.masterRank && n.masterRank == s.masterRank && n.hopCount == 0)
  {
    hide Wrap8, Expire;
    SmallCount(s.dwsWithoutAmbtt);
    if windows > 0 {
      SilentAnchor(s, windows - 1);
      if windows <= WindowsLeft(s.dwsWithoutAmbtt) {
        CountRunsOut(s.dwsWithoutAmbtt, windows);
      }
      ExpireStep(Expired(s, windows - 1));
    }
  }

  lemma SmallCount(count: u8)
    ensures Wrap8(count) == count
  {}

  lemma CountRunsOut(count: u8, windows: nat)
    requires 0 < windows <= WindowsLeft(count)
    ensures Wrap8(Wrap8(count + windows - 1) + 1) == Wrap8(count + windows)
    ensures Wrap8(count + windows) >= 3 <==> windows == WindowsLeft(count)
  {}

  /** One window end for a device whose anchor is exact. */
  lemma ExpireStep(s: SyncView)
    ensures var n := Expire(s);
            n.masterRank == s.masterRank &&
            (IsAnchorMasterSelf(s) ==> n == s.(dwsWithoutAmbtt := 0, dwsWithoutHop := 0)) &&
            (!IsAnchorMasterSelf(s) ==>
               var count := Quiet(s.dwsWithoutAmbtt, s.ambtt == s.lastAmbtt);
               if count >= 3 then n.anchorMasterRank == s.masterRank && n.hopCount == 0
               else n.anchorMasterRank == s.anchorMasterRank && n.ambtt == s.ambtt && n.lastAmbtt == s.lastAmbtt &&
                    n.dwsWithoutAmbtt == count)
  {}

  /**
   * The other counter. A device whose anchor's time has moved on since the one before never gives the anchor up, but if its
   * distance equals the saved one, it is 255 from the window on in which that counter runs out.
   */
  lemma {:induction false} DistanceRunsOut(s: SyncView, windows: nat)
    requires !IsAnchorMasterSelf(s) && s.ambtt != s.lastAmbtt && s.lastHopCount != 255
    ensures var n := Expired(s, windows);
            n.(dwsWithoutAmbtt := 0, dwsWithoutHop := 0, hopCount := 0)
            == s.(dwsWithoutAmbtt := 0, dwsWithoutHop := 0, hopCount := 0) &&
            n.hopCount == (if s.hopCount == s.lastHopCount && windows >= WindowsLeft(s.dwsWithoutHop) then 255 else s.hopCount)
            && (windows > 0 ==>
                  (s.hopCount == s.lastHopCount && windows < WindowsLeft(s.dwsWithoutHop) ==>
                     n.dwsWithoutHop == Wrap8(s.dwsWithoutHop + windows)) &&
                  (s.hopCount != s.lastHopCount ==> n.dwsWithoutHop == 0))
  {
    hide Wrap8;
    SmallCount(s.dwsWithoutHop);
    if windows > 0 {
      DistanceRunsOut(s, windows - 1);
      if windows <= WindowsLeft(s.dwsWithoutHop) {
        CountRunsOut(s.dwsWithoutHop, windows);
      }
    }
  }

  /**
   * An anchor that falls silent right after it was adopted from another anchor or from the device itself. It is given up
   * after the windows that the counter allows if the sender announced just the time of the anchor before, and otherwise
   * never. A device that was its own anchor has time 0.
   */
  lemma AdoptedExpires(s: SyncView, p: PeerView, t: u64, windows: nat)
    requires s.masterRank <= s.anchorMasterRank && SelfExact(s) && Faithful(s, Beacon(p, t)) && NewAnchor(s, p)
    ensures IsAnchorMasterSelf(Expired(Select(s, p, t), windows)) <==>
            p.ambtt == s.ambtt && windows >= WindowsLeft(s.dwsWithoutAmbtt)
    ensures !IsAnchorMasterSelf(Expired(Select(s, p, t), windows)) ==>
            Expired(Select(s, p, t), windows).anchorMasterRank == p.anchorMasterRank
  {
    SilentAnchor(Select(s, p, t), windows);
  }

  function Repeated(e: Event, n: nat): (es: seq<Event>)
    ensures |es| == n
  {
    seq(n, _ => e)
  }

  lemma {:induction false} RunOfExpiry(s: SyncView, es: seq<Event>, windows: nat)
    ensures Run(s, es + Repeated(Expiry, windows)) == Expired(Run(s, es), windows)
    decreases windows
  {
    hide Run;
    if windows == 0 {
      assert es + Repeated(Expiry, 0) == es;
    } else {
      RunOfExpiry(s, es, windows - 1);
      RunMore(s, es + Repeated(Expiry, windows - 1), Expiry);
      assert es + Repeated(Expiry, windows) == es + Repeated(Expiry, windows - 1) + [Expiry];
    }
  }

  /**
   * From the start: a device hears one beacon of a better anchor with a time that is not 0, and then nothing. It keeps
   * that anchor through any number of windows.
   */
  lemma AdoptedNeverExpires(a: EtherAddr, p: PeerView, t: u64, windows: nat)
    requires p.anchorMasterRank > CalculateMasterRank(0, 0, a) && p.ambtt != 0
    requires !IsSameMasterRankIssuer(CalculateMasterRank(0, 0, a), p.anchorMasterRank)
    ensures var n := Run(Init(a), [Beacon(p, t)] + Repeated(Expiry, windows));
            !IsAnchorMasterSelf(n) && n.anchorMasterRank == p.anchorMasterRank
  {
    hide Run, CalculateMasterRank;
    IssuerIsPackedAddress(0, 0, a, a);
    RunNothing(Init(a));
    RunMore(Init(a), [], Beacon(p, t));
    assert [] + [Beacon(p, t)] == [Beacon(p, t)];
    RunOfExpiry(Init(a), [Beacon(p, t)], windows);
    AdoptedExpires(Init(a), p, t, windows);
  }
}
