/** Master election: what the elected role depends on, and whether electing again changes it. */
module Election {
  import opened Words
  import opened MasterRank
  import opened Peers
  import opened Sync

  /** SYNC exactly without a close candidate and with fewer than three in the middle range, whatever the role was. */
  lemma SyncExactly(role: Role, ps: seq<PeerView>, rank: u64, now: u64)
    ensures Elect(role, ps, rank, now).Sync? <==>
            Count(ps, Filter(RSSI_CLOSE, false, true), rank, now) == 0 &&
            Count(ps, Filter(RSSI_MIDDLE, false, true), rank, now) < 3
  {}

  // ------------------------------------------------ when a device is MASTER

  predicate OneOf(ps: seq<PeerView>, f: Filter, rank: u64, now: u64) {
    exists i | 0 <= i < |ps| :: Counts(f, ps[i], rank, now)
  }

  predicate TwoOf(ps: seq<PeerView>, f: Filter, rank: u64, now: u64) {
    exists i, j | 0 <= i < j < |ps| :: Counts(f, ps[i], rank, now) && Counts(f, ps[j], rank, now)
  }

  predicate ThreeOf(ps: seq<PeerView>, f: Filter, rank: u64, now: u64) {
    exists i, j, k | 0 <= i < j < k < |ps| ::
      Counts(f, ps[i], rank, now) && Counts(f, ps[j], rank, now) && Counts(f, ps[k], rank, now)
  }

  lemma OneMore(ps: seq<PeerView>, f: Filter, rank: u64, now: u64)
    requires ps != []
    ensures OneOf(ps, f, rank, now) <==> OneOf(ps[..|ps| - 1], f, rank, now) || Counts(f, ps[|ps| - 1], rank, now)
  {
    hide Counts;
    var pre := ps[..|ps| - 1];
    if OneOf(ps, f, rank, now) {
      var i :| 0 <= i < |ps| && Counts(f, ps[i], rank, now);
      assert i < |pre| ==> Counts(f, pre[i], rank, now);
    }
  }

  lemma TwoMore(ps: seq<PeerView>, f: Filter, rank: u64, now: u64)
    requires ps != []
    ensures TwoOf(ps, f, rank, now) <==>
            TwoOf(ps[..|ps| - 1], f, rank, now) || (OneOf(ps[..|ps| - 1], f, rank, now) && Counts(f, ps[|ps| - 1], rank, now))
  {
    hide Counts;
    var pre := ps[..|ps| - 1];
    if TwoOf(ps, f, rank, now) {
      var i, j :| 0 <= i < j < |ps| && Counts(f, ps[i], rank, now) && Counts(f, ps[j], rank, now);
      assert Counts(f, pre[i], rank, now) && (j < |pre| ==> Counts(f, pre[j], rank, now));
    }
  }

  lemma ThreeMore(ps: seq<PeerView>, f: Filter, rank: u64, now: u64)
    requires ps != []
    ensures ThreeOf(ps, f, rank, now) <==>
            ThreeOf(ps[..|ps| - 1], f, rank, now) || (TwoOf(ps[..|ps| - 1], f, rank, now) && Counts(f, ps[|ps| - 1], rank, now))
  {
    hide Counts;
    var pre := ps[..|ps| - 1];
    if ThreeOf(ps, f, rank, now) {
      var i, j, k :| 0 <= i < j < k < |ps| &&
                     Counts(f, ps[i], rank, now) && Counts(f, ps[j], rank, now) && Counts(f, ps[k], rank, now);
      assert Counts(f, pre[i], rank, now) && Counts(f, pre[j], rank, now) && (k < |pre| ==> Counts(f, pre[k], rank, now));
    }
  }

  /** What a counter says about single peers. */
  lemma {:induction false} CountMeans(ps: seq<PeerView>, f: Filter, rank: u64, now: u64)
    ensures Count(ps, f, rank, now) >= 1 <==> OneOf(ps, f, rank, now)
    ensures Count(ps, f, rank, now) >= 2 <==> TwoOf(ps, f, rank, now)
    ensures Count(ps, f, rank, now) >= 3 <==> ThreeOf(ps, f, rank, now)
  {
    if ps != [] {
      CountMeans(ps[..|ps| - 1], f, rank, now);
      OneMore(ps, f, rank, now);
      TwoMore(ps, f, rank, now);
      ThreeMore(ps, f, rank, now);
      hide Counts, OneOf, TwoOf, ThreeOf;
    }
  }

  /** Heard within the last twenty time units at more than `level` dBm. */
  predicate Heard(p: PeerView, level: int, now: u64) {
    (now - p.lastUpdate) % 0x1_0000_0000_0000_0000 <= 20480 && p.rssiAverage > level
  }

  predicate CloseAbove(ps: seq<PeerView>, rank: u64, now: u64) {
    exists i | 0 <= i < |ps| :: Heard(ps[i], -60, now) && PeerMasterRank(ps[i]) > rank
  }

  predicate ThreeAbove(ps: seq<PeerView>, rank: u64, now: u64) {
    exists i, j, k | 0 <= i < j < k < |ps| ::
      Heard(ps[i], -75, now) && Heard(ps[j], -75, now) && Heard(ps[k], -75, now) &&
      PeerMasterRank(ps[i]) > rank && PeerMasterRank(ps[j]) > rank && PeerMasterRank(ps[k]) > rank
  }

  predicate CloseCandidate(ps: seq<PeerView>, now: u64) {
    exists i | 0 <= i < |ps| :: Heard(ps[i], -60, now) && ps[i].masterCandidate
  }

  predicate ThreeCandidates(ps: seq<PeerView>, now: u64) {
    exists i, j, k | 0 <= i < j < k < |ps| ::
      Heard(ps[i], -75, now) && Heard(ps[j], -75, now) && Heard(ps[k], -75, now) &&
      ps[i].masterCandidate && ps[j].masterCandidate && ps[k].masterCandidate
  }

  /**
   * The elected role, said of single peers. SYNC comes exactly without a close candidate and without three in the middle
   * range. A MASTER with candidates stays one unless a close peer or three in the middle range are above it; another
   * device with candidates becomes MASTER exactly if no peer is close and some peer is above it.
   */
  lemma ElectedRole(role: Role, ps: seq<PeerView>, rank: u64, now: u64)
    ensures Elect(role, ps, rank, now) == Sync <==> !CloseCandidate(ps, now) && !ThreeCandidates(ps, now)
    ensures role == Master ==>
              (Elect(role, ps, rank, now) == Master <==>
               (CloseCandidate(ps, now) || ThreeCandidates(ps, now)) && !CloseAbove(ps, rank, now) && !ThreeAbove(ps, rank, now))
    ensures role != Master ==>
              (Elect(role, ps, rank, now) == Master <==>
               (CloseCandidate(ps, now) || ThreeCandidates(ps, now)) &&
               (forall i | 0 <= i < |ps| :: !Heard(ps[i], -60, now)) &&
               (exists i | 0 <= i < |ps| :: Heard(ps[i], -0x81, now) && PeerMasterRank(ps[i]) > rank))
  {
    hide Count;
    CountMeans(ps, Filter(RSSI_CLOSE, true, false), rank, now);
    CountMeans(ps, Filter(RSSI_MIDDLE, true, false), rank, now);
    CountMeans(ps, Filter(RSSI_CLOSE, false, true), rank, now);
    CountMeans(ps, Filter(RSSI_MIDDLE, false, true), rank, now);
    CountMeans(ps, Filter(RSSI_CLOSE, false, false), rank, now);
    CountMeans(ps, Filter(EVERY, true, false), rank, now);
    Means(ps, rank, now);
    hide ThreeOf, OneOf, CloseAbove, ThreeAbove, CloseCandidate, ThreeCandidates;
  }

  lemma Means(ps: seq<PeerView>, rank: u64, now: u64)
    ensures OneOf(ps, Filter(RSSI_CLOSE, true, false), rank, now) <==> CloseAbove(ps, rank, now)
    ensures ThreeOf(ps, Filter(RSSI_MIDDLE, true, false), rank, now) <==> ThreeAbove(ps, rank, now)
    ensures OneOf(ps, Filter(RSSI_CLOSE, false, true), rank, now) <==> CloseCandidate(ps, now)
    ensures ThreeOf(ps, Filter(RSSI_MIDDLE, false, true), rank, now) <==> ThreeCandidates(ps, now)
    ensures OneOf(ps, Filter(RSSI_CLOSE, false, false), rank, now) <==> exists i | 0 <= i < |ps| :: Heard(ps[i], -60, now)
    ensures OneOf(ps, Filter(EVERY, true, false), rank, now) <==>
            exists i | 0 <= i < |ps| :: Heard(ps[i], -0x81, now) && PeerMasterRank(ps[i]) > rank
  {
    hide Counts, Heard, PeerMasterRank;
    CountsMeans(rank, now);
  }

  lemma CountsMeans(rank: u64, now: u64)
    ensures forall f: Filter, p: PeerView :: Counts(f, p, rank, now) <==>
              Heard(p, f.above, now) && (f.higher ==> PeerMasterRank(p) > rank) && (f.candidate ==> p.masterCandidate)
  {
    hide PeerMasterRank;
  }

  // ------------------------------------------------ only the multiset of recent peers matters

  function RecentOnly(ps: seq<PeerView>, now: u64): seq<PeerView> {
    if ps == [] then []
    else RecentOnly(ps[..|ps| - 1], now) + (if Recent(ps[|ps| - 1], now) then [ps[|ps| - 1]] else [])
  }

  lemma {:induction false} CountRecent(ps: seq<PeerView>, f: Filter, rank: u64, now: u64)
    ensures Count(RecentOnly(ps, now), f, rank, now) == Count(ps, f, rank, now)
  {
    if ps != [] {
      var pre, last := ps[..|ps| - 1], ps[|ps| - 1];
      CountRecent(pre, f, rank, now);
      if Recent(last, now) {
        assert (RecentOnly(pre, now) + [last])[..|RecentOnly(pre, now)|] == RecentOnly(pre, now);
      } else {
        assert RecentOnly(ps, now) == RecentOnly(pre, now);
      }
    }
  }

  /** Taking one peer out, wherever it is, takes its share out of a count. */
  lemma {:induction false} CountWithout(ps: seq<PeerView>, i: nat, f: Filter, rank: u64, now: u64)
    requires i < |ps|
    ensures Count(ps, f, rank, now)
            == Count(ps[..i] + ps[i + 1..], f, rank, now) + (if Counts(f, ps[i], rank, now) then 1 else 0)
  {
    hide Counts;
    var last := |ps| - 1;
    if i == last {
      assert ps[..i] + ps[i + 1..] == ps[..last];
    } else {
      CountWithout(ps[..last], i, f, rank, now);
      assert (ps[..i] + ps[i + 1..])[..last - 1] == ps[..last][..i] + ps[..last][i + 1..];
    }
  }

  /** An element of one sequence, taken out of another with the same multiset. */
  lemma TakeOut(pre: seq<PeerView>, last: PeerView, qs: seq<PeerView>) returns (i: nat)
    requires multiset(pre + [last]) == multiset(qs)
    ensures i < |qs| && qs[i] == last && multiset(qs[..i] + qs[i + 1..]) == multiset(pre)
  {
    assert last in multiset(pre + [last]);
    i :| 0 <= i < |qs| && qs[i] == last;
    assert qs == qs[..i] + [last] + qs[i + 1..];
    assert multiset(qs[..i] + qs[i + 1..]) == multiset(qs) - multiset{last};
  }

  lemma {:induction false} CountOfMultiset(ps: seq<PeerView>, qs: seq<PeerView>, f: Filter, rank: u64, now: u64)
    requires multiset(ps) == multiset(qs)
    ensures Count(ps, f, rank, now) == Count(qs, f, rank, now)
    decreases |ps|
  {
    hide Counts;
    if ps == [] {
      assert |multiset(qs)| == 0;
    } else {
      var pre, last := ps[..|ps| - 1], ps[|ps| - 1];
      assert ps == pre + [last];
      var i := TakeOut(pre, last, qs);
      CountWithout(qs, i, f, rank, now);
      CountOfMultiset(pre, qs[..i] + qs[i + 1..], f, rank, now);
    }
  }

  /** Order and stale peers are irrelevant to the elected role. */
  lemma OnlyRecentPeersMatter(role: Role, ps: seq<PeerView>, qs: seq<PeerView>, rank: u64, now: u64)
    requires multiset(RecentOnly(ps, now)) == multiset(RecentOnly(qs, now))
    ensures Elect(role, ps, rank, now) == Elect(role, qs, rank, now)
  {
    hide Counts, Recent;
    forall f: Filter ensures Count(ps, f, rank, now) == Count(qs, f, rank, now) {
      CountRecent(ps, f, rank, now);
      CountRecent(qs, f, rank, now);
      CountOfMultiset(RecentOnly(ps, now), RecentOnly(qs, now), f, rank, now);
    }
  }

  // ------------------------------------------------ electing again

  lemma {:induction false} CountWeaker(ps: seq<PeerView>, f: Filter, g: Filter, rank: u64, now: u64)
    requires g.above <= f.above && (g.higher ==> f.higher) && (g.candidate ==> f.candidate)
    ensures Count(ps, f, rank, now) <= Count(ps, g, rank, now)
  {
    if ps != [] {
      CountWeaker(ps[..|ps| - 1], f, g, rank, now);
    }
  }

  /** No close peer, but three in the middle range that outrank the device and three that are candidates. */
  predicate Torn(ps: seq<PeerView>, rank: u64, now: u64) {
    Count(ps, Filter(RSSI_CLOSE, false, false), rank, now) == 0 &&
    Count(ps, Filter(RSSI_MIDDLE, true, false), rank, now) >= 3 &&
    Count(ps, Filter(RSSI_MIDDLE, false, true), rank, now) >= 3
  }

  lemma TornMeans(ps: seq<PeerView>, rank: u64, now: u64)
    ensures Torn(ps, rank, now) <==> StepsDown(ps, rank, now) && StepsUp(ps, rank, now) && HasCandidates(ps, rank, now)
  {
    hide Counts;
    CountWeaker(ps, Filter(RSSI_CLOSE, true, false), Filter(RSSI_CLOSE, false, false), rank, now);
    CountWeaker(ps, Filter(RSSI_CLOSE, false, true), Filter(RSSI_CLOSE, false, false), rank, now);
    CountWeaker(ps, Filter(RSSI_MIDDLE, true, false), Filter(EVERY, true, false), rank, now);
  }

  /** Electing again among the same peers changes the role if and only if the device is torn, and then for ever. */
  lemma RepeatedElection(role: Role, ps: seq<PeerView>, rank: u64, now: u64)
    ensures var once := Elect(role, ps, rank, now);
            var twice := Elect(once, ps, rank, now);
            (twice != once <==> Torn(ps, rank, now)) &&
            (Torn(ps, rank, now) ==> once != Sync && twice != Sync && Elect(twice, ps, rank, now) == once)
  {
    hide Torn;
    TornMeans(ps, rank, now);
  }

  /** A peer in the middle range that outranks the device, with the same anchor at the same distance. */
  predicate Rival(s: SyncView, p: PeerView, now: u64) {
    p.lastUpdate == now && RSSI_MIDDLE < p.rssiAverage <= RSSI_CLOSE && PeerMasterRank(p) > s.masterRank &&
    p.anchorMasterRank == s.anchorMasterRank && p.hopCount == s.hopCount
  }

  function Checked(s: SyncView, p: PeerView): PeerView { p.(masterCandidate := IsMasterCandidate(s, p)) }

  /** Any three such peers, each with an address of its own as in the peer table, tear a device. */
  lemma TornHappens(s: SyncView, p1: PeerView, p2: PeerView, p3: PeerView, now: u64)
    requires Rival(s, p1, now) && Rival(s, p2, now) && Rival(s, p3, now)
    requires p1.addr != p2.addr && p1.addr != p3.addr && p2.addr != p3.addr
    ensures Torn([Checked(s, p1), Checked(s, p2), Checked(s, p3)], s.masterRank, now)
  {
    var q1, q2, q3 := Checked(s, p1), Checked(s, p2), Checked(s, p3);
    CountThree(q1, q2, q3, Filter(RSSI_CLOSE, false, false), s.masterRank, now);
    CountThree(q1, q2, q3, Filter(RSSI_MIDDLE, true, false), s.masterRank, now);
    CountThree(q1, q2, q3, Filter(RSSI_MIDDLE, false, true), s.masterRank, now);
    RivalCounts(s, p1, now);
    RivalCounts(s, p2, now);
    RivalCounts(s, p3, now);
  }

  lemma RivalCounts(s: SyncView, p: PeerView, now: u64)
    requires Rival(s, p, now)
    ensures !Counts(Filter(RSSI_CLOSE, false, false), Checked(s, p), s.masterRank, now)
    ensures Counts(Filter(RSSI_MIDDLE, true, false), Checked(s, p), s.masterRank, now)
    ensures Counts(Filter(RSSI_MIDDLE, false, true), Checked(s, p), s.masterRank, now)
  {
    assert PeerMasterRank(Checked(s, p)) == PeerMasterRank(p);
  }

  lemma CountThree(q1: PeerView, q2: PeerView, q3: PeerView, f: Filter, rank: u64, now: u64)
    ensures Count([q1, q2, q3], f, rank, now)
            == (if Counts(f, q1, rank, now) then 1 else 0) + (if Counts(f, q2, rank, now) then 1 else 0)
               + if Counts(f, q3, rank, now) then 1 else 0
  {
    hide Counts;
    assert [q1, q2, q3][..2] == [q1, q2] && [q1, q2][..1] == [q1] && [q1][..0] == [];
    assert Count([q1], f, rank, now) == if Counts(f, q1, rank, now) then 1 else 0;
    assert Count([q1, q2], f, rank, now)
      == Count([q1], f, rank, now) + if Counts(f, q2, rank, now) then 1 else 0;
  }

  /** There are such peers for every device below the highest preference; none of them needs to have the highest itself. */
  lemma RivalsExist(s: SyncView, now: u64, a: EtherAddr, preference: u8)
    requires s.masterRank < CalculateMasterRank(preference, 0, a)
    ensures exists p :: Rival(s, p, now) && p.addr == a && p.masterPreference == preference
  {
    var p := NewPeer(a, a).(lastUpdate := now, rssiAverage := -70, masterPreference := preference,
                            anchorMasterRank := s.anchorMasterRank, hopCount := s.hopCount);
    assert Rival(s, p, now);
  }
}
