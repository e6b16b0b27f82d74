/** The synchronization state of one device: src/sync.c. */
module Sync {
  import opened Words
  import opened MasterRank
  import opened Peers
  import Timers

  const NAN_MASTER_PREFERENCE: u8 := 200
  const NAN_MASTER_PREFERENCE_UPDATE_MIN_DW := 240
  const NAN_RANDOM_FACTOR_UPDATE_MIN_DW := 120
  const RSSI_CLOSE := -60
  const RSSI_MIDDLE := -75

  datatype Role = NonSync | Sync | Master

  /** The fields of struct nan_sync_state at one moment. */
  datatype SyncView = SyncView(
    role: Role, masterRank: u64, masterPreference: u8, randomFactor: u8,
    preferenceUpdateUsec: u64, factorUpdateUsec: u64,
    anchorMasterRank: u64, ambtt: u32, hopCount: u8,
    lastAnchorMasterRank: u64, lastAmbtt: u32, lastHopCount: u8,
    dwsWithoutAmbtt: u8, dwsWithoutHop: u8)

  function Init(a: EtherAddr): SyncView {
    var rank := CalculateMasterRank(0, 0, a);
    SyncView(Master, rank, 0, 0, 0, 0, rank, 0, 0, rank, 0, 0, 0, 0)
  }

  predicate IsAnchorMasterSelf(s: SyncView) {
    IsSameMasterRankIssuer(s.masterRank, s.anchorMasterRank)
  }

  function SaveAnchor(s: SyncView): SyncView {
    s.(lastAnchorMasterRank := s.anchorMasterRank, lastAmbtt := s.ambtt)
  }

  function AnchorOther(s: SyncView, p: PeerView): SyncView {
    SaveAnchor(s).(anchorMasterRank := p.anchorMasterRank, ambtt := p.ambtt, hopCount := Wrap8(p.hopCount + 1))
  }

  function AnchorSelf(s: SyncView): SyncView {
    SaveAnchor(s).(anchorMasterRank := s.masterRank, ambtt := 0, hopCount := 0)
  }

  /** The four possible outcomes of anchor master selection. */
  datatype Decision = Keep | AdoptOther | AdoptSelf | Refresh

  /**
   * Anchor master selection as one decision on the state before the call. The procedure reaches it through a
   * branch for the own anchor that falls through into the comparison of ranks.
   */
  function Decide(s: SyncView, p: PeerView, syncedTimeTu: u64): Decision {
    if p.anchorMasterRank == s.anchorMasterRank then
      if IsAnchorMasterSelf(s) || p.ambtt <= Wrap64(syncedTimeTu * 16 * 512) then Keep else Refresh
    else if IsAnchorMasterSelf(s) then
      if p.anchorMasterRank <= s.masterRank || IsSameMasterRankIssuer(s.masterRank, p.anchorMasterRank)
      then Keep else AdoptOther
    else if s.anchorMasterRank < p.anchorMasterRank then
      if p.anchorMasterRank == s.lastAnchorMasterRank && p.ambtt <= s.lastAmbtt then Keep else AdoptOther
    else if !IsSameMasterRankIssuer(s.anchorMasterRank, p.anchorMasterRank) then Keep
    else if p.anchorMasterRank < s.masterRank then AdoptSelf
    else AdoptOther
  }

  function Refreshed(s: SyncView, p: PeerView): SyncView {
    s.(ambtt := if s.ambtt < p.ambtt then p.ambtt else s.ambtt,
       hopCount := if s.hopCount > p.hopCount + 1 then p.hopCount else s.hopCount)
  }

  function Select(s: SyncView, p: PeerView, syncedTimeTu: u64): SyncView {
    match Decide(s, p, syncedTimeTu)
    case Keep => s
    case AdoptOther => AnchorOther(s, p)
    case AdoptSelf => AnchorSelf(s)
    case Refresh => Refreshed(s, p)
  }

  /** One count of windows without news: another quiet window, or back to zero. */
  function Quiet(count: u8, same: bool): u8 { if same then Wrap8(count + 1) else 0 }

  function Expire(s: SyncView): SyncView {
    if IsAnchorMasterSelf(s) then s.(dwsWithoutAmbtt := 0, dwsWithoutHop := 0)
    else
      var c := s.(dwsWithoutAmbtt := Quiet(s.dwsWithoutAmbtt, s.ambtt == s.lastAmbtt),
                  dwsWithoutHop := Quiet(s.dwsWithoutHop, s.hopCount == s.lastHopCount));
      if c.dwsWithoutAmbtt >= 3 then AnchorSelf(c)
      else if c.dwsWithoutHop >= 3 then c.(hopCount := 255)
      else c
  }

  /** Own master rank recomputed for address `a`. */
  function Rerank(s: SyncView, a: EtherAddr): SyncView {
    var n := s.(masterRank := CalculateMasterRank(s.masterPreference, s.randomFactor, a));
    if n.masterRank == s.masterRank then s
    else if IsAnchorMasterSelf(n) then n.(lastAnchorMasterRank := n.anchorMasterRank, anchorMasterRank := n.masterRank)
    else if n.masterRank > n.anchorMasterRank then AnchorSelf(n)
    else n
  }

  /** A change of the peer's preference lets the own preference and random factor be drawn again. */
  function UpdatePreference(s: SyncView, p: PeerView, nowUsec: u64, drawn: u8): SyncView {
    var dws := Timers.TimeDifferenceDw(s.preferenceUpdateUsec, nowUsec);
    if p.masterPreference == p.lastMasterPreference || dws <= NAN_RANDOM_FACTOR_UPDATE_MIN_DW then s
    else
      var n := s.(randomFactor := drawn, factorUpdateUsec := nowUsec);
      var n := if dws > NAN_MASTER_PREFERENCE_UPDATE_MIN_DW
               then n.(masterPreference := NAN_MASTER_PREFERENCE, preferenceUpdateUsec := nowUsec) else n;
      Rerank(n, AddressFromMasterRank(s.masterRank))
  }

  predicate IsMasterCandidate(s: SyncView, p: PeerView) {
    p.anchorMasterRank == s.anchorMasterRank &&
    (p.hopCount < s.hopCount || (p.hopCount == s.hopCount && PeerMasterRank(p) > s.masterRank))
  }

  // ---------------------------------------------------------------- election

  /** Heard in the current window, with four TUs of guard; the difference wraps. */
  predicate Recent(p: PeerView, nowUsec: u64) {
    Wrap64(nowUsec - p.lastUpdate) <= (Timers.NAN_DW_LENGTH_TU + 4) * 1024
  }

  /** Which of the recent peers a counter counts. */
  datatype Filter = Filter(above: int, higher: bool, candidate: bool)

  predicate Counts(f: Filter, p: PeerView, masterRank: u64, nowUsec: u64) {
    Recent(p, nowUsec) && p.rssiAverage > f.above &&
    (f.higher ==> PeerMasterRank(p) > masterRank) && (f.candidate ==> p.masterCandidate)
  }

  function Count(ps: seq<PeerView>, f: Filter, masterRank: u64, nowUsec: u64): nat {
    if ps == [] then 0
    else Count(ps[..|ps| - 1], f, masterRank, nowUsec) + (if Counts(f, ps[|ps| - 1], masterRank, nowUsec) then 1 else 0)
  }

  const EVERY := -0x81  // below every signal strength

  predicate StepsDown(ps: seq<PeerView>, rank: u64, now: u64) {
    Count(ps, Filter(RSSI_CLOSE, true, false), rank, now) >= 1 || Count(ps, Filter(RSSI_MIDDLE, true, false), rank, now) >= 3
  }

  predicate StepsUp(ps: seq<PeerView>, rank: u64, now: u64) {
    Count(ps, Filter(RSSI_CLOSE, false, false), rank, now) == 0 && Count(ps, Filter(EVERY, true, false), rank, now) > 0
  }

  predicate HasCandidates(ps: seq<PeerView>, rank: u64, now: u64) {
    Count(ps, Filter(RSSI_CLOSE, false, true), rank, now) >= 1 || Count(ps, Filter(RSSI_MIDDLE, false, true), rank, now) >= 3
  }

  /** The elected role: without candidates SYNC, otherwise the MASTER question alone decides. */
  function Elect(role: Role, ps: seq<PeerView>, rank: u64, now: u64): Role {
    if !HasCandidates(ps, rank, now) then Sync
    else if (if role.Master? then !StepsDown(ps, rank, now) else StepsUp(ps, rank, now)) then Master
    else NonSync
  }

  function Views(peers: seq<Peer>): seq<PeerView>
    reads peers
  {
    seq(|peers|, i requires 0 <= i < |peers| reads peers => peers[i].View())
  }

  // ---------------------------------------------------------------- the state

  class SyncState {
    var role: Role
    var masterRank: u64
    var masterPreference: u8
    var randomFactor: u8
    var preferenceUpdateUsec: u64
    var factorUpdateUsec: u64
    var anchorMasterRank: u64
    var ambtt: u32
    var hopCount: u8
    var lastAnchorMasterRank: u64
    var lastAmbtt: u32
    var lastHopCount: u8
    var dwsWithoutAmbtt: u8
    var dwsWithoutHop: u8

    function View(): SyncView
      reads this
    {
      SyncView(role, masterRank, masterPreference, randomFactor, preferenceUpdateUsec, factorUpdateUsec,
               anchorMasterRank, ambtt, hopCount, lastAnchorMasterRank, lastAmbtt, lastHopCount,
               dwsWithoutAmbtt, dwsWithoutHop)
    }

    constructor (interfaceAddress: EtherAddr)
      ensures View() == Init(interfaceAddress)
      ensures role == Master && masterRank == anchorMasterRank == lastAnchorMasterRank
      ensures masterRank == CalculateMasterRank(0, 0, interfaceAddress) && masterPreference == 0 && randomFactor == 0
      ensures ambtt == 0 && hopCount == 0 && lastAmbtt == 0 && lastHopCount == 0
    {
      var rank := CalculateMasterRank(0, 0, interfaceAddress);
      role, masterRank, masterPreference, randomFactor := Master, rank, 0, 0;
      preferenceUpdateUsec, factorUpdateUsec := 0, 0;
      anchorMasterRank, ambtt, hopCount := rank, 0, 0;
      lastAnchorMasterRank, lastAmbtt, lastHopCount := rank, 0, 0;
      dwsWithoutAmbtt, dwsWithoutHop := 0, 0;
    }

    predicate AnchorIsSelf()
      reads this
    {
      IsSameMasterRankIssuer(masterRank, anchorMasterRank)
    }

    method SaveCurrentAnchorMaster()
      modifies this
      ensures View() == SaveAnchor(old(View()))
    {
      lastAnchorMasterRank := anchorMasterRank;
      lastAmbtt := ambtt;
    }

    method SetAnchorMasterOther(peer: Peer)
      modifies this
      ensures View() == AnchorOther(old(View()), peer.View())
    {
      SaveCurrentAnchorMaster();
      anchorMasterRank := peer.anchorMasterRank;
      ambtt := peer.ambtt;
      hopCount := Wrap8(peer.hopCount + 1);
    }

    method SetAnchorMasterSelf()
      modifies this
      ensures View() == AnchorSelf(old(View()))
    {
      SaveCurrentAnchorMaster();
      anchorMasterRank := masterRank;
      ambtt := 0;
      hopCount := 0;
    }

    method AnchorMasterSelection(peer: Peer, syncedTimeTu: u64)
      modifies this
      ensures View() == Select(old(View()), peer.View(), syncedTimeTu)
    {
      if anchorMasterRank == peer.anchorMasterRank && peer.ambtt <= Wrap64(syncedTimeTu * 16 * 512) {
        return;
      }
      if AnchorIsSelf() {
        if masterRank >= peer.anchorMasterRank {
          return;
        }
        if IsSameMasterRankIssuer(masterRank, peer.anchorMasterRank) {
          return;
        }
        SetAnchorMasterOther(peer);
      }
      if anchorMasterRank < peer.anchorMasterRank {
        if lastAnchorMasterRank == peer.anchorMasterRank && lastAmbtt >= peer.ambtt {
          return;
        }
        SetAnchorMasterOther(peer);
        return;
      }
      if anchorMasterRank > peer.anchorMasterRank {
        if !IsSameMasterRankIssuer(anchorMasterRank, peer.anchorMasterRank) {
          return;
        }
        if masterRank > peer.anchorMasterRank {
          SetAnchorMasterSelf();
          return;
        }
        SetAnchorMasterOther(peer);
        return;
      }
      if ambtt < peer.ambtt {
        ambtt := peer.ambtt;
      }
      if hopCount > peer.hopCount + 1 {
        hopCount := peer.hopCount;
      }
    }

    method CheckAnchorMasterExpiration()
      modifies this
      ensures View() == Expire(old(View()))
    {
      if AnchorIsSelf() {
        dwsWithoutAmbtt := 0;
        dwsWithoutHop := 0;
        return;
      }
      if hopCount == lastHopCount {
        dwsWithoutHop := Wrap8(dwsWithoutHop + 1);
      } else {
        dwsWithoutHop := 0;
      }
      if ambtt == lastAmbtt {
        dwsWithoutAmbtt := Wrap8(dwsWithoutAmbtt + 1);
      } else {
        dwsWithoutAmbtt := 0;
      }
      if dwsWithoutAmbtt >= 3 {
        SetAnchorMasterSelf();
      } else if dwsWithoutHop >= 3 {
        hopCount := 255;
      }
    }

    /** `interfaceAddress` is None where the source passes NULL: the address is then read from the own rank. */
    method UpdateMasterRank(interfaceAddress: Option<EtherAddr>) returns (updated: bool)
      modifies this
      ensures var a := if interfaceAddress.Some? then interfaceAddress.value else AddressFromMasterRank(old(masterRank));
              View() == Rerank(old(View()), a)
      ensures updated <==> masterRank != old(masterRank)
    {
      var a := if interfaceAddress.Some? then interfaceAddress.value else AddressFromMasterRank(masterRank);
      var newMasterRank := CalculateMasterRank(masterPreference, randomFactor, a);
      if newMasterRank == masterRank {
        return false;
      }
      masterRank := newMasterRank;
      if AnchorIsSelf() {
        lastAnchorMasterRank := anchorMasterRank;
        anchorMasterRank := masterRank;
      } else if masterRank > anchorMasterRank {
        SetAnchorMasterSelf();
      }
      return true;
    }

    /** `drawn` is the random number that is used if one is drawn. */
    method UpdateMasterPreference(peer: Peer, nowUsec: u64, drawn: u8) returns (result: bool)
      modifies this
      ensures View() == UpdatePreference(old(View()), peer.View(), nowUsec, drawn)
      ensures result <==> masterRank != old(masterRank)
    {
      if peer.masterPreference == peer.lastMasterPreference {
        return false;
      }
      var elapsedDws := Timers.TimeDifferenceDw(preferenceUpdateUsec, nowUsec);
      var updated := false;
      if elapsedDws > NAN_RANDOM_FACTOR_UPDATE_MIN_DW {
        randomFactor := drawn;
        factorUpdateUsec := nowUsec;
        updated := true;
      }
      if elapsedDws > NAN_MASTER_PREFERENCE_UPDATE_MIN_DW {
        masterPreference := NAN_MASTER_PREFERENCE;
        preferenceUpdateUsec := nowUsec;
        updated := true;
      }
      if !updated {
        return false;
      }
      result := UpdateMasterRank(None);
    }

    method CheckMasterCandidate(peer: Peer)
      modifies peer`masterCandidate
      ensures peer.View() == old(peer.View()).(masterCandidate := IsMasterCandidate(View(), old(peer.View())))
    {
      peer.masterCandidate := false;
      if peer.anchorMasterRank != anchorMasterRank {
        return;
      }
      if peer.hopCount < hopCount {
        peer.masterCandidate := true;
      }
      if peer.hopCount == hopCount && PeerMasterRank(peer.View()) > masterRank {
        peer.masterCandidate := true;
      }
    }

    method MasterElection(peers: seq<Peer>, nowUsec: u64)
      modifies this`role
      ensures View() == old(View()).(role := Elect(old(role), old(Views(peers)), old(masterRank), nowUsec))
    {
      hide Count, Views;
      var higher, close, closeHigher, closeCandidate, middleHigher, middleCandidate := CountPeers(peers, nowUsec);
      if role == Master {
        if closeHigher >= 1 || middleHigher >= 3 {
          role := Sync;
        }
      } else {
        if close == 0 && higher > 0 {
          role := Master;
        }
      }
      if role == Sync {
        if closeCandidate >= 1 || middleCandidate >= 3 {
          role := NonSync;
        }
      } else {
        if closeCandidate == 0 && middleCandidate < 3 {
          role := Sync;
        }
      }
    }

    /** The counting loop of the election. */
    method CountPeers(peers: seq<Peer>, nowUsec: u64)
      returns (higher: nat, close: nat, closeHigher: nat, closeCandidate: nat, middleHigher: nat, middleCandidate: nat)
      ensures higher == Count(Views(peers), Filter(EVERY, true, false), masterRank, nowUsec)
      ensures close == Count(Views(peers), Filter(RSSI_CLOSE, false, false), masterRank, nowUsec)
      ensures closeHigher == Count(Views(peers), Filter(RSSI_CLOSE, true, false), masterRank, nowUsec)
      ensures closeCandidate == Count(Views(peers), Filter(RSSI_CLOSE, false, true), masterRank, nowUsec)
      ensures middleHigher == Count(Views(peers), Filter(RSSI_MIDDLE, true, false), masterRank, nowUsec)
      ensures middleCandidate == Count(Views(peers), Filter(RSSI_MIDDLE, false, true), masterRank, nowUsec)
    {
      var middle := 0;
      higher, close := 0, 0;
      closeHigher, closeCandidate, middleHigher, middleCandidate := 0, 0, 0, 0;
      ghost var ps := Views(peers);
      for i := 0 to |peers|
        invariant higher == Count(ps[..i], Filter(EVERY, true, false), masterRank, nowUsec)
        invariant close == Count(ps[..i], Filter(RSSI_CLOSE, false, false), masterRank, nowUsec)
        invariant closeHigher == Count(ps[..i], Filter(RSSI_CLOSE, true, false), masterRank, nowUsec)
        invariant closeCandidate == Count(ps[..i], Filter(RSSI_CLOSE, false, true), masterRank, nowUsec)
        invariant middleHigher == Count(ps[..i], Filter(RSSI_MIDDLE, true, false), masterRank, nowUsec)
        invariant middleCandidate == Count(ps[..i], Filter(RSSI_MIDDLE, false, true), masterRank, nowUsec)
      {
        assert ps[..i + 1][..i] == ps[..i];
        var peer := peers[i];
        var peerMasterRank := PeerMasterRank(peer.View());
        if Wrap64(nowUsec - peer.lastUpdate) > (Timers.NAN_DW_LENGTH_TU + 4) * 1024 {
          continue;
        }
        if peer.rssiAverage > RSSI_CLOSE {
          close := close + 1;
          if peerMasterRank > masterRank {
            closeHigher := closeHigher + 1;
          }
          if peer.masterCandidate {
            closeCandidate := closeCandidate + 1;
          }
        }
        if peer.rssiAverage > RSSI_MIDDLE {
          middle := middle + 1;
          if peerMasterRank > masterRank {
            middleHigher := middleHigher + 1;
          }
          if peer.masterCandidate {
            middleCandidate := middleCandidate + 1;
          }
        }
        if peerMasterRank > masterRank {
          higher := higher + 1;
        }
      }
      assert ps[..|peers|] == ps;
    }
  }
}
