/**
 * Any number of devices that select their anchor master from each other's beacons. A beacon, once sent, may be
 * received by anyone, at any time, any number of times, in any order, or never.
 */
module Network {
  import opened Words
  import opened MasterRank
  import opened Peers
  import opened Sync
  import opened SyncRuns

  /** What a beacon announces about the sender's anchor. */
  datatype Packet = Packet(anchorMasterRank: u64, hopCount: u8, ambtt: u32)

  datatype Net = Net(devices: seq<SyncView>, sent: set<Packet>)

  datatype Act =
    | Send(i: nat)
    | Receive(i: nat, packet: Packet, peer: PeerView, syncedTimeTu: u64)
    | MasterElection(i: nat, peers: seq<PeerView>, nowUsec: u64)

  function PacketOf(s: SyncView): Packet {
    Packet(s.anchorMasterRank, s.hopCount, s.ambtt)
  }

  /** The sender as the receiver sees it after parsing the packet; a sender at distance 0 gets some other time. */
  predicate SeenAs(packet: Packet, p: PeerView) {
    p.anchorMasterRank == packet.anchorMasterRank && p.hopCount == packet.hopCount &&
    (packet.hopCount != 0 ==> p.ambtt == packet.ambtt)
  }

  predicate Enabled(n: Net, a: Act) {
    a.i < |n.devices| && (a.Receive? ==> a.packet in n.sent && SeenAs(a.packet, a.peer))
  }

  /** What the act makes of the device it concerns. */
  function React(d: SyncView, a: Act): SyncView {
    match a
    case Send(_) => d
    case Receive(_, _, p, t) => Step(d, Beacon(p, t))
    case MasterElection(_, ps, now) => Step(d, Election(ps, now))
  }

  /** One step; an act that is not possible changes nothing. */
  function Do(n: Net, a: Act): (n': Net)
    ensures |n'.devices| == |n.devices|
  {
    if !Enabled(n, a) then n
    else n.(devices := n.devices[a.i := React(n.devices[a.i], a)],
            sent := if a.Send? then n.sent + {PacketOf(n.devices[a.i])} else n.sent)
  }

  function After(n: Net, acts: seq<Act>): (n': Net)
    ensures |n'.devices| == |n.devices|
  {
    if acts == [] then n else Do(After(n, acts[..|acts| - 1]), acts[|acts| - 1])
  }

  // ------------------------------------------------ ranks and the invariant

  /** Devices have different addresses. */
  ghost predicate DistinctIssuers(ranks: seq<u64>) {
    forall i, j {:trigger IsSameMasterRankIssuer(ranks[i], ranks[j])} |
      0 <= i < |ranks| && 0 <= j < |ranks| && IsSameMasterRankIssuer(ranks[i], ranks[j]) :: i == j
  }

  /** Every device is its own anchor and has had no other. */
  ghost predicate Started(n: Net, ranks: seq<u64>) {
    n.sent == {} && |n.devices| == |ranks| &&
    forall i | 0 <= i < |ranks| ::
      var d := n.devices[i];
      d.masterRank == ranks[i] == d.anchorMasterRank && IsSameMasterRankIssuer(d.masterRank, d.lastAnchorMasterRank)
  }

  /** Anchors are ranks of devices, not below the own rank, and no better anchor has been left. */
  ghost predicate DeviceInv(d: SyncView, rank: u64, ranks: seq<u64>) {
    d.masterRank == rank && d.anchorMasterRank in ranks && rank <= d.anchorMasterRank &&
    !(d.lastAnchorMasterRank in ranks && d.lastAnchorMasterRank > d.anchorMasterRank)
  }

  ghost predicate Inv(n: Net, ranks: seq<u64>) {
    |n.devices| == |ranks| &&
    (forall i {:trigger n.devices[i]} | 0 <= i < |ranks| :: DeviceInv(n.devices[i], ranks[i], ranks)) &&
    (forall k | k in n.sent :: k.anchorMasterRank in ranks)
  }

  function Max(a: u64, b: u64): u64 { if a < b then b else a }

  lemma SameIssuerSameRank(ranks: seq<u64>, a: u64, b: u64)
    requires DistinctIssuers(ranks) && a in ranks && b in ranks && IsSameMasterRankIssuer(a, b)
    ensures a == b
  {
    var i :| 0 <= i < |ranks| && ranks[i] == a;
    var j :| 0 <= j < |ranks| && ranks[j] == b;
    assert IsSameMasterRankIssuer(ranks[i], ranks[j]);
  }

  /** Selection is maximum: the test for outdated news never stops a better anchor. */
  lemma SelectionIsMax(d: SyncView, rank: u64, ranks: seq<u64>, p: PeerView, t: u64)
    requires DistinctIssuers(ranks) && rank in ranks && DeviceInv(d, rank, ranks) && p.anchorMasterRank in ranks
    ensures Select(d, p, t).anchorMasterRank == Max(d.anchorMasterRank, p.anchorMasterRank)
    ensures DeviceInv(Select(d, p, t), rank, ranks)
  {
    if IsSameMasterRankIssuer(d.masterRank, p.anchorMasterRank) {
      SameIssuerSameRank(ranks, d.masterRank, p.anchorMasterRank);
    }
    if IsSameMasterRankIssuer(d.masterRank, d.anchorMasterRank) {
      SameIssuerSameRank(ranks, d.masterRank, d.anchorMasterRank);
    }
    if IsSameMasterRankIssuer(d.anchorMasterRank, p.anchorMasterRank) {
      SameIssuerSameRank(ranks, d.anchorMasterRank, p.anchorMasterRank);
    }
  }

  lemma StartedInv(n: Net, ranks: seq<u64>)
    requires DistinctIssuers(ranks) && Started(n, ranks)
    ensures Inv(n, ranks)
  {
    forall i | 0 <= i < |ranks| ensures DeviceInv(n.devices[i], ranks[i], ranks) {
      var d := n.devices[i];
      if d.lastAnchorMasterRank in ranks {
        SameIssuerSameRank(ranks, d.masterRank, d.lastAnchorMasterRank);
      }
    }
  }

  /** No anchor is lower in `n'` than in `n`. */
  ghost predicate Rises(n: Net, n': Net) {
    |n.devices| == |n'.devices| &&
    forall i | 0 <= i < |n.devices| :: n.devices[i].anchorMasterRank <= n'.devices[i].anchorMasterRank
  }

  lemma ReactInv(d: SyncView, rank: u64, ranks: seq<u64>, a: Act)
    requires DistinctIssuers(ranks) && rank in ranks && DeviceInv(d, rank, ranks)
    requires a.Receive? ==> a.peer.anchorMasterRank in ranks
    ensures DeviceInv(React(d, a), rank, ranks) && d.anchorMasterRank <= React(d, a).anchorMasterRank
    ensures a.Receive? ==>
              React(d, a).anchorMasterRank == Max(d.anchorMasterRank, a.peer.anchorMasterRank)
  {
    hide Select, Elect;
    if a.Receive? {
      SelectionIsMax(d, rank, ranks, a.peer, a.syncedTimeTu);
    }
  }

  lemma DoInv(n: Net, ranks: seq<u64>, a: Act)
    requires DistinctIssuers(ranks) && Inv(n, ranks)
    ensures Inv(Do(n, a), ranks)
    ensures Rises(n, Do(n, a))
    ensures Enabled(n, a) && a.Receive? ==>
              Do(n, a).devices[a.i].anchorMasterRank
              == Max(n.devices[a.i].anchorMasterRank, a.packet.anchorMasterRank)
  {
    hide React, Enabled, DistinctIssuers;
    if Enabled(n, a) {
      EnabledMeans(n, a);
      assert DeviceInv(n.devices[a.i], ranks[a.i], ranks);
      ReactInv(n.devices[a.i], ranks[a.i], ranks, a);
    }
  }

  lemma EnabledMeans(n: Net, a: Act)
    requires Enabled(n, a)
    ensures a.i < |n.devices|
    ensures a.Receive? ==> a.packet in n.sent && a.peer.anchorMasterRank == a.packet.anchorMasterRank
  {}

  /** The invariant over all runs; anchors only rise. */
  lemma {:induction false} RunInv(n: Net, ranks: seq<u64>, acts: seq<Act>)
    requires DistinctIssuers(ranks) && Inv(n, ranks)
    ensures Inv(After(n, acts), ranks)
    ensures Rises(n, After(n, acts))
  {
    hide Do;
    if acts != [] {
      RunInv(n, ranks, acts[..|acts| - 1]);
      DoInv(After(n, acts[..|acts| - 1]), ranks, acts[|acts| - 1]);
    }
  }

  // ------------------------------------------------ how often anchors change

  /** The number of ranks above `a`. */
  function Above(ranks: seq<u64>, a: u64): nat {
    if ranks == [] then 0
    else Above(ranks[..|ranks| - 1], a) + (if ranks[|ranks| - 1] > a then 1 else 0)
  }

  /** How many better ranks the devices have left to find. */
  function Potential(ds: seq<SyncView>, ranks: seq<u64>): nat {
    if ds == [] then 0
    else Potential(ds[..|ds| - 1], ranks) + Above(ranks, ds[|ds| - 1].anchorMasterRank)
  }

  function SameAnchors(n: Net, n': Net): bool
    requires |n.devices| == |n'.devices|
  {
    forall i | 0 <= i < |n.devices| :: n.devices[i].anchorMasterRank == n'.devices[i].anchorMasterRank
  }

  /** The number of steps in which some device changed its anchor. */
  function Changes(n: Net, acts: seq<Act>): nat {
    if acts == [] then 0
    else
      var pre := acts[..|acts| - 1];
      Changes(n, pre) + (if SameAnchors(After(n, pre), After(n, acts)) then 0 else 1)
  }

  lemma {:induction false} AboveFalls(ranks: seq<u64>, a: u64, b: u64)
    requires a <= b
    ensures Above(ranks, b) <= Above(ranks, a)
    ensures a < b && b in ranks ==> Above(ranks, b) < Above(ranks, a)
  {
    if ranks != [] {
      AboveFalls(ranks[..|ranks| - 1], a, b);
      assert ranks == ranks[..|ranks| - 1] + [ranks[|ranks| - 1]];
    }
  }

  lemma {:induction false} PotentialAt(ds: seq<SyncView>, ranks: seq<u64>, i: nat, d: SyncView)
    requires i < |ds|
    ensures Potential(ds[i := d], ranks) + Above(ranks, ds[i].anchorMasterRank)
            == Potential(ds, ranks) + Above(ranks, d.anchorMasterRank)
  {
    var last := |ds| - 1;
    if i == last {
      assert ds[i := d][..last] == ds[..last];
    } else {
      assert ds[i := d][..last] == ds[..last][i := d];
      PotentialAt(ds[..last], ranks, i, d);
    }
  }

  lemma DoCosts(n: Net, ranks: seq<u64>, a: Act)
    requires DistinctIssuers(ranks) && Inv(n, ranks)
    ensures Potential(Do(n, a).devices, ranks) + (if SameAnchors(n, Do(n, a)) then 0 else 1)
            <= Potential(n.devices, ranks)
  {
    hide React, DistinctIssuers;
    DoInv(n, ranks, a);
    if Enabled(n, a) {
      var d := Do(n, a).devices[a.i];
      PotentialAt(n.devices, ranks, a.i, d);
      AboveFalls(ranks, n.devices[a.i].anchorMasterRank, d.anchorMasterRank);
    }
  }

  /** In every run, changes of anchor use up the potential. */
  lemma {:induction false} ChangesArePaid(n: Net, ranks: seq<u64>, acts: seq<Act>)
    requires DistinctIssuers(ranks) && Inv(n, ranks)
    ensures Changes(n, acts) + Potential(After(n, acts).devices, ranks) <= Potential(n.devices, ranks)
  {
    hide Do;
    if acts != [] {
      var pre := acts[..|acts| - 1];
      ChangesArePaid(n, ranks, pre);
      RunInv(n, ranks, pre);
      DoCosts(After(n, pre), ranks, acts[|acts| - 1]);
    }
  }

  lemma {:induction false} AboveSplit(ranks: seq<u64>, x: u64, below: nat)
    requires x !in ranks && below == Below(ranks, x)
    ensures Above(ranks, x) + below == |ranks|
  {
    if ranks != [] {
      assert ranks[|ranks| - 1] != x;
      AboveSplit(ranks[..|ranks| - 1], x, Below(ranks[..|ranks| - 1], x));
    }
  }

  function Below(ranks: seq<u64>, x: u64): nat {
    if ranks == [] then 0
    else Below(ranks[..|ranks| - 1], x) + (if ranks[|ranks| - 1] < x then 1 else 0)
  }

  /** Adding a rank above nobody's count but those it beats. */
  lemma {:induction false} PotentialGrows(ds: seq<SyncView>, own: seq<u64>, ranks: seq<u64>, x: u64)
    requires |ds| == |own| && forall i | 0 <= i < |own| :: ds[i].anchorMasterRank == own[i]
    ensures Potential(ds, ranks + [x]) == Potential(ds, ranks) + Below(own, x)
  {
    if ds != [] {
      var last := |ds| - 1;
      PotentialGrows(ds[..last], own[..last], ranks, x);
      assert (ranks + [x])[..|ranks|] == ranks;
    }
  }

  /** The number of pairs among `size` devices. */
  function Pairs(size: nat): nat {
    if size == 0 then 0 else Pairs(size - 1) + size - 1
  }

  lemma {:induction false} PairsFormula(size: nat)
    ensures 2 * Pairs(size) == size * (size - 1)
  {
    if size > 0 {
      PairsFormula(size - 1);
      assert size * (size - 1) == (size - 1) * (size - 2) + 2 * (size - 1);
    }
  }

  lemma {:induction false} StartPotential(ds: seq<SyncView>, ranks: seq<u64>)
    requires |ds| == |ranks| && forall i | 0 <= i < |ranks| :: ds[i].anchorMasterRank == ranks[i]
    requires forall i, j | 0 <= i < j < |ranks| :: ranks[i] != ranks[j]
    ensures Potential(ds, ranks) == Pairs(|ranks|)
  {
    if ranks != [] {
      var last := |ranks| - 1;
      var rs, x := ranks[..last], ranks[last];
      StartPotential(ds[..last], rs);
      assert ranks == rs + [x];
      PotentialGrows(ds[..last], rs, rs, x);
      AboveSplit(rs, x, Below(rs, x));
    }
  }

  lemma DifferentRanks(ranks: seq<u64>)
    requires DistinctIssuers(ranks)
    ensures forall i, j | 0 <= i < j < |ranks| :: ranks[i] != ranks[j]
  {
    forall i, j | 0 <= i < j < |ranks| ensures ranks[i] != ranks[j] {
      assert IsSameMasterRankIssuer(ranks[i], ranks[i]);
    }
  }

  /** From the start, n devices change anchors at most n(n-1)/2 times in all, in every run. */
  lemma FewChanges(n: Net, ranks: seq<u64>, acts: seq<Act>)
    requires DistinctIssuers(ranks) && Started(n, ranks)
    ensures 2 * Changes(n, acts) <= |ranks| * (|ranks| - 1)
  {
    hide Changes, Potential, Pairs, DistinctIssuers, Inv, IsSameMasterRankIssuer;
    StartedInv(n, ranks);
    ChangesArePaid(n, ranks, acts);
    DifferentRanks(ranks);
    StartPotential(n.devices, ranks);
    PairsFormula(|ranks|);
  }

  // ------------------------------------------------ agreement

  /** `path` leads from its first to its last device along links (hearer second). */
  ghost predicate IsPath(path: seq<nat>, links: set<(nat, nat)>) {
    path != [] && forall k | 0 <= k < |path| - 1 :: (path[k], path[k + 1]) in links
  }

  /** Everyone is reached from everyone by at most `steps` links. */
  ghost predicate Connected(size: nat, links: set<(nat, nat)>, steps: nat) {
    (forall l | l in links :: l.0 < size && l.1 < size) &&
    forall i, j | 0 <= i < size && 0 <= j < size :: Joined(i, j, links, steps)
  }

  ghost predicate Joined(i: nat, j: nat, links: set<(nat, nat)>, steps: nat) {
    exists path :: IsPath(path, links) && path[0] == i && path[|path| - 1] == j && |path| <= steps + 1
  }

  /** Hearing the current beacon of any neighbour, at whatever time, would change no anchor. */
  ghost predicate Quiescent(n: Net, links: set<(nat, nat)>) {
    forall i, j, p, t | (i, j) in links && i < |n.devices| && j < |n.devices| && SeenAs(PacketOf(n.devices[i]), p) ::
      Select(n.devices[j], p, t).anchorMasterRank == n.devices[j].anchorMasterRank
  }

  /** All devices have the highest rank of all as their anchor. */
  ghost predicate Agreed(n: Net, ranks: seq<u64>) {
    forall i, j | 0 <= i < |n.devices| && 0 <= j < |ranks| ::
      n.devices[i].anchorMasterRank in ranks && ranks[j] <= n.devices[i].anchorMasterRank
  }

  lemma QuietLink(n: Net, ranks: seq<u64>, links: set<(nat, nat)>, i: nat, j: nat)
    requires DistinctIssuers(ranks) && Inv(n, ranks) && Quiescent(n, links)
    requires (i, j) in links && i < |ranks| && j < |ranks|
    ensures n.devices[i].anchorMasterRank <= n.devices[j].anchorMasterRank
  {
    var d := n.devices[i];
    var none: EtherAddr := [0, 0, 0, 0, 0, 0];
    var p := NewPeer(none, none).(anchorMasterRank := d.anchorMasterRank, hopCount := d.hopCount, ambtt := d.ambtt);
    assert SeenAs(PacketOf(d), p);
    SelectionIsMax(n.devices[j], ranks[j], ranks, p, 0);
    assert Select(n.devices[j], p, 0).anchorMasterRank == n.devices[j].anchorMasterRank;
  }

  lemma {:induction false} QuietPath(n: Net, ranks: seq<u64>, links: set<(nat, nat)>, path: seq<nat>)
    requires DistinctIssuers(ranks) && Inv(n, ranks) && Quiescent(n, links) && IsPath(path, links)
    requires forall k | 0 <= k < |path| :: path[k] < |ranks|
    ensures n.devices[path[0]].anchorMasterRank <= n.devices[path[|path| - 1]].anchorMasterRank
  {
    if |path| > 1 {
      var pre := path[..|path| - 1];
      QuietPath(n, ranks, links, pre);
      assert (path[|path| - 2], path[|path| - 1]) in links;
      QuietLink(n, ranks, links, path[|path| - 2], path[|path| - 1]);
    }
  }

  lemma PathInside(path: seq<nat>, links: set<(nat, nat)>, size: nat)
    requires IsPath(path, links) && path[|path| - 1] < size && forall l | l in links :: l.0 < size && l.1 < size
    ensures forall k | 0 <= k < |path| :: path[k] < size
  {
    forall k | 0 <= k < |path| ensures path[k] < size {
      if k < |path| - 1 {
        assert (path[k], path[k + 1]) in links;
      }
    }
  }

  /** A connected network at rest is exactly a network that agrees on the highest master rank. */
  lemma RestIsAgreement(n: Net, ranks: seq<u64>, links: set<(nat, nat)>, steps: nat)
    requires DistinctIssuers(ranks) && Inv(n, ranks) && Connected(|ranks|, links, steps)
    ensures Quiescent(n, links) <==> Agreed(n, ranks)
  {
    hide DistinctIssuers, Joined, Select;
    if Quiescent(n, links) {
      forall i, j | 0 <= i < |ranks| && 0 <= j < |ranks|
        ensures n.devices[i].anchorMasterRank in ranks && ranks[j] <= n.devices[i].anchorMasterRank
      {
        assert Joined(j, i, links, steps);
        QuietJoined(n, ranks, links, j, i, steps);
        assert DeviceInv(n.devices[j], ranks[j], ranks) && DeviceInv(n.devices[i], ranks[i], ranks);
      }
    }
    if Agreed(n, ranks) {
      forall i, j, p, t | (i, j) in links && i < |ranks| && j < |ranks| && SeenAs(PacketOf(n.devices[i]), p)
        ensures Select(n.devices[j], p, t).anchorMasterRank == n.devices[j].anchorMasterRank
      {
        SelectionIsMax(n.devices[j], ranks[j], ranks, p, t);
        var k :| 0 <= k < |ranks| && ranks[k] == n.devices[i].anchorMasterRank;
      }
    }
  }

  lemma QuietJoined(n: Net, ranks: seq<u64>, links: set<(nat, nat)>, i: nat, j: nat, steps: nat)
    requires DistinctIssuers(ranks) && Inv(n, ranks) && Quiescent(n, links) && Joined(i, j, links, steps)
    requires j < |ranks| && forall l | l in links :: l.0 < |ranks| && l.1 < |ranks|
    ensures i < |ranks| && n.devices[i].anchorMasterRank <= n.devices[j].anchorMasterRank
  {
    hide DistinctIssuers, Quiescent;
    var path :| IsPath(path, links) && path[0] == i && path[|path| - 1] == j && |path| <= steps + 1;
    PathInside(path, links, |ranks|);
    QuietPath(n, ranks, links, path);
  }

  // ------------------------------------------------ convergence in sweeps

  /** Act `r` receives over the link the beacon that act `s` sent. */
  ghost predicate HeardAt(n: Net, acts: seq<Act>, l: (nat, nat), s: nat, r: nat) {
    s < r < |acts| && l.0 < |n.devices| && acts[s] == Send(l.0) &&
    acts[r].Receive? && acts[r].i == l.1 && acts[r].packet == PacketOf(After(n, acts[..s]).devices[l.0]) &&
    Enabled(After(n, acts[..r]), acts[r])
  }

  /** Over the link, a beacon sent within `acts` is received within `acts`. */
  ghost predicate Heard(n: Net, acts: seq<Act>, l: (nat, nat)) {
    exists s, r :: HeardAt(n, acts, l, s, r)
  }

  ghost predicate Sweep(n: Net, acts: seq<Act>, links: set<(nat, nat)>) {
    forall l | l in links :: Heard(n, acts, l)
  }

  function Flatten(sweeps: seq<seq<Act>>): seq<Act> {
    if sweeps == [] then [] else Flatten(sweeps[..|sweeps| - 1]) + sweeps[|sweeps| - 1]
  }

  ghost predicate Sweeps(n: Net, sweeps: seq<seq<Act>>, links: set<(nat, nat)>) {
    forall k | 0 <= k < |sweeps| :: Sweep(After(n, Flatten(sweeps[..k])), sweeps[k], links)
  }

  lemma {:induction false} AfterAppend(n: Net, a: seq<Act>, b: seq<Act>)
    ensures After(n, a + b) == After(After(n, a), b)
  {
    if b == [] {
      assert a + b == a;
    } else {
      assert (a + b)[..|a + b| - 1] == a + b[..|b| - 1];
      AfterAppend(n, a, b[..|b| - 1]);
    }
  }

  /** From any point of a run on, anchors only rise. */
  lemma RisesFrom(n: Net, ranks: seq<u64>, acts: seq<Act>, k: nat)
    requires DistinctIssuers(ranks) && Inv(n, ranks) && k <= |acts|
    ensures Inv(After(n, acts[..k]), ranks) && Rises(n, After(n, acts[..k]))
    ensures Rises(After(n, acts[..k]), After(n, acts))
  {
    hide Do, DistinctIssuers;
    RunInv(n, ranks, acts[..k]);
    RunInv(After(n, acts[..k]), ranks, acts[k..]);
    AfterAppend(n, acts[..k], acts[k..]);
    assert acts == acts[..k] + acts[k..];
  }

  /** A link that was heard has carried the sender's anchor over. */
  lemma HeardRaises(n: Net, ranks: seq<u64>, acts: seq<Act>, l: (nat, nat), s: nat, r: nat)
    requires DistinctIssuers(ranks) && Inv(n, ranks) && HeardAt(n, acts, l, s, r) && l.1 < |n.devices|
    ensures n.devices[l.0].anchorMasterRank <= After(n, acts).devices[l.1].anchorMasterRank
  {
    hide Do, DistinctIssuers, Inv, Enabled;
    var before, after := After(n, acts[..r]), After(n, acts[..r + 1]);
    RisesFrom(n, ranks, acts, s);
    RisesFrom(n, ranks, acts, r);
    RisesFrom(n, ranks, acts, r + 1);
    DoInv(before, ranks, acts[r]);
    assert after == Do(before, acts[r]) by {
      assert acts[..r + 1][..r] == acts[..r];
    }
  }

  /** After as many sweeps as a path has links, its end has at least the anchor its start began with. */
  lemma {:induction false} SweepsCarry(n: Net, ranks: seq<u64>, links: set<(nat, nat)>, sweeps: seq<seq<Act>>,
                                       path: seq<nat>)
    requires DistinctIssuers(ranks) && Inv(n, ranks) && Sweeps(n, sweeps, links)
    requires IsPath(path, links) && |path| <= |sweeps| + 1 && forall k | 0 <= k < |path| :: path[k] < |n.devices|
    ensures n.devices[path[0]].anchorMasterRank
            <= After(n, Flatten(sweeps)).devices[path[|path| - 1]].anchorMasterRank
  {
    hide After, DistinctIssuers, Inv;
    if |path| == 1 {
      RunInv(n, ranks, Flatten(sweeps));
    } else {
      var pre, last := sweeps[..|sweeps| - 1], sweeps[|sweeps| - 1];
      forall k | 0 <= k < |pre| ensures Sweep(After(n, Flatten(pre[..k])), pre[k], links) {
        assert pre[..k] == sweeps[..k];
      }
      SweepsCarry(n, ranks, links, pre, path[..|path| - 1]);
      RunInv(n, ranks, Flatten(pre));
      SweepCarries(After(n, Flatten(pre)), ranks, links, last, (path[|path| - 2], path[|path| - 1]));
      AfterAppend(n, Flatten(pre), last);
    }
  }

  lemma SweepCarries(n: Net, ranks: seq<u64>, links: set<(nat, nat)>, sweep: seq<Act>, l: (nat, nat))
    requires DistinctIssuers(ranks) && Inv(n, ranks) && Sweep(n, sweep, links) && l in links
    requires l.0 < |n.devices| && l.1 < |n.devices|
    ensures n.devices[l.0].anchorMasterRank <= After(n, sweep).devices[l.1].anchorMasterRank
  {
    hide After, DistinctIssuers, Inv, HeardAt;
    assert Heard(n, sweep, l);
    var s, r :| HeardAt(n, sweep, l, s, r);
    HeardRaises(n, ranks, sweep, l, s, r);
  }

  lemma Carried(n: Net, ranks: seq<u64>, links: set<(nat, nat)>, sweeps: seq<seq<Act>>, i: nat, j: nat)
    requires DistinctIssuers(ranks) && Inv(n, ranks) && Sweeps(n, sweeps, links)
    requires Joined(i, j, links, |sweeps|) && j < |n.devices|
    requires forall l | l in links :: l.0 < |n.devices| && l.1 < |n.devices|
    ensures i < |n.devices|
    ensures n.devices[i].anchorMasterRank <= After(n, Flatten(sweeps)).devices[j].anchorMasterRank
  {
    hide After, DistinctIssuers, Sweeps, Inv;
    var path :| IsPath(path, links) && path[0] == i && path[|path| - 1] == j && |path| <= |sweeps| + 1;
    PathInside(path, links, |n.devices|);
    SweepsCarry(n, ranks, links, sweeps, path);
  }

  /**
   * Convergence: if every two devices are joined by at most as many links as there are sweeps, and in each sweep
   * every link carries one beacon sent within the sweep, then the network ends in agreement, whatever else is sent
   * and received in between.
   */
  lemma Convergence(n: Net, ranks: seq<u64>, links: set<(nat, nat)>, sweeps: seq<seq<Act>>)
    requires DistinctIssuers(ranks) && Started(n, ranks) && Connected(|ranks|, links, |sweeps|)
    requires Sweeps(n, sweeps, links)
    ensures Agreed(After(n, Flatten(sweeps)), ranks)
  {
    hide After, DistinctIssuers, Sweeps, Joined;
    StartedInv(n, ranks);
    var end := After(n, Flatten(sweeps));
    RunInv(n, ranks, Flatten(sweeps));
    forall i, j | 0 <= i < |ranks| && 0 <= j < |ranks|
      ensures end.devices[i].anchorMasterRank in ranks && ranks[j] <= end.devices[i].anchorMasterRank
    {
      assert DeviceInv(end.devices[i], ranks[i], ranks);
      assert Joined(j, i, links, |sweeps|);
      Carried(n, ranks, links, sweeps, j, i);
      assert n.devices[j].masterRank == ranks[j];
    }
  }
}
