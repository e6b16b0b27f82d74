/** The table of known peers: the operations of src/peer.c on a list. */
module PeerTables {
  import opened Words
  import opened MasterRank
  import opened Peers
  import opened Lists
  import Sync

  const PEER_DEFAULT_TIMEOUT_USEC: u64 := 512 * 1024 * 10

  datatype PeerStatus = PeerAdd | PeerUpdate | PeerOk | PeerMissing

  // ---------------------------------------------------------------- the table as a value

  predicate Unique(ps: seq<PeerView>) { forall i, j | 0 <= i < j < |ps| :: ps[i].addr != ps[j].addr }

  predicate Known(ps: seq<PeerView>, addr: EtherAddr) { exists i | 0 <= i < |ps| :: ps[i].addr == addr }

  /** A known peer is stamped, an unknown one is appended. */
  function Added(ps: seq<PeerView>, addr: EtherAddr, clusterId: EtherAddr, nowUsec: u64): seq<PeerView> {
    if ps == [] then [NewPeer(addr, clusterId).(lastUpdate := nowUsec)]
    else if ps[0].addr == addr then [ps[0].(lastUpdate := nowUsec, clusterId := clusterId)] + ps[1..]
    else [ps[0]] + Added(ps[1..], addr, clusterId, nowUsec)
  }

  function Cutoff(nowUsec: u64, timeoutUsec: u64): u64 { Wrap64(nowUsec - timeoutUsec) }

  predicate Stale(heard: u64, cutoff: u64) { heard < cutoff }

  /** The peers that are not too old, in their order. */
  function Kept(ps: seq<PeerView>, cutoff: u64): seq<PeerView> {
    if ps == [] then [] else if Stale(ps[0].lastUpdate, cutoff) then Kept(ps[1..], cutoff)
    else [ps[0]] + Kept(ps[1..], cutoff)
  }

  function TooOld(ps: seq<PeerView>, cutoff: u64): seq<PeerView> {
    if ps == [] then [] else if Stale(ps[0].lastUpdate, cutoff) then [ps[0]] + TooOld(ps[1..], cutoff)
    else TooOld(ps[1..], cutoff)
  }

  function RemovedAt(ps: seq<PeerView>, addr: EtherAddr): seq<PeerView> {
    if ps == [] then [] else if ps[0].addr == addr then ps[1..] else [ps[0]] + RemovedAt(ps[1..], addr)
  }

  function Changed(ps: seq<PeerView>, p: PeerView): seq<PeerView> {
    if ps == [] then [] else if ps[0].addr == p.addr then [p] + ps[1..] else [ps[0]] + Changed(ps[1..], p)
  }

  // ---------------------------------------------------------------- agreement with a map

  function AsMap(ps: seq<PeerView>): map<EtherAddr, PeerView> {
    if ps == [] then map[] else AsMap(ps[1..])[ps[0].addr := ps[0]]
  }

  datatype Op =
    | Add(addr: EtherAddr, clusterId: EtherAddr, nowUsec: u64)
    | Remove(addr: EtherAddr)
    | Change(peer: PeerView)  // whatever the setters do to the peer of that address
    | Clean(nowUsec: u64, timeoutUsec: u64)

  function Apply(ps: seq<PeerView>, op: Op): seq<PeerView> {
    match op
    case Add(addr, clusterId, nowUsec) => Added(ps, addr, clusterId, nowUsec)
    case Remove(addr) => RemovedAt(ps, addr)
    case Change(p) => Changed(ps, p)
    case Clean(nowUsec, timeoutUsec) => Kept(ps, Cutoff(nowUsec, timeoutUsec))
  }

  /** The same operation on a map from addresses to peers. */
  function ApplyMap(m: map<EtherAddr, PeerView>, op: Op): map<EtherAddr, PeerView> {
    match op
    case Add(addr, clusterId, nowUsec) =>
      m[addr := (if addr in m then m[addr] else NewPeer(addr, clusterId)).(lastUpdate := nowUsec, clusterId := clusterId)]
    case Remove(addr) => m - {addr}
    case Change(p) => if p.addr in m then m[p.addr := p] else m
    case Clean(nowUsec, timeoutUsec) => map addr | addr in m && !Stale(m[addr].lastUpdate, Cutoff(nowUsec, timeoutUsec)) :: m[addr]
  }

  lemma {:induction false} MapHolds(ps: seq<PeerView>, addr: EtherAddr)
    ensures addr in AsMap(ps) <==> Known(ps, addr)
    ensures addr in AsMap(ps) ==> AsMap(ps)[addr].addr == addr
    ensures Unique(ps) ==> forall i | 0 <= i < |ps| && ps[i].addr == addr :: AsMap(ps)[addr] == ps[i]
  {
    if ps != [] {
      MapHolds(ps[1..], addr);
      assert Known(ps[1..], addr) ==> Known(ps, addr) by {
        if i :| 0 <= i < |ps[1..]| && ps[1..][i].addr == addr {
          assert ps[i + 1].addr == addr;
        }
      }
      assert Known(ps, addr) ==> ps[0].addr == addr || Known(ps[1..], addr) by {
        if i :| 0 <= i < |ps| && ps[i].addr == addr && i > 0 {
          assert ps[1..][i - 1].addr == addr;
        }
      }
      if Unique(ps) {
        forall i | 0 <= i < |ps| && ps[i].addr == addr ensures AsMap(ps)[addr] == ps[i] {
          if i > 0 {
            assert ps[1..][i - 1] == ps[i];
          }
        }
      }
    }
  }

  lemma UniqueTail(ps: seq<PeerView>)
    requires ps != []
    ensures Unique(ps) <==> Unique(ps[1..]) && !Known(ps[1..], ps[0].addr)
  {
    if Unique(ps) {
      assert forall i | 0 <= i < |ps[1..]| :: ps[1..][i] == ps[i + 1];
    }
    if Unique(ps[1..]) && !Known(ps[1..], ps[0].addr) {
      forall i, j | 0 <= i < j < |ps| ensures ps[i].addr != ps[j].addr {
        assert ps[1..][j - 1] == ps[j];
        if i > 0 {
          assert ps[1..][i - 1] == ps[i];
        }
      }
    }
  }

  lemma {:induction false} AddKeeps(ps: seq<PeerView>, addr: EtherAddr, clusterId: EtherAddr, nowUsec: u64)
    requires Unique(ps)
    ensures var op, after := Add(addr, clusterId, nowUsec), Added(ps, addr, clusterId, nowUsec);
            Unique(after) && AsMap(after) == ApplyMap(AsMap(ps), op)
  {
    hide Unique, Known;
    var after := Added(ps, addr, clusterId, nowUsec);
    UniqueTail(after);
    if ps == [] {
      NothingKnown(addr);
    } else {
      UniqueTail(ps);
      AddKeeps(ps[1..], addr, clusterId, nowUsec);
      MapHolds(ps[1..], ps[0].addr);
      MapHolds(after[1..], ps[0].addr);
    }
  }

  lemma NothingKnown(addr: EtherAddr)
    ensures !Known([], addr) && Unique([])
  {}

  lemma {:induction false} RemoveKeeps(ps: seq<PeerView>, addr: EtherAddr)
    requires Unique(ps)
    ensures Unique(RemovedAt(ps, addr)) && AsMap(RemovedAt(ps, addr)) == AsMap(ps) - {addr}
  {
    hide Unique, Known;
    if ps != [] {
      UniqueTail(ps);
      MapHolds(ps[1..], ps[0].addr);
      if ps[0].addr != addr {
        var after := RemovedAt(ps, addr);
        RemoveKeeps(ps[1..], addr);
        UniqueTail(after);
        MapHolds(after[1..], ps[0].addr);
      }
    }
  }

  lemma {:induction false} ChangeKeeps(ps: seq<PeerView>, p: PeerView)
    requires Unique(ps)
    ensures Unique(Changed(ps, p)) && AsMap(Changed(ps, p)) == ApplyMap(AsMap(ps), Change(p))
  {
    hide Unique, Known;
    if ps != [] {
      var after := Changed(ps, p);
      UniqueTail(ps);
      UniqueTail(after);
      MapHolds(ps[1..], ps[0].addr);
      if ps[0].addr != p.addr {
        ChangeKeeps(ps[1..], p);
        MapHolds(after[1..], ps[0].addr);
      }
    }
  }

  lemma {:induction false} CleanKeeps(ps: seq<PeerView>, nowUsec: u64, timeoutUsec: u64)
    requires Unique(ps)
    ensures var after := Kept(ps, Cutoff(nowUsec, timeoutUsec));
            Unique(after) && AsMap(after) == ApplyMap(AsMap(ps), Clean(nowUsec, timeoutUsec))
  {
    hide Unique, Known, Cutoff;
    if ps != [] {
      var after := Kept(ps, Cutoff(nowUsec, timeoutUsec));
      UniqueTail(ps);
      MapHolds(ps[1..], ps[0].addr);
      CleanKeeps(ps[1..], nowUsec, timeoutUsec);
      if !Stale(ps[0].lastUpdate, Cutoff(nowUsec, timeoutUsec)) {
        UniqueTail(after);
        MapHolds(after[1..], ps[0].addr);
      }
    }
  }

  function Run(ps: seq<PeerView>, ops: seq<Op>): seq<PeerView>
    decreases |ops|
  {
    if ops == [] then ps else Run(Apply(ps, ops[0]), ops[1..])
  }

  function RunMap(m: map<EtherAddr, PeerView>, ops: seq<Op>): map<EtherAddr, PeerView>
    decreases |ops|
  {
    if ops == [] then m else RunMap(ApplyMap(m, ops[0]), ops[1..])
  }

  /** In every run the addresses stay unique and the table is a map from addresses to peers. */
  lemma {:induction false} TableIsMap(ps: seq<PeerView>, ops: seq<Op>)
    requires Unique(ps)
    ensures Unique(Run(ps, ops)) && AsMap(Run(ps, ops)) == RunMap(AsMap(ps), ops)
    decreases |ops|
  {
    hide Unique, ApplyMap, AsMap;
    if ops != [] {
      match ops[0] {
        case Add(addr, clusterId, nowUsec) => AddKeeps(ps, addr, clusterId, nowUsec);
        case Remove(addr) => RemoveIsMapRemove(ps, addr);
        case Change(p) => ChangeKeeps(ps, p);
        case Clean(nowUsec, timeoutUsec) => CleanKeeps(ps, nowUsec, timeoutUsec);
      }
      TableIsMap(Apply(ps, ops[0]), ops[1..]);
    }
  }

  lemma RemoveIsMapRemove(ps: seq<PeerView>, addr: EtherAddr)
    requires Unique(ps)
    ensures Unique(RemovedAt(ps, addr)) && AsMap(RemovedAt(ps, addr)) == ApplyMap(AsMap(ps), Remove(addr))
  {
    hide AsMap, Unique;
    RemoveKeeps(ps, addr);
  }

  /**
   * Cleaning forgets exactly the peers heard longer ago than the timeout, if the clock has passed the timeout. Before
   * that the subtraction wraps around, and peers that were heard a moment ago are forgotten too.
   */
  lemma CutoffIsTimeout(nowUsec: u64, timeoutUsec: u64)
    ensures (forall heard: u64 | heard <= nowUsec :: Stale(heard, Cutoff(nowUsec, timeoutUsec)) <==> heard + timeoutUsec < nowUsec)
            <==> timeoutUsec <= nowUsec
  {
    if nowUsec < timeoutUsec {
      assert Cutoff(nowUsec, timeoutUsec) == nowUsec - timeoutUsec + 0x1_0000_0000_0000_0000;
      assert Stale(0, Cutoff(nowUsec, timeoutUsec));
    }
  }

  // ---------------------------------------------------------------- the table on a list

  /** The first stale peer is taken out: what is left to keep stays, what is left to remove loses its first. */
  lemma {:induction false} FirstStale(ps: seq<PeerView>, k: nat, cutoff: u64)
    requires k < |ps| && Stale(ps[k].lastUpdate, cutoff) && forall i | 0 <= i < k :: !Stale(ps[i].lastUpdate, cutoff)
    ensures var rest := ps[..k] + ps[k + 1..];
            Kept(rest, cutoff) == Kept(ps, cutoff) && TooOld(ps, cutoff) == [ps[k]] + TooOld(rest, cutoff)
  {
    var rest := ps[..k] + ps[k + 1..];
    if k == 0 {
      assert rest == ps[1..];
    } else {
      FirstStale(ps[1..], k - 1, cutoff);
      assert rest[1..] == ps[1..][..k - 1] + ps[1..][k..] && rest[0] == ps[0];
      assert ps[1..][k - 1] == ps[k];
    }
  }

  lemma CleanedFirst(ps: seq<PeerView>, cutoff: u64)
    requires ps != []
    ensures Kept(ps, cutoff) == (if ps[0].lastUpdate < cutoff then [] else [ps[0]]) + Kept(ps[1..], cutoff)
    ensures TooOld(ps, cutoff) == (if ps[0].lastUpdate < cutoff then [ps[0]] else []) + TooOld(ps[1..], cutoff)
  {}

  /** Cleaning goes through the table part by part: each peer is kept or not, for itself, and in its place. */
  lemma {:induction false} CleanedInOrder(a: seq<PeerView>, b: seq<PeerView>, cutoff: u64)
    ensures Kept(a + b, cutoff) == Kept(a, cutoff) + Kept(b, cutoff)
    ensures TooOld(a + b, cutoff) == TooOld(a, cutoff) + TooOld(b, cutoff)
    ensures |a| == 1 ==> Kept(a, cutoff) == (if a[0].lastUpdate < cutoff then [] else a)
    ensures |a| == 1 ==> TooOld(a, cutoff) == if a[0].lastUpdate < cutoff then a else []
    decreases |a|
  {
    NothingCleaned(cutoff);
    hide Kept, TooOld;
    if a == [] {
      assert a + b == b;
    } else {
      assert (a + b)[1..] == a[1..] + b && (a + b)[0] == a[0];
      assert |a| == 1 ==> a[1..] == [] && a == [a[0]];
      CleanedInOrder(a[1..], b, cutoff);
      CleanedFirst(a, cutoff);
      CleanedFirst(a + b, cutoff);
    }
  }

  lemma NothingCleaned(cutoff: u64)
    ensures Kept([], cutoff) == [] && TooOld([], cutoff) == []
  {}

  lemma {:induction false} NoneStale(ps: seq<PeerView>, cutoff: u64)
    requires forall i | 0 <= i < |ps| :: !Stale(ps[i].lastUpdate, cutoff)
    ensures Kept(ps, cutoff) == ps && TooOld(ps, cutoff) == []
  {
    if ps != [] {
      NoneStale(ps[1..], cutoff);
    }
  }

  lemma RemovedFirst(ps: seq<PeerView>, addr: EtherAddr)
    requires ps != []
    ensures RemovedAt(ps, addr) == if ps[0].addr == addr then ps[1..] else [ps[0]] + RemovedAt(ps[1..], addr)
  {}

  lemma {:induction false} RemovedAtIndex(ps: seq<PeerView>, k: nat)
    requires Unique(ps) && k < |ps|
    ensures RemovedAt(ps, ps[k].addr) == ps[..k] + ps[k + 1..]
  {
    hide Unique, Known;
    UniqueTail(ps);
    RemovedFirst(ps, ps[k].addr);
    hide RemovedAt;
    if k > 0 {
      InTail(ps, k, ps[k]);
      KnownAt(ps[1..], k - 1);
      RemovedAtIndex(ps[1..], k - 1);
    } else {
      assert ps[..0] + ps[1..] == ps[1..];
    }
  }

  lemma InTail(ps: seq<PeerView>, k: nat, p: PeerView)
    requires 0 < k < |ps|
    ensures ps[1..][k - 1] == ps[k] && ps[k := p] == [ps[0]] + ps[1..][k - 1 := p]
    ensures ps[..k] + ps[k + 1..] == [ps[0]] + (ps[1..][..k - 1] + ps[1..][k..])
  {}

  lemma KnownAt(ps: seq<PeerView>, k: nat)
    requires k < |ps|
    ensures Known(ps, ps[k].addr)
  {}

  lemma {:induction false} AddedKnown(ps: seq<PeerView>, k: nat, clusterId: EtherAddr, nowUsec: u64)
    requires k < |ps| && Unique(ps)
    ensures Added(ps, ps[k].addr, clusterId, nowUsec) == ps[k := ps[k].(lastUpdate := nowUsec, clusterId := clusterId)]
  {
    hide Unique, Known;
    UniqueTail(ps);
    var p := ps[k].(lastUpdate := nowUsec, clusterId := clusterId);
    if k > 0 {
      InTail(ps, k, p);
      KnownAt(ps[1..], k - 1);
      AddedKnown(ps[1..], k - 1, clusterId, nowUsec);
    } else {
      assert ps[0 := p] == [p] + ps[1..];
    }
  }

  lemma {:induction false} AddedUnknown(ps: seq<PeerView>, addr: EtherAddr, clusterId: EtherAddr, nowUsec: u64)
    requires forall i | 0 <= i < |ps| :: ps[i].addr != addr
    ensures Added(ps, addr, clusterId, nowUsec) == ps + [NewPeer(addr, clusterId).(lastUpdate := nowUsec)]
  {
    if ps != [] {
      AddedUnknown(ps[1..], addr, clusterId, nowUsec);
    }
  }

  predicate AllDifferent(ps: seq<Peer>) { forall i, j | 0 <= i < j < |ps| :: ps[i].addr != ps[j].addr }

  lemma WithoutIndex(ps: seq<Peer>, k: nat)
    requires AllDifferent(ps) && k < |ps|
    ensures Without(ps, ps[k]) == ps[..k] + ps[k + 1..] && AllDifferent(ps[..k] + ps[k + 1..])
  {
    forall i | 0 <= i < k ensures ps[..k][i] != ps[k] {
      assert ps[i].addr != ps[k].addr;
    }
    WithoutFirst(ps, ps[k], k);
    CutDifferent(ps, k);
  }

  lemma CutDifferent(ps: seq<Peer>, k: nat)
    requires AllDifferent(ps) && k < |ps|
    ensures AllDifferent(ps[..k] + ps[k + 1..])
  {}

  lemma DifferentMore(ps: seq<Peer>, p: Peer)
    requires AllDifferent(ps) && forall i | 0 <= i < |ps| :: ps[i].addr != p.addr
    ensures AllDifferent(ps + [p])
  {}

  lemma ViewsMore(ps: seq<Peer>, p: Peer)
    ensures Sync.Views(ps + [p]) == Sync.Views(ps) + [p.View()]
  {}

  lemma AddrOfView(ps: seq<Peer>)
    requires AllDifferent(ps)
    ensures |Sync.Views(ps)| == |ps| && forall i | 0 <= i < |ps| :: Sync.Views(ps)[i].addr == ps[i].addr
    ensures Unique(Sync.Views(ps))
  {}

  lemma ViewsCut(ps: seq<Peer>, k: nat)
    requires k < |ps|
    ensures Sync.Views(ps[..k] + ps[k + 1..]) == Sync.Views(ps)[..k] + Sync.Views(ps)[k + 1..]
  {}

  ghost predicate Within(a: seq<Entry<Peer>>, b: seq<Entry<Peer>>) { forall i | 0 <= i < |a| :: a[i] in b }

  lemma WithinWithin(a: seq<Entry<Peer>>, b: seq<Entry<Peer>>, c: seq<Entry<Peer>>)
    requires Within(a, b) && Within(b, c)
    ensures Within(a, c)
  {}

  /** Taking a peer out of the list, if it is there, takes its address out of the table. */
  lemma WithoutView(known: seq<Peer>, peer: Peer)
    requires AllDifferent(known)
    ensures AllDifferent(Without(known, peer))
    ensures forall i | 0 <= i < |Without(known, peer)| :: Without(known, peer)[i] in known
    ensures Sync.Views(Without(known, peer))
            == if peer in known then RemovedAt(Sync.Views(known), peer.addr) else Sync.Views(known)
  {
    if peer in known {
      var k :| 0 <= k < |known| && known[k] == peer;
      hide AllDifferent, Sync.Views, Unique;
      AddrOfView(known);
      RemovedAtIndex(Sync.Views(known), k);
      ViewsCut(known, k);
      WithoutIndex(known, k);
    } else {
      WithoutAbsent(known, peer);
    }
  }

  class PeerTable {
    const peers: List<Peer>
    const timeoutUsec: u64
    /** The peers of the list. */
    ghost var known: seq<Peer>
    /** The peers for which the two callbacks were called, as they were then. */
    ghost var addCalls: seq<PeerView>
    ghost var removeCalls: seq<PeerView>

    ghost predicate Valid()
      reads this, peers, peers.spine
    {
      peers.Valid() && peers.Items() == known && AllDifferent(known)
    }

    ghost function View(): (ps: seq<PeerView>)
      reads this, known
      ensures |ps| == |known|
    {
      Sync.Views(known)
    }

    constructor ()
      ensures Valid() && View() == [] && addCalls == [] && removeCalls == [] && timeoutUsec == 5_242_880
      ensures fresh(peers) && fresh(peers.spine)
    {
      peers := new List<Peer>();
      timeoutUsec := PEER_DEFAULT_TIMEOUT_USEC;
      known, addCalls, removeCalls := [], [], [];
    }

    /** nan_peer_get: the peer with this address, if there is one. */
    method Get(addr: EtherAddr) returns (peer: Peer?, status: PeerStatus, ghost k: nat)
      requires Valid()
      ensures status == if peer == null then PeerMissing else PeerOk
      ensures Known(View(), addr) <==> peer != null
      ensures peer != null ==> k < |known| && peer == known[k] && View()[k].addr == addr
      ensures peer == null ==> forall i | 0 <= i < |View()| :: View()[i].addr != addr
      ensures peer == null ==> forall i | 0 <= i < |known| :: known[i].addr != addr
    {
      hide AllDifferent, Sync.Views, List.Valid, List.Items, Unique;
      var it := new ListIterator(peers);
      k := 0;
      while true
        invariant it.Valid() && it.list == peers && it.done == k && peers.Items() == known
        invariant forall i | 0 <= i < k :: known[i].addr != addr
        decreases |known| - k
      {
        var item, found := it.Next();
        if found == ListNotFound {
          AddrOfView(known);
          return null, PeerMissing, k;
        }
        if item.value.addr == addr {
          AddrOfView(known);
          return item.value, PeerOk, k;
        }
        k := k + 1;
      }
    }

    /** A peer with a new address goes to the end of the table. */
    method Insert(addr: EtherAddr, clusterId: EtherAddr, nowUsec: u64) returns (peer: Peer)
      requires Valid() && forall i | 0 <= i < |known| :: known[i].addr != addr
      modifies this`addCalls, this`known, peers, peers.spine
      ensures Valid() && known == old(known) + [peer] && fresh(peer)
      ensures peer.View() == NewPeer(addr, clusterId).(lastUpdate := nowUsec)
      ensures addCalls == old(addCalls) + [NewPeer(addr, clusterId)]
    {
      hide AllDifferent, List.Valid, List.Items;
      peer := new Peer(addr, clusterId);
      addCalls := addCalls + [peer.View()];
      peer.lastUpdate := nowUsec;
      DifferentMore(known, peer);
      peers.Add(peer);
      known := known + [peer];
    }

    /** A peer that is there is stamped and moved to the cluster it was heard in. */
    method Stamp(peer: Peer, ghost k: nat, clusterId: EtherAddr, nowUsec: u64)
      requires AllDifferent(known) && k < |known| && peer == known[k]
      modifies peer
      ensures View() == old(View())[k := old(View())[k].(lastUpdate := nowUsec, clusterId := clusterId)]
    {
      peer.lastUpdate := nowUsec;
      if peer.clusterId != clusterId {
        peer.clusterId := clusterId;
      }
      assert View() == old(View())[k := peer.View()];
    }

    /** nan_peer_add */
    method Add(addr: EtherAddr, clusterId: EtherAddr, nowUsec: u64) returns (status: PeerStatus)
      requires Valid()
      modifies this`addCalls, this`known, peers, peers.spine, known
      ensures Valid() && View() == Added(old(View()), addr, clusterId, nowUsec)
      ensures status == if Known(old(View()), addr) then PeerUpdate else PeerAdd
      ensures addCalls == if Known(old(View()), addr) then old(addCalls) else old(addCalls) + [NewPeer(addr, clusterId)]
      ensures if Known(old(View()), addr) then known == old(known)
              else |known| > 0 && known[..|known| - 1] == old(known) && fresh(known[|known| - 1])
    {
      hide Unique, AllDifferent, List.Valid, List.Items, Sync.Views;
      var peer, found, k := Get(addr);
      ghost var before := View();
      if peer == null {
        AddedUnknown(before, addr, clusterId, nowUsec);
        var created := Insert(addr, clusterId, nowUsec);
        ViewsMore(old(known), created);
        return PeerAdd;
      }
      AddrOfView(known);
      AddedKnown(before, k, clusterId, nowUsec);
      Stamp(peer, k, clusterId, nowUsec);
      return PeerUpdate;
    }

    /** nan_peer_remove: the callback is called whether or not the list held the peer. */
    method Remove(peer: Peer)
      requires Valid()
      modifies this`known, this`removeCalls, peers, peers.spine
      ensures Valid() && known == Without(old(known), peer)
      ensures View() == if peer in old(known) then RemovedAt(old(View()), peer.addr) else old(View())
      ensures removeCalls == old(removeCalls) + [peer.View()]
      ensures Within(peers.spine, old(peers.spine))
    {
      hide AllDifferent, List.Valid, List.Items, Sync.Views, Unique;
      WithoutView(known, peer);
      ghost var rest := Without(known, peer);
      ghost var view := Sync.Views(rest);
      var _ := peers.Remove(peer);
      assert Sync.Views(rest) == view;
      known := rest;
      removeCalls := removeCalls + [peer.View()];
    }

    /** The first peer that was heard before the cutoff. */
    method FindStale(cutoff: u64) returns (peer: Peer?, ghost k: nat)
      requires Valid()
      ensures peer == null ==> forall i | 0 <= i < |View()| :: !Stale(View()[i].lastUpdate, cutoff)
      ensures peer != null ==>
                k < |known| && peer == known[k] && View()[k] == peer.View() && Stale(View()[k].lastUpdate, cutoff) &&
                forall i | 0 <= i < k :: !Stale(View()[i].lastUpdate, cutoff)
    {
      hide AllDifferent, List.Valid, List.Items, Unique;
      var it := new ListIterator(peers);
      k := 0;
      while true
        invariant it.Valid() && it.list == peers && it.done == k && peers.Items() == known
        invariant forall i | 0 <= i < k :: !Stale(View()[i].lastUpdate, cutoff)
        decreases |known| - k
      {
        var item, found := it.Next();
        if found == ListNotFound {
          return null, k;
        }
        if item.value.lastUpdate < cutoff {
          return item.value, k;
        }
        k := k + 1;
      }
    }

    /** nan_peers_clean */
    method Clean(nowUsec: u64)
      requires Valid()
      modifies this`known, this`removeCalls, peers, peers.spine
      ensures Valid() && View() == Kept(old(View()), Cutoff(nowUsec, timeoutUsec))
      ensures removeCalls == old(removeCalls) + TooOld(old(View()), Cutoff(nowUsec, timeoutUsec))
    {
      hide AllDifferent, List.Valid, List.Items, Unique, Sync.Views, Kept, TooOld;
      var cutoff := Wrap64(nowUsec - timeoutUsec);
      while true
        invariant Valid()
        invariant Within(peers.spine, old(peers.spine))
        invariant Kept(View(), cutoff) == Kept(old(View()), cutoff)
        invariant removeCalls + TooOld(View(), cutoff) == old(removeCalls) + TooOld(old(View()), cutoff)
        decreases |known|
      {
        var peer, k := FindStale(cutoff);
        if peer == null {
          break;
        }
        FirstStale(View(), k, cutoff);
        AddrOfView(known);
        RemovedAtIndex(View(), k);
        WithoutIndex(known, k);
        assert peer in known;
        ghost var spine := peers.spine;
        Remove(peer);
        WithinWithin(peers.spine, spine, old(peers.spine));
      }
      NoneStale(View(), cutoff);
    }
  }
}
