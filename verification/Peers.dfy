/** One known peer: struct nan_peer of src/peer.h and the setters of src/peer.c. */
module Peers {
  import opened Words
  import opened MasterRank

  /** The fields of a peer at one moment. */
  datatype PeerView = PeerView(
    addr: EtherAddr, clusterId: EtherAddr, lastUpdate: u64, lastTimestamp: u64,
    masterPreference: u8, lastMasterPreference: u8, randomFactor: u8,
    anchorMasterRank: u64, lastAnchorMasterRank: u64, ambtt: u32, hopCount: u8,
    masterCandidate: bool, rssiAverage: i8)

  function NewPeer(addr: EtherAddr, clusterId: EtherAddr): PeerView {
    PeerView(addr, clusterId, 0, 0, 0, 0, 0, 0, 0, 0, 0, false, 0)
  }

  /** nan_get_peer_master_rank */
  function PeerMasterRank(p: PeerView): u64 {
    CalculateMasterRank(p.masterPreference, p.randomFactor, p.addr)
  }

  /**
   * What a received cluster attribute makes of a peer: a peer that is its own anchor master
   * (hop count 0) is given the time of its previous beacon instead of the announced time.
   */
  function WithAnchor(p: PeerView, rank: u64, ambtt: u32, hopCount: u8): PeerView {
    p.(lastAnchorMasterRank := p.anchorMasterRank, anchorMasterRank := rank, hopCount := hopCount,
       ambtt := if hopCount == 0 then Wrap32(p.lastTimestamp) else ambtt)
  }

  function WithIndication(p: PeerView, masterPreference: u8, randomFactor: u8): PeerView {
    p.(lastMasterPreference := p.masterPreference, masterPreference := masterPreference, randomFactor := randomFactor)
  }

  class Peer {
    const addr: EtherAddr
    var clusterId: EtherAddr
    var lastUpdate: u64
    var lastTimestamp: u64
    var masterPreference: u8
    var lastMasterPreference: u8
    var randomFactor: u8
    var anchorMasterRank: u64
    var lastAnchorMasterRank: u64
    var ambtt: u32
    var hopCount: u8
    var masterCandidate: bool
    var rssiAverage: i8

    function View(): PeerView
      reads this
    {
      PeerView(addr, clusterId, lastUpdate, lastTimestamp, masterPreference, lastMasterPreference, randomFactor,
               anchorMasterRank, lastAnchorMasterRank, ambtt, hopCount, masterCandidate, rssiAverage)
    }

    constructor (addr: EtherAddr, clusterId: EtherAddr)
      ensures View() == NewPeer(addr, clusterId)
      ensures lastUpdate == 0 && lastTimestamp == 0 && masterPreference == 0 && lastMasterPreference == 0
      ensures randomFactor == 0 && anchorMasterRank == 0 && lastAnchorMasterRank == 0 && ambtt == 0 && hopCount == 0
      ensures !masterCandidate && rssiAverage == 0
    {
      this.addr, this.clusterId := addr, clusterId;
      lastUpdate, lastTimestamp := 0, 0;
      masterPreference, lastMasterPreference, randomFactor := 0, 0, 0;
      anchorMasterRank, lastAnchorMasterRank, ambtt, hopCount := 0, 0, 0, 0;
      masterCandidate, rssiAverage := false, 0;
    }

    method SetMasterIndication(masterPreference: u8, randomFactor: u8)
      modifies this
      ensures View() == WithIndication(old(View()), masterPreference, randomFactor)
    {
      lastMasterPreference := this.masterPreference;
      this.masterPreference := masterPreference;
      this.randomFactor := randomFactor;
    }

    method SetAnchorMasterInformation(rank: u64, ambtt: u32, hopCount: u8)
      modifies this
      ensures View() == WithAnchor(old(View()), rank, ambtt, hopCount)
    {
      lastAnchorMasterRank := anchorMasterRank;
      anchorMasterRank := rank;
      this.hopCount := hopCount;
      if hopCount == 0 {
        this.ambtt := Wrap32(lastTimestamp);
      } else {
        this.ambtt := ambtt;
      }
    }

    /** The RSSI average after the new sample is an input. */
    method SetBeaconInformation(rssiAverage: i8, timestamp: u64)
      modifies this
      ensures View() == old(View()).(rssiAverage := rssiAverage, lastTimestamp := timestamp)
    {
      this.rssiAverage := rssiAverage;
      lastTimestamp := timestamp;
    }
  }
}
