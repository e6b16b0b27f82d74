/** Master ranks: packing, decoding and issuer tests of src/sync.c. */
module MasterRank {
  import opened Words

  /** struct ether_addr: six octets. */
  type EtherAddr = a: seq<u8> | |a| == 6 witness [0, 0, 0, 0, 0, 0]

  /** The address read as a little-endian number. */
  function AddrValue(a: EtherAddr): nat { FromLE(a) }

  /** The eight bytes of the packed union, in its little-endian layout. */
  function RankBytes(masterPreference: u8, randomFactor: u8, a: EtherAddr): seq<u8> {
    a + [randomFactor] + [masterPreference]
  }

  function CalculateMasterRank(masterPreference: u8, randomFactor: u8, a: EtherAddr): (rank: u64) {
    FromLEBound(RankBytes(masterPreference, randomFactor, a));
    PowValues();
    FromLE(RankBytes(masterPreference, randomFactor, a))
  }

  function AddressFromMasterRank(rank: u64): EtherAddr { ToLE(rank, 6) }

  predicate IsMasterRankIssuer(a: EtherAddr, rank: u64) {
    a == AddressFromMasterRank(rank)
  }

  predicate IsSameMasterRankIssuer(rank1: u64, rank2: u64) {
    IsMasterRankIssuer(AddressFromMasterRank(rank1), rank2)
  }

  /** The issuer test recovers exactly the address that was packed, whatever the other fields. */
  lemma IssuerIsPackedAddress(mp: u8, rf: u8, a: EtherAddr, b: EtherAddr)
    ensures AddressFromMasterRank(CalculateMasterRank(mp, rf, a)) == a
    ensures IsMasterRankIssuer(b, CalculateMasterRank(mp, rf, a)) <==> a == b
  {
    BytesRoundTrip(a, [rf] + [mp]);
    assert a + ([rf] + [mp]) == RankBytes(mp, rf, a);
  }

  /** Every 64-bit number is the packing of its three fields. */
  lemma PackOfFields(rank: u64)
    ensures var bs := ToLE(rank, 8);
            CalculateMasterRank(bs[7], bs[6], AddressFromMasterRank(rank)) == rank
  {
    PowValues();
    ValueRoundTrip(rank, 8);
    var bs := ToLE(rank, 8);
    assert bs == bs[..6] + [bs[6]] + [bs[7]];
    BytesRoundTrip(bs[..6], bs[6..]);
    assert bs == bs[..6] + bs[6..];
  }

  /** Ranks compare lexicographically: preference, then random factor, then address value. */
  lemma RankOrder(mp1: u8, rf1: u8, a1: EtherAddr, mp2: u8, rf2: u8, a2: EtherAddr)
    ensures CalculateMasterRank(mp1, rf1, a1) < CalculateMasterRank(mp2, rf2, a2) <==>
            mp1 < mp2 || (mp1 == mp2 && (rf1 < rf2 || (rf1 == rf2 && AddrValue(a1) < AddrValue(a2))))
  {
    LastByteFirst(a1 + [rf1], mp1, a2 + [rf2], mp2);
    LastByteFirst(a1, rf1, a2, rf2);
  }

  /** Equal ranks have equal fields. */
  lemma PackInjective(mp1: u8, rf1: u8, a1: EtherAddr, mp2: u8, rf2: u8, a2: EtherAddr)
    requires CalculateMasterRank(mp1, rf1, a1) == CalculateMasterRank(mp2, rf2, a2)
    ensures mp1 == mp2 && rf1 == rf2 && a1 == a2
  {
    BytesRoundTrip(RankBytes(mp1, rf1, a1), []);
    BytesRoundTrip(RankBytes(mp2, rf2, a2), []);
    var bs := RankBytes(mp1, rf1, a1);
    assert bs + [] == bs;
    assert RankBytes(mp2, rf2, a2) + [] == RankBytes(mp2, rf2, a2);
    assert bs[..6] == a1 && bs[6] == rf1 && bs[7] == mp1;
    assert bs[..6] == a2 && bs[6] == rf2 && bs[7] == mp2;
  }
}
