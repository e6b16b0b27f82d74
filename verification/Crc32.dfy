/** The CRC-32 of src/crc32.c: the table, the table-driven loop, and what the checksum detects. */
module Crc32 {
  import opened Words

  /** The generator polynomial of section 9.2.4.8 of IEEE Std 802.11-2016, bit-reflected. */
  const POLYNOMIAL: bv32 := 0xedb88320

  /** The 256 entries of crc32_tab, sixteen to a row. */
  const CRC32_TAB: seq<seq<bv32>> := [
    [0x00000000, 0x77073096, 0xee0e612c, 0x990951ba, 0x076dc419, 0x706af48f, 0xe963a535, 0x9e6495a3,
     0x0edb8832, 0x79dcb8a4, 0xe0d5e91e, 0x97d2d988, 0x09b64c2b, 0x7eb17cbd, 0xe7b82d07, 0x90bf1d91],
    [0x1db71064, 0x6ab020f2, 0xf3b97148, 0x84be41de, 0x1adad47d, 0x6ddde4eb, 0xf4d4b551, 0x83d385c7,
     0x136c9856, 0x646ba8c0, 0xfd62f97a, 0x8a65c9ec, 0x14015c4f, 0x63066cd9, 0xfa0f3d63, 0x8d080df5],
    [0x3b6e20c8, 0x4c69105e, 0xd56041e4, 0xa2677172, 0x3c03e4d1, 0x4b04d447, 0xd20d85fd, 0xa50ab56b,
     0x35b5a8fa, 0x42b2986c, 0xdbbbc9d6, 0xacbcf940, 0x32d86ce3, 0x45df5c75, 0xdcd60dcf, 0xabd13d59],
    [0x26d930ac, 0x51de003a, 0xc8d75180, 0xbfd06116, 0x21b4f4b5, 0x56b3c423, 0xcfba9599, 0xb8bda50f,
     0x2802b89e, 0x5f058808, 0xc60cd9b2, 0xb10be924, 0x2f6f7c87, 0x58684c11, 0xc1611dab, 0xb6662d3d],
    [0x76dc4190, 0x01db7106, 0x98d220bc, 0xefd5102a, 0x71b18589, 0x06b6b51f, 0x9fbfe4a5, 0xe8b8d433,
     0x7807c9a2, 0x0f00f934, 0x9609a88e, 0xe10e9818, 0x7f6a0dbb, 0x086d3d2d, 0x91646c97, 0xe6635c01],
    [0x6b6b51f4, 0x1c6c6162, 0x856530d8, 0xf262004e, 0x6c0695ed, 0x1b01a57b, 0x8208f4c1, 0xf50fc457,
     0x65b0d9c6, 0x12b7e950, 0x8bbeb8ea, 0xfcb9887c, 0x62dd1ddf, 0x15da2d49, 0x8cd37cf3, 0xfbd44c65],
    [0x4db26158, 0x3ab551ce, 0xa3bc0074, 0xd4bb30e2, 0x4adfa541, 0x3dd895d7, 0xa4d1c46d, 0xd3d6f4fb,
     0x4369e96a, 0x346ed9fc, 0xad678846, 0xda60b8d0, 0x44042d73, 0x33031de5, 0xaa0a4c5f, 0xdd0d7cc9],
    [0x5005713c, 0x270241aa, 0xbe0b1010, 0xc90c2086, 0x5768b525, 0x206f85b3, 0xb966d409, 0xce61e49f,
     0x5edef90e, 0x29d9c998, 0xb0d09822, 0xc7d7a8b4, 0x59b33d17, 0x2eb40d81, 0xb7bd5c3b, 0xc0ba6cad],
    [0xedb88320, 0x9abfb3b6, 0x03b6e20c, 0x74b1d29a, 0xead54739, 0x9dd277af, 0x04db2615, 0x73dc1683,
     0xe3630b12, 0x94643b84, 0x0d6d6a3e, 0x7a6a5aa8, 0xe40ecf0b, 0x9309ff9d, 0x0a00ae27, 0x7d079eb1],
    [0xf00f9344, 0x8708a3d2, 0x1e01f268, 0x6906c2fe, 0xf762575d, 0x806567cb, 0x196c3671, 0x6e6b06e7,
     0xfed41b76, 0x89d32be0, 0x10da7a5a, 0x67dd4acc, 0xf9b9df6f, 0x8ebeeff9, 0x17b7be43, 0x60b08ed5],
    [0xd6d6a3e8, 0xa1d1937e, 0x38d8c2c4, 0x4fdff252, 0xd1bb67f1, 0xa6bc5767, 0x3fb506dd, 0x48b2364b,
     0xd80d2bda, 0xaf0a1b4c, 0x36034af6, 0x41047a60, 0xdf60efc3, 0xa867df55, 0x316e8eef, 0x4669be79],
    [0xcb61b38c, 0xbc66831a, 0x256fd2a0, 0x5268e236, 0xcc0c7795, 0xbb0b4703, 0x220216b9, 0x5505262f,
     0xc5ba3bbe, 0xb2bd0b28, 0x2bb45a92, 0x5cb36a04, 0xc2d7ffa7, 0xb5d0cf31, 0x2cd99e8b, 0x5bdeae1d],
    [0x9b64c2b0, 0xec63f226, 0x756aa39c, 0x026d930a, 0x9c0906a9, 0xeb0e363f, 0x72076785, 0x05005713,
     0x95bf4a82, 0xe2b87a14, 0x7bb12bae, 0x0cb61b38, 0x92d28e9b, 0xe5d5be0d, 0x7cdcefb7, 0x0bdbdf21],
    [0x86d3d2d4, 0xf1d4e242, 0x68ddb3f8, 0x1fda836e, 0x81be16cd, 0xf6b9265b, 0x6fb077e1, 0x18b74777,
     0x88085ae6, 0xff0f6a70, 0x66063bca, 0x11010b5c, 0x8f659eff, 0xf862ae69, 0x616bffd3, 0x166ccf45],
    [0xa00ae278, 0xd70dd2ee, 0x4e048354, 0x3903b3c2, 0xa7672661, 0xd06016f7, 0x4969474d, 0x3e6e77db,
     0xaed16a4a, 0xd9d65adc, 0x40df0b66, 0x37d83bf0, 0xa9bcae53, 0xdebb9ec5, 0x47b2cf7f, 0x30b5ffe9],
    [0xbdbdf21c, 0xcabac28a, 0x53b39330, 0x24b4a3a6, 0xbad03605, 0xcdd70693, 0x54de5729, 0x23d967bf,
     0xb3667a2e, 0xc4614ab8, 0x5d681b02, 0x2a6f2b94, 0xb40bbe37, 0xc30c8ea1, 0x5a05df1b, 0x2d02ef8d]]

  function TableEntry(i: bv8): bv32 {
    CRC32_TAB[(i >> 4) as int][(i & 0xf) as int]
  }

  // ---------------------------------------------------------------- registers
  // Named operations, so that proofs can work with their laws instead of with bits.

  predicate Odd(w: bv32) { w & 1 == 1 }

  function Half(w: bv32): bv32 { w >> 1 }

  function Xor(a: bv32, b: bv32): bv32 { a ^ b }

  function Not(w: bv32): bv32 { !w }

  /** All but the lowest byte, moved down. */
  function Rest(w: bv32): bv32 { w >> 8 }

  lemma OddXor(a: bv32, b: bv32)
    ensures Odd(Xor(a, b)) <==> Odd(a) != Odd(b)
  {}

  lemma HalfXor(a: bv32, b: bv32)
    ensures Half(Xor(a, b)) == Xor(Half(a), Half(b))
  {}

  lemma XorAssociative(a: bv32, b: bv32, c: bv32)
    ensures Xor(Xor(a, b), c) == Xor(a, Xor(b, c))
  {}

  lemma XorCommutative(a: bv32, b: bv32)
    ensures Xor(a, b) == Xor(b, a)
  {}

  lemma XorSelf(a: bv32)
    ensures Xor(a, a) == 0 && Xor(0, a) == a && Xor(a, 0) == a
  {}

  lemma XorCancels(a: bv32, b: bv32)
    ensures Xor(a, Xor(a, b)) == b
  {}

  /** The four-term exchange. */
  lemma XorExchange(a: bv32, b: bv32, c: bv32, d: bv32)
    ensures Xor(Xor(a, b), Xor(c, d)) == Xor(Xor(a, c), Xor(b, d))
  {
    hide Xor;
    XorAssociative(a, b, Xor(c, d));
    XorAssociative(b, c, d);
    XorCommutative(b, c);
    XorAssociative(c, b, d);
    XorAssociative(a, c, Xor(b, d));
  }

  lemma SameHalves(x: bv32, y: bv32)
    requires Half(x) == Half(y) && (Odd(x) <==> Odd(y))
    ensures x == y
  {}

  // ---------------------------------------------------------------- the bit-serial definition

  /** The register moves on by one bit. */
  function Shift(s: bv32): bv32 {
    if s & 1 == 1 then (s >> 1) ^ POLYNOMIAL else s >> 1
  }

  lemma ShiftNamed(s: bv32)
    ensures Shift(s) == if Odd(s) then Xor(Half(s), POLYNOMIAL) else Half(s)
  {}

  /** One message bit enters the register. */
  function BitStep(s: bv32, bit: bool): bv32 {
    Shift(if bit then Xor(s, 1) else s)
  }

  function Feed(s: bv32, bits: seq<bool>): bv32
    decreases |bits|
  {
    if bits == [] then s else Feed(BitStep(s, bits[0]), bits[1..])
  }

  /** The low `k` bits of a word, least significant first: the order of transmission. */
  function LowBits(w: bv32, k: nat): (bits: seq<bool>)
    ensures |bits| == k
    decreases k
  {
    if k == 0 then [] else [Odd(w)] + LowBits(Half(w), k - 1)
  }

  function Bits(bytes: seq<bv8>): (bits: seq<bool>)
    ensures |bits| == 8 * |bytes|
  {
    if bytes == [] then [] else LowBits(bytes[0] as bv32, 8) + Bits(bytes[1..])
  }

  /** The checksum of a message: register preset to ones, all bits fed in, result inverted. */
  function Crc(bytes: seq<bv8>): bv32 {
    Not(Feed(0xffff_ffff, Bits(bytes)))
  }

  lemma {:induction false} FeedAppend(s: bv32, a: seq<bool>, b: seq<bool>)
    ensures Feed(s, a + b) == Feed(Feed(s, a), b)
    decreases |a|
  {
    hide BitStep;
    if a == [] {
      assert a + b == b;
    } else {
      assert (a + b)[1..] == a[1..] + b;
      FeedAppend(BitStep(s, a[0]), a[1..], b);
    }
  }

  lemma {:induction false} BitsAppend(a: seq<bv8>, b: seq<bv8>)
    ensures Bits(a + b) == Bits(a) + Bits(b)
  {
    hide LowBits;
    if a == [] {
      assert a + b == b;
    } else {
      assert (a + b)[1..] == a[1..] + b;
      BitsAppend(a[1..], b);
      var first := LowBits(a[0] as bv32, 8);
      assert first + (Bits(a[1..]) + Bits(b)) == first + Bits(a[1..]) + Bits(b);
    }
  }

  // ---------------------------------------------------------------- words instead of bits

  /** Zero bits enter the register. */
  function ShiftN(s: bv32, k: nat): bv32
    decreases k
  {
    if k == 0 then s else ShiftN(Shift(s), k - 1)
  }

  function Shift8(s: bv32): bv32 {
    Shift(Shift(Shift(Shift(Shift(Shift(Shift(Shift(s))))))))
  }

  lemma ShiftEight(s: bv32)
    ensures ShiftN(s, 8) == Shift8(s)
  {
    hide Shift;
    var s4 := Shift(Shift(Shift(Shift(s))));
    assert ShiftN(s, 8) == ShiftN(Shift(s), 7) == ShiftN(Shift(Shift(s)), 6) == ShiftN(s4, 4);
    assert ShiftN(s4, 4) == ShiftN(Shift(s4), 3) == ShiftN(Shift(Shift(s4)), 2);
  }

  /** The register is linear: what enters does not interfere. */
  lemma ShiftLinear(a: bv32, b: bv32)
    ensures Shift(Xor(a, b)) == Xor(Shift(a), Shift(b))
  {
    hide Odd, Half, Xor, Shift;
    var x, y := Half(a), Half(b);
    ShiftNamed(a);
    ShiftNamed(b);
    ShiftNamed(Xor(a, b));
    OddXor(a, b);
    HalfXor(a, b);
    XorExchange(x, POLYNOMIAL, y, POLYNOMIAL);
    XorSelf(POLYNOMIAL);
    XorSelf(Xor(x, y));
    XorAssociative(x, y, POLYNOMIAL);
    XorCommutative(y, POLYNOMIAL);
    XorAssociative(x, POLYNOMIAL, y);
  }

  lemma Shift8Linear(a: bv32, b: bv32)
    ensures Shift8(Xor(a, b)) == Xor(Shift8(a), Shift8(b))
  {
    hide Shift, Xor;
    var a1, b1 := Shift(a), Shift(b);
    var a2, b2 := Shift(a1), Shift(b1);
    var a3, b3 := Shift(a2), Shift(b2);
    var a4, b4 := Shift(a3), Shift(b3);
    var a5, b5 := Shift(a4), Shift(b4);
    var a6, b6 := Shift(a5), Shift(b5);
    ShiftLinear(a, b);
    ShiftLinear(a1, b1);
    ShiftLinear(a2, b2);
    ShiftLinear(a3, b3);
    ShiftLinear(a4, b4);
    ShiftLinear(a5, b5);
    ShiftLinear(a6, b6);
    ShiftLinear(Shift(a6), Shift(b6));
  }

  /** What is left of `w` above its low `k` bits. */
  function Drop(w: bv32, k: nat): bv32
    decreases k
  {
    if k == 0 then w else Drop(Half(w), k - 1)
  }

  lemma {:induction false} DropAdd(w: bv32, k: nat, m: nat)
    ensures Drop(w, k + m) == Drop(Drop(w, k), m)
    decreases k
  {
    hide Half;
    if k > 0 {
      DropAdd(Half(w), k - 1, m);
    }
  }

  lemma DropUnrolled(w: bv32)
    ensures Drop(w, 8) == Half(Half(Half(Half(Half(Half(Half(Half(w))))))))
    ensures Drop(w, 7) == Half(Half(Half(Half(Half(Half(Half(w)))))))
  {
    hide Half;
    var w4 := Half(Half(Half(Half(w))));
    assert Drop(w, 8) == Drop(Half(w), 7) == Drop(Half(Half(w)), 6) == Drop(w4, 4);
    assert Drop(w, 7) == Drop(Half(w), 6) == Drop(Half(Half(w)), 5) == Drop(w4, 3);
    assert Drop(w4, 4) == Drop(Half(w4), 3) == Drop(Half(Half(w4)), 2);
    assert Drop(w4, 3) == Drop(Half(w4), 2) == Drop(Half(Half(w4)), 1);
  }

  lemma HalvesOfByte(b: bv8)
    ensures Half(Half(Half(Half(Half(Half(Half(Half(b as bv32)))))))) == 0
  {}

  lemma ByteDrops(b: bv8)
    ensures Drop(b as bv32, 8) == 0
  {
    hide Half, Drop;
    DropUnrolled(b as bv32);
    HalvesOfByte(b);
  }

  /** The low bit of `w`, shifted out on its own, leaves the shifted rest of `w`. */
  lemma ShiftLowBit(w: bv32)
    ensures Shift(w) == Xor(if Odd(w) then Shift(1) else 0, Half(w))
  {
    hide Odd, Half, Xor, Shift;
    ShiftNamed(w);
    ShiftOne();
    XorCommutative(POLYNOMIAL, Half(w));
    XorSelf(Half(w));
  }

  lemma ShiftOne()
    ensures Shift(1) == POLYNOMIAL
  {}

  /** A bit that enters first makes room for the others. */
  lemma FirstBit(s: bv32, w: bv32)
    ensures Xor(BitStep(s, Odd(w)), Half(w)) == Shift(Xor(s, w))
  {
    hide Shift, Odd, Half, Xor;
    ShiftLinear(s, w);
    ShiftLinear(s, 1);
    ShiftLowBit(w);
    XorAssociative(Shift(s), Shift(1), Half(w));
    XorSelf(Half(w));
  }

  /** Bits fed in one by one are the word added at once. */
  lemma {:induction false} FeedWord(s: bv32, w: bv32, k: nat)
    requires Drop(w, k) == 0
    ensures Feed(s, LowBits(w, k)) == ShiftN(Xor(s, w), k)
    decreases k
  {
    hide BitStep, Odd, Half, Xor, Shift;
    if k == 0 {
      XorSelf(s);
    } else {
      assert LowBits(w, k)[1..] == LowBits(Half(w), k - 1);
      FeedWord(BitStep(s, Odd(w)), Half(w), k - 1);
      FirstBit(s, w);
    }
  }

  lemma FeedByte(s: bv32, b: bv8)
    ensures Feed(s, LowBits(b as bv32, 8)) == Shift8(Xor(s, b as bv32))
  {
    hide Shift8, Feed, LowBits, ShiftN, Drop, Xor;
    ByteDrops(b);
    FeedWord(s, b as bv32, 8);
    ShiftEight(Xor(s, b as bv32));
  }

  // ---------------------------------------------------------------- the table

  function RowFor(base: bv32): seq<bv32> {
    [Shift8(base), Shift8(base + 1), Shift8(base + 2), Shift8(base + 3),
     Shift8(base + 4), Shift8(base + 5), Shift8(base + 6), Shift8(base + 7),
     Shift8(base + 8), Shift8(base + 9), Shift8(base + 10), Shift8(base + 11),
     Shift8(base + 12), Shift8(base + 13), Shift8(base + 14), Shift8(base + 15)]
  }

  lemma Rows0()
    ensures CRC32_TAB[0] == RowFor(0) && CRC32_TAB[1] == RowFor(16)
  {}

  lemma Rows1()
    ensures CRC32_TAB[2] == RowFor(32) && CRC32_TAB[3] == RowFor(48)
  {}

  lemma Rows2()
    ensures CRC32_TAB[4] == RowFor(64) && CRC32_TAB[5] == RowFor(80)
  {}

  lemma Rows3()
    ensures CRC32_TAB[6] == RowFor(96) && CRC32_TAB[7] == RowFor(112)
  {}

  lemma Rows4()
    ensures CRC32_TAB[8] == RowFor(128) && CRC32_TAB[9] == RowFor(144)
  {}

  lemma Rows5()
    ensures CRC32_TAB[10] == RowFor(160) && CRC32_TAB[11] == RowFor(176)
  {}

  lemma Rows6()
    ensures CRC32_TAB[12] == RowFor(192) && CRC32_TAB[13] == RowFor(208)
  {}

  lemma Rows7()
    ensures CRC32_TAB[14] == RowFor(224) && CRC32_TAB[15] == RowFor(240)
  {}

  lemma RowEntry(base: bv32, c: bv8)
    requires c < 16
    ensures RowFor(base)[c as int] == Shift8(base + (c as bv32))
  {
    hide Shift8;
    assert c == 0 || c == 1 || c == 2 || c == 3 || c == 4 || c == 5 || c == 6 || c == 7
        || c == 8 || c == 9 || c == 10 || c == 11 || c == 12 || c == 13 || c == 14 || c == 15;
  }

  lemma RowOf(r: bv8)
    requires r < 16
    ensures CRC32_TAB[r as int] == RowFor((r as bv32) * 16)
  {
    hide RowFor;
    Rows0();
    Rows1();
    Rows2();
    Rows3();
    Rows4();
    Rows5();
    Rows6();
    Rows7();
    assert r == 0 || r == 1 || r == 2 || r == 3 || r == 4 || r == 5 || r == 6 || r == 7
        || r == 8 || r == 9 || r == 10 || r == 11 || r == 12 || r == 13 || r == 14 || r == 15;
  }

  /** Every table entry is its index after eight zero bits. */
  lemma TableIsShift8(i: bv8)
    ensures TableEntry(i) == Shift8(i as bv32)
  {
    hide RowFor, Shift8;
    RowOf(i >> 4);
    RowEntry(((i >> 4) as bv32) * 16, i & 0xf);
    assert ((i >> 4) as bv32) * 16 + ((i & 0xf) as bv32) == i as bv32;
  }

  function LowByte(x: bv32): bv8 { (x & 0xff) as bv8 }

  function HighBytes(x: bv32): bv32 { x & 0xffff_ff00 }

  /** The loop body of crc32: one lookup for a message byte. */
  function TableStep(s: bv32, b: bv8): bv32 {
    Xor(TableEntry(LowByte(Xor(s, b as bv32))), Rest(s))
  }

  lemma SplitByte(s: bv32, b: bv8)
    ensures var x := Xor(s, b as bv32);
            Xor(LowByte(x) as bv32, HighBytes(x)) == x && Rest(x) == Rest(s)
  {}

  lemma HighBytesMoveDown(x: bv32)
    ensures Shift8(HighBytes(x)) == Rest(x)
  {}

  /** One lookup does the work of eight bit steps. */
  lemma TableStepIsByte(s: bv32, b: bv8)
    ensures TableStep(s, b) == Feed(s, LowBits(b as bv32, 8))
  {
    hide Shift8, TableEntry, Feed, LowBits, LowByte, HighBytes, Xor, Rest, Not;
    var x := Xor(s, b as bv32);
    FeedByte(s, b);
    SplitByte(s, b);
    TableIsShift8(LowByte(x));
    Shift8Linear(LowByte(x) as bv32, HighBytes(x));
    HighBytesMoveDown(x);
  }

  lemma BitsOfOne(b: bv8)
    ensures Bits([b]) == LowBits(b as bv32, 8)
  {
    hide LowBits;
    assert [b][1..] == [];
    assert LowBits(b as bv32, 8) + [] == LowBits(b as bv32, 8);
  }

  /** One more byte of the message is one more table step. */
  lemma FeedOneMore(s: bv32, seen: seq<bv8>, b: bv8)
    ensures Feed(s, Bits(seen + [b])) == TableStep(Feed(s, Bits(seen)), b)
  {
    hide TableStep, Feed, LowBits, Bits;
    BitsAppend(seen, [b]);
    BitsOfOne(b);
    FeedAppend(s, Bits(seen), LowBits(b as bv32, 8));
    TableStepIsByte(Feed(s, Bits(seen)), b);
  }

  function AsBytes(data: seq<u8>): (bytes: seq<bv8>)
    ensures |bytes| == |data|
  {
    seq(|data|, i requires 0 <= i < |data| => data[i] as bv8)
  }

  lemma FeedNext(data: seq<u8>, p: nat)
    requires p < |data|
    ensures Feed(0xffff_ffff, Bits(AsBytes(data[..p + 1])))
            == TableStep(Feed(0xffff_ffff, Bits(AsBytes(data[..p]))), data[p] as bv8)
  {
    hide TableStep, Feed, Bits;
    assert AsBytes(data[..p + 1]) == AsBytes(data[..p]) + [data[p] as bv8];
    FeedOneMore(0xffff_ffff, AsBytes(data[..p]), data[p] as bv8);
  }

  lemma FeedNothing(s: bv32)
    ensures Feed(s, Bits([])) == s
  {}

  /** crc32: the loop over the table computes the bit-serial checksum. */
  method ComputeCrc32(buf: array<u8>, size: nat) returns (crc: bv32)
    requires size <= buf.Length
    ensures crc == Crc(AsBytes(buf[..size]))
  {
    hide TableStep, Feed, Bits;
    crc := !0;
    FeedNothing(crc);
    assert AsBytes(buf[..0]) == [];
    for p := 0 to size
      invariant crc == Feed(0xffff_ffff, Bits(AsBytes(buf[..p])))
    {
      FeedNext(buf[..size], p);
      assert buf[..size][..p] == buf[..p] && buf[..size][..p + 1] == buf[..p + 1];
      crc := TableStep(crc, buf[p] as bv8);
    }
    crc := crc ^ !0;
  }

  // ---------------------------------------------------------------- burst errors

  lemma ShiftInjective(s: bv32, t: bv32)
    ensures Shift(s) == Shift(t) ==> s == t
  {}

  /** Different registers stay different whatever is fed. */
  lemma {:induction false} FeedInjective(s: bv32, t: bv32, bits: seq<bool>)
    requires Feed(s, bits) == Feed(t, bits)
    ensures s == t
    decreases |bits|
  {
    hide Shift, Xor;
    if bits != [] {
      FeedInjective(BitStep(s, bits[0]), BitStep(t, bits[0]), bits[1..]);
      ShiftInjective(if bits[0] then Xor(s, 1) else s, if bits[0] then Xor(t, 1) else t);
      XorCommutative(s, 1);
      XorCommutative(t, 1);
      XorCancels(1, s);
      XorCancels(1, t);
    }
  }

  lemma {:induction false} DropZero(k: nat)
    ensures Drop(0, k) == 0
    decreases k
  {
    if k > 0 {
      assert Half(0) == 0;
      DropZero(k - 1);
    }
  }

  /** The highest bit is not set. */
  predicate TopClear(w: bv32) { w & 0x8000_0000 == 0 }

  lemma SevenHalves(w: bv32)
    ensures Half(Half(Half(Half(Half(Half(Half(w))))))) == w >> 7
  {}

  lemma EightHalves(w: bv32)
    ensures Half(Half(Half(Half(Half(Half(Half(Half(w)))))))) == w >> 8
  {}

  lemma TopBit(w: bv32)
    ensures TopClear(w) <==> (((w >> 8) >> 8) >> 8) >> 7 == 0
  {}

  lemma DropTop(w: bv32)
    ensures Drop(w, 31) == (((w >> 8) >> 8) >> 8) >> 7
  {
    hide Drop, Half;
    var w1 := w >> 8;
    var w2 := w1 >> 8;
    var w3 := w2 >> 8;
    DropAdd(w, 8, 23);
    DropAdd(w1, 8, 15);
    DropAdd(w2, 8, 7);
    DropUnrolled(w);
    DropUnrolled(w1);
    DropUnrolled(w2);
    DropUnrolled(w3);
    EightHalves(w);
    EightHalves(w1);
    EightHalves(w2);
    SevenHalves(w3);
  }

  lemma DropsClearTop(w: bv32, k: nat)
    requires Drop(w, k) == 0 && k <= 31
    ensures TopClear(w)
  {
    hide Drop, TopClear;
    DropAdd(w, k, 31 - k);
    DropZero(31 - k);
    DropTop(w);
    TopBit(w);
  }

  /** An odd register sets its top bit when it moves on. */
  lemma TopOfShift(x: bv32)
    ensures TopClear(Shift(x)) <==> !Odd(x)
  {}

  /** One step back: if the results differ only below the top bit, so did the inputs, one position further up. */
  lemma StepBack(s: bv32, t: bv32, a: bool, b: bool)
    requires TopClear(Xor(BitStep(s, a), BitStep(t, b)))
    ensures Half(Xor(s, t)) == Xor(BitStep(s, a), BitStep(t, b))
    ensures s == t ==> a == b
  {
    hide Shift, TopClear, Xor, Half, Odd;
    var s1, t1 := if a then Xor(s, 1) else s, if b then Xor(t, 1) else t;
    var x := Xor(s1, t1);
    ShiftLinear(s1, t1);
    TopOfShift(x);
    EvenShift(x);
    HalfXor(s1, t1);
    HalfXor(s, t);
    HalfXor(s, 1);
    HalfXor(t, 1);
    XorSelf(Half(s));
    XorSelf(Half(t));
    HalfOne();
    OddXor(s1, t1);
    OddXor(s, 1);
    OddXor(t, 1);
  }

  lemma EvenShift(x: bv32)
    ensures !Odd(x) ==> Shift(x) == Half(x)
  {}

  lemma HalfOne()
    ensures Half(1) == 0 && Odd(1)
  {}

  /**
   * Bursts at the bit level: from one register, two different bit strings of equal length up to 32 never lead to
   * the same register.
   */
  lemma {:induction false} Burst(s: bv32, t: bv32, a: seq<bool>, b: seq<bool>)
    requires |a| == |b| <= 32 && Feed(s, a) == Feed(t, b)
    ensures Drop(Xor(s, t), |a|) == 0
    ensures s == t ==> a == b
    decreases |a|
  {
    hide BitStep, TopClear, Xor, Half;
    if a == [] {
      XorSelf(s);
    } else {
      var s', t' := BitStep(s, a[0]), BitStep(t, b[0]);
      Burst(s', t', a[1..], b[1..]);
      DropsClearTop(Xor(s', t'), |a| - 1);
      StepBack(s, t, a[0], b[0]);
      if s == t {
        assert a == [a[0]] + a[1..] && b == [b[0]] + b[1..];
      }
    }
  }

  lemma {:induction false} LowBitsInjective(x: bv32, y: bv32, k: nat)
    requires LowBits(x, k) == LowBits(y, k) && Drop(x, k) == Drop(y, k)
    ensures x == y
    decreases k
  {
    hide Odd, Half;
    if k > 0 {
      assert LowBits(x, k)[1..] == LowBits(Half(x), k - 1) && LowBits(y, k)[1..] == LowBits(Half(y), k - 1);
      LowBitsInjective(Half(x), Half(y), k - 1);
      assert Odd(x) == LowBits(x, k)[0] == LowBits(y, k)[0] == Odd(y);
      SameHalves(x, y);
    }
  }

  lemma ByteBitsInjective(x: bv8, y: bv8)
    requires LowBits(x as bv32, 8) == LowBits(y as bv32, 8)
    ensures x == y
  {
    hide LowBits, Drop;
    ByteDrops(x);
    ByteDrops(y);
    LowBitsInjective(x as bv32, y as bv32, 8);
  }

  lemma {:induction false} BitsInjective(a: seq<bv8>, b: seq<bv8>)
    requires |a| == |b| && Bits(a) == Bits(b)
    ensures a == b
  {
    hide LowBits;
    if a != [] {
      var a0, b0 := LowBits(a[0] as bv32, 8), LowBits(b[0] as bv32, 8);
      assert Bits(a)[..8] == a0 && Bits(b)[..8] == b0;
      assert Bits(a)[8..] == Bits(a[1..]) && Bits(b)[8..] == Bits(b[1..]);
      BitsInjective(a[1..], b[1..]);
      ByteBitsInjective(a[0], b[0]);
    }
  }

  lemma FeedThree(pre: seq<bv8>, a: seq<bv8>, post: seq<bv8>)
    ensures Feed(0xffff_ffff, Bits(pre + a + post)) == Feed(Feed(Feed(0xffff_ffff, Bits(pre)), Bits(a)), Bits(post))
  {
    hide Feed, Bits;
    BitsAppend(pre + a, post);
    BitsAppend(pre, a);
    FeedAppend(0xffff_ffff, Bits(pre) + Bits(a), Bits(post));
    FeedAppend(0xffff_ffff, Bits(pre), Bits(a));
  }

  lemma InvertInjective(x: bv32, y: bv32)
    ensures Not(x) == Not(y) ==> x == y
  {}

  /** Two messages of equal length that differ, and only within four consecutive bytes, have different checksums. */
  lemma BurstDetected(pre: seq<bv8>, a: seq<bv8>, b: seq<bv8>, post: seq<bv8>)
    requires |a| == |b| <= 4 && a != b
    ensures Crc(pre + a + post) != Crc(pre + b + post)
  {
    hide Feed, Bits, Drop;
    var s := Feed(0xffff_ffff, Bits(pre));
    FeedThree(pre, a, post);
    FeedThree(pre, b, post);
    if Crc(pre + a + post) == Crc(pre + b + post) {
      InvertInjective(Feed(0xffff_ffff, Bits(pre + a + post)), Feed(0xffff_ffff, Bits(pre + b + post)));
      FeedInjective(Feed(s, Bits(a)), Feed(s, Bits(b)), Bits(post));
      Burst(s, s, Bits(a), Bits(b));
      BitsInjective(a, b);
    }
  }

  // ---------------------------------------------------------------- the checksum of a checked message

  /** The bytes of a word in little-endian order. */
  function WordBytes(w: bv32): seq<bv8> {
    [LowByte(w), LowByte(Rest(w)), LowByte(Rest(Rest(w))), LowByte(Rest(Rest(Rest(w))))]
  }

  const RESIDUE: bv32 := 0x2144df1c

  lemma ComplementBits(c: bv32, w: bv32)
    ensures Xor(Xor(c, w), LowByte(Not(w)) as bv32) == Xor(Xor(c, 0xff), HighBytes(w))
  {}

  /** What remains of the register when a byte has left ones in its place. */
  function AfterComplement(c: bv32): bv32 { Shift8(Xor(c, 0xff)) }

  /** A byte that cancels the low byte of the register leaves ones behind. */
  lemma FeedComplement(c: bv32, w: bv32)
    ensures Feed(Xor(c, w), LowBits(LowByte(Not(w)) as bv32, 8)) == Xor(AfterComplement(c), Rest(w))
  {
    hide Shift8, Feed, LowBits, LowByte, HighBytes, Xor, Rest, Not;
    FeedByte(Xor(c, w), LowByte(Not(w)));
    ComplementBits(c, w);
    Shift8Linear(Xor(c, 0xff), HighBytes(w));
    HighBytesMoveDown(w);
  }

  lemma RestOfNot(w: bv32)
    ensures LowByte(Rest(Not(w))) == LowByte(Not(Rest(w)))
    ensures LowByte(Rest(Rest(Not(w)))) == LowByte(Not(Rest(Rest(w))))
    ensures LowByte(Rest(Rest(Rest(Not(w))))) == LowByte(Not(Rest(Rest(Rest(w)))))
    ensures Rest(Rest(Rest(Rest(w)))) == 0
  {}

  lemma ResidueValue()
    ensures Not(AfterComplement(AfterComplement(AfterComplement(AfterComplement(0))))) == RESIDUE
  {}

  /** One byte enters the register. */
  function FeedOne(s: bv32, b: bv8): bv32 { Feed(s, LowBits(b as bv32, 8)) }

  lemma FeedFour(s: bv32, b0: bv8, b1: bv8, b2: bv8, b3: bv8)
    ensures Feed(s, Bits([b0, b1, b2, b3])) == FeedOne(FeedOne(FeedOne(FeedOne(s, b0), b1), b2), b3)
  {
    hide TableStep, Feed, LowBits, Bits;
    assert [b0, b1, b2, b3] == ([b0] + [b1]) + ([b2] + [b3]);
    BitsAppend([b0] + [b1], [b2] + [b3]);
    BitsAppend([b0], [b1]);
    BitsAppend([b2], [b3]);
    BitsOfOne(b0);
    BitsOfOne(b1);
    BitsOfOne(b2);
    BitsOfOne(b3);
    FeedAppend(s, Bits([b0]) + Bits([b1]), Bits([b2]) + Bits([b3]));
    FeedAppend(s, Bits([b0]), Bits([b1]));
    FeedAppend(Feed(s, Bits([b0]) + Bits([b1])), Bits([b2]), Bits([b3]));
  }

  /** A byte of the complement enters the register. */
  function FeedNot(r: bv32, w: bv32): bv32 { FeedOne(r, LowByte(Not(w))) }

  lemma FeedNotWord(s: bv32)
    ensures Feed(s, Bits(WordBytes(Not(s))))
            == FeedNot(FeedNot(FeedNot(FeedNot(s, s), Rest(s)), Rest(Rest(s))), Rest(Rest(Rest(s))))
    ensures Rest(Rest(Rest(Rest(s)))) == 0
  {
    hide Feed, FeedOne, Bits, LowByte, Rest, Not;
    RestOfNot(s);
    FeedFour(s, LowByte(Not(s)), LowByte(Not(Rest(s))), LowByte(Not(Rest(Rest(s)))), LowByte(Not(Rest(Rest(Rest(s))))));
  }

  lemma FeedNotStep(c: bv32, w: bv32)
    ensures FeedNot(Xor(c, w), w) == Xor(AfterComplement(c), Rest(w))
  {
    hide Feed, LowBits, LowByte, Xor, AfterComplement, Rest, Not;
    FeedComplement(c, w);
  }

  /** From any register, its own complement sent as four bytes leads to one and the same register. */
  lemma FeedOwnComplement(s: bv32)
    ensures Feed(s, Bits(WordBytes(Not(s)))) == AfterComplement(AfterComplement(AfterComplement(AfterComplement(0))))
  {
    hide Feed, Bits, WordBytes, FeedNot, Xor, AfterComplement, Rest, Not;
    var c1 := AfterComplement(0);
    var c2 := AfterComplement(c1);
    var c3 := AfterComplement(c2);
    FeedNotWord(s);
    XorSelf(s);
    FeedNotStep(0, s);
    FeedNotStep(c1, Rest(s));
    FeedNotStep(c2, Rest(Rest(s)));
    FeedNotStep(c3, Rest(Rest(Rest(s))));
    XorSelf(AfterComplement(c3));
  }

  /**
   * A message followed by its checksum in little-endian order has a checksum that does not depend on the message, and
   * no other four bytes behind the message give that checksum.
   */
  lemma CheckedMessage(d: seq<bv8>, w: seq<bv8>)
    requires |w| == 4
    ensures Crc(d + w) == RESIDUE <==> w == WordBytes(Crc(d))
  {
    hide Feed, Bits, WordBytes, AfterComplement, Not;
    var s := Feed(0xffff_ffff, Bits(d));
    var own := WordBytes(Crc(d));
    WordBytesLength(Crc(d));
    FeedThree(d, own, []);
    FeedOwnComplement(s);
    ResidueValue();
    FeedNothing(Feed(s, Bits(own)));
    assert d + own + [] == d + own;
    if w != own {
      BurstDetected(d, w, own, []);
      assert d + w + [] == d + w;
    }
  }

  lemma WordBytesLength(w: bv32)
    ensures |WordBytes(w)| == 4
  {}

  /** Messages as wholes: equal length, equal outside four consecutive positions, different somewhere inside. */
  lemma BurstInMessage(m: seq<bv8>, n: seq<bv8>, at: nat)
    requires |m| == |n| && m != n
    requires forall i | 0 <= i < |m| && !(at <= i < at + 4) :: m[i] == n[i]
    ensures Crc(m) != Crc(n)
  {
    hide Crc;
    var from := if at < |m| then at else |m|;
    var to := if at + 4 < |m| then at + 4 else |m|;
    assert m == m[..from] + m[from..to] + m[to..];
    assert n == m[..from] + n[from..to] + m[to..];
    BurstDetected(m[..from], m[from..to], n[from..to], m[to..]);
  }

  // ---------------------------------------------------------------- a checksum over more than is received

  lemma WordBytesInjective(v: bv32, w: bv32)
    requires WordBytes(v) == WordBytes(w)
    ensures v == w
  {
    hide LowByte, Rest;
    assert LowByte(v) == WordBytes(v)[0] == WordBytes(w)[0] == LowByte(w);
    assert LowByte(Rest(v)) == WordBytes(v)[1] == WordBytes(w)[1] == LowByte(Rest(w));
    assert LowByte(Rest(Rest(v))) == WordBytes(v)[2] == WordBytes(w)[2] == LowByte(Rest(Rest(w)));
    assert LowByte(Rest(Rest(Rest(v)))) == WordBytes(v)[3] == WordBytes(w)[3] == LowByte(Rest(Rest(Rest(w))));
    FourBytesAreAll(v, w);
  }

  lemma FourBytesAreAll(v: bv32, w: bv32)
    requires LowByte(v) == LowByte(w) && LowByte(Rest(v)) == LowByte(Rest(w))
    requires LowByte(Rest(Rest(v))) == LowByte(Rest(Rest(w))) && LowByte(Rest(Rest(Rest(v)))) == LowByte(Rest(Rest(Rest(w))))
    ensures v == w
  {}

  /**
   * A receiver that does not see the first bytes under the checksum finds it right if and only if those bytes leave the
   * register as they found it, whatever it does receive.
   */
  lemma UnseenPrefix(unseen: seq<bv8>, d: seq<bv8>)
    ensures Crc(d + WordBytes(Crc(unseen + d))) == RESIDUE <==> Feed(0xffff_ffff, Bits(unseen)) == 0xffff_ffff
  {
    hide Feed, Bits, WordBytes, Not;
    var s := Feed(0xffff_ffff, Bits(unseen));
    WordBytesLength(Crc(unseen + d));
    CheckedMessage(d, WordBytes(Crc(unseen + d)));
    BitsAppend(unseen, d);
    FeedAppend(0xffff_ffff, Bits(unseen), Bits(d));
    if Crc(d + WordBytes(Crc(unseen + d))) == RESIDUE {
      WordBytesInjective(Crc(unseen + d), Crc(d));
      InvertInjective(Feed(s, Bits(d)), Feed(0xffff_ffff, Bits(d)));
      FeedInjective(s, 0xffff_ffff, Bits(d));
    }
  }

  lemma FeedFirst(s: bv32, bytes: seq<bv8>)
    requires bytes != []
    ensures Feed(s, Bits(bytes)) == Feed(Shift8(Xor(s, bytes[0] as bv32)), Bits(bytes[1..]))
  {
    hide Feed, Shift8, Xor, LowBits;
    FeedAppend(s, LowBits(bytes[0] as bv32, 8), Bits(bytes[1..]));
    FeedByte(s, bytes[0]);
  }
}
