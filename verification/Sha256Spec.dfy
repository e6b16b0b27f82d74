/** SHA-256 as section numbers of FIPS 180-4 define it, and what its padding guarantees. */
module Sha256Spec {
  import opened Words

  /** Section 4.2.2, eight constants to a row. */
  const K: seq<seq<bv32>> := [
    [0x428a2f98, 0x71374491, 0xb5c0fbcf, 0xe9b5dba5, 0x3956c25b, 0x59f111f1, 0x923f82a4, 0xab1c5ed5],
    [0xd807aa98, 0x12835b01, 0x243185be, 0x550c7dc3, 0x72be5d74, 0x80deb1fe, 0x9bdc06a7, 0xc19bf174],
    [0xe49b69c1, 0xefbe4786, 0x0fc19dc6, 0x240ca1cc, 0x2de92c6f, 0x4a7484aa, 0x5cb0a9dc, 0x76f988da],
    [0x983e5152, 0xa831c66d, 0xb00327c8, 0xbf597fc7, 0xc6e00bf3, 0xd5a79147, 0x06ca6351, 0x14292967],
    [0x27b70a85, 0x2e1b2138, 0x4d2c6dfc, 0x53380d13, 0x650a7354, 0x766a0abb, 0x81c2c92e, 0x92722c85],
    [0xa2bfe8a1, 0xa81a664b, 0xc24b8b70, 0xc76c51a3, 0xd192e819, 0xd6990624, 0xf40e3585, 0x106aa070],
    [0x19a4c116, 0x1e376c08, 0x2748774c, 0x34b0bcb5, 0x391c0cb3, 0x4ed8aa4a, 0x5b9cca4f, 0x682e6ff3],
    [0x748f82ee, 0x78a5636f, 0x84c87814, 0x8cc70208, 0x90befffa, 0xa4506ceb, 0xbef9a3f7, 0xc67178f2]]

  function RoundConstant(t: nat): bv32
    requires t < 64
  {
    K[t / 8][t % 8]
  }

  /** Eight 32-bit words: a hash value or the working variables. */
  datatype State = State(a: bv32, b: bv32, c: bv32, d: bv32, e: bv32, f: bv32, g: bv32, h: bv32)

  /** Section 5.3.3. */
  const INITIAL := State(0x6a09e667, 0xbb67ae85, 0x3c6ef372, 0xa54ff53a, 0x510e527f, 0x9b05688c, 0x1f83d9ab, 0x5be0cd19)

  /** Section 3.2: addition modulo 2^32, which is what `+` on words is. */
  function Add(x: bv32, y: bv32): bv32 { x + y }

  /** Section 3.2: circular right shift. */
  function Rotr(x: bv32, n: bv6): bv32
    requires 0 < n < 32
  {
    (x >> n) | (x << (32 - n))
  }

  // Section 4.1.2.
  function Ch(x: bv32, y: bv32, z: bv32): bv32 { (x & y) ^ (!x & z) }
  function Maj(x: bv32, y: bv32, z: bv32): bv32 { (x & y) ^ (x & z) ^ (y & z) }
  function BigSigma0(x: bv32): bv32 { Rotr(x, 2) ^ Rotr(x, 13) ^ Rotr(x, 22) }
  function BigSigma1(x: bv32): bv32 { Rotr(x, 6) ^ Rotr(x, 11) ^ Rotr(x, 25) }
  function SmallSigma0(x: bv32): bv32 { Rotr(x, 7) ^ Rotr(x, 18) ^ (x >> 3) }
  function SmallSigma1(x: bv32): bv32 { Rotr(x, 17) ^ Rotr(x, 19) ^ (x >> 10) }

  /** A word moved up by one byte, with another byte below. */
  function Joined(w: bv32, b: bv32): bv32 { (w << 8) | b }

  function BigEndianWord(b0: u8, b1: u8, b2: u8, b3: u8): bv32 {
    Joined(Joined(Joined(b0 as bv32, b1 as bv32), b2 as bv32), b3 as bv32)
  }

  // Section 6.2.2, step 1.
  function Schedule(block: seq<u8>, t: nat): bv32
    requires |block| == 64 && t < 64
  {
    if t < 16 then BigEndianWord(block[4 * t], block[4 * t + 1], block[4 * t + 2], block[4 * t + 3])
    else Add(Add(Add(SmallSigma1(Schedule(block, t - 2)), Schedule(block, t - 7)), SmallSigma0(Schedule(block, t - 15))),
             Schedule(block, t - 16))
  }

  // Section 6.2.2, step 3.
  function Round(s: State, k: bv32, w: bv32): State {
    var t1 := Add(Add(Add(Add(s.h, BigSigma1(s.e)), Ch(s.e, s.f, s.g)), k), w);
    var t2 := Add(BigSigma0(s.a), Maj(s.a, s.b, s.c));
    State(Add(t1, t2), s.a, s.b, s.c, Add(s.d, t1), s.e, s.f, s.g)
  }

  function Rounds(s: State, block: seq<u8>, t: nat): State
    requires |block| == 64 && t <= 64
    decreases t
  {
    if t == 0 then s else Round(Rounds(s, block, t - 1), RoundConstant(t - 1), Schedule(block, t - 1))
  }

  function Plus(s: State, t: State): State {
    State(Add(s.a, t.a), Add(s.b, t.b), Add(s.c, t.c), Add(s.d, t.d),
          Add(s.e, t.e), Add(s.f, t.f), Add(s.g, t.g), Add(s.h, t.h))
  }

  function Compress(s: State, block: seq<u8>): State
    requires |block| == 64
  {
    Plus(s, Rounds(s, block, 64))
  }

  /** Section 6.2.2: the blocks of a padded message are compressed one after another. */
  function HashBlocks(m: seq<u8>): State
    requires |m| % 64 == 0
    decreases |m|
  {
    if m == [] then INITIAL else Compress(HashBlocks(m[..|m| - 64]), m[|m| - 64..])
  }

  /** A 64-bit number, most significant byte first. */
  function BigEndian64(n: u64): (bs: seq<u8>)
    ensures |bs| == 8
  {
    var le := ToLE(n, 8);
    [le[7], le[6], le[5], le[4], le[3], le[2], le[1], le[0]]
  }

  /**
   * Section 5.1.1: a one bit, the fewest zero bits that fit, and the length in bits. Beyond the 2^64 bits for which
   * the standard defines a digest, the length is taken modulo 2^64.
   */
  function Pad(m: seq<u8>): (p: seq<u8>)
    ensures |p| % 64 == 0 && |m| + 9 <= |p| < |m| + 73
  {
    PadLength(|m|);
    m + [0x80] + Zeros((55 - |m|) % 64) + BigEndian64(Wrap64(8 * |m|))
  }

  lemma PadLength(n: nat)
    ensures (n + (55 - n) % 64 + 9) % 64 == 0
  {
    var q := (55 - n) / 64;
    assert n + (55 - n) % 64 + 9 == 64 * (1 - q);
  }

  lemma PadEnds(m: seq<u8>)
    ensures Pad(m)[..|m|] == m && Pad(m)[|Pad(m)| - 8..] == BigEndian64(Wrap64(8 * |m|))
  {
    hide BigEndian64;
    PadLength(|m|);
  }

  /** The byte of a word that starts at bit `n`. */
  function Shb(w: bv32, n: bv6): u8
    requires n < 32
  {
    ((w >> n) & 0xff) as bv8 as int
  }

  function WordList(s: State): (ws: seq<bv32>)
    ensures |ws| == 8
  {
    [s.a, s.b, s.c, s.d, s.e, s.f, s.g, s.h]
  }

  /** Byte `x` of a hash value: the words in order, each most significant byte first. */
  function OutByte(s: State, x: nat): u8
    requires x < 32
  {
    Shb(WordList(s)[x / 4], [24, 16, 8, 0][x % 4])
  }

  function StateOut(s: State): (bs: seq<u8>)
    ensures |bs| == 32
  {
    seq(32, x requires 0 <= x < 32 => OutByte(s, x))
  }

  /** The digest of a message; section 1 defines it for messages below 2^64 bits, that is 2^61 bytes. */
  function Digest(m: seq<u8>): (bs: seq<u8>)
    ensures |bs| == 32
  {
    StateOut(HashBlocks(Pad(m)))
  }

  lemma BigEndianInjective(n: u64, k: u64)
    requires BigEndian64(n) == BigEndian64(k)
    ensures n == k
  {
    var a, b := ToLE(n, 8), ToLE(k, 8);
    var x, y := BigEndian64(n), BigEndian64(k);
    assert forall i | 0 <= i < 8 :: a[i] == x[7 - i] && b[i] == y[7 - i];
    assert a == b;
    PowValues();
    ValueRoundTrip(n, 8);
    ValueRoundTrip(k, 8);
  }

  /** Different messages below 2^61 bytes have different padded forms, so padding hides nothing from the hash. */
  lemma PadInjective(m: seq<u8>, n: seq<u8>)
    requires |m| < 0x2000_0000_0000_0000 && |n| < 0x2000_0000_0000_0000
    ensures Pad(m) == Pad(n) ==> m == n
  {
    hide Pad, BigEndian64;
    PadEnds(m);
    PadEnds(n);
    if Pad(m) == Pad(n) {
      BigEndianInjective(Wrap64(8 * |m|), Wrap64(8 * |n|));
    }
  }
}
