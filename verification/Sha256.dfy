/** The streaming SHA-256 of src/sha256.c. */
module Sha256 {
  import opened Words
  import opened Sha256Spec

  // ---------------------------------------------------------------- round functions of the program

  function Shw(x: bv32, n: bv6): bv32 { x << (n & 31) }

  /** Rotation as two shifts. */
  function R(x: bv32, n: bv6): bv32
    requires n < 32
  {
    (x >> n) | Shw(x, 32 - n)
  }

  function S0(x: bv32): bv32 { R(x, 2) ^ R(x, 13) ^ R(x, 22) }

  function S1(x: bv32): bv32 { R(x, 6) ^ R(x, 11) ^ R(x, 25) }

  function G0(x: bv32): bv32 { R(x, 7) ^ R(x, 18) ^ (x >> 3) }

  function G1(x: bv32): bv32 { R(x, 17) ^ R(x, 19) ^ (x >> 10) }

  function Word(c0: u8, c1: u8, c2: u8, c3: u8): bv32 {
    Shw(c0 as bv32, 24) | Shw(c1 as bv32, 16) | Shw(c2 as bv32, 8) | (c3 as bv32)
  }

  lemma Rotation2(x: bv32)
    ensures R(x, 2) == Rotr(x, 2)
  {}

  lemma Rotation13(x: bv32)
    ensures R(x, 13) == Rotr(x, 13)
  {}

  lemma Rotation22(x: bv32)
    ensures R(x, 22) == Rotr(x, 22)
  {}

  lemma Rotation6(x: bv32)
    ensures R(x, 6) == Rotr(x, 6)
  {}

  lemma Rotation11(x: bv32)
    ensures R(x, 11) == Rotr(x, 11)
  {}

  lemma Rotation25(x: bv32)
    ensures R(x, 25) == Rotr(x, 25)
  {}

  lemma Rotation7(x: bv32)
    ensures R(x, 7) == Rotr(x, 7)
  {}

  lemma Rotation18(x: bv32)
    ensures R(x, 18) == Rotr(x, 18)
  {}

  lemma Rotation17(x: bv32)
    ensures R(x, 17) == Rotr(x, 17)
  {}

  lemma Rotation19(x: bv32)
    ensures R(x, 19) == Rotr(x, 19)
  {}

  lemma S0Agrees(x: bv32)
    ensures S0(x) == BigSigma0(x)
  {
    hide R, Rotr;
    Rotation2(x);
    Rotation13(x);
    Rotation22(x);
  }

  lemma S1Agrees(x: bv32)
    ensures S1(x) == BigSigma1(x)
  {
    hide R, Rotr;
    Rotation6(x);
    Rotation11(x);
    Rotation25(x);
  }

  lemma G0Agrees(x: bv32)
    ensures G0(x) == SmallSigma0(x)
  {
    hide R, Rotr;
    Rotation7(x);
    Rotation18(x);
  }

  lemma G1Agrees(x: bv32)
    ensures G1(x) == SmallSigma1(x)
  {
    hide R, Rotr;
    Rotation17(x);
    Rotation19(x);
  }

  lemma WordAgrees(c0: u8, c1: u8, c2: u8, c3: u8)
    ensures Word(c0, c1, c2, c3) == BigEndianWord(c0, c1, c2, c3)
  {
    WordBits(c0 as bv32, c1 as bv32, c2 as bv32, c3 as bv32);
  }

  lemma WordBits(w0: bv32, w1: bv32, w2: bv32, w3: bv32)
    ensures Shw(w0, 24) | Shw(w1, 16) | Shw(w2, 8) | w3 == Joined(Joined(Joined(w0, w1), w2), w3)
  {}

  function Loaded(h: seq<bv32>): State
    requires |h| == 8
  {
    State(h[0], h[1], h[2], h[3], h[4], h[5], h[6], h[7])
  }

  /** The byte of a 32-bit counter that starts at bit 8k. */
  function CounterByte(x: u32, k: nat): u8
    requires k < 4
  {
    ToLE(x, 4)[k]
  }

  /** One step of the schedule as the program computes it. */
  lemma ScheduleStep(block: seq<u8>, i: nat, w: seq<bv32>)
    requires |block| == 64 && i < 64 && |w| == 64 && forall j | 0 <= j < i :: w[j] == Schedule(block, j)
    ensures Schedule(block, i) ==
            if i < 16 then Word(block[4 * i], block[4 * i + 1], block[4 * i + 2], block[4 * i + 3])
            else Add(Add(Add(G1(w[i - 2]), w[i - 7]), G0(w[i - 15])), w[i - 16])
  {
    hide Add, Word, BigEndianWord, G0, G1, SmallSigma0, SmallSigma1;
    if i < 16 {
      WordAgrees(block[4 * i], block[4 * i + 1], block[4 * i + 2], block[4 * i + 3]);
    } else {
      G1Agrees(w[i - 2]);
      G0Agrees(w[i - 15]);
    }
  }

  /** One round as the program computes it. */
  lemma RoundStep(s: State, k: bv32, w: bv32)
    ensures var t0 := Add(Add(Add(Add(s.h, S1(s.e)), Ch(s.e, s.f, s.g)), k), w);
            var t1 := Add(S0(s.a), Maj(s.a, s.b, s.c));
            Round(s, k, w) == State(Add(t0, t1), s.a, s.b, s.c, Add(s.d, t0), s.e, s.f, s.g)
  {
    hide Add, S0, S1, BigSigma0, BigSigma1, Ch, Maj;
    S0Agrees(s.a);
    S1Agrees(s.e);
  }

  class Context {
    const buf: array<u8>
    const hash: array<bv32>
    var bits0: u32
    var bits1: u32
    var len: nat
    /** The blocks that have been compressed. */
    ghost var whole: seq<u8>

    /** Everything hashed so far: the compressed blocks and what waits in the buffer. */
    ghost function Fed(): seq<u8>
      requires buf.Length == 64 && len < 64
      reads this, buf
    {
      whole + buf[..len]
    }

    /** The hash value is that of the compressed blocks. */
    ghost predicate Compressed()
      reads this, hash
    {
      hash.Length == 8 && |whole| % 64 == 0 && Loaded(hash[..]) == HashBlocks(whole)
    }

    /** The counter, read as one 64-bit number. */
    function Bits(): u64
      reads this
    {
      0x1_0000_0000 * bits1 + bits0
    }

    ghost predicate Valid()
      reads this, buf, hash
    {
      buf.Length == 64 && len < 64 && Compressed() && Bits() == Wrap64(8 * |whole|)
    }

    /** sha256_init, on a context of its own. */
    constructor ()
      ensures Valid() && Fed() == [] && fresh(buf) && fresh(hash)
    {
      buf := new u8[64];
      hash := new bv32[8];
      bits0, bits1, len := 0, 0, 0;
      whole := [];
      new;
      hash[0], hash[1], hash[2], hash[3] := 0x6a09e667, 0xbb67ae85, 0x3c6ef372, 0xa54ff53a;
      hash[4], hash[5], hash[6], hash[7] := 0x510e527f, 0x9b05688c, 0x1f83d9ab, 0x5be0cd19;
    }

    /** The counter of bits is 64 bits wide, in two words with a carry. */
    method AddBits(n: nat)
      requires n < 0x1_0000_0000
      modifies this`bits0, this`bits1
      ensures Bits() == Wrap64(old(Bits()) + n)
    {
      if bits0 > 0xffff_ffff - n {
        bits1 := Wrap32(bits1 + 1);
      }
      bits0 := Wrap32(bits0 + n);
    }

    method AddToHash(s: State)
      requires hash.Length == 8
      modifies hash
      ensures Loaded(hash[..]) == Plus(old(Loaded(hash[..])), s)
    {
      hash[0] := Add(hash[0], s.a);
      hash[1] := Add(hash[1], s.b);
      hash[2] := Add(hash[2], s.c);
      hash[3] := Add(hash[3], s.d);
      hash[4] := Add(hash[4], s.e);
      hash[5] := Add(hash[5], s.f);
      hash[6] := Add(hash[6], s.g);
      hash[7] := Add(hash[7], s.h);
    }

    /** _hash: message schedule and rounds in one loop. */
    method Hash()
      requires buf.Length == 64 && hash.Length == 8
      modifies hash
      ensures Loaded(hash[..]) == Compress(old(Loaded(hash[..])), buf[..])
    {
      hide Add, Round, RoundConstant, Schedule, Word, G0, G1, S0, S1, Ch, Maj, Plus;
      var W := new bv32[64];
      var a, b, c, d := hash[0], hash[1], hash[2], hash[3];
      var e, f, g, h := hash[4], hash[5], hash[6], hash[7];
      ghost var start, block := Loaded(hash[..]), buf[..];
      for i := 0 to 64
        invariant forall j | 0 <= j < i :: W[j] == Schedule(block, j)
        invariant State(a, b, c, d, e, f, g, h) == Rounds(start, block, i)
        invariant hash[..] == old(hash[..])
      {
        ScheduleStep(block, i, W[..]);
        RoundStep(State(a, b, c, d, e, f, g, h), RoundConstant(i), Schedule(block, i));
        if i < 16 {
          W[i] := Word(buf[4 * i], buf[4 * i + 1], buf[4 * i + 2], buf[4 * i + 3]);
        } else {
          W[i] := Add(Add(Add(G1(W[i - 2]), W[i - 7]), G0(W[i - 15])), W[i - 16]);
        }
        var t0 := Add(Add(Add(Add(h, S1(e)), Ch(e, f, g)), RoundConstant(i)), W[i]);
        var t1 := Add(S0(a), Maj(a, b, c));
        a, b, c, d, e, f, g, h := Add(t0, t1), a, b, c, Add(d, t0), e, f, g;
      }
      AddToHash(State(a, b, c, d, e, f, g, h));
    }

    /** sha256_hash: the contents of `data` are appended to what has been hashed, however the message is split up. */
    method Update(data: seq<u8>)
      requires Valid()
      modifies this`bits0, this`bits1, this`len, this`whole, buf, hash
      ensures Valid() && Fed() == old(Fed()) + data
    {
      hide HashBlocks, Loaded;
      for i := 0 to |data|
        invariant Valid() && Fed() == old(Fed()) + data[..i]
      {
        assert data[..i + 1] == data[..i] + [data[i]];
        Put(data[i]);
      }
    }

    /** A full buffer is compressed. */
    method Flush()
      requires buf.Length == 64 && Compressed()
      modifies this`whole, hash
      ensures Compressed() && whole == old(whole) + buf[..]
    {
      hide Compress, HashBlocks, Loaded;
      LastBlock(whole, buf[..]);
      Hash();
      whole := whole + buf[..];
    }

    /** One byte of the loop of sha256_hash. */
    method Put(b: u8)
      requires Valid()
      modifies this`bits0, this`bits1, this`len, this`whole, buf, hash
      ensures Valid() && Fed() == old(Fed()) + [b]
    {
      hide Compress, HashBlocks, Loaded;
      buf[len] := b;
      len := len + 1;
      if len == buf.Length {
        MoreBits(|whole|, 64);
        Flush();
        AddBits(buf.Length * 8);
        len := 0;
      }
    }

    /** The first block of the padding: a one bit and zeros up to the end of the buffer. */
    method PadBuffer()
      requires Valid()
      modifies buf
      ensures buf[..] == old(buf[..len]) + [0x80] + Zeros(63 - len)
    {
      hide Compress, HashBlocks, Loaded;
      var j := len % buf.Length;
      buf[j] := 0x80;
      for i := j + 1 to buf.Length
        invariant forall k | 0 <= k < len :: buf[k] == old(buf[k])
        invariant buf[j] == 0x80
        invariant forall k | j < k < i :: buf[k] == 0
      {
        buf[i] := 0;
      }
    }

    method ClearBuffer()
      requires buf.Length == 64
      modifies buf
      ensures buf[..] == Zeros(64)
    {
      for j := 0 to buf.Length
        invariant buf[..j] == Zeros(j)
      {
        buf[j] := 0;
      }
    }

    /** The counter goes to the end of the buffer, most significant byte first. */
    method WriteCounter()
      requires buf.Length == 64
      modifies buf
      ensures buf[..] == old(buf[..56]) + BigEndian64(Bits())
    {
      hide ToLE;
      CounterBytes(bits0, bits1);
      WriteWord(60, bits0);
      WriteWord(56, bits1);
      assert buf[..56] == old(buf[..56]);
      assert buf[56..60] == BigEndian64(Bits())[..4] && buf[60..64] == BigEndian64(Bits())[4..];
      assert buf[..] == buf[..56] + (buf[56..60] + buf[60..64]);
    }

    /** One word of the counter. */
    method WriteWord(at: nat, bits: u32)
      requires at + 4 <= buf.Length
      modifies buf
      ensures buf[at..at + 4] == [ToLE(bits, 4)[3], ToLE(bits, 4)[2], ToLE(bits, 4)[1], ToLE(bits, 4)[0]]
      ensures forall i | 0 <= i < buf.Length && !(at <= i < at + 4) :: buf[i] == old(buf[i])
    {
      hide ToLE;
      buf[at + 3] := CounterByte(bits, 0);
      buf[at + 2] := CounterByte(bits, 1);
      buf[at + 1] := CounterByte(bits, 2);
      buf[at] := CounterByte(bits, 3);
    }

    /** The last block: the counter is completed and compressed. */
    method Finish()
      requires buf.Length == 64 && len < 64 && Compressed()
      modifies this`bits0, this`bits1, this`whole, buf, hash
      ensures Compressed() && whole == old(whole) + old(buf[..56]) + BigEndian64(Wrap64(old(Bits()) + len * 8))
    {
      hide Compress, HashBlocks, Loaded, BigEndian64;
      AddBits(len * 8);
      WriteCounter();
      Flush();
    }

    /** One turn of the loop at the end of sha256_done: one byte of every word. */
    method StoreColumn(out: array<u8>, i: nat, j: bv6)
      requires hash.Length == 8 && out.Length >= 32 && i < 4 && j == [24, 16, 8, 0][i]
      modifies out
      ensures forall x | 0 <= x < out.Length ::
              out[x] == if x < 32 && x % 4 == i then OutByte(Loaded(hash[..]), x) else old(out[x])
    {
      hide OutByte, Loaded, Shb;
      for k := 0 to 8
        invariant forall x | 0 <= x < out.Length ::
              out[x] == if x < 4 * k && x % 4 == i then OutByte(Loaded(hash[..]), x) else old(out[x])
      {
        NextOut(hash[..], k, i);
        out[4 * k + i] := Shb(hash[k], j);
      }
    }

    /** The loop at the end of sha256_done. */
    method Store(out: array<u8>)
      requires hash.Length == 8 && out.Length >= 32
      modifies out
      ensures out[..32] == StateOut(Loaded(hash[..])) && out[32..] == old(out[32..])
    {
      hide OutByte, Loaded;
      ghost var s := Loaded(hash[..]);
      var j: bv6 := 24;
      for i := 0 to 4
        invariant i < 4 ==> j == [24, 16, 8, 0][i]
        invariant forall x | 0 <= x < out.Length ::
              out[x] == if x < 32 && x % 4 < i then OutByte(s, x) else old(out[x])
      {
        StoreColumn(out, i, j);
        j := if j == 0 then 0 else j - 8;
      }
    }

    /**
     * sha256_done: the digest of everything hashed. The context is used up: `len` is not reset. The pointer may be
     * null, and then no digest is stored.
     */
    method Done(out: array?<u8>)
      requires Valid() && out != buf && (out != null ==> out.Length >= 32)
      modifies this`bits0, this`bits1, this`whole, buf, hash, out
      ensures out != null ==> out[..32] == Digest(old(Fed())) && out[32..] == old(out[32..])
    {
      hide Compress, HashBlocks, Loaded, BigEndian64, StateOut, Pad;
      PadShape(whole, buf[..len], Bits());
      PadBuffer();
      if len > 55 {
        Flush();
        ClearBuffer();
      }
      Finish();
      assert whole == Pad(old(Fed()));
      if out != null {
        Store(out);
      }
    }
  }

  function Concat(parts: seq<seq<u8>>): seq<u8> {
    if parts == [] then [] else Concat(parts[..|parts| - 1]) + parts[|parts| - 1]
  }

  /** The digest does not depend on how a message is split into calls of sha256_hash; one part is the function sha256. */
  method DigestOfParts(parts: seq<seq<u8>>) returns (hash: seq<u8>)
    ensures hash == Digest(Concat(parts))
  {
    hide Digest, HashBlocks, Loaded;
    var context := new Context();
    for i := 0 to |parts|
      invariant context.Valid() && fresh(context) && fresh(context.buf) && fresh(context.hash)
      invariant context.Fed() == Concat(parts[..i])
    {
      assert parts[..i + 1][..i] == parts[..i];
      context.Update(parts[i]);
    }
    assert parts[..|parts|] == parts;
    var out := new u8[32];
    context.Done(out);
    return out[..32];
  }

  /** Where the padding comes to lie in the buffer, once if it fits behind the rest and twice if not. */
  lemma PadShape(whole: seq<u8>, rest: seq<u8>, bits: u64)
    requires |whole| % 64 == 0 && |rest| < 64 && bits == Wrap64(8 * |whole|)
    ensures var first := rest + [0x80] + Zeros(63 - |rest|);
            var count := BigEndian64(Wrap64(bits + |rest| * 8));
            Pad(whole + rest) ==
            if |rest| <= 55 then whole + first[..56] + count else (whole + first) + Zeros(64)[..56] + count
  {
    hide BigEndian64, Zeros;
    MoreBits(|whole|, |rest|);
    ZerosNeeded(|whole|, |rest|);
    ZerosSplit(63 - |rest|, (55 - |whole + rest|) % 64);
  }

  lemma MoreBits(n: nat, k: nat)
    ensures Wrap64(Wrap64(8 * n) + k * 8) == Wrap64(8 * (n + k))
  {
    var q := 8 * n / 0x1_0000_0000_0000_0000;
    assert 8 * (n + k) == Wrap64(8 * n) + k * 8 + q * 0x1_0000_0000_0000_0000;
    WholeTurns(Wrap64(8 * n) + k * 8, q);
  }

  lemma WholeTurns(x: nat, q: nat)
    ensures Wrap64(x + q * 0x1_0000_0000_0000_0000) == Wrap64(x)
  {
    var p := x / 0x1_0000_0000_0000_0000;
    assert x + q * 0x1_0000_0000_0000_0000 == (p + q) * 0x1_0000_0000_0000_0000 + Wrap64(x);
  }

  lemma ZerosNeeded(n: nat, k: nat)
    requires n % 64 == 0 && k < 64
    ensures (55 - (n + k)) % 64 == if k <= 55 then 55 - k else 119 - k
  {}

  lemma ZerosSplit(n: nat, k: nat)
    ensures k <= n ==> Zeros(n)[..k] == Zeros(k)
    ensures k == n + 56 ==> Zeros(k) == Zeros(n) + Zeros(64)[..56]
  {}

  lemma CounterBytes(bits0: u32, bits1: u32)
    ensures ToLE(0x1_0000_0000 * bits1 + bits0, 8) == ToLE(bits0, 4) + ToLE(bits1, 4)
  {
    var lo, hi := ToLE(bits0, 4), ToLE(bits1, 4);
    PowValues();
    ValueRoundTrip(bits0, 4);
    ValueRoundTrip(bits1, 4);
    FourBytesFirst(lo, hi);
    FourBytesFirst(lo, []);
    assert lo + [] == lo;
    BytesRoundTrip(lo + hi, []);
    assert lo + hi + [] == lo + hi;
  }

  lemma FourBytesFirst(lo: seq<u8>, hi: seq<u8>)
    requires |lo| == 4
    ensures FromLE(lo + hi) == lo[0] + 0x100 * lo[1] + 0x1_0000 * lo[2] + 0x100_0000 * lo[3] + 0x1_0000_0000 * FromLE(hi)
  {
    var r1, r2, r3 := lo[1..] + hi, lo[2..] + hi, lo[3..] + hi;
    assert (lo + hi)[1..] == r1 && r1[1..] == r2 && r2[1..] == r3 && r3[1..] == hi;
    assert FromLE(lo + hi) == lo[0] + 0x100 * FromLE(r1);
    assert FromLE(r1) == lo[1] + 0x100 * FromLE(r2);
    assert FromLE(r2) == lo[2] + 0x100 * FromLE(r3);
    assert FromLE(r3) == lo[3] + 0x100 * FromLE(hi);
  }

  lemma NextOut(h: seq<bv32>, k: nat, i: nat)
    requires |h| == 8 && k < 8 && i < 4
    ensures OutByte(Loaded(h), 4 * k + i) == Shb(h[k], [24, 16, 8, 0][i])
    ensures forall x: nat :: x < 4 * (k + 1) && x % 4 == i <==> (x < 4 * k && x % 4 == i) || x == 4 * k + i
  {
    hide Shb;
    Column(k, i);
    assert WordList(Loaded(h)) == h;
  }

  lemma Column(k: nat, i: nat)
    requires i < 4
    ensures (4 * k + i) / 4 == k && (4 * k + i) % 4 == i
    ensures forall x: nat :: x < 4 * (k + 1) && x % 4 == i <==> (x < 4 * k && x % 4 == i) || x == 4 * k + i
  {}

  /** Hashing one more full block. */
  lemma LastBlock(m: seq<u8>, block: seq<u8>)
    requires |m| % 64 == 0 && |block| == 64
    ensures |m + block| % 64 == 0 && HashBlocks(m + block) == Compress(HashBlocks(m), block)
  {
    hide Compress;
    var all := m + block;
    assert all[..|all| - 64] == m && all[|all| - 64..] == block;
  }
}
