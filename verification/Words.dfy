/** Fixed-width machine integers of the program, with the wrap-around of C written out. */
module Words {

  type u8 = x: int | 0 <= x < 0x100
  type u16 = x: int | 0 <= x < 0x1_0000
  type u32 = x: int | 0 <= x < 0x1_0000_0000
  type u64 = x: int | 0 <= x < 0x1_0000_0000_0000_0000
  type i8 = x: int | -0x80 <= x < 0x80
  type i32 = x: int | -0x8000_0000 <= x < 0x8000_0000

  function Wrap8(x: int): u8 { x % 0x100 }

  function Wrap16(x: int): u16 { x % 0x1_0000 }

  function Wrap32(x: int): u32 { x % 0x1_0000_0000 }

  function Wrap64(x: int): u64 { x % 0x1_0000_0000_0000_0000 }

  /** Two's complement reading of the low 32 bits, as in a conversion to `int`. */
  function ToI32(x: int): i32 {
    if Wrap32(x) < 0x8000_0000 then Wrap32(x) else Wrap32(x) - 0x1_0000_0000
  }

  /** C division: the quotient is truncated toward zero. */
  function TruncDiv(a: int, b: int): (q: int)
    requires b > 0
  {
    if a >= 0 then a / b else -((-a) / b)
  }

  function Zeros(n: nat): (z: seq<u8>)
    ensures |z| == n
  {
    seq(n, _ => 0)
  }

  datatype Option<+T> = None | Some(value: T)

  /** The value of a little-endian byte string. */
  function FromLE(bs: seq<u8>): nat {
    if bs == [] then 0 else bs[0] + 0x100 * FromLE(bs[1..])
  }

  /** The low `n` bytes of `x`, least significant first. */
  function ToLE(x: nat, n: nat): (bs: seq<u8>)
    ensures |bs| == n
  {
    if n == 0 then [] else [x % 0x100] + ToLE(x / 0x100, n - 1)
  }

  function Pow256(n: nat): (p: nat)
    ensures p > 0
  {
    if n == 0 then 1 else 0x100 * Pow256(n - 1)
  }

  lemma PowValues()
    ensures Pow256(1) == 0x100 && Pow256(2) == 0x1_0000 && Pow256(4) == 0x1_0000_0000
    ensures Pow256(6) == 0x1_0000_0000_0000 && Pow256(8) == 0x1_0000_0000_0000_0000
  {
    assert Pow256(3) == 0x100 * Pow256(2) && Pow256(5) == 0x100 * Pow256(4) && Pow256(7) == 0x100 * Pow256(6);
  }

  lemma {:induction false} FromLEBound(bs: seq<u8>)
    ensures FromLE(bs) < Pow256(|bs|)
  {
    if bs != [] {
      FromLEBound(bs[1..]);
    }
  }

  /** Encoding then decoding is the identity on every value that fits. */
  lemma {:induction false} ValueRoundTrip(x: nat, n: nat)
    requires x < Pow256(n)
    ensures FromLE(ToLE(x, n)) == x
  {
    if n > 0 {
      ValueRoundTrip(x / 0x100, n - 1);
      assert ToLE(x, n)[1..] == ToLE(x / 0x100, n - 1);
    }
  }

  lemma OneByte(b: u8)
    ensures FromLE([b]) == b
  {
    assert [b][1..] == [];
  }

  lemma SplitByte(lo: u8, hi: nat)
    ensures (lo + 0x100 * hi) % 0x100 == lo && (lo + 0x100 * hi) / 0x100 == hi
  {}

  /** Decoding then encoding gives the bytes back; further, more significant bytes do not matter. */
  lemma {:induction false} BytesRoundTrip(bs: seq<u8>, more: seq<u8>)
    ensures ToLE(FromLE(bs + more), |bs|) == bs
  {
    if bs != [] {
      assert (bs + more)[1..] == bs[1..] + more;
      BytesRoundTrip(bs[1..], more);
      SplitByte(bs[0], FromLE(bs[1..] + more));
    }
  }

  /** Byte strings of equal length compare by their last byte first. */
  lemma {:induction false} LastByteFirst(a: seq<u8>, x: u8, b: seq<u8>, y: u8)
    requires |a| == |b|
    ensures FromLE(a + [x]) < FromLE(b + [y]) <==> x < y || (x == y && FromLE(a) < FromLE(b))
    ensures FromLE(a + [x]) == FromLE(b + [y]) <==> x == y && FromLE(a) == FromLE(b)
  {
    if a == [] {
      assert [x][1..] == [] && [y][1..] == [];
      assert a + [x] == [x] && b + [y] == [y];
    } else {
      assert (a + [x])[1..] == a[1..] + [x] && (b + [y])[1..] == b[1..] + [y];
      LastByteFirst(a[1..], x, b[1..], y);
    }
  }
}
