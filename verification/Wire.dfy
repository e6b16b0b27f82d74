/** The bounds-checked cursor buffer of src/wire.c, on a little-endian host. */
module Wire {
  import opened Words

  /** What a reader has before it: the bytes up to the end, and the sticky error. */
  datatype Cursor = Cursor(bytes: seq<u8>, failed: bool)

  /** `n` bytes are passed over, or nothing is and the error is set. */
  function Skip(c: Cursor, n: nat): Cursor {
    if n <= |c.bytes| then Cursor(c.bytes[n..], c.failed) else Cursor(c.bytes, true)
  }

  /** The little-endian number in the next `n` bytes; if they are not there, the variable keeps its value. */
  function Number(c: Cursor, n: nat, was: nat): nat {
    if n <= |c.bytes| then FromLE(c.bytes[..n]) else was
  }

  /** The next `n` bytes, or what the target held. */
  function Next(c: Cursor, n: nat, was: seq<u8>): seq<u8> {
    if n <= |c.bytes| then c.bytes[..n] else was
  }

  function Patched(w: seq<u8>, at: nat, bytes: seq<u8>): (r: seq<u8>)
    requires at + |bytes| <= |w|
    ensures |r| == |w|
  {
    w[..at] + bytes + w[at + |bytes|..]
  }

  lemma PatchedWithin(before: seq<u8>, gap: seq<u8>, after: seq<u8>, bytes: seq<u8>)
    requires |gap| == |bytes|
    ensures Patched(before + gap + after, |before|, bytes) == before + bytes + after
  {}

  lemma PatchedLast(before: seq<u8>, gap: seq<u8>, bytes: seq<u8>)
    requires |gap| == |bytes|
    ensures Patched(before + gap, |before|, bytes) == before + bytes
  {}

  lemma Together(a: seq<u8>, b: seq<u8>, c: seq<u8>)
    ensures a + b + c == a + (b + c)
  {}

  /** A part of a part of an array. */
  lemma Inside(data: array<u8>, from: nat, to: nat, a: nat, b: nat)
    requires from <= to <= data.Length && a <= b <= to - from
    ensures data[from..to][a..b] == data[from + a..from + b]
  {
    var x, y := data[from..to][a..b], data[from + a..from + b];
    forall i | 0 <= i < b - a ensures x[i] == y[i] {
      assert x[i] == data[from..to][a + i] == data[from + (a + i)];
    }
  }

  /** A byte in place and two more left as they are. */
  lemma BegunAt(d: seq<u8>, base: nat, at: nat, id: u8)
    requires base <= at && at + 3 <= |d|
    ensures (d[..at] + [id] + d[at + 1..])[base..at + 3] == d[base..at] + ([id] + d[at + 1..at + 3])
  {}

  lemma NumberFits(c: Cursor, n: nat, was: nat)
    requires was < Pow256(n)
    ensures Number(c, n, was) < Pow256(n)
  {
    if n <= |c.bytes| {
      FromLEBound(c.bytes[..n]);
    }
  }

  class Buf {
    const data: array<u8>
    /** Where the buffer begins in `data`. */
    const base: nat
    var current: nat
    var end: nat
    var error: int

    predicate Valid()
      reads this
    {
      base <= current <= end <= data.Length < 0x8000_0000 && (error == 0 || error == -1)
    }

    /** buf_position */
    function Position(): nat
      requires Valid()
      reads this
    {
      current - base
    }

    /** buf_rest */
    function Room(): nat
      requires Valid()
      reads this
    {
      end - current
    }

    ghost function Written(): (w: seq<u8>)
      requires Valid()
      reads this, data
      ensures |w| == Position()
    {
      data[base..current]
    }

    ghost function Left(): Cursor
      requires Valid()
      reads this, data
    {
      Cursor(data[current..end], error != 0)
    }

    /** The buffer grew by these bytes and is otherwise as it was. */
    twostate predicate Appended(bytes: seq<u8>)
      requires old(Valid())
      reads this, data
    {
      Valid() && end == old(end) && error == old(error) && current == old(current) + |bytes| &&
      Written() == old(Written()) + bytes
    }

    /** The buffer was read from. */
    twostate predicate Passed(n: nat)
      requires old(Valid())
      reads this, data
    {
      Valid() && end == old(end) && Left() == Skip(old(Left()), n)
    }

    /** buf_new_owned */
    constructor Owned(size: nat)
      requires size < 0x8000_0000
      ensures Valid() && fresh(data) && data.Length == size && base == 0 && Position() == 0 && Room() == size
      ensures error == 0
    {
      data := new u8[size];
      base, current, end, error := 0, 0, size, 0;
    }

    /** buf_new_const */
    constructor Const(data: array<u8>, start: nat, size: nat)
      requires start + size <= data.Length < 0x8000_0000
      ensures Valid() && this.data == data && base == start && Position() == 0
      ensures Left() == Cursor(data[start..start + size], false) && end == start + size
    {
      this.data := data;
      base, current, end, error := start, start, start + size, 0;
    }

    /** A store through a pointer into the buffer: no bounds are checked and the cursor stays. */
    method Poke(at: nat, bytes: seq<u8>)
      requires at + |bytes| <= data.Length
      modifies data
      ensures data[..] == old(data[..at]) + bytes + old(data[at + |bytes|..])
    {
      forall i | 0 <= i < |bytes| {
        data[at + i] := bytes[i];
      }
    }

    /** Bytes already written are overwritten in place. */
    method Patch(at: nat, bytes: seq<u8>)
      requires Valid() && base <= at && at + |bytes| <= current
      modifies data
      ensures Written() == Patched(old(Written()), at - base, bytes)
    {
      Poke(at, bytes);
      assert Written() == Patched(old(Written()), at - base, bytes) by {
        forall i | 0 <= i < |Written()|
          ensures Written()[i] == Patched(old(Written()), at - base, bytes)[i]
        {
          assert Written()[i] == data[..][base + i];
        }
      }
    }

    /** A structure is filled in at the cursor, without a check of the bounds, and the cursor is moved behind it. */
    method Fill(bytes: seq<u8>)
      requires Valid() && |bytes| <= Room()
      modifies this`current, this`error, data
      ensures Appended(bytes)
    {
      Poke(current, bytes);
      var _ := Advance(|bytes|);
    }

    /** buf_advance: over bytes that have been or will be written in place, or over unread ones. */
    method Advance(n: nat) returns (done: int)
      requires Valid() && n < 0x8000_0000
      modifies this`current, this`error
      ensures Passed(n)
      ensures old(Room()) >= n ==> done == n && current == old(current) + n && error == old(error)
      ensures old(Room()) < n ==> done == -1
    {
      if n > Room() {
        error := -1;
        return -1;
      }
      current := current + n;
      return n;
    }

    /** buf_take: the buffer gets shorter at its end. */
    method Take(n: nat) returns (done: int)
      requires Valid() && n < 0x8000_0000
      modifies this`end, this`error
      ensures Valid()
      ensures old(Room()) >= n ==>
                done == n && Left() == Cursor(old(data[current..end - n]), old(error) != 0) && error == old(error)
      ensures old(Room()) < n ==> done == -1 && end == old(end) && error == -1
    {
      if Room() < n {
        error := -1;
        return -1;
      }
      end := end - n;
      return n;
    }

    /** write_bytes, and with `refused` 0 the stores of write_u8, write_le16 and write_le32. */
    method Write(bytes: seq<u8>, refused: int) returns (done: int)
      requires Valid() && |bytes| < 0x8000_0000
      modifies this`current, this`error, data
      ensures old(Room()) >= |bytes| ==> done == |bytes| && Appended(bytes)
      ensures old(Room()) < |bytes| ==>
                done == refused && error == -1 && data[..] == old(data[..]) && current == old(current)
    {
      if Room() < |bytes| {
        error := -1;
        return refused;
      }
      Poke(current, bytes);
      current := current + |bytes|;
      return |bytes|;
    }

    method WriteU8(value: u8) returns (done: int)
      requires Valid()
      modifies this`current, this`error, data
      ensures old(Room()) >= 1 ==> done == 1 && Appended([value])
      ensures old(Room()) < 1 ==> done == 0 && error == -1 && data[..] == old(data[..]) && current == old(current)
    {
      done := Write([value], 0);
    }

    method WriteLe16(value: u16) returns (done: int)
      requires Valid()
      modifies this`current, this`error, data
      ensures old(Room()) >= 2 ==> done == 2 && Appended(ToLE(value, 2))
      ensures old(Room()) < 2 ==> done == 0 && error == -1 && data[..] == old(data[..]) && current == old(current)
    {
      done := Write(ToLE(value, 2), 0);
    }

    method WriteLe32(value: u32) returns (done: int)
      requires Valid()
      modifies this`current, this`error, data
      ensures old(Room()) >= 4 ==> done == 4 && Appended(ToLE(value, 4))
      ensures old(Room()) < 4 ==> done == 0 && error == -1 && data[..] == old(data[..]) && current == old(current)
    {
      done := Write(ToLE(value, 4), 0);
    }

    /** read_bytes_copy, and the body of every read_ function. */
    method Read(n: nat, was: seq<u8>) returns (bytes: seq<u8>, done: nat)
      requires Valid() && n < 0x8000_0000
      modifies this`current, this`error
      ensures |bytes| == n || bytes == was
      ensures n <= old(Room()) ==> bytes == data[old(current)..old(current) + n]
      ensures Passed(n) && bytes == Next(old(Left()), n, was) && done == if n <= old(Room()) then n else 0
    {
      if Room() < n {
        error := -1;
        return was, 0;
      }
      bytes := data[current..current + n];
      Inside(data, current, end, 0, n);
      assert bytes == Left().bytes[0..n] == Left().bytes[..n];
      current := current + n;
      return bytes, n;
    }

    method ReadU8(was: u8) returns (value: u8)
      requires Valid()
      modifies this`current, this`error
      ensures Passed(1) && value == Number(old(Left()), 1, was)
    {
      value := ReadNumber(1, was);
    }

    method ReadLe16(was: u16) returns (value: u16)
      requires Valid()
      modifies this`current, this`error
      ensures Passed(2) && value == Number(old(Left()), 2, was)
    {
      value := ReadNumber(2, was);
    }

    method ReadLe32(was: u32) returns (value: u32)
      requires Valid()
      modifies this`current, this`error
      ensures Passed(4) && value == Number(old(Left()), 4, was)
    {
      value := ReadNumber(4, was);
    }

    method ReadLe64(was: u64) returns (value: u64)
      requires Valid()
      modifies this`current, this`error
      ensures Passed(8) && value == Number(old(Left()), 8, was)
    {
      value := ReadNumber(8, was);
    }

    method ReadNumber(n: nat, was: nat) returns (value: nat)
      requires Valid() && n < 0x8000_0000 && was < Pow256(n)
      modifies this`current, this`error
      ensures Passed(n) && value == Number(old(Left()), n, was) && value < Pow256(n)
    {
      NumberFits(Left(), n, was);
      if Room() < n {
        error := -1;
        return was;
      }
      Inside(data, current, end, 0, n);
      assert data[current..current + n] == Left().bytes[0..n] == Left().bytes[..n];
      value := FromLE(data[current..current + n]);
      current := current + n;
    }

    /** read_ether_addr: the address is read but the cursor stays before it. */
    method ReadEtherAddr(was: seq<u8>) returns (addr: seq<u8>, done: nat)
      requires Valid()
      modifies this`error
      ensures Valid() && addr == Next(old(Left()), 6, was)
      ensures 6 <= old(Room()) ==> done == 6 && Left() == old(Left())
      ensures 6 > old(Room()) ==> done == 0 && Left() == old(Left()).(failed := true)
    {
      if 6 > Room() {
        error := -1;
        return was, 0;
      }
      return data[current..current + 6], 6;
    }
  }
}
