/** The ring buffer of src/circular_buffer.c as a bounded queue. */
module CircularBuffers {
  import opened Words

  /** The last `capacity` items. */
  function Newest<T>(s: seq<T>, capacity: nat): seq<T> {
    if |s| <= capacity then s else s[|s| - capacity..]
  }

  lemma NewestTwice<T>(a: seq<T>, b: seq<T>, capacity: nat)
    ensures Newest(Newest(a, capacity) + b, capacity) == Newest(a + b, capacity)
  {
    var n := |a| - capacity;
    if n > 0 {
      assert a + b == a[..n] + (a[n..] + b);
      var s := a[n..] + b;
      assert (a[..n] + s)[n + |s| - capacity..] == s[|s| - capacity..];
    }
  }

  lemma NewestNext<T>(s: seq<T>, x: T, capacity: nat)
    requires |s| <= capacity && capacity > 0
    ensures Newest(s + [x], capacity) == if |s| < capacity then s + [x] else s[1..] + [x]
  {}

  lemma NewestOfFew<T>(s: seq<T>, capacity: nat)
    requires |s| <= capacity
    ensures Newest(s, capacity) == s
  {}

  lemma NewestSize<T>(s: seq<T>, capacity: nat)
    ensures |Newest(s, capacity)| <= capacity
  {}

  lemma Regroup<T>(a: seq<T>, x: T, b: seq<T>)
    ensures a + [x] + b == a + ([x] + b)
  {}

  datatype Op<T> = Put(item: T) | PutOverride(item: T) | Get | Peek

  /** A queue with the items it has accepted and those it has given away. */
  datatype Queue<T> = Queue(items: seq<T>, accepted: seq<T>, given: seq<T>)

  function Apply<T>(q: Queue<T>, op: Op<T>, capacity: nat): Queue<T> {
    match op
    case Put(x) => if |q.items| >= capacity then q else Queue(q.items + [x], q.accepted + [x], q.given)
    case PutOverride(x) => Queue(Newest(q.items + [x], capacity), q.accepted + [x], q.given)
    case Get => if q.items == [] then q else Queue(q.items[1..], q.accepted, q.given + [q.items[0]])
    case Peek => q
  }

  function Run<T>(q: Queue<T>, ops: seq<Op<T>>, capacity: nat): Queue<T>
    decreases |ops|
  {
    if ops == [] then q else Run(Apply(q, ops[0], capacity), ops[1..], capacity)
  }

  predicate NoOverride<T>(ops: seq<Op<T>>) { forall i | 0 <= i < |ops| :: !ops[i].PutOverride? }

  /** Without overriding, what was accepted comes out exactly once and in order, and the rest is still there. */
  lemma {:induction false} FirstInFirstOut<T>(q: Queue<T>, ops: seq<Op<T>>, capacity: nat)
    requires q.accepted == q.given + q.items && |q.items| <= capacity && NoOverride(ops)
    ensures var r := Run(q, ops, capacity); r.accepted == r.given + r.items && |r.items| <= capacity
    decreases |ops|
  {
    if ops != [] {
      var next := Apply(q, ops[0], capacity);
      assert next.accepted == next.given + next.items;
      FirstInFirstOut(next, ops[1..], capacity);
    }
  }

  function Overrides<T>(xs: seq<T>): (ops: seq<Op<T>>)
    ensures |ops| == |xs|
  {
    seq(|xs|, i requires 0 <= i < |xs| => PutOverride(xs[i]))
  }

  /** Overriding keeps the newest items, as many as there is room for, whatever was there; all count as accepted. */
  lemma OverridesKeepNewest<T>(q: Queue<T>, xs: seq<T>, capacity: nat)
    requires |q.items| <= capacity
    ensures var all := q.items + xs;
            Run(q, Overrides(xs), capacity)
            == Queue(if |all| <= capacity then all else all[|all| - capacity..], q.accepted + xs, q.given)
  {
    OverridesRun(q, xs, capacity);
  }

  lemma {:induction false} OverridesRun<T>(q: Queue<T>, xs: seq<T>, capacity: nat)
    requires |q.items| <= capacity
    ensures Run(q, Overrides(xs), capacity) == Queue(Newest(q.items + xs, capacity), q.accepted + xs, q.given)
    decreases |xs|
  {
    hide Newest;
    if xs == [] {
      assert q.items + xs == q.items && q.accepted + xs == q.accepted;
      NewestOfFew(q.items, capacity);
    } else {
      var next := Apply(q, PutOverride(xs[0]), capacity);
      NewestTwice(q.items + [xs[0]], xs[1..], capacity);
      Regroup(q.items, xs[0], xs[1..]);
      Regroup(q.accepted, xs[0], xs[1..]);
      assert [xs[0]] + xs[1..] == xs;
      NewestSize(q.items + [xs[0]], capacity);
      assert Overrides(xs)[0] == PutOverride(xs[0]) && Overrides(xs)[1..] == Overrides(xs[1..]);
      OverridesRun(next, xs[1..], capacity);
    }
  }

  function Puts<T>(xs: seq<T>): (ops: seq<Op<T>>)
    ensures |ops| == |xs|
  {
    seq(|xs|, i requires 0 <= i < |xs| => Put(xs[i]))
  }

  /** Puts fill the queue with as many items as there is room for, the first ones, and only these count as accepted. */
  lemma {:induction false} PutsFill<T>(q: Queue<T>, xs: seq<T>, capacity: nat)
    requires |q.items| <= capacity
    ensures var taken := if |xs| <= capacity - |q.items| then xs else xs[..capacity - |q.items|];
            Run(q, Puts(xs), capacity) == Queue(q.items + taken, q.accepted + taken, q.given)
    decreases |xs|
  {
    if xs == [] {
      assert q.items + xs == q.items && q.accepted + xs == q.accepted;
    } else {
      var next := Apply(q, Put(xs[0]), capacity);
      assert Puts(xs)[0] == Put(xs[0]) && Puts(xs)[1..] == Puts(xs[1..]);
      PutsFill(next, xs[1..], capacity);
      if |q.items| < capacity {
        var room := capacity - |q.items|;
        var taken := if |xs| <= room then xs else xs[..room];
        assert taken == [xs[0]] + if |xs[1..]| <= room - 1 then xs[1..] else xs[1..][..room - 1];
        Regroup(q.items, xs[0], taken[1..]);
        Regroup(q.accepted, xs[0], taken[1..]);
      }
    }
  }

  function Gets<T>(n: nat): (ops: seq<Op<T>>)
    ensures |ops| == n
  {
    seq(n, _ => Get)
  }

  /** As many gets as there are items hand out all of them, so draining is a run like any other. */
  lemma {:induction false} GetsDrain<T>(q: Queue<T>, capacity: nat)
    ensures Run(q, Gets(|q.items|), capacity) == Queue([], q.accepted, q.given + q.items)
    decreases |q.items|
  {
    if q.items == [] {
      assert q.given + q.items == q.given;
    } else {
      var next := Apply(q, Get, capacity);
      GetsDrain(next, capacity);
      assert Gets<T>(|q.items|)[1..] == Gets<T>(|q.items| - 1);
      Regroup(q.given, q.items[0], q.items[1..]);
      assert [q.items[0]] + q.items[1..] == q.items;
    }
  }

  /** A queue from whose front items were taken. */
  predicate Drained<T(==)>(first: Queue<T>, q: Queue<T>, sent: seq<T>) {
    sent + q.items == first.items && q.accepted == first.accepted && q.given == first.given + sent
  }

  lemma DrainStep<T>(first: Queue<T>, q: Queue<T>, sent: seq<T>, capacity: nat)
    requires Drained(first, q, sent) && q.items != []
    ensures Drained(first, Apply(q, Get, capacity), sent + [q.items[0]]) && |Apply(q, Get, capacity).items| < |q.items|
  {
    Regroup(sent, q.items[0], q.items[1..]);
    assert q.items == [q.items[0]] + q.items[1..];
  }

  lemma GetNothing<T>(q: Queue<T>, capacity: nat)
    ensures q.items == [] ==> Apply(q, Get, capacity) == q
  {}

  /** What a ring holds, from the oldest to the newest. */
  function Held<T>(b: seq<T>, head: nat, tail: nat, full: bool): (s: seq<T>)
    requires head < |b| && tail < |b| && (full ==> head == tail)
    ensures |s| == if full then |b| else if tail <= head then head - tail else |b| + head - tail
  {
    if !full && tail <= head then b[tail..head] else b[tail..] + b[..head]
  }

  /** A new item at the head. */
  lemma HeldPut<T>(b: seq<T>, head: nat, tail: nat, full: bool, x: T)
    requires head < |b| && tail < |b| && (full ==> head == tail)
    ensures var head' := if head + 1 < |b| then head + 1 else 0;
            var tail' := if !full then tail else if tail + 1 < |b| then tail + 1 else 0;
            var was := Held(b, head, tail, full);
            Held(b[head := x], head', tail', head' == tail') == if full then was[1..] + [x] else was + [x]
  {}

  /** The oldest item leaves. */
  lemma HeldGet<T>(b: seq<T>, head: nat, tail: nat, full: bool)
    requires head < |b| && tail < |b| && (full ==> head == tail) && (full || head != tail)
    ensures var was := Held(b, head, tail, full);
            was[0] == b[tail] && Held(b, head, if tail + 1 < |b| then tail + 1 else 0, false) == was[1..]
  {}

  class CircularBuffer<T(0)> {
    const buffer: array<T>
    var head: nat
    var tail: nat
    var full: bool
    /** What was put in and what was got out so far. */
    ghost var accepted: seq<T>
    ghost var given: seq<T>

    ghost predicate Valid()
      reads this
    {
      buffer.Length > 0 && head < buffer.Length && tail < buffer.Length && (full ==> head == tail)
    }

    /** The items from the oldest to the newest. */
    ghost function Contents(): (s: seq<T>)
      requires Valid()
      reads this, buffer
      ensures |s| <= buffer.Length
    {
      Held(buffer[..], head, tail, full)
    }

    /** The bounded queue that the ring stands for. */
    ghost function Whole(): Queue<T>
      requires Valid()
      reads this, buffer
    {
      Queue(Contents(), accepted, given)
    }

    constructor (size: nat)
      requires size > 0
      ensures Valid() && Whole() == Queue([], [], []) && buffer.Length == size && fresh(buffer)
    {
      buffer := new T[size];
      head, tail, full := 0, 0, false;
      accepted, given := [], [];
    }

    method Size() returns (size: nat)
      requires Valid()
      ensures size == |Contents()|
    {
      if full {
        return buffer.Length;
      }
      if head >= tail {
        return head - tail;
      }
      return buffer.Length + head - tail;
    }

    method Empty() returns (empty: bool)
      requires Valid()
      ensures empty <==> Contents() == []
    {
      return !full && head == tail;
    }

    method Full() returns (isFull: bool)
      requires Valid()
      ensures isFull <==> |Contents()| == buffer.Length
    {
      return full;
    }

    method AdvancePointer()
      requires Valid()
      modifies this`head, this`tail, this`full
      ensures Valid()
      ensures tail == if old(full) then (old(tail) + 1) % buffer.Length else old(tail)
      ensures head == (old(head) + 1) % buffer.Length && (full <==> head == tail)
    {
      if full {
        tail := (tail + 1) % buffer.Length;
      }
      head := (head + 1) % buffer.Length;
      full := head == tail;
    }

    /** circular_buf_put_override */
    method PutOverride(data: T)
      requires Valid()
      modifies this, buffer
      ensures Valid() && Whole() == Apply(old(Whole()), Op.PutOverride(data), buffer.Length)
      ensures Contents() == (if |old(Contents())| < buffer.Length then old(Contents()) else old(Contents())[1..]) + [data]
    {
      hide Held, Newest;
      Step(head, buffer.Length);
      Step(tail, buffer.Length);
      HeldPut(buffer[..], head, tail, full, data);
      NewestNext(Contents(), data, buffer.Length);
      buffer[head] := data;
      AdvancePointer();
      accepted := accepted + [data];
    }

    /** circular_buf_put */
    method Put(data: T) returns (result: int)
      requires Valid()
      modifies this, buffer
      ensures Valid() && Whole() == Apply(old(Whole()), Op.Put(data), buffer.Length)
      ensures if |old(Contents())| < buffer.Length then result == 0 && Contents() == old(Contents()) + [data]
              else result == -1 && Contents() == old(Contents())
    {
      hide Held;
      if full {
        return -1;
      }
      Step(head, buffer.Length);
      HeldPut(buffer[..], head, tail, full, data);
      buffer[head] := data;
      AdvancePointer();
      accepted := accepted + [data];
      return 0;
    }

    /** circular_buf_get; nothing is handed out of an empty buffer. */
    method Get(peek: bool) returns (result: int, data: Option<T>)
      requires Valid()
      modifies this
      ensures Valid() && Whole() == Apply(old(Whole()), if peek then Op.Peek else Op.Get, buffer.Length)
      ensures if old(Contents()) == [] then result == -1 && data == None
              else result == 0 && data == Some(old(Contents())[0]) &&
                   Contents() == if peek then old(Contents()) else old(Contents())[1..]
    {
      hide Held;
      if !full && head == tail {
        return -1, None;
      }
      HeldGet(buffer[..], head, tail, full);
      data := Some(buffer[tail]);
      if !peek {
        Step(tail, buffer.Length);
        full := false;
        tail := (tail + 1) % buffer.Length;
        given := given + [data.value];
      }
      return 0, data;
    }

    /** The loop of nan_send_buffered_frames: everything is handed out once, oldest first. */
    method Drain() returns (sent: seq<T>)
      requires Valid()
      modifies this
      ensures Valid() && sent == old(Contents())
      ensures Whole() == Run(old(Whole()), Gets(|sent|), buffer.Length) == Queue([], old(accepted), old(given) + sent)
    {
      hide CircularBuffer.Contents, Run, Apply;
      GetsDrain(Whole(), buffer.Length);
      ghost var first := Whole();
      sent := [];
      while true
        invariant Valid() && Drained(first, Whole(), sent)
        decreases |Contents()|
      {
        ghost var q := Whole();
        GetNothing(q, buffer.Length);
        var result, data := Get(false);
        if result == -1 {
          break;
        }
        DrainStep(first, q, sent, buffer.Length);
        sent := sent + [data.value];
      }
      assert sent + [] == sent;
    }
  }

  lemma Step(i: nat, n: nat)
    requires i < n
    ensures (i + 1) % n == if i + 1 < n then i + 1 else 0
  {}
}
