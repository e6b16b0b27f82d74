/** The singly linked list with a sentinel of src/list.c, and its iterator. */
module Lists {
  import opened Words

  datatype Status = ListOk | ListNotFound

  class Entry<T(==)> {
    /** Nothing in the sentinel. */
    const data: Option<T>
    var next: Entry?<T>

    constructor (data: Option<T>)
      ensures this.data == data && next == null
    {
      this.data, next := data, null;
    }
  }

  ghost predicate Full<T>(es: seq<Entry<T>>) { forall i | 0 <= i < |es| :: es[i].data.Some? }

  ghost predicate Distinct<T>(es: seq<Entry<T>>) { forall i, j | 0 <= i < j < |es| :: es[i] != es[j] }

  lemma DistinctCut<T>(es: seq<Entry<T>>, k: nat)
    requires Distinct(es) && k < |es|
    ensures Distinct(es[..k] + es[k + 1..])
  {}

  lemma OnlyAt<T>(es: seq<Entry<T>>, k: nat)
    requires Distinct(es) && k < |es|
    ensures forall i | 0 <= i < |es| && i != k :: es[i] != es[k]
  {}

  lemma DistinctMore<T>(es: seq<Entry<T>>, e: Entry<T>)
    requires Distinct(es) && e !in es
    ensures Distinct(es + [e])
  {}

  /** The items that entries hold. */
  ghost function Data<T>(es: seq<Entry<T>>): (s: seq<T>)
    requires Full(es)
    ensures |s| == |es| && forall i | 0 <= i < |es| :: s[i] == es[i].data.value
  {
    seq(|es|, i requires 0 <= i < |es| => es[i].data.value)
  }

  lemma DataCut<T>(es: seq<Entry<T>>, k: nat)
    requires k + 1 < |es| && Full(es[1..])
    ensures var r := es[..k + 1] + es[k + 2..];
            Full(r[1..]) && Data(r[1..]) == Data(es[1..])[..k] + Data(es[1..])[k + 1..]
  {
    assert (es[..k + 1] + es[k + 2..])[1..] == es[1..][..k] + es[1..][k + 1..];
  }

  /** The items of a sequence without the first occurrence of one of them. */
  function Without<T(==)>(s: seq<T>, x: T): seq<T> {
    if s == [] then [] else if s[0] == x then s[1..] else [s[0]] + Without(s[1..], x)
  }

  lemma {:induction false} WithoutFirst<T>(s: seq<T>, x: T, k: nat)
    requires k < |s| && s[k] == x && x !in s[..k]
    ensures Without(s, x) == s[..k] + s[k + 1..]
  {
    if k > 0 {
      assert x in s[..k] || s[0] != x by {
        assert s[..k][0] == s[0];
      }
      assert forall y <- s[1..][..k - 1] :: y in s[..k];
      WithoutFirst(s[1..], x, k - 1);
      assert s[1..][..k - 1] == s[1..k] && s[1..][k..] == s[k + 1..];
    }
  }

  lemma {:induction false} WithoutAbsent<T>(s: seq<T>, x: T)
    requires x !in s
    ensures Without(s, x) == s
  {
    if s != [] {
      WithoutAbsent(s[1..], x);
    }
  }

  class List<T(==)> {
    const sentinel: Entry<T>
    /** All entries in order, the sentinel first. */
    ghost var spine: seq<Entry<T>>

    ghost predicate Valid()
      reads this, spine
    {
      |spine| > 0 && spine[0] == sentinel &&
      Distinct(spine) &&
      Full(spine[1..]) &&
      (forall i {:trigger spine[i].next} | 0 <= i < |spine| - 1 :: spine[i].next == spine[i + 1]) &&
      spine[|spine| - 1].next == null
    }

    ghost function Items(): (s: seq<T>)
      requires Valid()
      reads this, spine
      ensures |s| == |spine| - 1
    {
      Data(spine[1..])
    }

    lemma ItemAt(k: nat)
      requires Valid() && 0 < k < |spine|
      ensures spine[k].data == Some(Items()[k - 1])
      ensures spine[k - 1].next == spine[k]
    {
      assert spine[1..][k - 1] == spine[k];
    }

    /** list_init */
    constructor ()
      ensures Valid() && Items() == [] && fresh(spine)
    {
      sentinel := new Entry(None);
      new;
      spine := [sentinel];
    }

    /** list_len */
    method Len() returns (len: nat)
      requires Valid()
      ensures len == |Items()|
    {
      var current := sentinel.next;
      len := 0;
      while current != null
        invariant 0 <= len < |spine|
        invariant current == if len + 1 < |spine| then spine[len + 1] else null
        decreases |spine| - len
      {
        len := len + 1;
        current := current.next;
      }
    }

    /** list_add: at the end. */
    method Add(item: T)
      requires Valid()
      modifies this, spine
      ensures Valid() && Items() == old(Items()) + [item]
      ensures spine[..|spine| - 1] == old(spine) && fresh(spine[|spine| - 1])
    {
      var current := sentinel;
      ghost var k := 0;
      while current.next != null
        invariant 0 <= k < |spine| && current == spine[k]
        decreases |spine| - k
      {
        current := current.next;
        k := k + 1;
      }
      assert k == |spine| - 1;
      var entry := new Entry(Some(item));
      DistinctMore(spine, entry);
      OnlyAt(spine, k);
      current.next := entry;
      spine := spine + [entry];
      assert spine[1..] == old(spine)[1..] + [entry];
    }

    /** The entry behind `last` is taken out of the chain. */
    method Unlink(last: Entry<T>, current: Entry<T>, ghost k: nat)
      requires Valid() && k + 1 < |spine| && last == spine[k] && current == spine[k + 1]
      modifies this`spine, last
      ensures Valid() && Items() == old(Items()[..k] + Items()[k + 1..])
      ensures spine == old(spine[..k + 1] + spine[k + 2..])
    {
      hide Distinct, Full, Data;
      ghost var was := spine;
      DistinctCut(was, k + 1);
      DataCut(was, k);
      OnlyAt(was, k);
      assert current.next == if k + 2 < |was| then was[k + 2] else null;
      last.next := current.next;
      spine := was[..k + 1] + was[k + 2..];
      forall i | 0 <= i < |spine| - 1 ensures spine[i].next == spine[i + 1] {
        if i < k {
          assert spine[i] == was[i] && was[i].next == was[i + 1];
        } else if i > k {
          assert spine[i] == was[i + 1] && was[i + 1].next == was[i + 2];
        }
      }
      assert spine[|spine| - 1] == if k + 2 < |was| then was[|was| - 1] else last;
    }

    /** list_remove: the first occurrence is unlinked. */
    method Remove(item: T) returns (status: Status)
      requires Valid()
      modifies this, spine
      ensures Valid() && Items() == Without(old(Items()), item)
      ensures status == if item in old(Items()) then ListOk else ListNotFound
      ensures forall e <- spine :: e in old(spine)
    {
      hide Distinct, Full, Without;
      var last := sentinel;
      var current := last.next;
      ghost var k := 0;
      while current != null
        invariant Valid() && spine == old(spine) && unchanged(this, spine)
        invariant 0 <= k < |spine| && last == spine[k]
        invariant current == if k + 1 < |spine| then spine[k + 1] else null
        invariant item !in Items()[..k]
        decreases |spine| - k
      {
        ItemAt(k + 1);
        if current.data == Some(item) {
          WithoutFirst(Items(), item, k);
          Unlink(last, current, k);
          return ListOk;
        }
        assert Items()[..k + 1] == Items()[..k] + [Items()[k]];
        last := current;
        current := current.next;
        k := k + 1;
      }
      assert Items()[..k] == Items();
      WithoutAbsent(Items(), item);
      return ListNotFound;
    }
  }

  /** list_it_new and list_it_next */
  class ListIterator<T(==)> {
    ghost const list: List<T>
    var current: Entry?<T>
    /** How many items have been handed out. */
    ghost var done: nat

    ghost predicate Valid()
      reads this, list, list.spine
    {
      list.Valid() && done < |list.spine| && current == if done + 1 < |list.spine| then list.spine[done + 1] else null
    }

    constructor (list: List<T>)
      requires list.Valid()
      ensures Valid() && this.list == list && done == 0
    {
      this.list := list;
      current := list.sentinel.next;
      done := 0;
    }

    method Next() returns (item: Option<T>, status: Status)
      requires Valid()
      modifies this
      ensures Valid()
      ensures if old(done) < |list.Items()|
              then status == ListOk && done == old(done) + 1 && item == Some(list.Items()[old(done)])
              else status == ListNotFound && done == old(done) && item == None
    {
      if current == null {
        return None, ListNotFound;
      }
      list.ItemAt(done + 1);
      item := current.data;
      current := current.next;
      done := done + 1;
      return item, ListOk;
    }
  }
}
