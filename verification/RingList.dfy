/**
  list.h: circular doubly linked lists threaded through their entries.  A list is the ring
  of its head and its entries, from the head on along `next`.
 */
module RingList {

  class Entry {
    var prev: Entry?
    var next: Entry?
  }

  ghost predicate LinkedAt(r: seq<Entry>, i: nat)
    requires i < |r|
    reads r
  {
    && r[i].next == (if i + 1 < |r| then r[i + 1] else r[0])
    && r[i].prev == (if i > 0 then r[i - 1] else r[|r| - 1])
  }

  ghost predicate IsRing(r: seq<Entry>)
    reads r
  {
    && |r| > 0
    && (forall i, j :: 0 <= i < j < |r| ==> r[i] != r[j])
    && (forall i :: 0 <= i < |r| ==> LinkedAt(r, i))
  }

  // ef_list_init
  method Init(head: Entry)
    modifies head
    ensures IsRing([head])
  {
    head.prev := head;
    head.next := head;
  }

  // ef_list_empty
  method Empty(head: Entry, ghost r: seq<Entry>) returns (b: bool)
    requires IsRing(r) && r[0] == head
    ensures b <==> r == [head]
  {
    b := head.next == head;
    assert LinkedAt(r, 0);
  }

  // ef_list_entry_after and ef_list_entry_before: a walk from the head meets every entry,
  // and the head again at the end.
  method After(current: Entry, ghost r: seq<Entry>, ghost k: nat) returns (e: Entry)
    requires IsRing(r) && k < |r| && r[k] == current
    ensures e == if k + 1 < |r| then r[k + 1] else r[0]
  {
    assert LinkedAt(r, k);
    e := current.next;
  }

  method Before(current: Entry, ghost r: seq<Entry>, ghost k: nat) returns (e: Entry)
    requires IsRing(r) && k < |r| && r[k] == current
    ensures e == if k > 0 then r[k - 1] else r[|r| - 1]
  {
    assert LinkedAt(r, k);
    e := current.prev;
  }

  // ef_list_insert_after
  method InsertAfter(current: Entry, entry: Entry, ghost r: seq<Entry>, ghost k: nat)
    requires IsRing(r) && k < |r| && r[k] == current && entry !in r
    modifies r, entry
    ensures IsRing(r[..k + 1] + [entry] + r[k + 1..])
  {
    assert LinkedAt(r, k);
    assert LinkedAt(r, if k + 1 < |r| then k + 1 else 0);
    label L:
    entry.next := current.next;
    current.next := entry;
    entry.prev := current;
    entry.next.prev := entry;
    ghost var n := r[..k + 1] + [entry] + r[k + 1..];
    forall i | 0 <= i < |n| ensures LinkedAt(n, i) {
      if i <= k {
        assert old@L(LinkedAt(r, i));
      } else if i > k + 1 {
        assert n[i] == r[i - 1] && old@L(LinkedAt(r, i - 1));
      }
    }
  }

  // ef_list_insert_before; before the head is at the tail.
  method InsertBefore(current: Entry, entry: Entry, ghost r: seq<Entry>, ghost k: nat)
    requires IsRing(r) && k < |r| && r[k] == current && entry !in r
    modifies r, entry
    ensures IsRing(if k == 0 then r + [entry] else r[..k] + [entry] + r[k..])
  {
    assert LinkedAt(r, k);
    assert LinkedAt(r, if k > 0 then k - 1 else |r| - 1);
    label L:
    entry.next := current;
    current.prev.next := entry;
    entry.prev := current.prev;
    current.prev := entry;
    ghost var at := if k == 0 then |r| else k;
    ghost var n := r[..at] + [entry] + r[at..];
    assert n == if k == 0 then r + [entry] else r[..k] + [entry] + r[k..];
    forall i | 0 <= i < |n| ensures LinkedAt(n, i) {
      if i < at {
        assert old@L(LinkedAt(r, i));
      } else if i > at {
        assert n[i] == r[i - 1] && old@L(LinkedAt(r, i - 1));
      }
    }
  }

  // ef_list_remove; the entry keeps its own links.
  method Remove(entry: Entry, ghost r: seq<Entry>, ghost k: nat)
    requires IsRing(r) && 0 < k < |r| && r[k] == entry
    modifies r
    ensures IsRing(r[..k] + r[k + 1..])
    ensures entry.prev == old(entry.prev) && entry.next == old(entry.next)
  {
    assert LinkedAt(r, k) && LinkedAt(r, k - 1);
    assert LinkedAt(r, if k + 1 < |r| then k + 1 else 0);
    label L:
    entry.next.prev := entry.prev;
    entry.prev.next := entry.next;
    ghost var n := r[..k] + r[k + 1..];
    forall i | 0 <= i < |n| ensures LinkedAt(n, i) {
      assert old@L(LinkedAt(r, if i < k then i else i + 1));
    }
  }

  // ef_list_remove_after and ef_list_remove_before on the head: the first entry, the last
  // entry, or nothing.
  method RemoveAfter(head: Entry, ghost r: seq<Entry>) returns (e: Entry?)
    requires IsRing(r) && r[0] == head
    modifies r
    ensures if |r| == 1 then e == null && IsRing(r) else e == r[1] && IsRing([head] + r[2..])
  {
    var empty := Empty(head, r);
    if empty {
      return null;
    }
    assert LinkedAt(r, 0) && LinkedAt(r, 1);
    assert LinkedAt(r, if 2 < |r| then 2 else 0);
    label L:
    var first: Entry := head.next;
    head.next := first.next;
    head.next.prev := head;
    ghost var n := [head] + r[2..];
    forall i | 0 <= i < |n| ensures LinkedAt(n, i) {
      assert old@L(LinkedAt(r, if i == 0 then 0 else i + 1));
    }
    e := first;
  }

  method RemoveBefore(head: Entry, ghost r: seq<Entry>) returns (e: Entry?)
    requires IsRing(r) && r[0] == head
    modifies r
    ensures if |r| == 1 then e == null && IsRing(r) else e == r[|r| - 1] && IsRing(r[..|r| - 1])
  {
    var empty := Empty(head, r);
    if empty {
      return null;
    }
    var z := |r| - 1;
    assert LinkedAt(r, 0) && LinkedAt(r, z) && LinkedAt(r, z - 1);
    label L:
    var last: Entry := head.prev;
    head.prev := last.prev;
    head.prev.next := head;
    ghost var n := r[..z];
    forall i | 0 <= i < |n| ensures LinkedAt(n, i) {
      assert old@L(LinkedAt(r, i));
    }
    e := last;
  }

  // What goes in before the head comes out after it in the same order: a queue.
  method PassThrough(head: Entry, entries: seq<Entry>) returns (out: seq<Entry?>)
    requires head !in entries && forall i, j :: 0 <= i < j < |entries| ==> entries[i] != entries[j]
    modifies head, entries
    ensures out == entries
  {
    Init(head);
    ghost var r := [head];
    var i := 0;
    while i < |entries|
      invariant 0 <= i <= |entries| && IsRing(r) && r == [head] + entries[..i]
    {
      InsertBefore(head, entries[i], r, 0);
      r := r + [entries[i]];
      i := i + 1;
    }
    out := [];
    i := 0;
    while i < |entries|
      invariant 0 <= i <= |entries| && IsRing(r) && r == [head] + entries[i..] && out == entries[..i]
    {
      var e := RemoveAfter(head, r);
      r := [head] + r[2..];
      out := out + [e];
      i := i + 1;
    }
  }
}
