/**
  Whole lives of a hash table: any sequence of requests, answered as a finite map
  would answer them, and any such life ended by freeing the table.
 */
module HashRun {
  import opened Words
  import opened HashShape
  import opened HashTable

  // Allocation outcomes travel with the requests.
  datatype Request<V> =
    | Put(key: Bytes, val: Value<V>, memory: bool, keyMemory: bool)
    | Remove(key: Bytes)
    | Get(key: Bytes)
    | Grow(size: nat, memory: bool)

  datatype Reply<V> = Done | Failed | Found(val: Value<V>) | Missing

  ghost predicate Accepts<V>(q: Request<V>) {
    (q.Put? ==> |q.key| > 0) && (q.Grow? ==> q.size <= MAX_CAP)
  }

  // The finite map after one request with the given reply.
  ghost function After<V>(m: map<Bytes, Value<V>>, q: Request<V>, r: Reply<V>): map<Bytes, Value<V>> {
    match q
    case Put(k, v, _, _) => if r.Done? then m[k := v] else m
    case Remove(k) => m - {k}
    case _ => m
  }

  // The replies a finite map allows.
  ghost predicate Answers<V>(m: map<Bytes, Value<V>>, q: Request<V>, r: Reply<V>) {
    match q
    case Put(k, _, memory, keyMemory) => r.Done? || (r.Failed? && k !in m && (!memory || !keyMemory || |m| == MAX_CAP))
    case Remove(k) => r.Done?
    case Get(k) => r == if k in m then Found(m[k]) else Missing
    case Grow(size, memory) => r == if memory && Suffices(size, |m|) then Done else Failed
  }

  ghost predicate Explains<V>(m: map<Bytes, Value<V>>, qs: seq<Request<V>>, rs: seq<Reply<V>>)
    decreases |qs|
  {
    |qs| == |rs| && (qs != [] ==> Answers(m, qs[0], rs[0]) && Explains(After(m, qs[0], rs[0]), qs[1..], rs[1..]))
  }

  ghost function Final<V>(m: map<Bytes, Value<V>>, qs: seq<Request<V>>, rs: seq<Reply<V>>): map<Bytes, Value<V>>
    requires |qs| == |rs|
    decreases |qs|
  {
    if qs == [] then m else Final(After(m, qs[0], rs[0]), qs[1..], rs[1..])
  }

  // Reading a history backwards: the latest request that settled the key decides.
  ghost function LastWord<V>(qs: seq<Request<V>>, rs: seq<Reply<V>>, k: Bytes): Reply<V>
    requires |qs| == |rs|
    decreases |qs|
  {
    if qs == [] then Missing
    else
      var n := |qs| - 1;
      if qs[n].Put? && qs[n].key == k && rs[n].Done? then Found(qs[n].val)
      else if qs[n].Remove? && qs[n].key == k then Missing
      else LastWord(qs[..n], rs[..n], k)
  }

  ghost function Lookup<V>(m: map<Bytes, Value<V>>, k: Bytes): Reply<V> {
    if k in m then Found(m[k]) else Missing
  }

  lemma {:induction false} FinalSnoc<V>(m: map<Bytes, Value<V>>, qs: seq<Request<V>>, rs: seq<Reply<V>>,
        q: Request<V>, r: Reply<V>)
    requires |qs| == |rs|
    ensures Final(m, qs + [q], rs + [r]) == After(Final(m, qs, rs), q, r)
    decreases |qs|
  {
    if qs == [] {
      assert ([q] + [])[1..] == [] && Final(After(m, q, r), [], []) == After(m, q, r);
      assert qs + [q] == [q] && rs + [r] == [r];
    } else {
      assert (qs + [q])[1..] == qs[1..] + [q] && (rs + [r])[1..] == rs[1..] + [r];
      FinalSnoc(After(m, qs[0], rs[0]), qs[1..], rs[1..], q, r);
    }
  }

  // A look-up after any history gives the last value stored under the key, and
  // nothing for a key that was never stored or was removed since.
  lemma {:induction false} FinalIsLastWord<V>(qs: seq<Request<V>>, rs: seq<Reply<V>>, k: Bytes)
    requires |qs| == |rs|
    ensures Lookup(Final(map[], qs, rs), k) == LastWord(qs, rs, k)
    decreases |qs|
  {
    if qs != [] {
      var n := |qs| - 1;
      assert qs[..n] + [qs[n]] == qs && rs[..n] + [rs[n]] == rs;
      FinalSnoc(map[], qs[..n], rs[..n], qs[n], rs[n]);
      FinalIsLastWord(qs[..n], rs[..n], k);
    }
  }

  // What a history hands over to the table.
  ghost function Taken<V>(qs: seq<Request<V>>, rs: seq<Reply<V>>): multiset<V>
    requires |qs| == |rs|
    decreases |qs|
  {
    if qs == [] then multiset{}
    else
      var n := |qs| - 1;
      Taken(qs[..n], rs[..n]) + (if qs[n].Put? && rs[n].Done? then OwnedValue(qs[n].val) else multiset{})
  }

  lemma {:induction false} ExplainsSnoc<V>(m: map<Bytes, Value<V>>, qs: seq<Request<V>>, rs: seq<Reply<V>>,
        q: Request<V>, r: Reply<V>)
    requires Explains(m, qs, rs) && Answers(Final(m, qs, rs), q, r)
    ensures Explains(m, qs + [q], rs + [r])
    decreases |qs|
  {
    if qs == [] {
      assert qs + [q] == [q] && rs + [r] == [r];
    } else {
      assert (qs + [q])[1..] == qs[1..] + [q] && (rs + [r])[1..] == rs[1..] + [r];
      ExplainsSnoc(After(m, qs[0], rs[0]), qs[1..], rs[1..], q, r);
    }
  }

  // How often a history put a value in.
  function Puts<V(==)>(qs: seq<Request<V>>, rs: seq<Reply<V>>, v: V): nat
    requires |qs| == |rs|
    decreases |qs|
  {
    if qs == [] then 0
    else
      var n := |qs| - 1;
      Puts(qs[..n], rs[..n], v) + (if qs[n].Put? && rs[n].Done? && qs[n].val == Ptr(v) then 1 else 0)
  }

  lemma {:induction false} TakenCounts<V>(qs: seq<Request<V>>, rs: seq<Reply<V>>, v: V)
    requires |qs| == |rs|
    ensures Taken(qs, rs)[v] == Puts(qs, rs, v)
    decreases |qs|
  {
    if qs != [] {
      TakenCounts(qs[..|qs| - 1], rs[..|qs| - 1], v);
    }
  }

  // One request put to a table, with the reply its caller sees.
  method Ask<V(==)>(t: Table<V>, q: Request<V>) returns (r: Reply<V>)
    requires t.Valid() && Accepts(q)
    modifies t, t.slots, t.arrData
    ensures t.Valid()
    ensures (t.slots == old(t.slots) && t.arrData == old(t.arrData)) || (fresh(t.slots) && fresh(t.arrData))
    ensures Answers(old(t.Entries()), q, r) && t.Entries() == After(old(t.Entries()), q, r)
    ensures t.accepted == old(t.accepted) + (if q.Put? && r.Done? then OwnedValue(q.val) else multiset{})
  {
    hide Inv, Contents, Held, IsPow2, Hash, Balanced, Suffices;
    UsedCounts(t);
    match q
    case Put(k, v, memory, keyMemory) =>
      var pb := t.SetKeyValue(k, v, memory, keyMemory);
      r := if pb < 0 then Failed else Done;
    case Remove(k) =>
      t.RemoveKey(k);
      r := Done;
    case Get(k) =>
      var pb := t.FindKey(k);
      r := if pb < 0 then Missing else Found(t.arrData[pb].val);
    case Grow(size, memory) =>
      var ok := t.Resize(size, memory);
      r := if ok then Done else Failed;
  }

  lemma UsedCounts<V>(t: Table<V>)
    requires t.Valid()
    ensures |t.Entries()| == t.used
  {
    assert forall k :: k in t.at ==> t.at[k] < |t.arrData[..]|;
    assert t.Entries().Keys == t.at.Keys;
    assert |t.Entries()| == |t.Entries().Keys| && |t.at| == |t.at.Keys|;
  }

  lemma RunSnoc<V>(m: map<Bytes, Value<V>>, qs: seq<Request<V>>, i: nat, rs: seq<Reply<V>>, r: Reply<V>)
    requires i < |qs| && |rs| == i && Explains(m, qs[..i], rs) && Answers(Final(m, qs[..i], rs), qs[i], r)
    ensures Explains(m, qs[..i + 1], rs + [r])
    ensures Final(m, qs[..i + 1], rs + [r]) == After(Final(m, qs[..i], rs), qs[i], r)
    ensures Taken(qs[..i + 1], rs + [r]) == Taken(qs[..i], rs) + (if qs[i].Put? && r.Done? then OwnedValue(qs[i].val)
            else multiset{})
  {
    assert qs[..i + 1] == qs[..i] + [qs[i]];
    ExplainsSnoc(m, qs[..i], rs, qs[i], r);
    FinalSnoc(m, qs[..i], rs, qs[i], r);
    assert (rs + [r])[..i] == rs && qs[..i + 1][..i] == qs[..i];
  }

  // Every sequence of requests is answered as a finite map answers it.
  method Serve<V(==)>(t: Table<V>, qs: seq<Request<V>>) returns (rs: seq<Reply<V>>)
    requires t.Valid() && forall i :: 0 <= i < |qs| ==> Accepts(qs[i])
    modifies t, t.slots, t.arrData
    ensures t.Valid() && Explains(old(t.Entries()), qs, rs)
    ensures (t.slots == old(t.slots) && t.arrData == old(t.arrData)) || (fresh(t.slots) && fresh(t.arrData))
    ensures t.Entries() == Final(old(t.Entries()), qs, rs)
    ensures t.accepted == old(t.accepted) + Taken(qs, rs)
  {
    hide Inv, Contents, Held, IsPow2, Hash, Balanced, OwnedValue, Answers, After, Accepts;
    ghost var m := t.Entries();
    rs := [];
    assert qs[..0] == [];
    hide Explains, Final, Taken;
    for i := 0 to |qs|
      invariant t.Valid() && |rs| == i
      invariant (t.slots == old(t.slots) && t.arrData == old(t.arrData)) || (fresh(t.slots) && fresh(t.arrData))
      invariant Explains(m, qs[..i], rs) && t.Entries() == Final(m, qs[..i], rs)
      invariant t.accepted == old(t.accepted) + Taken(qs[..i], rs)
    {
      var r := Ask(t, qs[i]);
      RunSnoc(m, qs, i, rs, r);
      rs := rs + [r];
    }
    assert qs[..|qs|] == qs;
  }

  // A whole life with a destructor: what was taken in is destroyed, each value as
  // often as it came, so once if the values are distinct.
  method Live<V(==)>(requested: nat, qs: seq<Request<V>>) returns (rs: seq<Reply<V>>, destroyed: seq<V>)
    requires requested <= MAX_CAP && forall i :: 0 <= i < |qs| ==> Accepts(qs[i])
    ensures Explains(map[], qs, rs)
    ensures multiset(destroyed) == Taken(qs, rs)
    ensures forall v :: multiset(destroyed)[v] == Puts(qs, rs, v)
  {
    hide Inv, Contents, Held, IsPow2, Hash, Balanced, OwnedValue, Accepts, Taken, Puts;
    var t := new Table<V>(requested, true);
    rs := Serve(t, qs);
    t.Free();
    destroyed := t.destroyed;
    forall v ensures multiset(destroyed)[v] == Puts(qs, rs, v) {
      TakenCounts(qs, rs, v);
    }
  }
}
