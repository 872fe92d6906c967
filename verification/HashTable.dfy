/**
  The chained hash table of structure/hashtable.c, updated in place, as a
  refinement of a finite map from keys to values.  Outcomes of memory allocation
  are parameters.  The destructor is modelled by the log of the values it was given.
 */
module HashTable {
  import opened Words
  import opened HashShape

  lemma HashNeverZero()
    ensures NeverZero(Hash)
  {
  }

  lemma Balance<T>(a: multiset<T>, d: multiset<T>, h: multiset<T>, h': multiset<T>, o: multiset<T>, v: multiset<T>)
    requires a == d + h && h' + o == h + v
    ensures a + v == (d + o) + h'
  {
    assert a + v == d + (h + v);
    assert (d + o) + h' == d + (h' + o);
  }

  lemma Doubling(cap: nat)
    requires IsPow2(cap) && 0 < cap < MAX_CAP
    ensures cap * 2 <= MAX_CAP
  {
    var k: nat :| cap == Pow2(k);
    if k >= 31 {
      Pow2Monotone(31, k);
      assert Pow2(31) == MAX_CAP by { Pow2Words(); }
    } else {
      Pow2Monotone(k, 30);
      assert Pow2(30) * 2 == MAX_CAP by { Pow2Words(); assert Pow2(31) == 2 * Pow2(30); }
    }
  }

  // Every non-null value taken in is either still held or was destroyed, as often as it came.
  ghost predicate Balanced<V>(hasDtor: bool, accepted: multiset<V>, destroyed: seq<V>, held: multiset<V>) {
    if hasDtor then accepted == multiset(destroyed) + held else destroyed == []
  }

  // The capacity a request is rounded up to.
  ghost predicate RoundsTo(requested: nat, c: nat) {
    if requested <= 8 then c == 8 else LeastPow2(requested, c)
  }

  // It has room for n entries.
  ghost predicate Suffices(requested: nat, n: nat) {
    exists c :: RoundsTo(requested, c) && n <= c
  }

  lemma OneRecap(requested: nat, c: nat)
    requires if requested <= INIT_CAP then c == INIT_CAP else LeastPow2(requested, c)
    ensures RoundsTo(requested, c)
    ensures forall n: nat :: Suffices(requested, n) <==> n <= c
  {
    hide IsPow2;
    forall d | RoundsTo(requested, d) ensures d == c {
    }
  }

  lemma SameRecap(requested: nat, c: nat, d: nat)
    requires RoundsTo(requested, c) && RoundsTo(requested, d)
    ensures c == d
  {
    hide IsPow2;
  }

  // Twice the capacity is its own round-up, and at the largest capacity the shift yields zero.
  lemma TwiceSuffices(cap: nat, twice: nat)
    requires IsPow2(cap) && 8 <= cap <= MAX_CAP && twice == (cap * 2) % WORD32
    ensures cap < MAX_CAP ==> twice == 2 * cap <= MAX_CAP && RoundsTo(twice, 2 * cap) && Suffices(twice, cap)
    ensures cap == MAX_CAP ==> twice == 0 && !Suffices(twice, cap)
  {
    if cap < MAX_CAP {
      Doubling(cap);
      var k: nat :| cap == Pow2(k);
      assert Pow2(k + 1) == 2 * cap;
      assert IsPow2(2 * cap);
      assert RoundsTo(twice, 2 * cap);
    }
  }

  class Table<V(==)> {
    var cap: nat
    var sizemask: nat
    var used: nat
    var next: nat
    var removed: int
    var slots: array<int>
    var arrData: array<Bucket<V>>
    const hasDtor: bool
    var destroyed: seq<V>

    ghost var chains: seq<seq<nat>>
    ghost var free: seq<nat>
    ghost var at: map<Bytes, nat>
    ghost var accepted: multiset<V>

    ghost function View(): Shape<V>
      reads this, slots, arrData
    {
      Shape(used, next, removed, slots[..], arrData[..], chains, free, at)
    }

    ghost function Entries(): map<Bytes, Value<V>>
      reads this, arrData
    {
      Contents(arrData[..], at)
    }

    ghost predicate Ledger()
      reads this, arrData
    {
      Balanced(hasDtor, accepted, destroyed, Held(arrData[..]))
    }

    ghost predicate Shaped(hole: int)
      reads this, slots, arrData
    {
      && cap == arrData.Length == slots.Length == |chains|
      && INIT_CAP <= cap <= MAX_CAP && IsPow2(cap) && sizemask == SizeMask(cap)
      && Inv(Hash, View(), hole)
    }

    ghost predicate Valid()
      reads this, slots, arrData
    {
      Shaped(NONE) && Ledger()
    }

    constructor (requested: nat, hasDtor: bool)
      requires requested <= MAX_CAP
      ensures Valid() && Entries() == map[] && fresh(slots) && fresh(arrData)
      ensures this.hasDtor == hasDtor && accepted == multiset{}
      ensures cap >= requested
    {
      hide Hash, Inv, Contents, Held, LeastPow2, IsPow2;
      var c := RecapIsPow2(requested);
      cap := c;
      used, next, removed := 0, 0, -1;
      sizemask := WORD32 - c;
      slots := new int[c](_ => -1);
      arrData := new Bucket<V>[c](_ => Bucket(0, NoKey, Null, 0));
      this.hasDtor := hasDtor;
      destroyed := [];
      chains := seq(c, _ => []);
      free, at, accepted := [], map[], multiset{};
      new;
      EmptyInv(Hash, View());
      HeldBlank(arrData[..]);
    }

    static method RecapIsPow2(requested: nat) returns (c: nat)
      requires requested <= MAX_CAP
      ensures if requested <= INIT_CAP then c == INIT_CAP else LeastPow2(requested, c)
      ensures requested <= c && INIT_CAP <= c <= MAX_CAP && IsPow2(c)
    {
      c := HashRecap(requested);
      assert Pow2(3) == INIT_CAP by { Pow2Words(); }
    }

    // HASH_OFFSET, counted from the start of the slot array.
    method SlotIndex(h: nat) returns (s: nat)
      requires 0 < cap <= MAX_CAP && IsPow2(cap) && sizemask == SizeMask(cap)
      ensures s == SlotOf(h, cap) < cap
    {
      ghost var k: nat :| cap == Pow2(k);
      assert k <= 31 by {
        if k > 31 { Pow2Monotone(32, k); assert Pow2(32) == WORD32 by { Pow2Words(); } }
      }
      OffsetInSlots(h, k);
      SlotIsRemainder(h, cap);
      s := cap + HashOffset(h, sizemask);
    }

    // The loop shared by look-up and removal: follow `next` from `head` until a bucket
    // matches.  `place` is the link that led to it.
    method Walk(head: int, slot: nat, h: nat, key: Bytes, ghost chain: seq<nat>) returns (r: int, place: Place,
          ghost p: nat)
      requires Threads(arrData[..], head, chain)
      ensures r >= 0 ==>
              && p < |chain| && r == chain[p] < arrData.Length
              && Matches(arrData[r], h, key) && place == PlaceOf(chain, slot, p)
      ensures r < 0 ==> r == -1 && forall i :: 0 <= i < |chain| && chain[i] < arrData.Length ==>
              !Matches(arrData[chain[i]], h, key)
    {
      hide Threads;
      place, p := InTable(slot), 0;
      ThreadsHead(arrData[..], head, chain);
      if head == -1 {
        return -1, place, p;
      }
      var pb := head;
      while true
        invariant 0 <= p < |chain| && pb == chain[p] && pb < arrData.Length
        invariant place == PlaceOf(chain, slot, p)
        invariant forall i :: 0 <= i < p && chain[i] < arrData.Length ==> !Matches(arrData[chain[i]], h, key)
        decreases |chain| - p
      {
        var b := arrData[pb];
        if Matches(b, h, key) {
          return pb, place, p;
        }
        ThreadsNext(arrData[..], head, chain, p);
        if b.next == -1 {
          break;
        }
        place := InBucket(pb);
        pb := b.next;
        p := p + 1;
      }
      return -1, place, p;
    }

    // The opening of look-up and removal: hash the key, pick the slot, follow its chain.
    method Locate(key: Bytes) returns (pb: int, place: Place, ghost s: nat, ghost p: nat)
      requires Valid()
      ensures pb < 0 ==> pb == -1 && key !in Entries() && Entries() - {key} == Entries()
      ensures pb >= 0 ==> Unlinkable(View(), s, p) && pb == chains[s][p] && place == PlaceOf(chains[s], s, p)
      ensures pb >= 0 ==> pb < arrData.Length && arrData[pb].key == Key(key) && key in at && at[key] == pb
      ensures pb >= 0 ==> key in Entries() && Entries()[key] == arrData[pb].val
    {
      hide Inv, Threads, Contents, Unlinkable, Hash, SlotOf, PlaceOf, IsPow2, Held, Balanced;
      var h := HashFunc(key);
      var slot := SlotIndex(h);
      s := slot;
      ghost var t := View();
      SlotThreads(Hash, t, s);
      pb, place, p := Walk(slots[slot], slot, h, key, chains[s]);
      if pb < 0 {
        LookupMiss(Hash, t, key);
      } else {
        LookupHit(Hash, t, key, pb);
        ChainPosition(Hash, t, s, p);
      }
    }

    // ef_hashtable_find_key: the index of the bucket, or -1.
    method FindKey(key: Bytes) returns (r: int)
      requires Valid()
      ensures key in Entries() <==> r >= 0
      ensures r >= 0 ==> r < arrData.Length && arrData[r].key == Key(key) && arrData[r].val == Entries()[key]
    {
      var place;
      ghost var s, p;
      r, place, s, p := Locate(key);
    }

    // val_dtor on a non-null value, when there is a destructor.
    method Destroy(val: Value<V>)
      modifies this`destroyed
      ensures multiset(destroyed) == multiset(old(destroyed)) + (if hasDtor then OwnedValue(val) else multiset{})
      ensures !hasDtor ==> destroyed == old(destroyed)
    {
      if hasDtor && val.Ptr? {
        destroyed := destroyed + [val.obj];
      }
    }

    // ef_hashtable_free_bucket
    method FreeBucket(pb: nat)
      requires pb < arrData.Length && arrData.Length == slots.Length
      requires Live(arrData[pb]) ==> used > 0
      modifies this`used, this`removed, this`destroyed, arrData
      ensures !Live(old(arrData[pb])) ==>
                arrData[..] == old(arrData[..]) && used == old(used) && removed == old(removed) &&
                    destroyed == old(destroyed)
      ensures Live(old(arrData[pb])) ==>
                && used == old(used) - 1 && removed == pb
                && arrData[..] == old(arrData[..])[pb := Bucket(0, NoKey, arrData[pb].val, old(removed))]
      ensures multiset(destroyed) == multiset(old(destroyed)) + (if hasDtor then Owned(old(arrData[pb]))
              else multiset{})
      ensures !hasDtor ==> destroyed == old(destroyed)
    {
      var b := arrData[pb];
      if b.h == 0 && b.key.NoKey? {
        return;
      }
      var val := b.val;
      if val.Ptr? && hasDtor {
        Destroy(val);
        val := Null;
      }
      arrData[pb] := Bucket(0, NoKey, val, removed);
      removed := pb;
      used := used - 1;
    }

    // *pidx = link
    method Store(place: Place, link: int)
      requires place.InTable? ==> place.slot < slots.Length
      requires place.InBucket? ==> place.index < arrData.Length
      requires |chains| == slots.Length == arrData.Length
      modifies slots, arrData
      ensures View() == Redirected(old(View()), place, link)
    {
      match place
      case InTable(s) => slots[s] := link;
      case InBucket(q) => arrData[q] := arrData[q].(next := link);
    }

    // The removal proper, once the bucket and the link to it are known.
    method Drop(pb: nat, place: Place, ghost s: nat, ghost p: nat)
      requires Unlinkable(View(), s, p) && pb == chains[s][p] && place == PlaceOf(chains[s], s, p)
      modifies this, slots, arrData
      ensures slots == old(slots) && arrData == old(arrData) && pb < arrData.Length
      ensures View() == Dropped(old(View()), s, p, arrData[pb].val)
      ensures cap == old(cap) && sizemask == old(sizemask) && accepted == old(accepted)
      ensures multiset(destroyed) == multiset(old(destroyed)) + (if hasDtor then Owned(old(arrData[pb]))
              else multiset{})
      ensures !hasDtor ==> destroyed == old(destroyed)
    {
      ghost var t := View();
      Store(place, arrData[pb].next);
      FreeBucket(pb);
      ghost var u := Dropped(t, s, p, arrData[pb].val);
      chains, at, free := u.chains, u.at, u.free;
      assert View().bks == u.bks;
    }

    // ef_hashtable_remove_key
    method RemoveKey(key: Bytes)
      requires Valid()
      modifies this, slots, arrData
      ensures Valid() && slots == old(slots) && arrData == old(arrData) && accepted == old(accepted)
      ensures Entries() == old(Entries()) - {key}
      ensures multiset(destroyed) == multiset(old(destroyed)) +
              (if hasDtor && key in old(Entries()) then OwnedValue(old(Entries())[key]) else multiset{})
    {
      hide Hash, Inv, Dropped, Unlinkable, Contents, Held, Owned, OwnedValue, IsPow2;
      var pb, place;
      ghost var s, p;
      pb, place, s, p := Locate(key);
      if pb < 0 {
        return;
      }
      ghost var t := View();
      OwnedLive(Hash, t, pb);
      ghost var val := arrData[pb].val;
      assert t.bks[pb].val == val && val == Entries()[key];
      Drop(pb, place, s, p);
      DropAll(Hash, t, s, p, arrData[pb].val);
      SameSizes(Hash, View());
    }

    ghost predicate Blank()
      reads this, slots, arrData
    {
      Empty(Shape(0, 0, -1, slots[..], arrData[..], seq(cap, _ => []), [], map[]))
    }

    // alloc_hash_data, and the fields that follow from the capacity.
    method NewData(c: nat)
      requires 0 < c <= MAX_CAP
      modifies this`slots, this`arrData, this`cap, this`sizemask
      ensures fresh(slots) && fresh(arrData) && cap == c == slots.Length == arrData.Length && sizemask == SizeMask(c)
      ensures Blank()
    {
      arrData := new Bucket<V>[c](_ => Bucket(0, NoKey, Null, 0));
      slots := new int[c](_ => -1);
      cap, sizemask := c, WORD32 - c;
    }

    // The copying loop of ef_hashtable_resize, into the fresh arrays already installed.
    method Rehash(oldbks: array<Bucket<V>>, oldcap: nat, ghost t: Shape<V>) returns (ghost n: Shape<V>)
      requires Inv(Hash, t, NONE) && oldbks[..] == t.bks && oldbks.Length == oldcap && oldbks != arrData
      requires 0 < cap <= MAX_CAP && IsPow2(cap) && sizemask == SizeMask(cap) && cap == arrData.Length == slots.Length
      requires t.used <= cap
      requires Blank()
      modifies slots, arrData
      ensures n.slots == slots[..] && n.bks == arrData[..] && n.removed == -1
      ensures Inv(Hash, n, NONE) && Rehashed(t, n, |t.bks|)
    {
      hide Hash, Inv, Rehashed, Moved, IsPow2, SlotOf, NeverZero;
      n := Shape(0, 0, -1, slots[..], arrData[..], seq(cap, _ => []), [], map[]);
      EmptyInv(Hash, n);
      RehashStart(t, n);
      HashNeverZero();
      hide Empty;
      var newptr := 0;
      for idx := 0 to oldcap
        invariant oldbks[..] == t.bks
        invariant n.slots == slots[..] && n.bks == arrData[..] && n.used == newptr && n.removed == -1
        invariant Inv(Hash, n, NONE) && Rehashed(t, n, idx)
      {
        var pb := oldbks[idx];
        assert pb == t.bks[idx];
        if pb.h == 0 && pb.key.NoKey? {
          SkipRehashed(Hash, t, n, idx);
          continue;
        }
        MoveStep(Hash, t, n, idx);
        var s := SlotIndex(pb.h);
        arrData[newptr] := Bucket(pb.h, pb.key, pb.val, slots[s]);
        slots[s] := newptr;
        n := Moved(n, pb);
        newptr := newptr + 1;
      }
    }

    // ef_hashtable_resize; `memory` is the outcome of allocating the new data.
    method Resize(requested: nat, memory: bool) returns (ok: bool)
      requires Valid() && requested <= MAX_CAP
      modifies this
      ensures Valid() && Entries() == old(Entries()) && accepted == old(accepted) && destroyed == old(destroyed)
      ensures used == old(used) && Held(arrData[..]) == old(Held(arrData[..]))
      ensures if ok then fresh(slots) && fresh(arrData) && removed == -1 && next == used <= cap && requested <= cap
              else slots == old(slots) && arrData == old(arrData) && View() == old(View()) && cap == old(cap)
      ensures ok ==> if requested <= INIT_CAP then cap == INIT_CAP else LeastPow2(requested, cap)
      ensures ok <==> memory && Suffices(requested, old(used))
    {
      hide Hash, Inv, Contents, Held, LeastPow2, IsPow2, Balanced;
      var c := RecapIsPow2(requested);
      OneRecap(requested, c);
      if c < used || !memory {
        return false;
      }
      Rebuild(c);
      return true;
    }

    // The part of ef_hashtable_resize that has the memory: the data is copied, compacted.
    method Rebuild(c: nat)
      requires Valid() && used <= c && INIT_CAP <= c <= MAX_CAP && IsPow2(c)
      modifies this
      ensures Valid() && Entries() == old(Entries()) && accepted == old(accepted) && destroyed == old(destroyed)
      ensures used == old(used) && Held(arrData[..]) == old(Held(arrData[..]))
      ensures fresh(slots) && fresh(arrData) && removed == -1 && next == used && cap == c
    {
      hide Hash, Inv, Rehashed, Contents, Held, IsPow2, Blank, Empty, Balanced;
      ghost var t := View();
      var oldbks, oldcap := arrData, cap;
      removed, next := -1, used;
      NewData(c);
      ghost var n := Rehash(oldbks, oldcap, t);
      RehashDone(Hash, t, n);
      SameSizes(Hash, n);
      chains, free, at := n.chains, [], n.at;
      assert View() == n;
    }

    // The implicit growth of a full table; at the largest capacity the shift yields zero.
    method Double(memory: bool) returns (ok: bool)
      requires Valid() && used == cap
      modifies this
      ensures Valid() && Entries() == old(Entries()) && accepted == old(accepted) && destroyed == old(destroyed)
      ensures used == old(used) && Held(arrData[..]) == old(Held(arrData[..]))
      ensures ok <==> memory && old(cap) < MAX_CAP
      ensures if ok then fresh(slots) && fresh(arrData) && next < cap == 2 * old(cap)
              else slots == old(slots) && arrData == old(arrData) && cap == old(cap)
    {
      hide Hash, Inv, Contents, Held, LeastPow2, IsPow2, Balanced, Suffices;
      var twice := (cap * 2) % WORD32;
      TwiceSuffices(cap, twice);
      ok := Resize(twice, memory);
      if ok {
        SameRecap(twice, cap, 2 * old(cap));
      }
    }

    // The alloc_bucket loop: a fresh bucket, a removed one, or double and try again.
    method AllocBucket(memory: bool) returns (pb: int, ghost tries: nat)
      requires Valid()
      modifies this
      ensures Ledger() && Entries() == old(Entries()) && accepted == old(accepted) && destroyed == old(destroyed)
      ensures Held(arrData[..]) == old(Held(arrData[..])) && used == old(used)
      ensures pb < 0 <==> old(used) == old(cap) && (!memory || old(cap) == MAX_CAP)
      ensures if pb < 0 then Valid() && pb == -1 else Shaped(pb) && pb < arrData.Length
      ensures (slots == old(slots) && arrData == old(arrData)) || (fresh(slots) && fresh(arrData))
      ensures cap == if old(used) == old(cap) && memory && old(cap) < MAX_CAP then 2 * old(cap) else old(cap)
      ensures tries <= 2
    {
      hide Hash, Inv, Contents, Held, LeastPow2, IsPow2, Balanced;
      tries := 0;
      while true
        invariant Valid() && Entries() == old(Entries()) && accepted == old(accepted) && destroyed == old(destroyed)
        invariant Held(arrData[..]) == old(Held(arrData[..])) && used == old(used)
        invariant (slots == old(slots) && arrData == old(arrData)) || (fresh(slots) && fresh(arrData))
        invariant if tries == 0 then cap == old(cap)
                else tries == 1 && next < cap == 2 * old(cap) && old(used) == old(cap) && memory && old(cap) < MAX_CAP
        decreases 1 - tries
      {
        tries := tries + 1;
        ghost var t := View();
        FullWhenStuck(Hash, t);
        if next < cap {
          pb := next;
          next := next + 1;
          TakeFresh(Hash, t);
          break;
        } else if removed != -1 {
          pb := removed;
          removed := arrData[pb].next;
          free := free[1..];
          TakeRemoved(Hash, t);
          break;
        } else {
          var ok := Double(memory);
          if !ok {
            return -1, tries;
          }
        }
      }
    }

    // The three endings of ef_hashtable_set_key_value: the key was there, ...
    method Overwrite(pb: nat, key: Bytes, val: Value<V>)
      requires Valid() && pb < arrData.Length && arrData[pb].key == Key(key)
      modifies this, arrData
      ensures Valid() && slots == old(slots) && arrData == old(arrData)
      ensures Entries() == old(Entries())[key := val]
      ensures arrData[pb].key == Key(key) && arrData[pb].val == val
      ensures accepted == old(accepted) + OwnedValue(val)
      ensures multiset(destroyed) == multiset(old(destroyed)) + (if hasDtor then OwnedValue(old(arrData[pb]).val)
              else multiset{})
    {
      hide Hash, Inv, Contents, Held, IsPow2, OwnedValue;
      ghost var t := View();
      var b := arrData[pb];
      Destroy(b.val);
      arrData[pb] := b.(val := val);
      RevalueStep(Hash, t, pb, key, val);
      if hasDtor {
        Balance(accepted, multiset(old(destroyed)), Held(t.bks), Held(arrData[..]), OwnedValue(b.val), OwnedValue(val));
      }
      accepted := accepted + OwnedValue(val);
      assert View() == t.(bks := arrData[..]);
    }

    // ... its copy could not be made, so the bucket goes to the removed list, ...
    method Discard(pb: nat)
      requires Shaped(pb) && Ledger() && pb < arrData.Length
      modifies this, arrData
      ensures Valid() && slots == old(slots) && arrData == old(arrData)
      ensures Entries() == old(Entries()) && accepted == old(accepted) && destroyed == old(destroyed)
    {
      hide Hash, Inv, Contents, Held, IsPow2, Balanced;
      ghost var t := View();
      used := used + 1;
      arrData[pb] := arrData[pb].(key := NoKey, next := removed);
      removed := pb;
      free := [pb] + free;
      used := used - 1;
      BlankHole(Hash, t, pb);
      GiveBackStep(Hash, t, pb);
      assert View() == GivenBack(t, pb);
    }

    // ... or the bucket is filled and linked in.
    method Fill(pb: nat, key: Bytes, val: Value<V>)
      requires Shaped(pb) && Ledger() && pb < arrData.Length && key !in Entries()
      modifies this, slots, arrData
      ensures Valid() && slots == old(slots) && arrData == old(arrData)
      ensures Entries() == old(Entries())[key := val] && destroyed == old(destroyed)
      ensures arrData[pb].key == Key(key) && arrData[pb].val == val
      ensures accepted == old(accepted) + OwnedValue(val)
    {
      hide Hash, Inv, Contents, Held, IsPow2, SlotOf;
      ghost var t := View();
      HashNeverZero();
      InstallStep(Hash, t, pb, key, val);
      used := used + 1;
      var h := HashFunc(key);
      var s := SlotIndex(h);
      arrData[pb] := Bucket(h, Key(key), val, slots[s]);
      slots[s] := pb;
      ghost var t' := Installed(t, pb, h, key, val);
      chains, at := t'.chains, t'.at;
      accepted := accepted + OwnedValue(val);
      assert View() == t';
    }

    // ef_hashtable_set_key_value: the index of the key's bucket, or -1.  `memory` and
    // `keyMemory` are the outcomes of allocating new table data and the key's copy.
    method SetKeyValue(key: Bytes, val: Value<V>, memory: bool, keyMemory: bool) returns (pb: int)
      requires Valid() && |key| > 0
      modifies this, slots, arrData
      ensures Valid()
      ensures (slots == old(slots) && arrData == old(arrData)) || (fresh(slots) && fresh(arrData))
      ensures pb < 0 <==>
              key !in old(Entries()) && (!keyMemory || (old(used) == old(cap) && (!memory || old(cap) == MAX_CAP)))
      ensures Entries() == if pb < 0 then old(Entries()) else old(Entries())[key := val]
      ensures pb >= 0 ==> pb < arrData.Length && arrData[pb].key == Key(key) && arrData[pb].val == val
      ensures cap == if key !in old(Entries()) && old(used) == old(cap) && memory && old(cap) < MAX_CAP
                     then 2 * old(cap) else old(cap)
      ensures accepted == old(accepted) + (if pb >= 0 then OwnedValue(val) else multiset{})
      ensures multiset(destroyed) == multiset(old(destroyed)) +
              (if hasDtor && key in old(Entries()) then OwnedValue(old(Entries())[key]) else multiset{})
    {
      hide Hash, Inv, Contents, Held, IsPow2, OwnedValue, Installed, GivenBack, Unlinkable, SlotOf, Balanced;
      var place;
      ghost var s0, p0;
      pb, place, s0, p0 := Locate(key);
      if pb >= 0 {
        Overwrite(pb, key, val);
        return pb;
      }
      ghost var tries;
      pb, tries := AllocBucket(memory);
      if pb < 0 {
        return -1;
      }
      if !keyMemory {
        Discard(pb);
        return -1;
      }
      Fill(pb, key, val);
    }

    // ef_hashtable_free: every bucket is freed in index order, then the memory.
    method Free()
      requires Valid()
      modifies this, arrData
      ensures used == 0 && accepted == old(accepted)
      ensures hasDtor ==> multiset(destroyed) == accepted
    {
      hide Hash, Inv, Contents, Held, IsPow2, Owned;
      LiveCount(Hash, View());
      for idx := 0 to cap
        invariant arrData == old(arrData) && cap == arrData.Length == slots.Length && accepted == old(accepted)
        invariant used == |LiveFrom(arrData[..], idx)|
        invariant forall i :: 0 <= i < idx ==> !Live(arrData[i])
        invariant Ledger()
      {
        ghost var bks := arrData[..];
        LiveFromStep(bks, idx);
        FreeBucket(idx);
        FreedHeld(bks, arrData[..], idx);
        LiveFromFrame(bks, arrData[..], idx + 1);
      }
      LiveFromEnd(arrData[..]);
      HeldBlank(arrData[..]);
    }
  }
}
