/**
  The shape of the chained hash table: slot heads, collision chains and the list
  of removed buckets, all threaded through the one `next` field of the buckets.
  Every update the table makes is stated here on values, for any hash function
  that never returns zero, with the invariant it keeps.
 */
module HashShape {
  import opened Words
  import opened Sets

  datatype Value<V> = Null | Ptr(obj: V)

  datatype Key = NoKey | Key(bytes: Bytes)

  datatype Bucket<V> = Bucket(h: nat, key: Key, val: Value<V>, next: int)

  type Hasher = Bytes -> nat

  ghost const NONE: int := -1

  ghost predicate NeverZero(hash: Hasher) {
    forall k :: hash(k) != 0
  }

  predicate Live<V>(b: Bucket<V>) {
    b.h != 0 || b.key.Key?
  }

  // ---------- index lists threaded through `next` ----------

  ghost predicate Distinct(s: seq<nat>) {
    forall i, j :: 0 <= i < j < |s| ==> s[i] != s[j]
  }

  // The i-th index of a list, or the end marker.
  ghost function Follow(list: seq<nat>, i: nat): int {
    if i < |list| then list[i] else -1
  }

  ghost predicate LinkAt<V>(bks: seq<Bucket<V>>, list: seq<nat>, i: nat)
    requires i < |list| && list[i] < |bks|
  {
    bks[list[i]].next == Follow(list, i + 1)
  }

  // `head` starts an acyclic list through the buckets `list`.
  ghost predicate Threads<V>(bks: seq<Bucket<V>>, head: int, list: seq<nat>) {
    && head == Follow(list, 0)
    && Distinct(list)
    && (forall i :: 0 <= i < |list| ==> list[i] < |bks|)
    && (forall i :: 0 <= i < |list| ==> LinkAt(bks, list, i))
  }

  lemma ThreadsHead<V>(bks: seq<Bucket<V>>, head: int, list: seq<nat>)
    requires Threads(bks, head, list)
    ensures if list == [] then head == -1 else head == list[0] < |bks|
  {
  }

  lemma ThreadsNext<V>(bks: seq<Bucket<V>>, head: int, list: seq<nat>, p: nat)
    requires Threads(bks, head, list) && p < |list|
    ensures list[p] < |bks|
    ensures if p + 1 == |list| then bks[list[p]].next == -1 else bks[list[p]].next == list[p + 1] < |bks|
  {
    assert LinkAt(bks, list, p);
  }

  // Writes that leave the links of a list's buckets alone leave the list alone.
  lemma ThreadsSame<V>(bks: seq<Bucket<V>>, bks': seq<Bucket<V>>, head: int, list: seq<nat>)
    requires Threads(bks, head, list) && |bks'| == |bks|
    requires forall i :: 0 <= i < |list| && list[i] < |bks| ==> bks'[list[i]].next == bks[list[i]].next
    ensures Threads(bks', head, list)
  {
    forall i | 0 <= i < |list| ensures LinkAt(bks', list, i) {
      assert LinkAt(bks, list, i);
    }
  }

  lemma ThreadsFramed<V>(bks: seq<Bucket<V>>, head: int, list: seq<nat>, c: nat, b: Bucket<V>)
    requires Threads(bks, head, list) && c < |bks| && c !in list
    ensures Threads(bks[c := b], head, list)
  {
    ThreadsSame(bks, bks[c := b], head, list);
  }

  lemma ThreadsPush<V>(bks: seq<Bucket<V>>, head: int, list: seq<nat>, c: nat, b: Bucket<V>)
    requires Threads(bks, head, list) && c < |bks| && c !in list && b.next == head
    ensures Threads(bks[c := b], c, [c] + list)
  {
    var list', bks' := [c] + list, bks[c := b];
    forall i | 0 <= i < |list'| ensures LinkAt(bks', list', i) {
      if i > 0 {
        assert list'[i] == list[i - 1] && LinkAt(bks, list, i - 1);
      }
    }
  }

  lemma ThreadsPop<V>(bks: seq<Bucket<V>>, head: int, list: seq<nat>)
    requires Threads(bks, head, list) && list != []
    ensures list[0] < |bks| && Threads(bks, bks[list[0]].next, list[1..])
  {
    var list' := list[1..];
    assert LinkAt(bks, list, 0);
    forall i | 0 <= i < |list'| ensures LinkAt(bks, list', i) {
      assert list'[i] == list[i + 1] && LinkAt(bks, list, i + 1);
    }
  }

  ghost function Without(list: seq<nat>, p: nat): seq<nat>
    requires p < |list|
  {
    list[..p] + list[p + 1..]
  }

  lemma WithoutFollow(list: seq<nat>, p: nat, i: nat)
    requires p < |list|
    ensures |Without(list, p)| == |list| - 1
    ensures Follow(Without(list, p), i) == Follow(list, if i < p then i else i + 1)
  {
    if i < |list| - 1 {
      assert Without(list, p)[i] == list[if i < p then i else i + 1];
    }
  }

  lemma WithoutDistinct(list: seq<nat>, p: nat)
    requires Distinct(list) && p < |list|
    ensures Distinct(Without(list, p))
  {
    var w := Without(list, p);
    forall i, j | 0 <= i < j < |w| ensures w[i] != w[j] {
      assert w[i] == list[if i < p then i else i + 1] && w[j] == list[if j < p then j else j + 1];
    }
  }

  // Redirecting the predecessor's link drops one element from the middle of a list.
  lemma ThreadsUnlink<V>(bks: seq<Bucket<V>>, head: int, list: seq<nat>, p: nat, q: nat)
    requires Threads(bks, head, list) && 0 < p < |list| && q == list[p - 1] && list[p] < |bks|
    ensures q < |bks| && Threads(bks[q := bks[q].(next := bks[list[p]].next)], head, Without(list, p))
  {
    var list', bks' := Without(list, p), bks[q := bks[q].(next := bks[list[p]].next)];
    WithoutDistinct(list, p);
    WithoutFollow(list, p, 0);
    forall i | 0 <= i < |list'| ensures list'[i] < |bks'| && LinkAt(bks', list', i) {
      var j := if i < p then i else i + 1;
      WithoutFollow(list, p, i);
      WithoutFollow(list, p, i + 1);
      assert LinkAt(bks, list, j) && LinkAt(bks, list, p);
      assert list'[i] == list[j];
    }
  }

  // ---------- the table ----------

  // Each stored hash is the hash of the stored key; dead buckets are blank.
  ghost predicate BucketsOk<V>(hash: Hasher, bks: seq<Bucket<V>>, next: nat, at: map<Bytes, nat>) {
    forall i :: 0 <= i < |bks| ==>
      if Live(bks[i]) then
        i < next && bks[i].key.Key? && bks[i].h == hash(bks[i].key.bytes) &&
        bks[i].key.bytes in at && at[bks[i].key.bytes] == i
      else bks[i].h == 0 && bks[i].key.NoKey?
  }

  ghost predicate KeysOk<V>(bks: seq<Bucket<V>>, next: nat, at: map<Bytes, nat>) {
    forall k :: k in at ==> at[k] < next <= |bks| && bks[at[k]].key == Key(k)
  }

  // The slot selected by a hash: the remainder, by repeated subtraction.
  ghost function SlotOf(h: nat, cap: nat): (s: nat)
    ensures cap > 0 ==> s < cap
    decreases h
  {
    if cap == 0 then 0 else if h < cap then h else SlotOf(h - cap, cap)
  }

  lemma {:induction false} SlotIsRemainder(h: nat, cap: nat)
    requires cap > 0
    ensures SlotOf(h, cap) == h % cap
    decreases h
  {
    if h < cap {
      DivUnique(h, cap, 0, h);
    } else {
      SlotIsRemainder(h - cap, cap);
      var q, r := (h - cap) / cap, (h - cap) % cap;
      assert h - cap == cap * q + r;
      assert cap * (q + 1) == cap * q + cap;
      DivUnique(h, cap, q + 1, r);
    }
  }

  ghost predicate InSlot<V>(bks: seq<Bucket<V>>, next: nat, cap: nat, c: nat, s: nat) {
    c < next && c < |bks| && Live(bks[c]) && SlotOf(bks[c].h, cap) == s
  }

  ghost predicate Members<V>(bks: seq<Bucket<V>>, next: nat, cap: nat, chain: seq<nat>, s: nat) {
    forall i :: 0 <= i < |chain| ==> InSlot(bks, next, cap, chain[i], s)
  }

  // Every slot heads an acyclic chain of live buckets whose hashes select it.
  ghost predicate ChainsOk<V>(bks: seq<Bucket<V>>, next: nat, slots: seq<int>, chains: seq<seq<nat>>) {
    && |slots| == |chains| == |bks|
    && (forall s :: 0 <= s < |slots| ==> Threads(bks, slots[s], chains[s]))
    && (forall s :: 0 <= s < |slots| ==> Members(bks, next, |slots|, chains[s], s))
  }

  // Every live bucket is in the chain of its slot.
  ghost predicate Placed<V>(bks: seq<Bucket<V>>, chains: seq<seq<nat>>) {
    forall i :: 0 <= i < |bks| && Live(bks[i]) ==>
      SlotOf(bks[i].h, |chains|) < |chains| && i in chains[SlotOf(bks[i].h, |chains|)]
  }

  // The removed list threads exactly the dead buckets below `next`, except the
  // one bucket `hole` that an operation has taken out and not yet put anywhere.
  ghost predicate FreeOk<V>(bks: seq<Bucket<V>>, next: nat, removed: int, free: seq<nat>, hole: int) {
    && Threads(bks, removed, free)
    && (forall i :: 0 <= i < |free| ==> free[i] < next && !Live(bks[free[i]]) && free[i] != hole)
    && (forall i :: 0 <= i < next && i < |bks| && !Live(bks[i]) && i != hole ==> i in free)
    && (hole >= 0 ==> hole < next && hole < |bks| && !Live(bks[hole]))
  }

  // `chains`, `free` and `at` are the abstract reading of the links:
  // bucket indices per slot, removed buckets in list order, and where each key lives.
  datatype Shape<V> = Shape(
    used: nat, next: nat, removed: int,
    slots: seq<int>, bks: seq<Bucket<V>>,
    chains: seq<seq<nat>>, free: seq<nat>, at: map<Bytes, nat>)

  ghost predicate Inv<V>(hash: Hasher, t: Shape<V>, hole: int) {
    && 0 < |t.bks| <= MAX_CAP && IsPow2(|t.bks|)
    && ChainsOk(t.bks, t.next, t.slots, t.chains)
    && BucketsOk(hash, t.bks, t.next, t.at)
    && KeysOk(t.bks, t.next, t.at)
    && Placed(t.bks, t.chains)
    && FreeOk(t.bks, t.next, t.removed, t.free, hole)
    && |t.at| == t.used
    && t.used + |t.free| + (if hole >= 0 then 1 else 0) == t.next <= |t.bks|
  }

  ghost function Contents<V>(bks: seq<Bucket<V>>, at: map<Bytes, nat>): map<Bytes, Value<V>> {
    map k | k in at && at[k] < |bks| :: bks[at[k]].val
  }

  // ---------- taking a bucket ----------

  lemma FreshLists<V>(bks: seq<Bucket<V>>, next: nat, slots: seq<int>, chains: seq<seq<nat>>, removed: int,
        free: seq<nat>)
    requires ChainsOk(bks, next, slots, chains) && FreeOk(bks, next, removed, free, NONE) && next < |bks| &&
            !Live(bks[next])
    ensures ChainsOk(bks, next + 1, slots, chains) && FreeOk(bks, next + 1, removed, free, next)
  {
    forall s | 0 <= s < |slots| ensures Members(bks, next + 1, |slots|, chains[s], s) {
      assert Members(bks, next, |slots|, chains[s], s);
    }
  }

  lemma TakeFresh<V>(hash: Hasher, t: Shape<V>)
    requires Inv(hash, t, NONE) && t.next < |t.bks|
    ensures Inv(hash, t.(next := t.next + 1), t.next)
  {
    hide Threads, Members, Placed, FreeOk, ChainsOk;
    FreshLists(t.bks, t.next, t.slots, t.chains, t.removed, t.free);
  }

  lemma TakeRemoved<V>(hash: Hasher, t: Shape<V>)
    requires Inv(hash, t, NONE) && t.free != []
    ensures t.free[0] < |t.bks|
    ensures Inv(hash, t.(removed := t.bks[t.free[0]].next, free := t.free[1..]), t.free[0])
  {
    ThreadsPop(t.bks, t.removed, t.free);
    forall i | 0 <= i < t.next && i < |t.bks| && !Live(t.bks[i]) && i != t.free[0] ensures i in t.free[1..] {
      assert i in t.free;
    }
  }

  // ---------- filling the taken bucket and linking it in front of its chain ----------

  ghost function Installed<V>(t: Shape<V>, c: nat, h: nat, key: Bytes, val: Value<V>): Shape<V>
    requires |t.slots| == |t.chains| == |t.bks| && c < |t.bks|
  {
    var s := SlotOf(h, |t.slots|);
    t.(used := t.used + 1,
       slots := t.slots[s := c],
       bks := t.bks[c := Bucket(h, Key(key), val, t.slots[s])],
       chains := t.chains[s := [c] + t.chains[s]],
       at := t.at[key := c])
  }

  lemma FillChains<V>(bks: seq<Bucket<V>>, next: nat, slots: seq<int>, chains: seq<seq<nat>>, c: nat, b: Bucket<V>)
    requires ChainsOk(bks, next, slots, chains) && c < |bks| && c < next && !Live(bks[c]) && Live(b)
    requires b.next == slots[SlotOf(b.h, |slots|)]
    ensures var s := SlotOf(b.h, |slots|);
            ChainsOk(bks[c := b], next, slots[s := c], chains[s := [c] + chains[s]])
  {
    var s := SlotOf(b.h, |slots|);
    var bks', slots', chains' := bks[c := b], slots[s := c], chains[s := [c] + chains[s]];
    hide Threads, SlotOf;
    forall r | 0 <= r < |slots|
      ensures Threads(bks', slots'[r], chains'[r]) && Members(bks', next, |slots'|, chains'[r], r)
    {
      assert Members(bks, next, |slots|, chains[r], r);
      FillMembers(bks, next, |slots|, chains[r], r, c, b);
      if r == s {
        ThreadsPush(bks, slots[r], chains[r], c, b);
      } else {
        ThreadsFramed(bks, slots[r], chains[r], c, b);
      }
    }
  }

  lemma FillMembers<V>(bks: seq<Bucket<V>>, next: nat, size: nat, chain: seq<nat>, r: nat, c: nat, b: Bucket<V>)
    requires Members(bks, next, size, chain, r) && c < |bks| && c < next && !Live(bks[c]) && Live(b) && size > 0
    ensures c !in chain
    ensures if r == SlotOf(b.h, size) then Members(bks[c := b], next, size, [c] + chain, r)
            else Members(bks[c := b], next, size, chain, r)
  {
    hide SlotOf;
    var all := if r == SlotOf(b.h, size) then [c] + chain else chain;
    forall i | 0 <= i < |all| ensures InSlot(bks[c := b], next, size, all[i], r) {
      if r == SlotOf(b.h, size) {
        if i > 0 {
          assert InSlot(bks, next, size, chain[i - 1], r);
        }
      } else {
        assert InSlot(bks, next, size, chain[i], r);
      }
    }
  }

  lemma FillPlaced<V>(bks: seq<Bucket<V>>, chains: seq<seq<nat>>, c: nat, b: Bucket<V>)
    requires Placed(bks, chains) && c < |bks| && !Live(bks[c]) && |chains| > 0
    ensures var s := SlotOf(b.h, |chains|); Placed(bks[c := b], chains[s := [c] + chains[s]])
  {
    var s := SlotOf(b.h, |chains|);
    var bks', chains' := bks[c := b], chains[s := [c] + chains[s]];
    assert chains'[s][0] == c;
    forall i | 0 <= i < |bks'| && Live(bks'[i]) ensures i in chains'[SlotOf(bks'[i].h, |chains'|)] {
      if i != c {
        assert i in chains[SlotOf(bks[i].h, |chains|)];
        assert forall x :: x in chains[s] ==> x in [c] + chains[s];
      }
    }
  }

  lemma FillKeys<V>(hash: Hasher, bks: seq<Bucket<V>>, next: nat, at: map<Bytes, nat>, c: nat, b: Bucket<V>)
    requires BucketsOk(hash, bks, next, at) && KeysOk(bks, next, at)
    requires c < next <= |bks| && !Live(bks[c]) && b.key.Key? && b.key.bytes !in at && b.h == hash(b.key.bytes)
    ensures BucketsOk(hash, bks[c := b], next, at[b.key.bytes := c])
    ensures KeysOk(bks[c := b], next, at[b.key.bytes := c])
  {
  }

  lemma FillFree<V>(bks: seq<Bucket<V>>, next: nat, removed: int, free: seq<nat>, c: nat, b: Bucket<V>)
    requires FreeOk(bks, next, removed, free, c) && Live(b)
    ensures FreeOk(bks[c := b], next, removed, free, NONE)
  {
    ThreadsFramed(bks, removed, free, c, b);
  }

  lemma InstallKeepsInv<V>(hash: Hasher, t: Shape<V>, c: nat, key: Bytes, val: Value<V>)
    requires Inv(hash, t, c) && key !in t.at && hash(key) != 0
    ensures Inv(hash, Installed(t, c, hash(key), key, val), NONE)
  {
    var s := SlotOf(hash(key), |t.slots|);
    var b := Bucket(hash(key), Key(key), val, t.slots[s]);
    FillChains(t.bks, t.next, t.slots, t.chains, c, b);
    FillPlaced(t.bks, t.chains, c, b);
    FillKeys(hash, t.bks, t.next, t.at, c, b);
    FillFree(t.bks, t.next, t.removed, t.free, c, b);
  }

  lemma FillContents<V>(bks: seq<Bucket<V>>, next: nat, at: map<Bytes, nat>, c: nat, b: Bucket<V>)
    requires KeysOk(bks, next, at) && c < |bks| && !Live(bks[c]) && b.key.Key? && b.key.bytes !in at
    ensures Contents(bks[c := b], at[b.key.bytes := c]) == Contents(bks, at)[b.key.bytes := b.val]
  {
    assert forall k :: k in at ==> at[k] != c;
  }

  // ---------- putting a taken bucket on the removed list ----------

  ghost function GivenBack<V>(t: Shape<V>, c: nat): Shape<V>
    requires c < |t.bks|
  {
    t.(removed := c, bks := t.bks[c := t.bks[c].(next := t.removed)], free := [c] + t.free)
  }

  lemma BlankFramed<V>(bks: seq<Bucket<V>>, next: nat, slots: seq<int>, chains: seq<seq<nat>>, c: nat, b: Bucket<V>)
    requires ChainsOk(bks, next, slots, chains) && c < |bks| && !Live(bks[c]) && !Live(b)
    ensures ChainsOk(bks[c := b], next, slots, chains)
  {
    forall r | 0 <= r < |slots| ensures Threads(bks[c := b], slots[r], chains[r]) &&
        Members(bks[c := b], next, |slots|, chains[r], r) {
      assert Members(bks, next, |slots|, chains[r], r);
      ThreadsFramed(bks, slots[r], chains[r], c, b);
    }
  }

  lemma BlankFree<V>(bks: seq<Bucket<V>>, next: nat, removed: int, free: seq<nat>, c: nat, b: Bucket<V>)
    requires FreeOk(bks, next, removed, free, c) && !Live(b) && b.next == removed
    ensures FreeOk(bks[c := b], next, c, [c] + free, NONE)
  {
    ThreadsPush(bks, removed, free, c, b);
    assert ([c] + free)[0] == c;
    assert forall x :: x in free ==> x in [c] + free;
  }

  lemma BlankKeys<V>(hash: Hasher, bks: seq<Bucket<V>>, next: nat, at: map<Bytes, nat>, chains: seq<seq<nat>>, c: nat,
        b: Bucket<V>)
    requires BucketsOk(hash, bks, next, at) && KeysOk(bks, next, at) && Placed(bks, chains)
    requires c < |bks| && !Live(bks[c]) && b.h == bks[c].h && b.key == bks[c].key
    ensures BucketsOk(hash, bks[c := b], next, at) && KeysOk(bks[c := b], next, at) && Placed(bks[c := b], chains)
  {
  }

  lemma GiveBackKeepsInv<V>(hash: Hasher, t: Shape<V>, c: nat)
    requires Inv(hash, t, c)
    ensures Inv(hash, GivenBack(t, c), NONE)
  {
    var b := t.bks[c].(next := t.removed);
    BlankFramed(t.bks, t.next, t.slots, t.chains, c, b);
    BlankFree(t.bks, t.next, t.removed, t.free, c, b);
    BlankKeys(hash, t.bks, t.next, t.at, t.chains, c, b);
  }

  // ---------- unlinking a live bucket ----------

  // The link that leads to position p of the chain in slot s: the slot itself or
  // the `next` field of the preceding bucket.
  datatype Place = InTable(slot: nat) | InBucket(index: nat)

  ghost function PlaceOf(chain: seq<nat>, s: nat, p: nat): Place
    requires p <= |chain|
  {
    if p == 0 then InTable(s) else InBucket(chain[p - 1])
  }

  ghost function Redirected<V>(t: Shape<V>, place: Place, link: int): Shape<V>
    requires place.InTable? ==> place.slot < |t.slots|
    requires place.InBucket? ==> place.index < |t.bks|
  {
    match place
    case InTable(s) => t.(slots := t.slots[s := link])
    case InBucket(q) => t.(bks := t.bks[q := t.bks[q].(next := link)])
  }

  ghost function Blanked<V>(b: Bucket<V>, val: Value<V>): Bucket<V> {
    Bucket(0, NoKey, val, b.next)
  }

  // The bucket at position p of slot s leaves its chain and its key leaves the table.
  ghost function Unlinked<V>(t: Shape<V>, s: nat, p: nat, val: Value<V>): Shape<V>
    requires |t.slots| == |t.chains| == |t.bks| && s < |t.slots| && p < |t.chains[s]|
    requires t.chains[s][p] < |t.bks| && t.bks[t.chains[s][p]].key.Key? && t.used > 0
    requires p > 0 ==> t.chains[s][p - 1] < |t.bks|
  {
    var c := t.chains[s][p];
    var r := Redirected(t, PlaceOf(t.chains[s], s, p), t.bks[c].next);
    r.(used := t.used - 1,
       bks := r.bks[c := Blanked(r.bks[c], val)],
       chains := t.chains[s := Without(t.chains[s], p)],
       at := t.at - {t.bks[c].key.bytes})
  }

  // Relinking bucket q of the chain in slot s leaves the other chains alone.
  lemma RelinkOthers<V>(bks: seq<Bucket<V>>, next: nat, slots: seq<int>, chains: seq<seq<nat>>, s: nat, q: nat,
        link: int, r: nat)
    requires ChainsOk(bks, next, slots, chains) && s < |slots| && r < |slots| && r != s && q in chains[s] && q < |bks|
    ensures Threads(bks[q := bks[q].(next := link)], slots[r], chains[r])
  {
    assert Members(bks, next, |slots|, chains[r], r);
    assert Members(bks, next, |slots|, chains[s], s);
    assert q !in chains[r] by {
      assert forall i :: 0 <= i < |chains[r]| ==> InSlot(bks, next, |slots|, chains[r][i], r);
      assert InSlot(bks, next, |slots|, q, s);
    }
    ThreadsFramed(bks, slots[r], chains[r], q, bks[q].(next := link));
  }

  lemma WithoutLacks(list: seq<nat>, p: nat)
    requires Distinct(list) && p < |list|
    ensures list[p] !in Without(list, p)
    ensures forall x :: x in list && x != list[p] ==> x in Without(list, p)
    ensures forall x :: x in Without(list, p) ==> x in list
  {
    var w := Without(list, p);
    forall x | x in list && x != list[p] ensures x in w {
      var i :| 0 <= i < |list| && list[i] == x;
      assert w[if i < p then i else i - 1] == x;
    }
  }

  lemma RelinkMembers<V>(bks: seq<Bucket<V>>, next: nat, cap: nat, chain: seq<nat>, x: nat, q: nat, link: int)
    requires q < |bks| && Members(bks, next, cap, chain, x)
    ensures Members(bks[q := bks[q].(next := link)], next, cap, chain, x)
  {
  }

  lemma WithoutMembers<V>(bks: seq<Bucket<V>>, next: nat, cap: nat, chain: seq<nat>, x: nat, p: nat)
    requires p < |chain| && Members(bks, next, cap, chain, x)
    ensures Members(bks, next, cap, Without(chain, p), x)
  {
    assert forall i :: 0 <= i < |Without(chain, p)| ==> Without(chain, p)[i] == chain[if i < p then i else i + 1];
  }

  lemma UnlinkHead<V>(bks: seq<Bucket<V>>, next: nat, slots: seq<int>, chains: seq<seq<nat>>, s: nat)
    requires ChainsOk(bks, next, slots, chains) && s < |slots| && chains[s] != []
    ensures chains[s][0] < |bks|
    ensures ChainsOk(bks, next, slots[s := bks[chains[s][0]].next], chains[s := Without(chains[s], 0)])
  {
    ThreadsPop(bks, slots[s], chains[s]);
    assert Without(chains[s], 0) == chains[s][1..];
    WithoutMembers(bks, next, |slots|, chains[s], s, 0);
  }

  lemma UnlinkInner<V>(bks: seq<Bucket<V>>, next: nat, slots: seq<int>, chains: seq<seq<nat>>, s: nat, p: nat)
    requires ChainsOk(bks, next, slots, chains) && s < |slots| && 0 < p < |chains[s]|
    ensures chains[s][p] < |bks| && chains[s][p - 1] < |bks|
    ensures var q := chains[s][p - 1];
            ChainsOk(bks[q := bks[q].(next := bks[chains[s][p]].next)], next, slots, chains[s := Without(chains[s], p)])
  {
    var chain := chains[s];
    assert Threads(bks, slots[s], chain);
    var q, link := chain[p - 1], bks[chain[p]].next;
    var bks', chains' := bks[q := bks[q].(next := link)], chains[s := Without(chain, p)];
    forall x | 0 <= x < |slots| ensures Threads(bks', slots[x], chains'[x]) &&
        Members(bks', next, |slots|, chains'[x], x) {
      RelinkMembers(bks, next, |slots|, chains[x], x, q, link);
      if x == s {
        ThreadsUnlink(bks, slots[s], chain, p, q);
        WithoutMembers(bks', next, |slots|, chain, s, p);
      } else {
        RelinkOthers(bks, next, slots, chains, s, q, link, x);
      }
    }
  }

  // A bucket that no chain mentions may be blanked.
  lemma BlankUnlinked<V>(bks: seq<Bucket<V>>, next: nat, slots: seq<int>, chains: seq<seq<nat>>, c: nat, b: Bucket<V>)
    requires ChainsOk(bks, next, slots, chains) && c < |bks| && forall x :: 0 <= x < |chains| ==> c !in chains[x]
    ensures ChainsOk(bks[c := b], next, slots, chains)
  {
    forall x | 0 <= x < |slots| ensures Threads(bks[c := b], slots[x], chains[x]) &&
        Members(bks[c := b], next, |slots|, chains[x], x) {
      ThreadsFramed(bks, slots[x], chains[x], c, b);
      assert Members(bks, next, |slots|, chains[x], x);
    }
  }

  // Chains are disjoint, so after the unlinking nothing mentions the bucket.
  lemma UnlinkedNowhere<V>(bks: seq<Bucket<V>>, next: nat, slots: seq<int>, chains: seq<seq<nat>>, s: nat, p: nat,
        x: nat)
    requires ChainsOk(bks, next, slots, chains) && s < |slots| && p < |chains[s]| && x < |chains|
    ensures chains[s][p] !in chains[s := Without(chains[s], p)][x]
  {
    assert Threads(bks, slots[s], chains[s]);
    if x == s {
      WithoutLacks(chains[s], p);
    } else {
      assert Members(bks, next, |slots|, chains[x], x) && Members(bks, next, |slots|, chains[s], s);
      assert InSlot(bks, next, |slots|, chains[s][p], s);
      assert forall i :: 0 <= i < |chains[x]| ==> InSlot(bks, next, |slots|, chains[x][i], x);
    }
  }

  lemma UnlinkChains<V>(t: Shape<V>, s: nat, p: nat, val: Value<V>)
    requires ChainsOk(t.bks, t.next, t.slots, t.chains) && s < |t.slots| && p < |t.chains[s]| && t.used > 0
    requires t.chains[s][p] < |t.bks| && t.bks[t.chains[s][p]].key.Key?
    ensures p > 0 ==> t.chains[s][p - 1] < |t.bks|
    ensures var t' := Unlinked(t, s, p, val); ChainsOk(t'.bks, t'.next, t'.slots, t'.chains)
  {
    var c := t.chains[s][p];
    var chains' := t.chains[s := Without(t.chains[s], p)];
    forall x | 0 <= x < |chains'| ensures c !in chains'[x] {
      UnlinkedNowhere(t.bks, t.next, t.slots, t.chains, s, p, x);
    }
    if p == 0 {
      UnlinkHead(t.bks, t.next, t.slots, t.chains, s);
    } else {
      UnlinkInner(t.bks, t.next, t.slots, t.chains, s, p);
    }
    var r := Redirected(t, PlaceOf(t.chains[s], s, p), t.bks[c].next);
    BlankUnlinked(r.bks, r.next, r.slots, chains', c, Blanked(r.bks[c], val));
  }

  // What unlinking does to the buckets, link fields aside.
  ghost predicate Blanking<V>(bks: seq<Bucket<V>>, bks': seq<Bucket<V>>, c: nat) {
    && |bks'| == |bks| && c < |bks|
    && !Live(bks'[c])
    && forall i :: 0 <= i < |bks| && i != c ==>
         bks'[i].h == bks[i].h && bks'[i].key == bks[i].key && bks'[i].val == bks[i].val
  }

  lemma UnlinkKeys<V>(hash: Hasher, bks: seq<Bucket<V>>, next: nat, at: map<Bytes, nat>, bks': seq<Bucket<V>>, c: nat)
    requires BucketsOk(hash, bks, next, at) && KeysOk(bks, next, at) && Blanking(bks, bks', c) && bks[c].key.Key?
    ensures BucketsOk(hash, bks', next, at - {bks[c].key.bytes}) && KeysOk(bks', next, at - {bks[c].key.bytes})
    ensures Contents(bks', at - {bks[c].key.bytes}) == Contents(bks, at) - {bks[c].key.bytes}
  {
  }

  lemma UnlinkPlaced<V>(bks: seq<Bucket<V>>, chains: seq<seq<nat>>, bks': seq<Bucket<V>>, s: nat, p: nat)
    requires Placed(bks, chains) && s < |chains| && p < |chains[s]| && Distinct(chains[s]) &&
            Blanking(bks, bks', chains[s][p])
    ensures Placed(bks', chains[s := Without(chains[s], p)])
  {
    WithoutLacks(chains[s], p);
  }

  lemma UnlinkFree<V>(bks: seq<Bucket<V>>, next: nat, removed: int, free: seq<nat>, bks': seq<Bucket<V>>, c: nat)
    requires FreeOk(bks, next, removed, free, NONE) && c < next && Blanking(bks, bks', c) && Live(bks[c])
    requires forall i :: 0 <= i < |bks| && !Live(bks[i]) ==> bks'[i].next == bks[i].next
    ensures FreeOk(bks', next, removed, free, c)
  {
    ThreadsSame(bks, bks', removed, free);
  }

  lemma ChainMember<V>(hash: Hasher, t: Shape<V>, s: nat, i: nat)
    requires Inv(hash, t, NONE) && s < |t.slots| && i < |t.chains[s]|
    ensures var c := t.chains[s][i];
            c < t.next && c < |t.bks| && Live(t.bks[c]) && t.bks[c].key.Key? && t.bks[c].key.bytes in t.at && t.used > 0
  {
    assert Members(t.bks, t.next, |t.slots|, t.chains[s], s);
    var c := t.chains[s][i];
    assert InSlot(t.bks, t.next, |t.slots|, c, s);
    assert t.bks[c].key.bytes in t.at;
    assert |t.at| != 0;
  }

  lemma UnlinkBlanks<V>(t: Shape<V>, s: nat, p: nat, val: Value<V>)
    requires |t.slots| == |t.chains| == |t.bks| && s < |t.slots| && p < |t.chains[s]| && t.used > 0
    requires t.chains[s][p] < |t.bks| && t.bks[t.chains[s][p]].key.Key? && Distinct(t.chains[s])
    requires p > 0 ==> t.chains[s][p - 1] < |t.bks| && Live(t.bks[t.chains[s][p - 1]])
    ensures Blanking(t.bks, Unlinked(t, s, p, val).bks, t.chains[s][p])
    ensures forall i :: 0 <= i < |t.bks| && !Live(t.bks[i]) ==> Unlinked(t, s, p, val).bks[i].next == t.bks[i].next
  {
  }

  // A position in a chain of a good table, with all that makes it fit for unlinking.
  ghost predicate Unlinkable<V>(t: Shape<V>, s: nat, p: nat) {
    && |t.slots| == |t.chains| == |t.bks| && s < |t.slots| && p < |t.chains[s]| && Distinct(t.chains[s]) && t.used > 0
    && t.chains[s][p] < t.next && t.chains[s][p] < |t.bks|
    && Live(t.bks[t.chains[s][p]]) && t.bks[t.chains[s][p]].key.Key? && t.bks[t.chains[s][p]].key.bytes in t.at
    && (p > 0 ==> t.chains[s][p - 1] < |t.bks| && Live(t.bks[t.chains[s][p - 1]]))
  }

  lemma ChainPosition<V>(hash: Hasher, t: Shape<V>, s: nat, p: nat)
    requires Inv(hash, t, NONE) && s < |t.slots| && p < |t.chains[s]|
    ensures Unlinkable(t, s, p)
  {
    ChainMember(hash, t, s, p);
    if p > 0 {
      ChainMember(hash, t, s, p - 1);
    }
    assert Threads(t.bks, t.slots[s], t.chains[s]);
  }

  lemma UnlinkLists<V>(t: Shape<V>, s: nat, p: nat, val: Value<V>)
    requires Unlinkable(t, s, p) && ChainsOk(t.bks, t.next, t.slots, t.chains) && Placed(t.bks, t.chains)
    requires FreeOk(t.bks, t.next, t.removed, t.free, NONE)
    ensures var t' := Unlinked(t, s, p, val);
            && ChainsOk(t'.bks, t'.next, t'.slots, t'.chains)
            && Placed(t'.bks, t'.chains)
            && FreeOk(t'.bks, t'.next, t'.removed, t'.free, t.chains[s][p])
  {
    UnlinkBlanks(t, s, p, val);
    var t' := Unlinked(t, s, p, val);
    assert ChainsOk(t'.bks, t'.next, t'.slots, t'.chains) by { UnlinkChains(t, s, p, val); }
    UnlinkPlaced(t.bks, t.chains, t'.bks, s, p);
    UnlinkFree(t.bks, t.next, t.removed, t.free, t'.bks, t.chains[s][p]);
  }

  lemma UnlinkTable<V>(hash: Hasher, t: Shape<V>, s: nat, p: nat, val: Value<V>)
    requires Unlinkable(t, s, p) && BucketsOk(hash, t.bks, t.next, t.at) && KeysOk(t.bks, t.next, t.at) &&
            |t.at| == t.used
    ensures var t' := Unlinked(t, s, p, val); var k := t.bks[t.chains[s][p]].key.bytes;
            && BucketsOk(hash, t'.bks, t'.next, t'.at) && KeysOk(t'.bks, t'.next, t'.at) && |t'.at| == t'.used
            && Contents(t'.bks, t'.at) == Contents(t.bks, t.at) - {k}
  {
    UnlinkBlanks(t, s, p, val);
    var t' := Unlinked(t, s, p, val);
    UnlinkKeys(hash, t.bks, t.next, t.at, t'.bks, t.chains[s][p]);
    assert t'.at.Keys == t.at.Keys - {t.bks[t.chains[s][p]].key.bytes};
  }

  lemma UnlinkKeepsInv<V>(hash: Hasher, t: Shape<V>, s: nat, p: nat, val: Value<V>)
    requires Inv(hash, t, NONE) && Unlinkable(t, s, p)
    ensures Inv(hash, Unlinked(t, s, p, val), t.chains[s][p])
  {
    UnlinkLists(t, s, p, val);
    UnlinkTable(hash, t, s, p, val);
  }

  // The whole removal: unlink, blank, push on the removed list.
  ghost function Dropped<V>(t: Shape<V>, s: nat, p: nat, val: Value<V>): Shape<V>
    requires Unlinkable(t, s, p)
  {
    var c := t.chains[s][p];
    var r := Redirected(t, PlaceOf(t.chains[s], s, p), t.bks[c].next);
    r.(used := t.used - 1,
       removed := c,
       bks := r.bks[c := Bucket(0, NoKey, val, t.removed)],
       chains := t.chains[s := Without(t.chains[s], p)],
       free := [c] + t.free,
       at := t.at - {t.bks[c].key.bytes})
  }

  lemma DropIsGiveBack<V>(t: Shape<V>, s: nat, p: nat, val: Value<V>)
    requires Unlinkable(t, s, p)
    ensures Dropped(t, s, p, val) == GivenBack(Unlinked(t, s, p, val), t.chains[s][p])
  {
  }

  lemma DropKeepsInv<V>(hash: Hasher, t: Shape<V>, s: nat, p: nat, val: Value<V>)
    requires Inv(hash, t, NONE) && Unlinkable(t, s, p)
    ensures Inv(hash, Dropped(t, s, p, val), NONE)
  {
    UnlinkKeepsInv(hash, t, s, p, val);
    DropIsGiveBack(t, s, p, val);
    GiveBackKeepsInv(hash, Unlinked(t, s, p, val), t.chains[s][p]);
  }

  lemma DropContents<V>(hash: Hasher, t: Shape<V>, s: nat, p: nat, val: Value<V>)
    requires BucketsOk(hash, t.bks, t.next, t.at) && KeysOk(t.bks, t.next, t.at) && Unlinkable(t, s, p)
    ensures var t' := Dropped(t, s, p, val);
            Contents(t'.bks, t'.at) == Contents(t.bks, t.at) - {t.bks[t.chains[s][p]].key.bytes}
  {
    var t' := Dropped(t, s, p, val);
    assert Blanking(t.bks, t'.bks, t.chains[s][p]);
    UnlinkKeys(hash, t.bks, t.next, t.at, t'.bks, t.chains[s][p]);
  }

  lemma SlotThreads<V>(hash: Hasher, t: Shape<V>, s: nat)
    requires Inv(hash, t, NONE) && s < |t.slots|
    ensures |t.slots| == |t.chains| == |t.bks| && Threads(t.bks, t.slots[s], t.chains[s])
  {
  }

  // ---------- looking a key up ----------

  predicate Matches<V>(b: Bucket<V>, h: nat, key: Bytes) {
    b.h == h && b.key == Key(key)
  }

  // A key's bucket is in the chain its hash selects, and no other bucket matches it.
  lemma KeyInChain<V>(hash: Hasher, t: Shape<V>, key: Bytes)
    requires Inv(hash, t, NONE) && hash(key) != 0
    ensures key in t.at ==> t.at[key] in t.chains[SlotOf(hash(key), |t.slots|)]
    ensures forall c :: 0 <= c < |t.bks| && Matches(t.bks[c], hash(key), key) ==> key in t.at && t.at[key] == c
  {
    if key in t.at {
      assert Live(t.bks[t.at[key]]);
    }
  }

  lemma ChainSearch<V>(hash: Hasher, t: Shape<V>, key: Bytes)
    requires Inv(hash, t, NONE) && hash(key) != 0
    requires var chain := t.chains[SlotOf(hash(key), |t.slots|)];
             forall i :: 0 <= i < |chain| && chain[i] < |t.bks| ==> !Matches(t.bks[chain[i]], hash(key), key)
    ensures key !in t.at
  {
    KeyInChain(hash, t, key);
  }

  lemma LookupHit<V>(hash: Hasher, t: Shape<V>, key: Bytes, c: nat)
    requires Inv(hash, t, NONE) && hash(key) != 0 && c < |t.bks| && Matches(t.bks[c], hash(key), key)
    ensures key in t.at && t.at[key] == c && key in Contents(t.bks, t.at) && Contents(t.bks, t.at)[key] == t.bks[c].val
  {
    KeyInChain(hash, t, key);
  }

  lemma LookupMiss<V>(hash: Hasher, t: Shape<V>, key: Bytes)
    requires Inv(hash, t, NONE) && hash(key) != 0
    requires var chain := t.chains[SlotOf(hash(key), |t.slots|)];
             forall i :: 0 <= i < |chain| && chain[i] < |t.bks| ==> !Matches(t.bks[chain[i]], hash(key), key)
    ensures key !in t.at && key !in Contents(t.bks, t.at) && Contents(t.bks, t.at) - {key} == Contents(t.bks, t.at)
  {
    ChainSearch(hash, t, key);
  }

  // ---------- overwriting a value ----------

  lemma RevalueThreads<V>(bks: seq<Bucket<V>>, head: int, list: seq<nat>, c: nat, b: Bucket<V>)
    requires Threads(bks, head, list) && c < |bks| && b.next == bks[c].next
    ensures Threads(bks[c := b], head, list)
  {
    ThreadsSame(bks, bks[c := b], head, list);
  }

  lemma RevalueMembers<V>(bks: seq<Bucket<V>>, next: nat, cap: nat, chain: seq<nat>, s: nat, c: nat, b: Bucket<V>)
    requires Members(bks, next, cap, chain, s) && c < |bks| && b.h == bks[c].h && b.key == bks[c].key
    ensures Members(bks[c := b], next, cap, chain, s)
  {
  }

  lemma RevalueLists<V>(bks: seq<Bucket<V>>, next: nat, slots: seq<int>, chains: seq<seq<nat>>, removed: int,
        free: seq<nat>, c: nat, b: Bucket<V>)
    requires ChainsOk(bks, next, slots, chains) && Placed(bks, chains) && FreeOk(bks, next, removed, free, NONE)
    requires c < |bks| && Live(bks[c]) && b == bks[c].(val := b.val)
    ensures ChainsOk(bks[c := b], next, slots, chains) && Placed(bks[c := b], chains) &&
            FreeOk(bks[c := b], next, removed, free, NONE)
  {
    hide Members;
    forall x | 0 <= x < |slots| ensures Threads(bks[c := b], slots[x], chains[x]) &&
        Members(bks[c := b], next, |slots|, chains[x], x) {
      RevalueThreads(bks, slots[x], chains[x], c, b);
      RevalueMembers(bks, next, |slots|, chains[x], x, c, b);
    }
    RevalueThreads(bks, removed, free, c, b);
  }

  lemma RevalueKeepsInv<V>(hash: Hasher, t: Shape<V>, c: nat, val: Value<V>)
    requires Inv(hash, t, NONE) && c < |t.bks| && Live(t.bks[c])
    ensures Inv(hash, t.(bks := t.bks[c := t.bks[c].(val := val)]), NONE)
  {
    hide Threads, Members, Placed, FreeOk, ChainsOk;
    RevalueLists(t.bks, t.next, t.slots, t.chains, t.removed, t.free, c, t.bks[c].(val := val));
  }

  lemma RevalueContents<V>(hash: Hasher, t: Shape<V>, c: nat, key: Bytes, val: Value<V>)
    requires BucketsOk(hash, t.bks, t.next, t.at) && KeysOk(t.bks, t.next, t.at) && c < |t.bks| &&
            t.bks[c].key == Key(key)
    ensures Contents(t.bks[c := t.bks[c].(val := val)], t.at) == Contents(t.bks, t.at)[key := val]
  {
  }

  // ---------- a fresh table ----------

  ghost predicate Empty<V>(t: Shape<V>) {
    && t.used == t.next == 0 && t.removed == -1 && t.free == [] && t.at == map[]
    && |t.slots| == |t.chains| == |t.bks|
    && (forall i :: 0 <= i < |t.slots| ==> t.slots[i] == -1)
    && (forall i :: 0 <= i < |t.chains| ==> t.chains[i] == [])
    && (forall i :: 0 <= i < |t.bks| ==> t.bks[i].h == 0 && t.bks[i].key == NoKey)
  }

  lemma EmptyInv<V>(hash: Hasher, t: Shape<V>)
    requires Empty(t) && 0 < |t.bks| <= MAX_CAP && IsPow2(|t.bks|)
    ensures Inv(hash, t, NONE) && Contents(t.bks, t.at) == map[]
  {
  }

  // ---------- the values a table holds ----------

  ghost function Owned<V>(b: Bucket<V>): multiset<V> {
    if Live(b) && b.val.Ptr? then multiset{b.val.obj} else multiset{}
  }

  ghost function Held<V>(bks: seq<Bucket<V>>): multiset<V> {
    if bks == [] then multiset{} else Held(bks[..|bks| - 1]) + Owned(bks[|bks| - 1])
  }

  lemma AddCommon<V>(a: multiset<V>, b: multiset<V>, c: multiset<V>, d: multiset<V>, e: multiset<V>)
    requires a + b == c + d
    ensures (a + e) + b == (c + e) + d
  {
    assert (a + e) + b == (a + b) + e;
    assert (c + e) + d == (c + d) + e;
  }

  lemma HeldLast<V>(bks: seq<Bucket<V>>, init: seq<Bucket<V>>, last: Bucket<V>)
    requires bks == init + [last]
    ensures Held(bks) == Held(init) + Owned(last)
  {
    assert bks[..|bks| - 1] == init;
  }

  lemma {:induction false} HeldUpdate<V>(bks: seq<Bucket<V>>, c: nat, b: Bucket<V>)
    requires c < |bks|
    ensures Held(bks[c := b]) + Owned(bks[c]) == Held(bks) + Owned(b)
    decreases |bks|
  {
    hide Held, Owned;
    var n := |bks| - 1;
    var init := bks[..n];
    HeldLast(bks, init, bks[n]);
    if c == n {
      HeldLast(bks[c := b], init, b);
      AddCommon(Owned(b), Owned(bks[c]), Owned(bks[c]), Owned(b), Held(init));
    } else {
      HeldLast(bks[c := b], init[c := b], bks[n]);
      HeldUpdate(init, c, b);
      AddCommon(Held(init[c := b]), Owned(bks[c]), Held(init), Owned(b), Owned(bks[n]));
    }
  }

  lemma {:induction false} HeldBlank<V>(bks: seq<Bucket<V>>)
    requires forall i :: 0 <= i < |bks| ==> !Live(bks[i])
    ensures Held(bks) == multiset{}
    decreases |bks|
  {
    if bks != [] {
      HeldBlank(bks[..|bks| - 1]);
    }
  }

  lemma HeldTake<V>(bks: seq<Bucket<V>>, i: nat)
    requires i < |bks|
    ensures Held(bks[..i + 1]) == Held(bks[..i]) + Owned(bks[i])
  {
    assert bks[..i + 1][..i] == bks[..i];
  }

  // Two buckets lists that differ in links only hold the same values.
  lemma {:induction false} HeldSameValues<V>(a: seq<Bucket<V>>, b: seq<Bucket<V>>)
    requires |a| == |b| && forall i :: 0 <= i < |a| ==> Owned(a[i]) == Owned(b[i])
    ensures Held(a) == Held(b)
    decreases |a|
  {
    if a != [] {
      HeldSameValues(a[..|a| - 1], b[..|b| - 1]);
    }
  }

  lemma DropHeld<V>(t: Shape<V>, s: nat, p: nat, val: Value<V>)
    requires Unlinkable(t, s, p)
    ensures Held(Dropped(t, s, p, val).bks) + Owned(t.bks[t.chains[s][p]]) == Held(t.bks)
  {
    var c := t.chains[s][p];
    var r := Redirected(t, PlaceOf(t.chains[s], s, p), t.bks[c].next);
    HeldSameValues(t.bks, r.bks);
    HeldUpdate(r.bks, c, Bucket(0, NoKey, val, t.removed));
  }

  lemma DropAll<V>(hash: Hasher, t: Shape<V>, s: nat, p: nat, val: Value<V>)
    requires Inv(hash, t, NONE) && Unlinkable(t, s, p)
    ensures var t' := Dropped(t, s, p, val); var b := t.bks[t.chains[s][p]];
            && Inv(hash, t', NONE)
            && Contents(t'.bks, t'.at) == Contents(t.bks, t.at) - {b.key.bytes}
            && Held(t'.bks) + Owned(b) == Held(t.bks)
  {
    DropKeepsInv(hash, t, s, p, val);
    DropContents(hash, t, s, p, val);
    DropHeld(t, s, p, val);
  }

  // ---------- compacting into a new table ----------

  // `n` holds exactly the keys that live below bucket `idx` of `t`, with their values.
  ghost predicate Rehashed<V>(t: Shape<V>, n: Shape<V>, idx: nat) {
    && n.free == [] && n.next == n.used && idx <= |t.bks|
    && (forall k :: k in n.at ==>
        && k in t.at && t.at[k] < idx && t.at[k] < |t.bks|
        && n.at[k] < |n.bks| && n.bks[n.at[k]].val == t.bks[t.at[k]].val)
    && (forall k :: k in t.at && t.at[k] < idx ==> k in n.at)
    && Held(n.bks) == Held(t.bks[..idx])
  }

  lemma ProperSubmap(a: map<Bytes, nat>, b: map<Bytes, nat>, k: Bytes)
    requires a.Keys <= b.Keys && k in b && k !in a
    ensures |a| < |b|
  {
    assert a.Keys <= b.Keys - {k};
    SubsetSize(a.Keys, b.Keys - {k});
  }

  ghost function Moved<V>(n: Shape<V>, b: Bucket<V>): Shape<V>
    requires |n.slots| == |n.chains| == |n.bks| && n.next < |n.bks| && b.key.Key?
  {
    Installed(n.(next := n.next + 1), n.next, b.h, b.key.bytes, b.val)
  }

  lemma RoomToMove<V>(hash: Hasher, t: Shape<V>, n: Shape<V>, idx: nat)
    requires Inv(hash, t, NONE) && Inv(hash, n, NONE) && Rehashed(t, n, idx) && idx < |t.bks| && Live(t.bks[idx])
    requires t.used <= |n.bks|
    ensures t.bks[idx].key.Key? && t.bks[idx].h == hash(t.bks[idx].key.bytes) && t.bks[idx].key.bytes !in n.at
    ensures n.next < |n.bks| && n.next < t.used && |n.slots| == |n.chains| == |n.bks| && !Live(n.bks[n.next])
    ensures t.bks[idx].key.bytes in t.at && t.at[t.bks[idx].key.bytes] == idx
    ensures KeysOk(t.bks, t.next, t.at) && KeysOk(n.bks, n.next, n.at)
  {
    hide ChainsOk, Placed, FreeOk, Held;
    var k := t.bks[idx].key.bytes;
    assert t.at[k] == idx;
    ProperSubmap(n.at, t.at, k);
    assert |n.slots| == |n.chains| == |n.bks| by { SameSizes(hash, n); }
  }

  lemma SameSizes<V>(hash: Hasher, n: Shape<V>)
    requires Inv(hash, n, NONE)
    ensures |n.slots| == |n.chains| == |n.bks|
  {
  }

  lemma MoveKeepsInv<V>(hash: Hasher, n: Shape<V>, b: Bucket<V>)
    requires Inv(hash, n, NONE) && n.next < |n.bks| && b.key.Key? && b.h == hash(b.key.bytes) && b.h != 0 &&
            b.key.bytes !in n.at
    requires |n.slots| == |n.chains| == |n.bks|
    ensures Inv(hash, Moved(n, b), NONE)
  {
    hide Inv, Installed;
    TakeFresh(hash, n);
    InstallKeepsInv(hash, n.(next := n.next + 1), n.next, b.key.bytes, b.val);
  }

  lemma MoveRehashed<V>(hash: Hasher, t: Shape<V>, n: Shape<V>, idx: nat)
    requires Rehashed(t, n, idx) && idx < |t.bks| && t.bks[idx].key.Key? && t.bks[idx].key.bytes !in n.at
    requires t.bks[idx].key.bytes in t.at && t.at[t.bks[idx].key.bytes] == idx
    requires KeysOk(t.bks, t.next, t.at) && KeysOk(n.bks, n.next, n.at)
    requires |n.slots| == |n.chains| == |n.bks| && n.next < |n.bks| && !Live(n.bks[n.next])
    ensures Rehashed(t, Moved(n, t.bks[idx]), idx + 1)
  {
    var n' := Moved(n, t.bks[idx]);
    forall k | k in t.at && t.at[k] < idx + 1 ensures k in n'.at {
      if t.at[k] == idx {
        assert t.bks[idx].key == Key(k);
      }
    }
    MoveHeld(t, n, idx);
  }

  lemma MoveHeld<V>(t: Shape<V>, n: Shape<V>, idx: nat)
    requires idx < |t.bks| && t.bks[idx].key.Key? && Held(n.bks) == Held(t.bks[..idx])
    requires |n.slots| == |n.chains| == |n.bks| && n.next < |n.bks| && !Live(n.bks[n.next])
    ensures Held(Moved(n, t.bks[idx]).bks) == Held(t.bks[..idx + 1])
  {
    HeldTake(t.bks, idx);
    var b := Moved(n, t.bks[idx]).bks[n.next];
    HeldUpdate(n.bks, n.next, b);
    assert Owned(b) == Owned(t.bks[idx]);
  }

  lemma SkipRehashed<V>(hash: Hasher, t: Shape<V>, n: Shape<V>, idx: nat)
    requires Inv(hash, t, NONE) && Rehashed(t, n, idx) && idx < |t.bks| && !Live(t.bks[idx])
    ensures Rehashed(t, n, idx + 1)
  {
    hide ChainsOk, Placed, FreeOk, BucketsOk, Held;
    HeldTake(t.bks, idx);
  }

  lemma RehashDone<V>(hash: Hasher, t: Shape<V>, n: Shape<V>)
    requires Inv(hash, t, NONE) && Inv(hash, n, NONE) && Rehashed(t, n, |t.bks|)
    ensures n.used == t.used && n.next == t.used && n.free == []
    ensures Contents(n.bks, n.at) == Contents(t.bks, t.at) && Held(n.bks) == Held(t.bks)
  {
    hide ChainsOk, Placed, FreeOk, Held, BucketsOk;
    assert forall k :: k in t.at ==> t.at[k] < |t.bks|;
    assert n.at.Keys == t.at.Keys;
    assert |n.at| == |n.at.Keys| && |t.at| == |t.at.Keys|;
    assert t.bks[..|t.bks|] == t.bks;
  }

  lemma RehashStart<V>(t: Shape<V>, n: Shape<V>)
    requires Empty(n)
    ensures Rehashed(t, n, 0)
  {
    HeldBlank(n.bks);
  }

  // One turn of the copying loop on a live bucket.
  lemma MoveStep<V>(hash: Hasher, t: Shape<V>, n: Shape<V>, idx: nat)
    requires Inv(hash, t, NONE) && Inv(hash, n, NONE) && Rehashed(t, n, idx) && idx < |t.bks| && Live(t.bks[idx])
    requires t.used <= |n.bks| && NeverZero(hash)
    ensures |n.slots| == |n.chains| == |n.bks| && n.used == n.next < |n.bks| && t.bks[idx].key.Key?
    ensures var b := t.bks[idx]; var n' := Moved(n, b); var s := SlotOf(b.h, |n.slots|);
            && Inv(hash, n', NONE) && Rehashed(t, n', idx + 1)
            && n'.slots == n.slots[s := n.used]
            && n'.bks == n.bks[n.used := Bucket(b.h, b.key, b.val, n.slots[s])]
            && n'.used == n.used + 1 && n'.removed == n.removed
  {
    hide Inv, Held, KeysOk;
    assert n.used == n.next;
    RoomToMove(hash, t, n, idx);
    MoveKeepsInv(hash, n, t.bks[idx]);
    MoveRehashed(hash, t, n, idx);
  }

  // ---------- whole steps of an insertion ----------

  ghost function OwnedValue<V>(val: Value<V>): multiset<V> {
    if val.Ptr? then multiset{val.obj} else multiset{}
  }

  lemma InstallStep<V>(hash: Hasher, t: Shape<V>, c: nat, key: Bytes, val: Value<V>)
    requires Inv(hash, t, c) && key !in Contents(t.bks, t.at) && NeverZero(hash)
    ensures |t.slots| == |t.chains| == |t.bks| && c < |t.bks|
    ensures var t' := Installed(t, c, hash(key), key, val);
            && Inv(hash, t', NONE)
            && Contents(t'.bks, t'.at) == Contents(t.bks, t.at)[key := val]
            && Held(t'.bks) == Held(t.bks) + OwnedValue(val)
  {
    InstallReady(hash, t, c, key);
    InstallKeepsInv(hash, t, c, key, val);
    InstallValues(t, c, hash(key), key, val);
  }

  lemma InstallReady<V>(hash: Hasher, t: Shape<V>, c: nat, key: Bytes)
    requires Inv(hash, t, c) && key !in Contents(t.bks, t.at)
    ensures |t.slots| == |t.chains| == |t.bks| && c < |t.bks| && key !in t.at && KeysOk(t.bks, t.next, t.at) &&
            !Live(t.bks[c])
  {
    hide Placed;
    assert forall k :: k in t.at ==> t.at[k] < |t.bks|;
  }

  lemma InstallValues<V>(t: Shape<V>, c: nat, h: nat, key: Bytes, val: Value<V>)
    requires |t.slots| == |t.chains| == |t.bks| && c < |t.bks| && key !in t.at && KeysOk(t.bks, t.next, t.at) &&
            !Live(t.bks[c])
    ensures var t' := Installed(t, c, h, key, val);
            Contents(t'.bks, t'.at) == Contents(t.bks, t.at)[key := val] &&
                Held(t'.bks) == Held(t.bks) + OwnedValue(val)
  {
    var b := Bucket(h, Key(key), val, t.slots[SlotOf(h, |t.slots|)]);
    FillContents(t.bks, t.next, t.at, c, b);
    HeldUpdate(t.bks, c, b);
    assert Owned(b) == OwnedValue(val);
  }

  lemma GiveBackStep<V>(hash: Hasher, t: Shape<V>, c: nat)
    requires Inv(hash, t, c)
    ensures c < |t.bks|
    ensures var t' := GivenBack(t, c);
            Inv(hash, t', NONE) && Contents(t'.bks, t'.at) == Contents(t.bks, t.at) && Held(t'.bks) == Held(t.bks)
  {
    GiveBackKeepsInv(hash, t, c);
    hide Contents, Held, ChainsOk, BucketsOk, KeysOk, Placed, FreeOk;
    RelinkContents(t.bks, t.at, c, t.removed);
    RelinkHeld(t.bks, c, t.removed);
  }

  lemma RelinkContents<V>(bks: seq<Bucket<V>>, at: map<Bytes, nat>, c: nat, link: int)
    requires c < |bks|
    ensures Contents(bks[c := bks[c].(next := link)], at) == Contents(bks, at)
  {
  }

  lemma RelinkHeld<V>(bks: seq<Bucket<V>>, c: nat, link: int)
    requires c < |bks|
    ensures Held(bks[c := bks[c].(next := link)]) == Held(bks)
  {
    var b := bks[c].(next := link);
    assert Owned(b) == Owned(bks[c]);
    hide *;
    HeldUpdate(bks, c, b);
    CancelSum(Held(bks[c := b]), Held(bks), Owned(bks[c]));
  }

  lemma CancelSum<V>(a: multiset<V>, b: multiset<V>, x: multiset<V>)
    requires a + x == b + x
    ensures a == b
  {
    assert (a + x) - x == a;
    assert (b + x) - x == b;
  }

  lemma RevalueStep<V>(hash: Hasher, t: Shape<V>, c: nat, key: Bytes, val: Value<V>)
    requires Inv(hash, t, NONE) && c < |t.bks| && t.bks[c].key == Key(key)
    ensures var bks' := t.bks[c := t.bks[c].(val := val)];
            && Inv(hash, t.(bks := bks'), NONE)
            && Contents(bks', t.at) == Contents(t.bks, t.at)[key := val]
            && Held(bks') + OwnedValue(t.bks[c].val) == Held(t.bks) + OwnedValue(val)
  {
    RevalueKeepsInv(hash, t, c, val);
    RevalueContents(hash, t, c, key, val);
    HeldUpdate(t.bks, c, t.bks[c].(val := val));
    assert Owned(t.bks[c]) == OwnedValue(t.bks[c].val);
    assert Owned(t.bks[c].(val := val)) == OwnedValue(val);
  }

  // A table with neither a fresh nor a removed bucket is full.
  lemma FullWhenStuck<V>(hash: Hasher, t: Shape<V>)
    requires Inv(hash, t, NONE)
    ensures t.used <= t.next <= |t.bks| && (t.removed == -1 <==> t.free == [])
    ensures t.free != [] ==> t.removed == t.free[0] && t.used < |t.bks| && t.free[0] < |t.bks|
    ensures t.next < |t.bks| ==> t.used < |t.bks|
    ensures t.free == [] ==> t.used == t.next
  {
    hide Placed, ChainsOk, BucketsOk, KeysOk;
    ThreadsHead(t.bks, t.removed, t.free);
  }

  lemma BlankHole<V>(hash: Hasher, t: Shape<V>, c: nat)
    requires Inv(hash, t, c)
    ensures c < |t.bks| && t.bks[c].key == NoKey
  {
    hide ChainsOk, Placed, KeysOk;
  }

  lemma OwnedLive<V>(hash: Hasher, t: Shape<V>, c: nat)
    requires c < |t.bks| && t.bks[c].key.Key?
    ensures Owned(t.bks[c]) == OwnedValue(t.bks[c].val)
  {
  }

  // ---------- freeing everything ----------

  ghost function LiveFrom<V>(bks: seq<Bucket<V>>, idx: nat): set<nat> {
    set i: nat | idx <= i < |bks| && Live(bks[i])
  }

  lemma {:induction false} ImageSize(at: map<Bytes, nat>, keys: set<Bytes>)
    requires keys <= at.Keys && forall k, l :: k in keys && l in keys && at[k] == at[l] ==> k == l
    ensures |set k | k in keys :: at[k]| == |keys|
    decreases |keys|
  {
    if keys == {} {
      assert (set k | k in keys :: at[k]) == {};
    } else {
      var k :| k in keys;
      ImageSize(at, keys - {k});
      assert (set l | l in keys :: at[l]) == (set l | l in keys - {k} :: at[l]) + {at[k]};
    }
  }

  lemma LiveCount<V>(hash: Hasher, t: Shape<V>)
    requires Inv(hash, t, NONE)
    ensures t.used == |LiveFrom(t.bks, 0)|
  {
    hide ChainsOk, Placed, FreeOk;
    ImageSize(t.at, t.at.Keys);
    assert LiveFrom(t.bks, 0) == (set k | k in t.at.Keys :: t.at[k]) by {
      forall i | i in LiveFrom(t.bks, 0) ensures i in (set k | k in t.at.Keys :: t.at[k]) {
        assert t.at[t.bks[i].key.bytes] == i;
      }
    }
  }

  lemma LiveFromStep<V>(bks: seq<Bucket<V>>, idx: nat)
    requires idx < |bks|
    ensures |LiveFrom(bks, idx)| == |LiveFrom(bks, idx + 1)| + (if Live(bks[idx]) then 1 else 0)
  {
    if Live(bks[idx]) {
      assert LiveFrom(bks, idx) == LiveFrom(bks, idx + 1) + {idx};
    } else {
      assert LiveFrom(bks, idx) == LiveFrom(bks, idx + 1);
    }
  }

  lemma LiveFromFrame<V>(a: seq<Bucket<V>>, b: seq<Bucket<V>>, idx: nat)
    requires |a| == |b| && forall i :: idx <= i < |a| ==> a[i] == b[i]
    ensures LiveFrom(a, idx) == LiveFrom(b, idx)
  {
  }

  lemma LiveFromEnd<V>(bks: seq<Bucket<V>>)
    ensures LiveFrom(bks, |bks|) == {}
  {
  }

  lemma FreedHeld<V>(bks: seq<Bucket<V>>, bks': seq<Bucket<V>>, c: nat)
    requires c < |bks| && (bks' == bks || (|bks'| == |bks| && bks' == bks[c := bks'[c]] && !Live(bks'[c])))
    requires bks' == bks ==> !Live(bks[c])
    ensures Held(bks') + Owned(bks[c]) == Held(bks)
  {
    if bks' != bks {
      HeldUpdate(bks, c, bks'[c]);
    }
  }
}
