/**
  coroutine.c: the coroutine pool.  Lists run from head to tail; a coroutine is inserted
  and taken at the head, and the pool shrinks from the tail of its free list.
 */
module Pool {

  datatype Time = Time(sec: int, usec: int)

  datatype Status = Inited | Exited

  datatype Co = Co(status: Status, last: Time, runs: nat)

  datatype PoolState = PoolState(
    full: seq<int>, free: seq<int>, fullCount: int, freeCount: int, runCount: nat,
    cos: map<int, Co>, limitMin: int, limitMax: int)

  // A time of day: microseconds below a million.
  ghost predicate Clock(t: Time) {
    0 <= t.usec < 1000000
  }

  predicate NotAfter(a: Time, b: Time) {
    a.sec < b.sec || (a.sec == b.sec && a.usec <= b.usec)
  }

  ghost predicate Distinct(s: seq<int>) {
    forall i, j :: 0 <= i < j < |s| ==> s[i] != s[j]
  }

  // Counters equal list lengths, and the free list is exactly the exited coroutines.
  ghost predicate Good(p: PoolState) {
    && p.fullCount == |p.full| && p.freeCount == |p.free|
    && Distinct(p.full) && Distinct(p.free)
    && (forall c :: c in p.full <==> c in p.cos)
    && (forall c :: c in p.free <==> c in p.cos && p.cos[c].status == Exited)
    && (p.fullCount <= p.limitMax || p.full == [])
  }

  // ---------- the operations ----------

  ghost predicate CanCreate(p: PoolState, fiberOk: bool) {
    p.freeCount > 0 || (p.fullCount < p.limitMax && fiberOk)
  }

  // The coroutine that creation hands out, given the address a new mapping would get.
  ghost function Handed(p: PoolState, addr: int): int {
    if p.freeCount > 0 && p.free != [] then p.free[0] else addr
  }

  ghost function Created(p: PoolState, addr: int): PoolState {
    if p.freeCount > 0 && p.free != [] then
      var c := p.free[0];
      p.(free := p.free[1..], freeCount := p.freeCount - 1,
         cos := if c in p.cos then p.cos[c := p.cos[c].(status := Inited)] else p.cos)
    else
      p.(full := [addr] + p.full, fullCount := p.fullCount + 1, cos := p.cos[addr := Co(Inited, Time(0, 0), 0)])
  }

  ghost function Finished(p: PoolState, c: int, now: Time): PoolState
    requires c in p.cos
  {
    p.(cos := p.cos[c := Co(Exited, now, p.cos[c].runs + 1)],
       free := [c] + p.free, freeCount := p.freeCount + 1, runCount := p.runCount + 1)
  }

  // C's remainder keeps the sign of the dividend.
  function Rem(a: int, b: int): int
    requires b > 0
  {
    if a >= 0 then a % b else -((-a) % b)
  }

  // The test of the shrink loop, in milliseconds and microseconds as written.
  predicate Idle(last: Time, now: Time, millis: int) {
    || (now.sec - last.sec) * 1000 > millis
    || ((now.sec - last.sec) * 1000 == millis && now.usec - last.usec >= Rem(millis, 1000))
  }

  // How many coroutines one shrink may free.
  function Budget(p: PoolState, maxCount: int): nat {
    if p.freeCount <= 0 || (maxCount > 0 && p.fullCount <= p.limitMin) then 0
    else
      var beyond := p.fullCount - p.limitMin;
      var m := if maxCount > beyond then beyond else maxCount;
      if m < 0 then -m else m
  }

  ghost predicate IdleAt(p: PoolState, i: nat, now: Time, millis: int)
    requires i < |p.free|
  {
    p.free[i] in p.cos && Idle(p.cos[p.free[i]].last, now, millis)
  }

  // The number of idle coroutines at the tail, up to the first that is not idle or the limit.
  ghost function Tail(p: PoolState, n: nat, now: Time, millis: int, limit: nat): nat
    requires n <= |p.free|
    decreases n
  {
    if n == 0 || limit == 0 || !IdleAt(p, n - 1, now, millis) then 0
    else 1 + Tail(p, n - 1, now, millis, limit - 1)
  }

  // Freeing the last n of the free list.
  ghost function Cut(p: PoolState, n: nat): PoolState
    requires n <= |p.free|
  {
    var keep := |p.free| - n;
    var gone := SetOf(p.free[keep..]);
    p.(free := p.free[..keep], freeCount := p.freeCount - n,
       full := Without(p.full, gone), fullCount := p.fullCount - n, cos := p.cos - gone)
  }

  ghost function SetOf(s: seq<int>): set<int> {
    set c | c in s
  }

  function Without(s: seq<int>, gone: set<int>): seq<int>
    decreases |s|
  {
    if s == [] then []
    else if s[0] in gone then Without(s[1..], gone)
    else [s[0]] + Without(s[1..], gone)
  }

  // ---------- every operation keeps the pool good ----------

  lemma CreatedKeepsGood(p: PoolState, addr: int)
    requires Good(p) && (p.freeCount == 0 ==> addr !in p.cos && p.fullCount < p.limitMax)
    ensures Good(Created(p, addr))
    ensures var c := Handed(p, addr); var p' := Created(p, addr);
            && c in p'.cos && p'.cos[c].status == Inited && (c in p.cos ==> p.cos[c].status == Exited)
            && (if p.freeCount > 0 then c in p.cos && p'.full == p.full && p'.cos[c] == p.cos[c].(status := Inited)
                else c == addr && p'.cos[c].runs == 0)
            && p'.runCount == p.runCount
    ensures forall c :: c in p.cos && c != Handed(p, addr) ==>
            c in Created(p, addr).cos && Created(p, addr).cos[c] == p.cos[c]
  {
    var p' := Created(p, addr);
    if p.freeCount > 0 {
      assert p.free[0] in p.free;
      assert forall c :: c in p.free <==> c == p.free[0] || c in p.free[1..];
      assert p.free[0] !in p.free[1..];
    } else {
      assert forall c :: c in p'.full <==> c == addr || c in p.full;
    }
  }

  lemma FinishedKeepsGood(p: PoolState, c: int, now: Time)
    requires Good(p) && c in p.cos && p.cos[c].status == Inited
    ensures Good(Finished(p, c, now))
    ensures var p' := Finished(p, c, now);
            && c in p'.cos && p'.cos[c] == Co(Exited, now, p.cos[c].runs + 1) && p'.runCount == p.runCount + 1
            && (forall x :: x in p.cos && x != c ==> x in p'.cos && p'.cos[x] == p.cos[x])
            && (forall x :: x in p'.cos ==> x in p.cos)
  {
    var p' := Finished(p, c, now);
    assert forall x :: x in p'.free <==> x == c || x in p.free;
  }

  lemma {:induction false} WithoutMembers(s: seq<int>, gone: set<int>)
    requires Distinct(s)
    ensures forall c :: c in Without(s, gone) <==> c in s && c !in gone
    ensures Distinct(Without(s, gone))
    decreases |s|
  {
    if s != [] {
      assert forall i, j :: 0 <= i < j < |s[1..]| ==> s[1..][i] != s[1..][j];
      WithoutMembers(s[1..], gone);
      assert s[0] !in s[1..];
      assert forall c :: c in s <==> c == s[0] || c in s[1..];
    }
  }

  lemma {:induction false} WithoutTwice(s: seq<int>, gone: set<int>, c: int)
    ensures Without(Without(s, gone), {c}) == Without(s, gone + {c})
    decreases |s|
  {
    if s != [] {
      WithoutTwice(s[1..], gone, c);
      if s[0] !in gone {
        assert ([s[0]] + Without(s[1..], gone))[1..] == Without(s[1..], gone);
      }
    }
  }

  lemma {:induction false} WithoutNone(s: seq<int>)
    ensures Without(s, {}) == s
    decreases |s|
  {
    if s != [] {
      WithoutNone(s[1..]);
    }
  }

  lemma {:induction false} WithoutOne(s: seq<int>, c: int)
    requires Distinct(s) && c in s
    ensures |Without(s, {c})| == |s| - 1
    decreases |s|
  {
    var t := s[1..];
    assert forall i, j :: 0 <= i < j < |t| ==> t[i] == s[i + 1] && t[j] == s[j + 1];
    if s[0] == c {
      assert c !in t;
      WithoutAbsent(t, c);
    } else {
      WithoutOne(t, c);
    }
  }

  lemma {:induction false} WithoutAbsent(s: seq<int>, c: int)
    requires c !in s
    ensures Without(s, {c}) == s
    decreases |s|
  {
    if s != [] {
      WithoutAbsent(s[1..], c);
    }
  }

  // Freeing the tail coroutine.
  lemma CutOneKeepsGood(p: PoolState)
    requires Good(p) && p.free != []
    ensures Good(Cut(p, 1))
  {
    var n := |p.free| - 1;
    var c := p.free[n];
    assert p.free[n..] == [c];
    assert c in p.free && c in p.full;
    assert SetOf(p.free[n..]) == {c};
    WithoutMembers(p.full, {c});
    WithoutOne(p.full, c);
    assert forall x :: x in p.free <==> x == c || x in p.free[..n];
    assert c !in p.free[..n];
  }

  lemma CutNone(p: PoolState)
    ensures Cut(p, 0) == p
  {
    assert p.free[..|p.free|] == p.free && p.free[|p.free|..] == [];
    assert SetOf(p.free[|p.free|..]) == {};
    WithoutNone(p.full);
  }

  lemma CutMore(p: PoolState, n: nat)
    requires n < |p.free|
    ensures Cut(p, n).free != [] && Cut(Cut(p, n), 1) == Cut(p, n + 1)
  {
    hide Without;
    var keep := |p.free| - n;
    var c := p.free[keep - 1];
    var gone := SetOf(p.free[keep..]);
    CutSets(p.free, keep);
    WithoutTwice(p.full, gone, c);
    CutTwice(p.cos, gone, c);
    hide SetOf;
  }

  // The last of a list and those after it.
  lemma CutSets(s: seq<int>, keep: nat)
    requires 0 < keep <= |s|
    ensures SetOf(s[keep - 1..]) == SetOf(s[keep..]) + {s[keep - 1]}
    ensures s[..keep][keep - 1..] == [s[keep - 1]] && SetOf([s[keep - 1]]) == {s[keep - 1]}
    ensures s[..keep][..keep - 1] == s[..keep - 1]
  {
    assert s[keep - 1..] == [s[keep - 1]] + s[keep..];
  }

  lemma CutTwice(cos: map<int, Co>, gone: set<int>, c: int)
    ensures cos - gone - {c} == cos - (gone + {c})
  {
  }

  lemma {:induction false} CutKeepsGood(p: PoolState, n: nat)
    requires Good(p) && n <= |p.free|
    ensures Good(Cut(p, n))
    decreases n
  {
    if n == 0 {
      CutNone(p);
    } else {
      CutKeepsGood(p, n - 1);
      CutMore(p, n - 1);
      CutOneKeepsGood(Cut(p, n - 1));
    }
  }

  // ---------- shrinking ----------

  ghost function Shrunk(p: PoolState, millis: int, maxCount: int, now: Time): PoolState {
    Cut(p, Freed(p, millis, maxCount, now))
  }

  ghost function Freed(p: PoolState, millis: int, maxCount: int, now: Time): (n: nat)
    ensures n <= |p.free|
  {
    TailBound(p, |p.free|, now, millis, Budget(p, maxCount));
    Tail(p, |p.free|, now, millis, Budget(p, maxCount))
  }

  lemma {:induction false} TailBound(p: PoolState, n: nat, now: Time, millis: int, limit: nat)
    requires n <= |p.free|
    ensures Tail(p, n, now, millis, limit) <= n && Tail(p, n, now, millis, limit) <= limit
    decreases n
  {
    if n > 0 && limit > 0 {
      TailBound(p, n - 1, now, millis, limit - 1);
    }
  }

  // Only exited coroutines are deleted; every other one is left exactly as it was.
  lemma ShrinkDeletesOnlyExited(p: PoolState, millis: int, maxCount: int, now: Time)
    requires Good(p)
    ensures Good(Shrunk(p, millis, maxCount, now))
    ensures forall c :: c in p.cos && c !in Shrunk(p, millis, maxCount, now).cos ==> p.cos[c].status == Exited
    ensures forall c :: c in Shrunk(p, millis, maxCount, now).cos ==>
            c in p.cos && Shrunk(p, millis, maxCount, now).cos[c] == p.cos[c]
  {
    CutKeepsGood(p, Freed(p, millis, maxCount, now));
  }

  // A positive request never takes the pool below its minimum.
  lemma ShrinkRespectsMinimum(p: PoolState, millis: int, maxCount: int, now: Time)
    requires Good(p) && maxCount > 0
    ensures Shrunk(p, millis, maxCount, now).fullCount >= (if p.fullCount < p.limitMin then p.fullCount else p.limitMin)
  {
    TailBound(p, |p.free|, now, millis, Budget(p, maxCount));
  }

  // ---------- the order of the free list ----------

  // From the head on, coroutines finished earlier and earlier; none after `clock`.
  ghost predicate Ordered(p: PoolState, clock: Time) {
    && (forall i :: 0 <= i < |p.free| ==>
        p.free[i] in p.cos && Clock(p.cos[p.free[i]].last) && NotAfter(p.cos[p.free[i]].last, clock))
    && (forall i, j :: 0 <= i < j < |p.free| && p.free[i] in p.cos && p.free[j] in p.cos ==>
          NotAfter(p.cos[p.free[j]].last, p.cos[p.free[i]].last))
  }

  // Taking the head takes the one that ran last, and keeps the order of the others.
  lemma CreatedKeepsOrder(p: PoolState, addr: int, clock: Time)
    requires Good(p) && Ordered(p, clock) && (p.freeCount == 0 ==> addr !in p.cos)
    ensures Ordered(Created(p, addr), clock)
    ensures p.freeCount > 0 ==>
              var co := Handed(p, addr);
              co in p.free && forall c :: c in p.free ==> NotAfter(p.cos[c].last, p.cos[co].last)
  {
    if p.freeCount > 0 {
      assert p.free[0] !in p.free[1..];
    }
  }

  lemma FinishedKeepsOrder(p: PoolState, c: int, clock: Time, now: Time)
    requires Good(p) && Ordered(p, clock) && c in p.cos && p.cos[c].status == Inited && Clock(now) &&
            NotAfter(clock, now)
    ensures Ordered(Finished(p, c, now), now)
  {
    assert c !in p.free;
  }

  lemma CutKeepsOrder(p: PoolState, n: nat, clock: Time)
    requires Good(p) && Ordered(p, clock) && n <= |p.free|
    ensures Ordered(Cut(p, n), clock)
  {
    var keep := |p.free| - n;
    forall i | 0 <= i < keep ensures p.free[i] !in p.free[keep..] {
      assert forall j :: keep <= j < |p.free| ==> p.free[i] != p.free[j];
    }
  }

  lemma IdleMonotone(a: Time, b: Time, now: Time, millis: int)
    requires Clock(a) && Clock(b) && Clock(now) && NotAfter(b, a) && Idle(a, now, millis)
    ensures Idle(b, now, millis)
  {
  }

  // The early break misses nothing: the coroutines freed are the longest idle ones, as many
  // as the budget allows, and a coroutine kept while budget is left is not idle.
  lemma {:induction false} TailIsLongest(p: PoolState, n: nat, now: Time, millis: int, limit: nat, clock: Time)
    requires Ordered(p, clock) && Clock(now) && n <= |p.free|
    ensures var k := Tail(p, n, now, millis, limit);
            && k <= n
            && (forall i :: n - k <= i < n ==> IdleAt(p, i, now, millis))
            && (k < limit ==> forall i :: 0 <= i < n - k ==> !IdleAt(p, i, now, millis))
    decreases n
  {
    if n > 0 && limit > 0 {
      if IdleAt(p, n - 1, now, millis) {
        TailIsLongest(p, n - 1, now, millis, limit - 1, clock);
      } else {
        forall i | 0 <= i < n ensures !IdleAt(p, i, now, millis) {
          if i < n - 1 && IdleAt(p, i, now, millis) {
            IdleMonotone(p.cos[p.free[i]].last, p.cos[p.free[n - 1]].last, now, millis);
            assert false;
          }
        }
      }
    }
  }

  lemma ShrinkFreesLongestIdle(p: PoolState, millis: int, maxCount: int, now: Time, clock: Time)
    requires Good(p) && Ordered(p, clock) && Clock(now)
    ensures var k := Freed(p, millis, maxCount, now); var keep := |p.free| - k;
            && (forall i :: keep <= i < |p.free| ==> IdleAt(p, i, now, millis))
            && (k < Budget(p, maxCount) ==> forall i :: 0 <= i < keep ==> !IdleAt(p, i, now, millis))
            && Shrunk(p, millis, maxCount, now).free == p.free[..keep]
  {
    TailIsLongest(p, |p.free|, now, millis, Budget(p, maxCount), clock);
  }

  // What a shrink may and must free, told by the list alone: a suffix, of idle coroutines
  // only, of no more than `most`, and of fewer only if nothing idle is kept.
  ghost predicate FreesIdle(p: PoolState, q: PoolState, most: int, millis: int, now: Time) {
    var freed := |p.free| - |q.free|;
    && 0 <= freed <= most && q.free == p.free[..|p.free| - freed]
    && p.fullCount - q.fullCount == freed && p.freeCount - q.freeCount == freed
    && (forall i :: |q.free| <= i < |p.free| ==> IdleAt(p, i, now, millis))
    && (freed < most ==> forall i :: 0 <= i < |q.free| ==> !IdleAt(p, i, now, millis))
  }

  // A positive count: as many as asked for, but none that the minimum needs.
  lemma PositiveCountFrees(p: PoolState, millis: int, maxCount: int, now: Time, clock: Time)
    requires Good(p) && Ordered(p, clock) && Clock(now) && maxCount > 0
    ensures p.fullCount <= p.limitMin ==> Shrunk(p, millis, maxCount, now) == p
    ensures p.fullCount > p.limitMin ==>
              var beyond, there := p.fullCount - p.limitMin, |p.free|;
              var asked := if maxCount < beyond then maxCount else beyond;
              FreesIdle(p, Shrunk(p, millis, maxCount, now), if asked < there then asked else there, millis, now)
  {
    hide Tail, Good, Ordered, Without, SetOf;
    GoodCounts(p);
    BudgetIsMost(p, millis, maxCount, now);
    ShrinkFreesLongestIdle(p, millis, maxCount, now, clock);
    CutNone(p);
  }

  // Any other count: its absolute value, or what is missing to the minimum if that is more.
  lemma OtherCountFrees(p: PoolState, millis: int, maxCount: int, now: Time, clock: Time)
    requires Good(p) && Ordered(p, clock) && Clock(now) && maxCount <= 0
    ensures var missing, there := p.limitMin - p.fullCount, |p.free|;
            var asked := if -maxCount > missing then -maxCount else missing;
            FreesIdle(p, Shrunk(p, millis, maxCount, now), if asked < there then asked else there, millis, now)
  {
    hide Tail, Good, Ordered, Without, SetOf;
    GoodCounts(p);
    BudgetIsMost(p, millis, maxCount, now);
    ShrinkFreesLongestIdle(p, millis, maxCount, now, clock);
    CutNone(p);
  }

  // ---------- what idle means ----------

  function Elapsed(last: Time, now: Time): int {
    (now.sec - last.sec) * 1000000 + (now.usec - last.usec)
  }

  // The idle test agrees with the time elapsed on all clocks exactly for limits of whole
  // seconds.
  lemma IdleIsElapsed(millis: int)
    ensures (forall last, now :: Clock(last) && Clock(now) ==>
            (Idle(last, now, millis) <==> Elapsed(last, now) >= millis * 1000))
            <==> millis % 1000 == 0
  {
    var k := millis / 1000;
    if millis % 1000 == 0 {
      forall last, now | Clock(last) && Clock(now)
        ensures Idle(last, now, millis) <==> Elapsed(last, now) >= millis * 1000
      {
        IdleAtWholeSeconds(last, now, k);
      }
    } else {
      var last, now := Time(0, 999999), Time(k + 1, 0);
      assert Clock(last) && Clock(now);
      assert Idle(last, now, millis) && Elapsed(last, now) < millis * 1000;
    }
  }

  lemma IdleAtWholeSeconds(last: Time, now: Time, k: int)
    requires Clock(last) && Clock(now)
    ensures Idle(last, now, 1000 * k) <==> Elapsed(last, now) >= 1000000 * k
  {
    var d, du := now.sec - last.sec, now.usec - last.usec;
    NoRemainder(k);
    assert Elapsed(last, now) == 1000000 * d + du && -1000000 < du < 1000000;
    assert Idle(last, now, 1000 * k) <==> d > k || (d == k && du >= 0);
  }

  lemma NoRemainder(k: int)
    ensures Rem(1000 * k, 1000) == 0
  {
  }

  // It is never wrong by a second.
  lemma IdleIsNearElapsed(last: Time, now: Time, millis: int)
    requires Clock(last) && Clock(now)
    ensures Idle(last, now, millis) ==> Elapsed(last, now) > millis * 1000 - 1000000
    ensures !Idle(last, now, millis) ==> Elapsed(last, now) < millis * 1000 + 1000000
  {
    var d := now.sec - last.sec;
    assert Elapsed(last, now) == d * 1000000 + (now.usec - last.usec);
  }

  // With a limit of zero everything that finished by now is idle.
  lemma ZeroLimitIsAlwaysIdle(last: Time, now: Time)
    requires NotAfter(last, now)
    ensures Idle(last, now, 0)
  {
  }

  // ---------- emptying the pool ----------

  lemma {:induction false} AllIdleTail(p: PoolState, n: nat, now: Time, millis: int, limit: nat)
    requires n <= |p.free| && limit >= n && forall i :: 0 <= i < n ==> IdleAt(p, i, now, millis)
    ensures Tail(p, n, now, millis, limit) == n
    decreases n
  {
    if n > 0 {
      AllIdleTail(p, n - 1, now, millis, limit - 1);
    }
  }

  // The two calls of the event loop while it stops: every exited coroutine is deleted.
  lemma ShrinkEmptiesFreeList(p: PoolState, maxCount: int, clock: Time, now: Time)
    requires Good(p) && Ordered(p, clock) && NotAfter(clock, now) && maxCount <= -p.freeCount
    ensures Freed(p, 0, maxCount, now) == |p.free| && Shrunk(p, 0, maxCount, now).free == []
    ensures Shrunk(p, 0, maxCount, now).fullCount == p.fullCount - p.freeCount
    ensures p.freeCount == p.fullCount ==>
            Shrunk(p, 0, maxCount, now).full == [] && Shrunk(p, 0, maxCount, now).cos == map[]
  {
    if p.free != [] {
      forall i | 0 <= i < |p.free| ensures IdleAt(p, i, now, 0) {
        ZeroLimitIsAlwaysIdle(p.cos[p.free[i]].last, now);
      }
      AllIdleTail(p, |p.free|, now, 0, Budget(p, maxCount));
    }
    var q := Shrunk(p, 0, maxCount, now);
    CutKeepsGood(p, |p.free|);
    if p.freeCount == p.fullCount {
      assert q.full == [];
      assert forall c :: c in q.cos ==> c in q.full;
    }
  }

  // ---------- the minimum ----------

  function Smaller(a: int, b: int): int {
    if a < b then a else b
  }

  // One call with this count leaves the minimum alone, whatever the idle limit and the clock.
  ghost predicate KeepsMinimum(p: PoolState, maxCount: int) {
    forall millis, now :: Shrunk(p, millis, maxCount, now).fullCount >= Smaller(p.fullCount, p.limitMin)
  }

  // No call frees more than the budget, and some call frees as much of it as there is.
  lemma BudgetIsMost(p: PoolState, millis: int, maxCount: int, now: Time)
    ensures Freed(p, millis, maxCount, now) <= Budget(p, maxCount)
  {
    TailBound(p, |p.free|, now, millis, Budget(p, maxCount));
  }

  lemma {:induction false} IdleTail(p: PoolState, n: nat, now: Time, limit: nat)
    requires n <= |p.free| && forall i :: 0 <= i < n ==> IdleAt(p, i, now, 0)
    ensures Tail(p, n, now, 0, limit) == Smaller(n, limit)
    decreases n
  {
    if n > 0 && limit > 0 {
      IdleTail(p, n - 1, now, limit - 1);
    }
  }

  lemma BudgetIsReached(p: PoolState, maxCount: int, clock: Time)
    requires Good(p) && Ordered(p, clock)
    ensures Freed(p, 0, maxCount, clock) == Smaller(p.freeCount, Budget(p, maxCount))
  {
    forall i | 0 <= i < |p.free| ensures IdleAt(p, i, clock, 0) {
      ZeroLimitIsAlwaysIdle(p.cos[p.free[i]].last, clock);
    }
    IdleTail(p, |p.free|, clock, Budget(p, maxCount));
  }

  // Exactly which counts keep the minimum.
  lemma KeepsMinimumWhen(p: PoolState, maxCount: int, clock: Time)
    requires Good(p) && Ordered(p, clock)
    ensures KeepsMinimum(p, maxCount) <==>
            || p.freeCount == 0
            || maxCount > 0
            || (p.fullCount >= p.limitMin && (-maxCount <= p.fullCount - p.limitMin ||
                p.freeCount <= p.fullCount - p.limitMin))
  {
    hide Tail, Good, Ordered;
    GoodCounts(p);
    BudgetIsReached(p, maxCount, clock);
    var most := Smaller(p.freeCount, Budget(p, maxCount));
    assert KeepsMinimum(p, maxCount) <==> p.fullCount - most >= Smaller(p.fullCount, p.limitMin) by {
      forall millis, now ensures Shrunk(p, millis, maxCount, now).fullCount >= p.fullCount - most {
        BudgetIsMost(p, millis, maxCount, now);
      }
      assert Shrunk(p, 0, maxCount, clock).fullCount == p.fullCount - most;
    }
  }

  // A count of zero frees nothing in a pool that has its minimum.
  lemma ZeroCountFreesNothing(p: PoolState, millis: int, now: Time)
    requires Good(p) && p.fullCount >= p.limitMin
    ensures Freed(p, millis, 0, now) == 0 && Shrunk(p, millis, 0, now) == p
  {
    BudgetIsMost(p, millis, 0, now);
    CutNone(p);
  }

  // A pool of one idle coroutine and a minimum of two: a count of zero deletes it.
  lemma ZeroCountBelowMinimum(p: PoolState, clock: Time)
    requires p == PoolState([7], [7], 1, 1, 1, map[7 := Co(Exited, Time(0, 0), 1)], 2, 4) && clock == Time(9, 0)
    ensures Good(p) && Ordered(p, clock) && Shrunk(p, 0, 0, clock).fullCount == 0
  {
    assert Good(p) && Ordered(p, clock);
    BudgetIsReached(p, 0, clock);
  }

  // ---------- the pool, updated in place ----------

  class CoroutinePool {
    const limitMin: int
    const limitMax: int
    var fullList: seq<int>
    var freeList: seq<int>
    var fullCount: int
    var freeCount: int
    var runCount: nat
    var cos: map<int, Co>

    ghost function View(): PoolState
      reads this
    {
      PoolState(fullList, freeList, fullCount, freeCount, runCount, cos, limitMin, limitMax)
    }

    // ef_coroutine_pool_init
    constructor (limitMin: int, limitMax: int)
      ensures Good(View()) && View() == PoolState([], [], 0, 0, 0, map[], limitMin, limitMax)
    {
      this.limitMin, this.limitMax := limitMin, limitMax;
      fullList, freeList, fullCount, freeCount, runCount, cos := [], [], 0, 0, 0, map[];
    }

    // ef_coroutine_create; `addr` is where a new fiber would be mapped, if `fiberOk`.
    method Create(addr: int, fiberOk: bool) returns (ok: bool, co: int)
      requires Good(View()) && addr !in cos
      modifies this
      ensures Good(View())
      ensures ok <==> CanCreate(old(View()), fiberOk)
      ensures ok <==> old(freeList) != [] || (old(|fullList|) < limitMax && fiberOk)
      ensures if ok then View() == Created(old(View()), addr) && co == Handed(old(View()), addr)
              else View() == old(View())
    {
      hide Good;
      GoodCounts(View());
      ghost var p := View();
      co := addr;
      if freeCount > 0 {
        freeCount := freeCount - 1;
        co := freeList[0];
        freeList := freeList[1..];
        cos := cos[co := cos[co].(status := Inited)];
        CreatedKeepsGood(p, addr);
        return true, co;
      }
      if fullCount >= limitMax {
        return false, co;
      }
      if !fiberOk {
        return false, co;
      }
      cos := cos[co := Co(Inited, Time(0, 0), 0)];
      fullCount := fullCount + 1;
      fullList := [co] + fullList;
      CreatedKeepsGood(p, addr);
      return true, co;
    }

    // ef_coroutine_resume; `exits` says whether control came back because the coroutine
    // exited or because it yielded.  Resuming an exited coroutine changes nothing.
    method Resume(co: int, exits: bool, now: Time)
      requires Good(View()) && co in cos
      modifies this
      ensures Good(View())
      ensures View() == if old(cos[co].status) == Inited && exits then Finished(old(View()), co, now) else old(View())
    {
      if cos[co].status != Inited {
        return;
      }
      ghost var p := View();
      if exits {
        cos := cos[co := Co(Exited, now, cos[co].runs + 1)];
        freeList := [co] + freeList;
        freeCount := freeCount + 1;
        runCount := runCount + 1;
        FinishedKeepsGood(p, co, now);
      }
    }

    // The body of the shrink loop on an idle coroutine, the tail of the free list.
    method DeleteTail(co: int)
      requires Good(View()) && freeList != [] && co == freeList[|freeList| - 1]
      modifies this
      ensures Good(View()) && View() == Cut(old(View()), 1) && freeList == old(freeList)[..|old(freeList)| - 1]
    {
      hide Without, Cut, Good;
      ghost var p := View();
      freeCount := freeCount - 1;
      fullCount := fullCount - 1;
      freeList := freeList[..|freeList| - 1];
      fullList := Without(fullList, {co});
      cos := cos - {co};
      CutIsOne(p, co, View());
      CutKeepsGood(p, 1);
    }

    // ef_coroutine_pool_shrink
    method Shrink(idleMillis: int, maxCount: int, now: Time) returns (freed: nat)
      requires Good(View())
      modifies this
      ensures Good(View()) && View() == Shrunk(old(View()), idleMillis, maxCount, now)
      ensures freed == Freed(old(View()), idleMillis, maxCount, now) == |old(freeList)| - |freeList|
    {
      hide Without, Cut, Good;
      freed := 0;
      ghost var p := View();
      CutNone(p);
      if freeCount <= 0 || (maxCount > 0 && fullCount <= limitMin) {
        return;
      }
      var beyond := fullCount - limitMin;
      var max := if maxCount > beyond then beyond else maxCount;
      if max < 0 {
        max := -max;
      }
      ghost var limit := max;
      GoodCounts(p);
      while freeList != [] && max != 0
        invariant 0 <= freed <= |p.free| && 0 <= max && max + freed == limit
        invariant View() == Cut(p, freed) && Good(View()) && |freeList| == |p.free| - freed
        invariant Tail(p, |p.free|, now, idleMillis, limit) == freed + Tail(p, |p.free| - freed, now, idleMillis, max)
        decreases max
      {
        max := max - 1;
        var co := freeList[|freeList| - 1];
        CutTail(p, freed);
        if !Idle(cos[co].last, now, idleMillis) {
          break;
        }
        DeleteTail(co);
        CutMore(p, freed);
        freed := freed + 1;
      }
    }
  }

  lemma GoodCounts(p: PoolState)
    requires Good(p)
    ensures p.fullCount == |p.full| && p.freeCount == |p.free| && forall c :: c in p.free ==> c in p.cos
  {
  }

  // The tail of what is left was at that place from the start, and is as it was.
  lemma CutTail(p: PoolState, n: nat)
    requires Good(p) && n < |p.free|
    ensures var q := Cut(p, n); var co := p.free[|p.free| - n - 1];
            q.free != [] && q.free[|q.free| - 1] == co && co in p.cos && co in q.cos && q.cos[co] == p.cos[co]
  {
    var keep := |p.free| - n;
    assert p.free[keep - 1] !in p.free[keep..];
  }

  lemma CutIsOne(q: PoolState, co: int, r: PoolState)
    requires q.free != [] && co == q.free[|q.free| - 1]
    requires r == q.(free := q.free[..|q.free| - 1], freeCount := q.freeCount - 1, full := Without(q.full, {co}),
                     fullCount := q.fullCount - 1, cos := q.cos - {co})
    ensures r == Cut(q, 1)
  {
    assert q.free[|q.free| - 1..] == [co] && SetOf([co]) == {co};
  }
}
