/**
  Runs in which the event loop does what it should not, each from its start on.
 */
module RuntimeExamples {
  import opened Pool
  import opened Runtime
  import opened RuntimeRuns

  // ---------- putting runs together ----------

  ghost predicate Reaches(s: State, t: State) {
    exists acts :: Allowed(s, acts) && Run(s, acts) == t
  }

  lemma {:induction false} RunOn(s: State, first: seq<Action>, more: seq<Action>)
    requires Allowed(s, first) && Allowed(Run(s, first), more)
    ensures Allowed(s, first + more) && Run(s, first + more) == Run(Run(s, first), more)
    decreases |first|
  {
    hide Enabled, Step;
    if first == [] {
      assert first + more == more;
    } else {
      RunOn(Step(s, first[0]), first[1..], more);
      assert (first + more)[1..] == first[1..] + more;
    }
  }

  lemma Onward(s: State, t: State, u: State)
    requires Reaches(s, t) && Reaches(t, u)
    ensures Reaches(s, u)
  {
    hide Allowed, Run;
    var first :| Allowed(s, first) && Run(s, first) == t;
    var more :| Allowed(t, more) && Run(t, more) == u;
    RunOn(s, first, more);
  }

  lemma OneStep(s: State, a: Action)
    requires Enabled(s, a)
    ensures Reaches(s, Step(s, a))
  {
    hide Enabled, Step;
    var acts := [a];
    assert acts[1..] == [];
    assert Allowed(Step(s, a), []) && Run(Step(s, a), []) == Step(s, a);
    assert Allowed(s, acts) && Run(s, acts) == Step(s, a);
  }

  lemma Then(s: State, t: State, a: Action)
    requires Reaches(s, t) && Enabled(t, a)
    ensures Reaches(s, Step(t, a))
  {
    hide Reaches, Enabled, Step;
    OneStep(t, a);
    Onward(s, t, Step(t, a));
  }

  // ---------- rounds of the loop with one listener ----------

  const LISTENER: int := 1
  const LFD: int := 3

  // A listener waits with an empty queue.
  ghost predicate Idling(s: State) {
    && s.phase == AtWait && s.listen == [LISTENER] && LISTENER in s.queue && s.queue[LISTENER] == []
    && LFD in s.registry && s.registry[LFD] == Listen(LISTENER)
  }

  ghost predicate NodeFor(s: State, node: int) {
    if s.freeNodes != [] then node == s.freeNodes[0] else node !in s.place
  }

  // One connection has come in and waits to be started.
  ghost function OneQueued(s: State, fd: int, node: int): State {
    s.(freeNodes := if s.freeNodes != [] then s.freeNodes[1..] else [],
       nodeFd := s.nodeFd[node := fd], place := s.place[node := InQueue(LISTENER)], home := s.home[fd := Queued(node)],
       queue := s.queue[LISTENER := [node]], accepted := s.accepted[LISTENER := Hist(s.accepted, LISTENER) + [fd]],
       phase := Queueing([LISTENER]))
  }

  lemma StartsAccepting(s: State)
    requires Idling(s)
    ensures Reaches(s, s.(phase := Accepting(LISTENER, [])))
  {
    hide Reaches;
    var e := Event(LFD, Listen(LISTENER), Mask(true, false, false, false));
    OneStep(s, WaitReturns([e]));
    var s1 := s.(phase := Batch([e]));
    assert [e][1..] == [];
    Then(s, s1, NextEvent);
    assert Step(s1, NextEvent) == s.(phase := Accepting(LISTENER, []));
  }

  lemma EndsAccepting(t: State)
    requires t.phase == Accepting(LISTENER, []) && t.listen == [LISTENER]
    ensures Reaches(t, t.(phase := Queueing([LISTENER])))
  {
    hide Reaches;
    OneStep(t, AcceptFails);
    var t1 := t.(phase := Batch([]));
    assert Step(t, AcceptFails) == t1;
    Then(t, t1, NextEvent);
    assert Step(t1, NextEvent) == t.(phase := Queueing([LISTENER]));
  }

  lemma AcceptsOne(s: State, fd: int, node: int)
    requires Idling(s) && fd !in s.home && fd >= 0 && NodeFor(s, node)
    ensures Reaches(s, OneQueued(s, fd, node))
  {
    hide Reaches;
    StartsAccepting(s);
    var s1 := s.(phase := Accepting(LISTENER, []));
    Then(s, s1, Accept(fd, node));
    assert [] + [node] == [node];
    var s2 := OneQueued(s, fd, node).(phase := Accepting(LISTENER, []));
    assert Step(s1, Accept(fd, node)) == s2;
    EndsAccepting(s2);
    Onward(s, s2, OneQueued(s, fd, node));
  }

  // The pass ends with the queue empty, and the loop waits again.
  lemma EndsRound(s: State, addr: int)
    requires s.phase == Queueing([LISTENER]) && LISTENER in s.queue && s.queue[LISTENER] == []
    requires !s.stopping && s.pool.freeCount <= 0 && Clock(s.clock) && addr !in s.pool.cos
    ensures Reaches(s, s.(phase := AtWait))
  {
    hide Reaches;
    OneStep(s, NextQueued(addr, true));
    var s1 := s.(phase := Queueing([]));
    assert [LISTENER][1..] == [];
    assert Step(s, NextQueued(addr, true)) == s1;
    Then(s, s1, NextQueued(addr, true));
    var s2 := s.(phase := StopCheck(false));
    assert Step(s1, NextQueued(addr, true)) == s2;
    Then(s, s2, Stop(s.clock, s.clock, 0, 0));
    assert Step(s2, Stop(s.clock, s.clock, 0, 0)) == s.(phase := AtWait);
  }

  // The loop with one listener, before its first wait.
  ghost function Fresh(limitMax: int): State {
    State(PoolState([], [], 0, 0, 0, map[], 0, limitMax), Time(0, 0),
      map[LFD := Listen(LISTENER)], map[LFD := Listener(LISTENER)], map[], map[],
      [LISTENER], map[LISTENER := LFD], map[LISTENER := []], map[], map[], [], map[], map[], false, true, AtWait)
  }

  lemma FreshIsInitial(limitMax: int)
    ensures Initial(Fresh(limitMax)) && Idling(Fresh(limitMax))
  {
    assert Distinct([LISTENER]);
  }

  // ---------- leaving with a connection queued ----------

  // No room in the pool, or no memory for a fiber: one connection comes in, the loop is told
  // to stop, and leaves with the connection queued and its listener in the list.
  lemma LeavesOneQueued(limitMax: int, fiberOk: bool)
    requires limitMax < 1 || !fiberOk
    ensures exists s :: Reaches(Fresh(limitMax), s) && Enabled(s, Stop(s.clock, s.clock, 0, 0)) &&
                        var t := Step(s, Stop(s.clock, s.clock, 0, 0)); t.phase == Left(0) && t.listen == [LISTENER]
  {
    hide Reaches;
    var s0 := Fresh(limitMax);
    FreshIsInitial(limitMax);
    OneStep(s0, SetStopping);
    var s1 := s0.(stopping := true);
    AcceptsOne(s1, 5, 100);
    var s2 := OneQueued(s1, 5, 100);
    Onward(s0, s1, s2);
    Then(s0, s2, NextQueued(1000, fiberOk));
    var s3 := s2.(phase := StopCheck(CanCreate(s2.pool, true)));
    assert Step(s2, NextQueued(1000, fiberOk)) == s3;
    StopsQueued(s3);
    assert Reaches(s0, s3);
  }

  lemma StopsQueued(s: State)
    requires s.phase.StopCheck? && s.stopping && s.pool.freeCount == s.pool.fullCount == 0 && s.clock == Time(0, 0)
    requires s.listen == [LISTENER] && LISTENER in s.queue && s.queue[LISTENER] != []
    ensures Enabled(s, Stop(s.clock, s.clock, 0, 0))
    ensures var t := Step(s, Stop(s.clock, s.clock, 0, 0)); t.phase == Left(0) && t.listen == [LISTENER]
  {
    hide Shrunk, OpenFds, Trimmed;
    assert Staying([LISTENER], s.queue) == [LISTENER] by {
      assert [LISTENER][1..] == [];
    }
  }

  // ---------- closing a connection twice ----------

  const CONN: int := 5
  const OTHER: int := 6
  const FIRST: int := 1000
  const SECOND: int := 2000
  const NODE: int := 100

  const INIT: Co := Co(Inited, Time(0, 0), 0)
  const ONE: PoolState := PoolState([FIRST], [], 1, 0, 0, map[FIRST := INIT], 0, 2)
  const TWO: PoolState := PoolState([SECOND, FIRST], [], 2, 0, 0, map[FIRST := INIT, SECOND := INIT], 0, 2)

  // The states of this run once the first connection has come in, all on one queue node.
  ghost function At(pool: PoolState, registry: map<int, Target>, home: map<int, Home>, io: map<int, Io>,
        conn: map<int, int>,
                    place: Place, queue: seq<int>, freeNodes: seq<int>, seen: seq<int>, phase: Phase): State {
    State(pool, Time(0, 0), registry, home, io, conn, [LISTENER], map[LISTENER := LFD], map[LISTENER := queue],
      map[NODE := CONN], map[NODE := place], freeNodes, map[LISTENER := seen], map[LISTENER := seen], false, true,
          phase)
  }

  // A suspended call of the routine just started: its node is free again.
  ghost function Suspended(s: State, co: int, fd: int, node: int): State {
    s.(registry := s.registry[fd := Of(co)], io := s.io[co := Waiting(ReadOrRecv, fd, 0)], queue :=
        s.queue[LISTENER := []],
       freeNodes := [node] + s.freeNodes, place := s.place[node := InFree], phase := Queueing([LISTENER]))
  }

  lemma Suspends(s: State, co: int, fd: int, node: int)
    requires s.phase == Inside(co, ToQueue([LISTENER])) && LISTENER in s.queue && s.queue[LISTENER] == [node]
    requires co in s.io && s.io[co].Running? && fd in s.home && s.home[fd] == Owned(co) && fd !in s.registry
    ensures Enabled(s, Call(ReadOrRecv, fd, true)) && Step(s, Call(ReadOrRecv, fd, true)) == Suspended(s, co, fd, node)
  {
    assert [node][1..] == [];
  }

  // The routine just started.
  ghost function Started(s: State, co: int, fd: int): State {
    s.(pool := Created(s.pool, co), io := s.io[co := Running], conn := s.conn[co := fd], home :=
        s.home[fd := Owned(co)],
       started := s.started[LISTENER := Hist(s.started, LISTENER) + [fd]], phase := Inside(co, ToQueue([LISTENER])))
  }

  lemma Starts(s: State, co: int, fd: int, node: int)
    requires s.phase == Queueing([LISTENER]) && LISTENER in s.queue && s.queue[LISTENER] == [node]
    requires node in s.nodeFd && s.nodeFd[node] == fd && s.pool.freeCount == 0 &&
            s.pool.fullCount < s.pool.limitMax && co !in s.pool.cos
    ensures Enabled(s, NextQueued(co, true)) && Step(s, NextQueued(co, true)) == Started(s, co, fd)
  {
    hide Created;
  }

  // The first routine runs on its connection.
  ghost function FirstRuns(): State {
    At(ONE, map[LFD := Listen(LISTENER)], map[LFD := Listener(LISTENER), CONN := Owned(FIRST)],
      map[FIRST := Running], map[FIRST := CONN], InQueue(LISTENER), [NODE], [], [CONN],
          Inside(FIRST, ToQueue([LISTENER])))
  }

  lemma FirstRunsReached()
    ensures Reaches(Fresh(2), FirstRuns())
  {
    hide Reaches, Enabled, Step;
    var s0 := Fresh(2);
    FreshIsInitial(2);
    AcceptsOne(s0, CONN, NODE);
    var s1 := OneQueued(s0, CONN, NODE);
    Starts(s1, FIRST, CONN, NODE);
    Then(s0, s1, NextQueued(FIRST, true));
    assert [] + [CONN] == [CONN] && [FIRST] + [] == [FIRST];
    assert Started(s1, FIRST, CONN) == FirstRuns();
  }

  // It has closed its connection and opened another descriptor.
  ghost function FirstMoves(): State {
    At(ONE, map[LFD := Listen(LISTENER)], map[LFD := Listener(LISTENER), OTHER := Owned(FIRST)],
      map[FIRST := Running], map[FIRST := CONN], InQueue(LISTENER), [NODE], [], [CONN],
          Inside(FIRST, ToQueue([LISTENER])))
  }

  lemma FirstMovesReached()
    ensures Reaches(FirstRuns(), FirstMoves())
  {
    hide Reaches;
    Moves(FirstRuns(), FIRST, CONN, OTHER);
    FirstMovesMaps();
  }

  lemma FirstMovesMaps()
    ensures map[LFD := Listen(LISTENER)] - {CONN} == map[LFD := Listen(LISTENER)]
    ensures (map[LFD := Listener(LISTENER), CONN := Owned(FIRST)] - {CONN})[OTHER := Owned(FIRST)]
            == map[LFD := Listener(LISTENER), OTHER := Owned(FIRST)]
  {
  }

  lemma Moves(s: State, co: int, fd: int, fd': int)
    requires s.phase.Inside? && s.phase.co == co && co in s.io && s.io[co].Running?
    requires fd in s.home && s.home[fd] == Owned(co) && fd' !in s.home && fd' >= 0
    ensures Reaches(s, s.(home := (s.home - {fd})[fd' := Owned(co)], registry := s.registry - {fd}))
  {
    hide Reaches;
    OneStep(s, Close(fd));
    Then(s, s.(home := s.home - {fd}, registry := s.registry - {fd}), Open(fd'));
  }

  // It waits on the other descriptor.
  ghost function FirstWaits(): State {
    At(ONE, map[LFD := Listen(LISTENER), OTHER := Of(FIRST)], map[LFD := Listener(LISTENER), OTHER := Owned(FIRST)],
      map[FIRST := Waiting(ReadOrRecv, OTHER, 0)], map[FIRST := CONN], InFree, [], [NODE], [CONN], AtWait)
  }

  lemma FirstWaitsMaps()
    ensures map[LFD := Listen(LISTENER)][OTHER := Of(FIRST)] == map[LFD := Listen(LISTENER), OTHER := Of(FIRST)]
    ensures map[FIRST := Running][FIRST := Waiting(ReadOrRecv, OTHER, 0)] == map[FIRST := Waiting(ReadOrRecv, OTHER, 0)]
  {
  }

  lemma FirstWaitsReached()
    ensures Reaches(FirstMoves(), FirstWaits())
  {
    hide Reaches, Enabled, Step;
    var s0 := FirstMoves();
    Suspends(s0, FIRST, OTHER, NODE);
    FirstWaitsMaps();
    BothWaitMaps();
    OneStep(s0, Call(ReadOrRecv, OTHER, true));
    var s1 := FirstWaits().(phase := Queueing([LISTENER]));
    assert [NODE] + [] == [NODE];
    assert Suspended(s0, FIRST, OTHER, NODE) == s1;
    EndsRound(s1, SECOND);
    Onward(s0, s1, FirstWaits());
  }

  // The number has been accepted again, and a second routine runs on it.
  ghost function SecondRuns(): State {
    At(TWO, map[LFD := Listen(LISTENER), OTHER := Of(FIRST)],
      map[LFD := Listener(LISTENER), OTHER := Owned(FIRST), CONN := Owned(SECOND)],
      map[FIRST := Waiting(ReadOrRecv, OTHER, 0), SECOND := Running], map[FIRST := CONN, SECOND := CONN],
      InQueue(LISTENER), [NODE], [], [CONN, CONN], Inside(SECOND, ToQueue([LISTENER])))
  }

  lemma SecondRunsMaps()
    ensures map[LFD := Listener(LISTENER), OTHER := Owned(FIRST)][CONN := Queued(NODE)][CONN := Owned(SECOND)]
            == map[LFD := Listener(LISTENER), OTHER := Owned(FIRST), CONN := Owned(SECOND)]
    ensures map[FIRST := Waiting(ReadOrRecv, OTHER, 0)][SECOND := Running]
            == map[FIRST := Waiting(ReadOrRecv, OTHER, 0), SECOND := Running]
    ensures map[FIRST := CONN][SECOND := CONN] == map[FIRST := CONN, SECOND := CONN]
    ensures map[NODE := CONN][NODE := CONN] == map[NODE := CONN]
    ensures map[NODE := InFree][NODE := InQueue(LISTENER)] == map[NODE := InQueue(LISTENER)]
    ensures map[LISTENER := []][LISTENER := [NODE]] == map[LISTENER := [NODE]]
    ensures map[LISTENER := [CONN]][LISTENER := [CONN] + [CONN]] == map[LISTENER := [CONN, CONN]]
    ensures Created(ONE, SECOND) == TWO
  {
    assert [CONN] + [CONN] == [CONN, CONN] && [SECOND] + [FIRST] == [SECOND, FIRST];
    assert map[FIRST := INIT][SECOND := INIT] == map[FIRST := INIT, SECOND := INIT];
  }

  lemma SecondRunsReached()
    ensures Reaches(FirstWaits(), SecondRuns())
  {
    hide Reaches, Enabled, Step;
    var s0 := FirstWaits();
    AcceptsOne(s0, CONN, NODE);
    var s1 := OneQueued(s0, CONN, NODE);
    Starts(s1, SECOND, CONN, NODE);
    Then(s0, s1, NextQueued(SECOND, true));
    hide Created;
    assert [NODE][1..] == [];
    SecondRunsMaps();
    assert Started(s1, SECOND, CONN) == SecondRuns();
  }

  // Both wait.
  ghost function BothWait(): State {
    At(TWO, map[LFD := Listen(LISTENER), OTHER := Of(FIRST), CONN := Of(SECOND)],
      map[LFD := Listener(LISTENER), OTHER := Owned(FIRST), CONN := Owned(SECOND)],
      map[FIRST := Waiting(ReadOrRecv, OTHER, 0), SECOND := Waiting(ReadOrRecv, CONN, 0)],
          map[FIRST := CONN, SECOND := CONN],
      InFree, [], [NODE], [CONN, CONN], AtWait)
  }

  lemma BothWaitMaps()
    ensures map[LFD := Listen(LISTENER), OTHER := Of(FIRST)][CONN := Of(SECOND)]
            == map[LFD := Listen(LISTENER), OTHER := Of(FIRST), CONN := Of(SECOND)]
    ensures map[FIRST := Waiting(ReadOrRecv, OTHER, 0), SECOND := Running][SECOND := Waiting(ReadOrRecv, CONN, 0)]
            == map[FIRST := Waiting(ReadOrRecv, OTHER, 0), SECOND := Waiting(ReadOrRecv, CONN, 0)]
    ensures map[NODE := InQueue(LISTENER)][NODE := InFree] == map[NODE := InFree]
    ensures map[LISTENER := [NODE]][LISTENER := []] == map[LISTENER := []]
  {
  }

  lemma BothWaitReached()
    ensures Reaches(SecondRuns(), BothWait())
  {
    hide Reaches, Enabled, Step;
    var s0 := SecondRuns();
    Suspends(s0, SECOND, CONN, NODE);
    BothWaitMaps();
    OneStep(s0, Call(ReadOrRecv, CONN, true));
    var s1 := BothWait().(phase := Queueing([LISTENER]));
    assert [NODE] + [] == [NODE];
    assert Suspended(s0, SECOND, CONN, NODE) == s1;
    EndsRound(s1, 3000);
    Onward(s0, s1, BothWait());
  }

  const READABLE: Mask := Mask(true, false, false, false)

  // An event on its descriptor has resumed the first routine.
  ghost function FirstResumed(): State {
    At(TWO, map[LFD := Listen(LISTENER), OTHER := Of(FIRST), CONN := Of(SECOND)],
      map[LFD := Listener(LISTENER), OTHER := Owned(FIRST), CONN := Owned(SECOND)],
      map[FIRST := InCall(ReadOrRecv, OTHER, 0, READABLE), SECOND := Waiting(ReadOrRecv, CONN, 0)],
          map[FIRST := CONN, SECOND := CONN],
      InFree, [], [NODE], [CONN, CONN], Inside(FIRST, ToBatch([])))
  }

  lemma Resumes(s: State, fd: int, co: int)
    requires s.phase == AtWait && fd in s.registry && s.registry[fd] == Of(co) && IsLive(s.pool, co)
    requires co in s.io && s.io[co] == Waiting(ReadOrRecv, fd, 0)
    ensures Reaches(s, s.(io := s.io[co := InCall(ReadOrRecv, fd, 0, READABLE)], phase := Inside(co, ToBatch([]))))
  {
    hide Reaches, IsLive;
    var e := Event(fd, Of(co), READABLE);
    OneStep(s, WaitReturns([e]));
    var s1 := s.(phase := Batch([e]));
    Then(s, s1, NextEvent);
    assert [e][1..] == [];
  }

  lemma FirstResumedReached()
    ensures Reaches(BothWait(), FirstResumed())
  {
    hide Reaches;
    var s := BothWait();
    Resumes(s, OTHER, FIRST);
    assert s.io[FIRST := InCall(ReadOrRecv, OTHER, 0, READABLE)] == FirstResumed().io;
  }

  // Its wrapper has returned.
  ghost function FirstBack(): State {
    At(TWO, map[LFD := Listen(LISTENER), CONN := Of(SECOND)],
      map[LFD := Listener(LISTENER), OTHER := Owned(FIRST), CONN := Owned(SECOND)],
      map[FIRST := Running, SECOND := Waiting(ReadOrRecv, CONN, 0)], map[FIRST := CONN, SECOND := CONN],
      InFree, [], [NODE], [CONN, CONN], Inside(FIRST, ToBatch([])))
  }

  lemma Returns(s: State, fd: int, co: int)
    requires s.phase == Inside(co, ToBatch([])) && co in s.io && s.io[co] == InCall(ReadOrRecv, fd, 0, READABLE)
    ensures Reaches(s, s.(registry := s.registry - {fd}, io := s.io[co := Running]))
  {
    hide Reaches;
    OneStep(s, Finish(Sys(1, false, 0)));
  }

  lemma FirstBackReached()
    ensures Reaches(FirstResumed(), FirstBack())
  {
    hide Reaches;
    var s := FirstResumed();
    Returns(s, OTHER, FIRST);
    FirstBackMaps();
  }

  lemma FirstBackMaps()
    ensures map[LFD := Listen(LISTENER), OTHER := Of(FIRST), CONN := Of(SECOND)] - {OTHER}
            == map[LFD := Listen(LISTENER), CONN := Of(SECOND)]
    ensures map[FIRST := InCall(ReadOrRecv, OTHER, 0, READABLE), SECOND := Waiting(ReadOrRecv, CONN, 0)][FIRST :=
            Running]
            == map[FIRST := Running, SECOND := Waiting(ReadOrRecv, CONN, 0)]
  {
  }

  lemma FirstBackReachable()
    ensures Initial(Fresh(2)) && Reaches(Fresh(2), FirstBack())
  {
    hide Reaches, FirstRuns, FirstMoves, FirstWaits, SecondRuns, BothWait, FirstResumed, FirstBack, Fresh;
    FreshIsInitial(2);
    FirstRunsReached();
    FirstMovesReached();
    FirstWaitsReached();
    SecondRunsReached();
    BothWaitReached();
    FirstResumedReached();
    FirstBackReached();
    var s := Fresh(2);
    Onward(s, FirstRuns(), FirstMoves());
    Onward(s, FirstMoves(), FirstWaits());
    Onward(s, FirstWaits(), SecondRuns());
    Onward(s, SecondRuns(), BothWait());
    Onward(s, BothWait(), FirstResumed());
    Onward(s, FirstResumed(), FirstBack());
  }

  // A run that reaches a routine whose connection number another routine waits on.  Its end
  // closes that number: the other one goes on waiting, and is registered no more.
  lemma SecondCloseHappens()
    ensures Initial(Fresh(2)) && Reaches(Fresh(2), FirstBack()) && Inv(FirstBack())
    ensures var s := FirstBack();
            && s.phase == Inside(FIRST, ToBatch([])) && FIRST in s.io && s.io[FIRST].Running? &&
                !MayClose(s.home, s.conn, FIRST)
            && var t := Step(s, Exit(s.clock));
            && SECOND in t.io && t.io[SECOND] == Waiting(ReadOrRecv, CONN, 0) && IsLive(t.pool, SECOND)
            && CONN in s.registry && CONN !in t.registry
  {
    FirstBackReachable();
    hide Reaches, Inv, Fresh, FirstBack;
    ReachedInv(Fresh(2), FirstBack());
    ExitSteals();
  }

  lemma ReachedInv(s: State, t: State)
    requires Initial(s) && Reaches(s, t)
    ensures Inv(t)
  {
    hide Allowed, Run, Initial, Inv, QueueInv;
    var acts :| Allowed(s, acts) && Run(s, acts) == t;
    Reached(s, acts);
  }

  lemma ExitLeaves(s: State, co: int, back: Back)
    requires s.phase == Inside(co, back) && co in s.pool.cos && co in s.conn
    ensures var t := Step(s, Exit(s.clock));
            t.registry == s.registry - {s.conn[co]} && t.io == s.io - {co} && t.pool == Finished(s.pool, co, s.clock)
  {
    hide GoBack, ReleaseAll, Finished;
    var fd := s.conn[co];
    GoBackFields(s.(registry := s.registry - {fd}, home := ReleaseAll(s.home - {fd}, co), io := s.io - {co},
                    conn := s.conn - {co}, pool := Finished(s.pool, co, s.clock), clock := s.clock), back);
  }

  lemma ExitSteals()
    ensures var s := FirstBack();
            && s.phase == Inside(FIRST, ToBatch([])) && FIRST in s.io && s.io[FIRST].Running? &&
                !MayClose(s.home, s.conn, FIRST)
            && var t := Step(s, Exit(s.clock));
            && SECOND in t.io && t.io[SECOND] == Waiting(ReadOrRecv, CONN, 0) && IsLive(t.pool, SECOND)
            && CONN in s.registry && CONN !in t.registry
  {
    hide Step;
    ExitLeaves(FirstBack(), FIRST, ToBatch([]));
  }
}
