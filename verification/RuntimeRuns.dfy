/**
  Runs of the event loop: the connection queues, first in first out, and what holds of
  every state a run reaches.
 */
module RuntimeRuns {
  import opened Pool
  import opened Runtime
  import Sets

  // ---------- the queues ----------

  // Every node is in exactly one list: one connection queue, or the free list.
  ghost predicate PlaceInv(queue: map<int, seq<int>>, place: map<int, Place>, freeNodes: seq<int>, nodeFd: map<int,
        int>) {
    && (forall l :: l in queue ==> Distinct(queue[l]) && forall n :: n in queue[l] ==>
        n in place && place[n] == InQueue(l) && n in nodeFd)
    && Distinct(freeNodes) && (forall n :: n in freeNodes ==> n in place && place[n] == InFree)
    && (forall n :: n in place ==> if place[n].InQueue? then place[n].l in queue && n in queue[place[n].l]
        else n in freeNodes)
  }

  // The listener whose head is being started.
  function Starting(phase: Phase): set<int> {
    if phase.Inside? && phase.back.ToQueue? && phase.back.todo != [] then {phase.back.todo[0]} else {}
  }

  // The connections of a queue that no routine has been started for.
  function Pending(queue: map<int, seq<int>>, starting: set<int>, l: int): seq<int> {
    if l !in queue then []
    else if l in starting && queue[l] != [] then queue[l][1..]
    else queue[l]
  }

  ghost predicate HomeInv(queue: map<int, seq<int>>, starting: set<int>, nodeFd: map<int, int>, home: map<int, Home>) {
    forall l, n :: n in Pending(queue, starting, l) ==> n in nodeFd && nodeFd[n] in home && home[nodeFd[n]] == Queued(n)
  }

  function Hist(h: map<int, seq<int>>, l: int): seq<int> {
    if l in h then h[l] else []
  }

  // First in, first out: what was accepted is what was started, followed by what is queued.
  ghost predicate Flow(accepted: seq<int>, started: seq<int>, pending: seq<int>, nodeFd: map<int, int>) {
    && |accepted| == |started| + |pending|
    && started == accepted[..|started|]
    && forall i :: 0 <= i < |pending| ==> pending[i] in nodeFd && nodeFd[pending[i]] == accepted[|started| + i]
  }

  ghost predicate FlowInv(accepted: map<int, seq<int>>, started: map<int, seq<int>>, queue: map<int, seq<int>>,
        starting: set<int>, nodeFd: map<int, int>) {
    forall l :: Flow(Hist(accepted, l), Hist(started, l), Pending(queue, starting, l), nodeFd)
  }

  // The queues of the listeners before `todo` are empty.
  ghost predicate Passed(listen: seq<int>, queue: map<int, seq<int>>, todo: seq<int>) {
    && |todo| <= |listen| && todo == listen[|listen| - |todo|..]
    && forall i :: 0 <= i < |listen| - |todo| ==> listen[i] in queue && queue[listen[i]] == []
  }

  ghost predicate SomeQueued(queue: map<int, seq<int>>) {
    exists l :: l in queue && queue[l] != []
  }

  // Where the pass over the queues stands; it ends with them empty, or for want of a coroutine,
  // and for want of a fiber only with a connection left.
  ghost predicate PassInv(listen: seq<int>, queue: map<int, seq<int>>, phase: Phase, exhausted: bool) {
    && (phase.Queueing? ==> Passed(listen, queue, phase.todo))
    && (phase.Inside? && phase.back.ToQueue? ==>
        Passed(listen, queue, phase.back.todo) && HasHead(queue, phase.back.todo))
    && (phase.StopCheck? ==> if phase.starved then SomeQueued(queue) else exhausted || !SomeQueued(queue))
  }

  ghost predicate ListedInv(listen: seq<int>, queue: map<int, seq<int>>) {
    Distinct(listen) && forall l :: l in listen <==> l in queue
  }

  ghost predicate Exhausted(p: PoolState) {
    !CanCreate(p, true)
  }

  ghost predicate QueueInv(s: State) {
    && PlaceInv(s.queue, s.place, s.freeNodes, s.nodeFd)
    && HomeInv(s.queue, Starting(s.phase), s.nodeFd, s.home)
    && FlowInv(s.accepted, s.started, s.queue, Starting(s.phase), s.nodeFd)
    && PassInv(s.listen, s.queue, s.phase, Exhausted(s.pool))
    && ListedInv(s.listen, s.queue)
    && (s.polled || s.phase.Left?)
  }

  // Descriptors that wait in a queue keep their owner.
  ghost predicate KeepsQueued(home: map<int, Home>, home': map<int, Home>) {
    forall fd :: fd in home && home[fd].Queued? ==> fd in home' && home'[fd] == home[fd]
  }

  // ---------- what a step that leaves the queues alone keeps ----------

  lemma HomeChanges(s: State, home: map<int, Home>)
    requires HomeInv(s.queue, Starting(s.phase), s.nodeFd, s.home)
    requires KeepsQueued(s.home, home)
    ensures HomeInv(s.queue, Starting(s.phase), s.nodeFd, home)
  {
    hide Pending;
    forall l, n | n in Pending(s.queue, Starting(s.phase), l)
      ensures n in s.nodeFd && s.nodeFd[n] in home && home[s.nodeFd[n]] == Queued(n)
    {
      var fd := s.nodeFd[n];
      assert fd in s.home && s.home[fd].Queued?;
      assert fd in home;
    }
  }

  lemma AllPassed(listen: seq<int>, queue: map<int, seq<int>>)
    ensures Passed(listen, queue, listen)
  {
  }

  // Nothing but the phase changes.
  lemma MovesOn(s: State, phase: Phase)
    requires QueueInv(s) && Starting(s.phase) == Starting(phase) && !s.phase.Inside?
    requires phase.Queueing? ==> Passed(s.listen, s.queue, phase.todo)
    requires phase.StopCheck? ==> !phase.starved && (Exhausted(s.pool) || !SomeQueued(s.queue))
    requires phase.Inside? ==> phase.back.ToBatch?
    requires s.phase.Left? ==> phase.Left?
    ensures QueueInv(s.(phase := phase))
  {
    hide PlaceInv, HomeInv, FlowInv, ListedInv, Passed, Exhausted, HasHead;
  }

  // Coroutines, registry and pool do not concern the queues; owners of queued descriptors do.
  lemma OwnersChange(s: State, registry: map<int, Target>, home: map<int, Home>, io: map<int, Io>, conn: map<int,
        int>, pool: PoolState, clock: Time)
    requires QueueInv(s) && KeepsQueued(s.home, home) && !s.phase.StopCheck?
    ensures QueueInv(s.(registry := registry, home := home, io := io, conn := conn, pool := pool, clock := clock))
  {
    HomeChanges(s, home);
    hide PlaceInv, HomeInv, FlowInv, ListedInv, Passed, Exhausted, HasHead, Starting;
  }

  lemma WaitKeepsQueues(s: State, a: Action)
    requires QueueInv(s) && Enabled(s, a) && (a.WaitFails? || a.WaitInterrupted? || a.WaitReturns? || a.SetStopping?)
    ensures QueueInv(Step(s, a))
  {
    hide HomeInv, FlowInv, PassInv, PlaceInv, ListedInv, Passed, Exhausted;
    AllPassed(s.listen, s.queue);
    if !a.SetStopping? {
      MovesOn(s, Step(s, a).phase);
    }
  }

  lemma NextEventKeepsQueues(s: State)
    requires QueueInv(s) && s.phase.Batch?
    ensures QueueInv(Step(s, NextEvent))
  {
    hide QueueInv, Passed, Exhausted;
    AllPassed(s.listen, s.queue);
    var evts := s.phase.evts;
    if evts == [] {
      MovesOn(s, Queueing(s.listen));
    } else if evts[0].target.Listen? {
      MovesOn(s, Accepting(evts[0].target.l, evts[1..]));
    } else {
      ResumeKeepsQueues(s, evts[0].target.co, evts[0].mask, evts[1..]);
    }
  }

  lemma ResumeKeepsQueues(s: State, co: int, mask: Mask, rest: seq<Event>)
    requires QueueInv(s) && s.phase.Batch?
    ensures QueueInv(ResumeFor(s, co, mask, rest))
  {
    hide QueueInv, Passed, Exhausted;
    MovesOn(s, Crashed);
    MovesOn(s, Batch(rest));
    MovesOn(s, Inside(co, ToBatch(rest)));
    if co in s.io && s.io[co].Waiting? {
      var io := s.io[co := InCall(s.io[co].kind, s.io[co].fd, s.io[co].prev, mask)];
      OwnersChange(s.(phase := Inside(co, ToBatch(rest))), s.registry, s.home, io, s.conn, s.pool, s.clock);
    }
  }

  // ---------- accepting ----------

  lemma PlaceAccepts(queue: map<int, seq<int>>, place: map<int, Place>, freeNodes: seq<int>, nodeFd: map<int, int>,
        l: int, node: int, fd: int)
    requires PlaceInv(queue, place, freeNodes, nodeFd) && l in queue
    requires if freeNodes != [] then node == freeNodes[0] else node !in place
    ensures PlaceInv(queue[l := queue[l] + [node]], place[node := InQueue(l)], if freeNodes != [] then freeNodes[1..]
            else [], nodeFd[node := fd])
    ensures forall k :: k in queue ==> node !in queue[k]
  {
    var rest := if freeNodes != [] then freeNodes[1..] else [];
    assert freeNodes != [] ==> forall n :: n in freeNodes <==> n == freeNodes[0] || n in rest;
    assert node !in rest;
  }

  lemma PendingAccepts(queue: map<int, seq<int>>, l: int, node: int, k: int)
    requires l in queue
    ensures Pending(queue[l := queue[l] + [node]], {}, k) == Pending(queue, {}, k) + (if k == l then [node] else [])
  {
  }

  lemma HomeAccepts(queue: map<int, seq<int>>, nodeFd: map<int, int>, home: map<int, Home>, l: int, node: int, fd: int)
    requires HomeInv(queue, {}, nodeFd, home) && l in queue && fd !in home && forall k :: k in queue ==>
            node !in queue[k]
    ensures HomeInv(queue[l := queue[l] + [node]], {}, nodeFd[node := fd], home[fd := Queued(node)])
  {
    hide Pending;
    var queue', nodeFd', home' := queue[l := queue[l] + [node]], nodeFd[node := fd], home[fd := Queued(node)];
    forall k, n | n in Pending(queue', {}, k) ensures n in nodeFd' && nodeFd'[n] in home' &&
        home'[nodeFd'[n]] == Queued(n) {
      PendingAccepts(queue, l, node, k);
      if n != node {
        assert n in Pending(queue, {}, k);
      }
    }
    assert HomeInv(queue', {}, nodeFd', home');
  }

  lemma FlowAccepts(accepted: map<int, seq<int>>, started: map<int, seq<int>>, queue: map<int, seq<int>>,
        nodeFd: map<int, int>, l: int, node: int, fd: int)
    requires FlowInv(accepted, started, queue, {}, nodeFd) && l in queue && forall k :: k in queue ==> node !in queue[k]
    ensures FlowInv(accepted[l := Hist(accepted, l) + [fd]], started, queue[l := queue[l] + [node]], {},
            nodeFd[node := fd])
  {
    hide Hist;
    var accepted' := accepted[l := Hist(accepted, l) + [fd]];
    forall k ensures Flow(Hist(accepted', k), Hist(started, k), Pending(queue[l := queue[l] + [node]], {}, k),
        nodeFd[node := fd]) {
      PendingAccepts(queue, l, node, k);
      HistAt(accepted, l, Hist(accepted, l) + [fd], k);
      assert Flow(Hist(accepted, k), Hist(started, k), Pending(queue, {}, k), nodeFd);
    }
  }

  lemma HistAt(h: map<int, seq<int>>, l: int, v: seq<int>, k: int)
    ensures Hist(h[l := v], k) == if k == l then v else Hist(h, k)
  {
  }

  lemma AcceptKeepsQueues(s: State, fd: int, node: int)
    requires Inv(s) && QueueInv(s) && Enabled(s, Accept(fd, node))
    ensures QueueInv(Step(s, Accept(fd, node)))
  {
    hide PoolInv, LiveInv, SuspendedInv, RegInv, ListenInv, PlaceInv, HomeInv, FlowInv, Exhausted, Passed;
    var l := s.phase.l;
    PlaceAccepts(s.queue, s.place, s.freeNodes, s.nodeFd, l, node, fd);
    HomeAccepts(s.queue, s.nodeFd, s.home, l, node, fd);
    FlowAccepts(s.accepted, s.started, s.queue, s.nodeFd, l, node, fd);
  }

  lemma AcceptEndKeepsQueues(s: State, a: Action)
    requires QueueInv(s) && Enabled(s, a) && (a.AcceptFails? || a.AcceptDropped?)
    ensures QueueInv(Step(s, a))
  {
    hide QueueInv;
    MovesOn(s, Batch(s.phase.evts));
    if a.AcceptDropped? && !a.closed {
      OwnersChange(s.(phase := Batch(s.phase.evts)), s.registry, s.home[a.fd := Lost], s.io, s.conn, s.pool, s.clock);
    }
  }

  // ---------- starting ----------

  lemma HeadIsQueued(s: State)
    requires QueueInv(s)
    ensures HeadQueued(s)
  {
    hide FlowInv, PassInv, PlaceInv, ListedInv;
    if s.phase.Queueing? && HasHead(s.queue, s.phase.todo) {
      assert s.queue[s.phase.todo[0]][0] in Pending(s.queue, {}, s.phase.todo[0]);
    }
  }

  lemma AllEmpty(listen: seq<int>, queue: map<int, seq<int>>)
    requires Passed(listen, queue, []) && ListedInv(listen, queue)
    ensures !SomeQueued(queue)
  {
  }

  lemma PassesOn(listen: seq<int>, queue: map<int, seq<int>>, todo: seq<int>)
    requires Passed(listen, queue, todo) && ListedInv(listen, queue) && todo != [] && !HasHead(queue, todo)
    ensures Passed(listen, queue, todo[1..])
  {
    var k := |listen| - |todo|;
    assert listen[k] == todo[0] && listen[k] in listen;
  }

  lemma PendingStarts(queue: map<int, seq<int>>, l: int, k: int)
    requires l in queue && queue[l] != []
    ensures Pending(queue, {l}, k) == if k == l then queue[l][1..] else Pending(queue, {}, k)
    ensures Pending(queue, {}, l) == queue[l]
  {
  }

  lemma HomeStarts(queue: map<int, seq<int>>, nodeFd: map<int, int>, home: map<int, Home>, l: int, h: Home)
    requires HomeInv(queue, {}, nodeFd, home) && l in queue && queue[l] != [] && queue[l][0] in nodeFd
    requires Distinct(queue[l]) && forall k :: k in queue && k != l ==> queue[l][0] !in queue[k]
    ensures HomeInv(queue, {l}, nodeFd, home[nodeFd[queue[l][0]] := h])
  {
    var node := queue[l][0];
    var fd := nodeFd[node];
    assert node in Pending(queue, {}, l);
    forall k, n | n in Pending(queue, {l}, k)
      ensures n in nodeFd && nodeFd[n] in home[fd := h] && home[fd := h][nodeFd[n]] == Queued(n)
    {
      PendingStarts(queue, l, k);
      assert n in Pending(queue, {}, k);
      assert n != node;
    }
  }

  lemma FlowStarts(accepted: map<int, seq<int>>, started: map<int, seq<int>>, queue: map<int, seq<int>>,
        nodeFd: map<int, int>, l: int, fd: int)
    requires FlowInv(accepted, started, queue, {}, nodeFd) && l in queue && queue[l] != [] && queue[l][0] in nodeFd &&
            fd == nodeFd[queue[l][0]]
    ensures FlowInv(accepted, started[l := Hist(started, l) + [fd]], queue, {l}, nodeFd)
  {
    hide Hist, Pending;
    var started' := started[l := Hist(started, l) + [fd]];
    forall k ensures Flow(Hist(accepted, k), Hist(started', k), Pending(queue, {l}, k), nodeFd) {
      PendingStarts(queue, l, k);
      HistAt(started, l, Hist(started, l) + [fd], k);
      assert Flow(Hist(accepted, k), Hist(started, k), Pending(queue, {}, k), nodeFd);
    }
  }

  lemma PlaceOf(queue: map<int, seq<int>>, place: map<int, Place>, freeNodes: seq<int>, nodeFd: map<int, int>, l: int)
    requires PlaceInv(queue, place, freeNodes, nodeFd) && l in queue && queue[l] != []
    ensures Distinct(queue[l]) && queue[l][0] in nodeFd && forall k :: k in queue && k != l ==> queue[l][0] !in queue[k]
  {
    var node := queue[l][0];
    assert node in queue[l];
  }

  lemma StartKeepsQueues(s: State, addr: int, fiberOk: bool)
    requires QueueInv(s) && s.phase.Queueing? && HasHead(s.queue, s.phase.todo)
    ensures QueueInv(StartHead(s, s.phase.todo, addr, fiberOk))
  {
    hide PlaceInv, HomeInv, FlowInv, PassInv, Handed, Created, ListedInv, CanCreate, Distinct, Exhausted;
    var l := s.phase.todo[0];
    PlaceOf(s.queue, s.place, s.freeNodes, s.nodeFd, l);
    StartPass(s, addr, fiberOk);
    if CanCreate(s.pool, fiberOk) {
      HomeStarts(s.queue, s.nodeFd, s.home, l, Owned(Handed(s.pool, addr)));
      FlowStarts(s.accepted, s.started, s.queue, s.nodeFd, l, s.nodeFd[s.queue[l][0]]);
    }
  }

  // A failed start ends the pass, for want of a fiber or of room in the pool.
  lemma StartPass(s: State, addr: int, fiberOk: bool)
    requires s.phase.Queueing? && HasHead(s.queue, s.phase.todo) &&
            PassInv(s.listen, s.queue, s.phase, Exhausted(s.pool))
    ensures var t := StartHead(s, s.phase.todo, addr, fiberOk); PassInv(s.listen, s.queue, t.phase, Exhausted(t.pool))
  {
    hide Passed, Created, Handed, SomeQueued;
    HeadWaits(s.queue, s.phase.todo);
  }

  lemma HeadWaits(queue: map<int, seq<int>>, todo: seq<int>)
    requires HasHead(queue, todo)
    ensures SomeQueued(queue)
  {
    var l := todo[0];
    assert l in queue && queue[l] != [];
  }

  lemma PassOf(s: State)
    requires QueueInv(s) && s.phase.Queueing?
    ensures Passed(s.listen, s.queue, s.phase.todo) && ListedInv(s.listen, s.queue)
  {
    hide PlaceInv, HomeInv, FlowInv, ListedInv, Passed;
  }

  lemma NextQueuedKeepsQueues(s: State, addr: int, fiberOk: bool)
    requires QueueInv(s) && s.phase.Queueing?
    ensures QueueInv(Step(s, NextQueued(addr, fiberOk)))
  {
    hide QueueInv, ListedInv, Passed, StartHead, Exhausted, HasHead;
    PassOf(s);
    if HasHead(s.queue, s.phase.todo) {
      StartKeepsQueues(s, addr, fiberOk);
    } else if s.phase.todo == [] {
      AllEmpty(s.listen, s.queue);
      MovesOn(s, StopCheck(false));
    } else {
      PassesOn(s.listen, s.queue, s.phase.todo);
      MovesOn(s, Queueing(s.phase.todo[1..]));
    }
  }

  // ---------- suspending and exiting ----------

  lemma HeadMoves(queue: map<int, seq<int>>, place: map<int, Place>, freeNodes: seq<int>, nodeFd: map<int, int>, l: int)
    requires PlaceInv(queue, place, freeNodes, nodeFd) && l in queue && queue[l] != []
    ensures PlaceInv(queue[l := queue[l][1..]], place[queue[l][0] := InFree], [queue[l][0]] + freeNodes, nodeFd)
  {
    var node := queue[l][0];
    PlaceOf(queue, place, freeNodes, nodeFd, l);
    assert forall n :: n in queue[l] <==> n == node || n in queue[l][1..];
    assert node !in queue[l][1..] && node !in freeNodes;
  }

  lemma PendingMoves(queue: map<int, seq<int>>, l: int)
    requires l in queue && queue[l] != []
    ensures forall k :: Pending(queue[l := queue[l][1..]], {}, k) == Pending(queue, {l}, k)
  {
  }

  lemma SamePending(s: State, queue: map<int, seq<int>>, starting: set<int>, starting': set<int>)
    requires HomeInv(s.queue, starting, s.nodeFd, s.home) && FlowInv(s.accepted, s.started, s.queue, starting, s.nodeFd)
    requires forall k :: Pending(queue, starting', k) == Pending(s.queue, starting, k)
    ensures HomeInv(queue, starting', s.nodeFd, s.home) && FlowInv(s.accepted, s.started, queue, starting', s.nodeFd)
  {
    hide Pending, Flow;
    forall k, n | n in Pending(queue, starting', k) ensures n in s.nodeFd && s.nodeFd[n] in s.home &&
        s.home[s.nodeFd[n]] == Queued(n) {
      assert n in Pending(s.queue, starting, k);
    }
  }

  lemma PassedMoves(listen: seq<int>, queue: map<int, seq<int>>, todo: seq<int>)
    requires Passed(listen, queue, todo) && HasHead(queue, todo)
    ensures Passed(listen, queue[todo[0] := queue[todo[0]][1..]], todo)
  {
  }

  lemma GoBackKeepsQueues(s: State, co: int, back: Back)
    requires QueueInv(s) && s.phase == Inside(co, back)
    ensures QueueInv(GoBack(s, back))
  {
    hide PlaceInv, Pending, Flow, Passed, Exhausted;
    if back.ToQueue? {
      var l := back.todo[0];
      HeadMoves(s.queue, s.place, s.freeNodes, s.nodeFd, l);
      PendingMoves(s.queue, l);
      PassedMoves(s.listen, s.queue, back.todo);
      SamePending(s, s.queue[l := s.queue[l][1..]], {l}, {});
      hide HomeInv, FlowInv;
    }
  }

  lemma CallKeepsQueues(s: State, kind: Kind, fd: int, added: bool)
    requires QueueInv(s) && Enabled(s, Call(kind, fd, added))
    ensures QueueInv(Step(s, Call(kind, fd, added)))
  {
    hide QueueInv, GoBack;
    if added {
      var co := s.phase.co;
      var registry, io := s.registry[fd := Of(co)], s.io[co := Waiting(kind, fd, 0)];
      OwnersChange(s, registry, s.home, io, s.conn, s.pool, s.clock);
      GoBackKeepsQueues(s.(registry := registry, io := io), co, s.phase.back);
    }
  }

  lemma FinishKeepsQueues(s: State, sys: Sys)
    requires QueueInv(s) && Enabled(s, Finish(sys))
    ensures QueueInv(Step(s, Finish(sys)))
  {
    hide QueueInv, GoBack, Wake;
    var co, c := s.phase.co, s.io[s.phase.co];
    var again, running := s.io[co := Waiting(c.kind, c.fd, sys.ret)], s.io[co := Running];
    OwnersChange(s, s.registry - {c.fd}, s.home, running, s.conn, s.pool, s.clock);
    OwnersChange(s, s.registry, s.home, again, s.conn, s.pool, s.clock);
    GoBackKeepsQueues(s.(io := again), co, s.phase.back);
  }

  lemma OpenCloseKeepsQueues(s: State, a: Action)
    requires QueueInv(s) && Enabled(s, a) && (a.Open? || a.Close?)
    ensures QueueInv(Step(s, a))
  {
    hide QueueInv;
    if a.Open? {
      OwnersChange(s, s.registry, s.home[a.fd := Owned(s.phase.co)], s.io, s.conn, s.pool, s.clock);
    } else {
      OwnersChange(s, s.registry - {a.fd}, s.home - {a.fd}, s.io, s.conn, s.pool, s.clock);
    }
  }

  lemma ReleaseKeepsQueued(home: map<int, Home>, co: int, fd: int)
    requires fd in home ==> home[fd] == Owned(co)
    ensures KeepsQueued(home, ReleaseAll(home - {fd}, co))
  {
  }

  lemma ExitKeepsQueues(s: State, now: Time)
    requires Inv(s) && QueueInv(s) && Enabled(s, Exit(now))
    ensures QueueInv(Step(s, Exit(now)))
  {
    hide QueueInv, GoBack, ReleaseAll, Finished, KeepsQueued, LiveInv, RegInv, ListenInv, EvtInv, PoolInv;
    var co := s.phase.co;
    ReleaseKeeps(s, co, now);
    var fd := s.conn[co];
    ReleaseKeepsQueued(s.home, co, fd);
    var registry, home := s.registry - {fd}, ReleaseAll(s.home - {fd}, co);
    var io, conn, pool := s.io - {co}, s.conn - {co}, Finished(s.pool, co, now);
    OwnersChange(s, registry, home, io, conn, pool, now);
    GoBackKeepsQueues(s.(registry := registry, home := home, io := io, conn := conn, pool := pool, clock := now), co,
        s.phase.back);
  }

  // ---------- stopping ----------

  lemma {:induction false} StayingDistinct(listen: seq<int>, queue: map<int, seq<int>>)
    requires Distinct(listen)
    ensures Distinct(Staying(listen, queue))
    decreases |listen|
  {
    if listen != [] {
      var rest := listen[1..];
      assert forall i, j :: 0 <= i < j < |rest| ==> rest[i] == listen[i + 1] && rest[j] == listen[j + 1];
      assert listen[0] !in rest;
      StayingDistinct(rest, queue);
      StayingMembers(rest, queue);
    }
  }

  lemma PlaceCloses(queue: map<int, seq<int>>, place: map<int, Place>, freeNodes: seq<int>, nodeFd: map<int, int>)
    requires PlaceInv(queue, place, freeNodes, nodeFd)
    ensures PlaceInv(map l | l in queue && queue[l] != [] :: queue[l], map n | n in place && place[n].InQueue? ::
            place[n], [], nodeFd)
  {
  }

  lemma ClosedKeepsQueues(s: State)
    requires Inv(s) && QueueInv(s) && s.phase.StopCheck?
    ensures QueueInv(Closed(s))
  {
    hide PoolInv, LiveInv, SuspendedInv, RegInv, EvtInv, PlaceInv, HomeInv, FlowInv, Exhausted, OpenFds, Staying;
    hide SomeQueued;
    var t := Closed(s);
    SomeStay(s.queue, t.queue);
    PlaceCloses(s.queue, s.place, s.freeNodes, s.nodeFd);
    StayingDistinct(s.listen, s.queue);
    StayingMembers(s.listen, s.queue);
    OpenFdsListen(s);
    assert KeepsQueued(s.home, t.home);
    HomeChanges(s, t.home);
    ClosedPending(s.queue, t.queue);
    SamePending(s.(home := t.home), t.queue, {}, {});
  }

  lemma SomeStay(queue: map<int, seq<int>>, queue': map<int, seq<int>>)
    requires queue' == map l | l in queue && queue[l] != [] :: queue[l]
    ensures SomeQueued(queue') <==> SomeQueued(queue)
  {
    if SomeQueued(queue) {
      var l :| l in queue && queue[l] != [];
      assert l in queue' && queue'[l] == queue[l];
    }
  }

  lemma ClosedPending(queue: map<int, seq<int>>, queue': map<int, seq<int>>)
    requires queue' == map l | l in queue && queue[l] != [] :: queue[l]
    ensures forall k :: Pending(queue', {}, k) == Pending(queue, {}, k)
  {
  }

  // The round is over.
  lemma RoundEnds(s: State, pool: PoolState, clock: Time, phase: Phase, polled: bool)
    requires QueueInv(s) && s.phase.StopCheck? && (phase.AtWait? || phase.Left?) && (phase.Left? || polled == s.polled)
    ensures QueueInv(s.(pool := pool, clock := clock, phase := phase, polled := polled))
  {
    hide PlaceInv, HomeInv, FlowInv, ListedInv, Exhausted, Passed;
  }

  lemma TrimmedKeepsQueues(s: State, pool: PoolState, now: Time, millis: int, count: int)
    requires QueueInv(s) && s.phase.StopCheck?
    ensures QueueInv(Trimmed(s.(pool := pool), now, millis, count))
  {
    hide QueueInv, Shrunk;
    if pool.freeCount > 0 && pool.fullCount > pool.limitMin {
      RoundEnds(s, Shrunk(pool, millis, count, now), now, AtWait, s.polled);
    } else {
      RoundEnds(s, pool, now, AtWait, s.polled);
    }
  }

  lemma StopKeepsQueues(s: State, now: Time, later: Time, millis: int, count: int)
    requires Inv(s) && QueueInv(s) && s.phase.StopCheck?
    ensures QueueInv(Step(s, Stop(now, later, millis, count)))
  {
    hide Inv, QueueInv, Closed, Shrunk, Trimmed;
    if s.stopping {
      var t := Closed(s);
      ClosedKeepsQueues(s);
      ClosedFields(s);
      RoundEnds(t, Shrunk(t.pool, 0, -t.pool.fullCount, now), now, Left(0), false);
      TrimmedKeepsQueues(t, Shrunk(t.pool, 0, -t.pool.freeCount, now), later, millis, count);
    } else {
      TrimmedKeepsQueues(s, s.pool, later, millis, count);
    }
  }

  // ---------- every action keeps both invariants ----------

  lemma StepKeeps(s: State, a: Action)
    requires Inv(s) && QueueInv(s) && Enabled(s, a)
    ensures Inv(Step(s, a)) && QueueInv(Step(s, a))
  {
    hide Inv, QueueInv, Step;
    match a
    case SetStopping => WaitKeeps(s, a); WaitKeepsQueues(s, a);
    case WaitFails(_) => WaitKeeps(s, a); WaitKeepsQueues(s, a);
    case WaitInterrupted => WaitKeeps(s, a); WaitKeepsQueues(s, a);
    case WaitReturns(_) => WaitKeeps(s, a); WaitKeepsQueues(s, a);
    case NextEvent => NextEventKeeps(s); NextEventKeepsQueues(s);
    case AcceptFails => AcceptKeeps(s, a); AcceptEndKeepsQueues(s, a);
    case AcceptDropped(_, _) => AcceptKeeps(s, a); AcceptEndKeepsQueues(s, a);
    case Accept(fd, node) => AcceptKeeps(s, a); AcceptKeepsQueues(s, fd, node);
    case NextQueued(addr, ok) => HeadIsQueued(s); NextQueuedKeeps(s, addr, ok); NextQueuedKeepsQueues(s, addr, ok);
    case Open(fd) => OpenKeeps(s, fd); OpenCloseKeepsQueues(s, a);
    case Close(fd) => CloseKeeps(s, fd); OpenCloseKeepsQueues(s, a);
    case Call(kind, fd, added) => CallKeeps(s, kind, fd, added); CallKeepsQueues(s, kind, fd, added);
    case Finish(sys) => FinishKeeps(s, sys); FinishKeepsQueues(s, sys);
    case Exit(now) => ExitKeeps(s, now); ExitKeepsQueues(s, now);
    case Stop(now, later, millis, count) => StopKeeps(s, now, later, millis, count);
        StopKeepsQueues(s, now, later, millis, count);
  }

  // ---------- runs ----------

  // ef_run_loop with every listening socket associated, before its first wait.
  ghost predicate Initial(s: State) {
    && s.pool == PoolState([], [], 0, 0, s.pool.runCount, map[], s.pool.limitMin, s.pool.limitMax) && Clock(s.clock)
    && Distinct(s.listen) && (forall l :: l in s.listen <==> l in s.queue) &&
        (forall l :: l in s.queue ==> s.queue[l] == [])
    && (forall l :: l in s.listen ==>
        l in s.lfd && s.lfd[l] >= 0 && s.lfd[l] in s.home && s.home[s.lfd[l]] == Listener(l))
    && (forall fd :: fd in s.registry ==>
          s.registry[fd].Listen? && s.registry[fd].l in s.listen && s.registry[fd].l in s.lfd &&
              s.lfd[s.registry[fd].l] == fd)
    && s.io == map[] && s.conn == map[] && s.place == map[] && s.freeNodes == [] && s.accepted == map[] &&
        s.started == map[]
    && s.polled && s.phase == AtWait
  }

  lemma InitialInv(s: State)
    requires Initial(s)
    ensures Inv(s)
  {
  }

  lemma InitialQueueInv(s: State)
    requires Initial(s)
    ensures QueueInv(s)
  {
  }

  ghost predicate Allowed(s: State, acts: seq<Action>)
    decreases |acts|
  {
    acts == [] || (Enabled(s, acts[0]) && Allowed(Step(s, acts[0]), acts[1..]))
  }

  ghost function Run(s: State, acts: seq<Action>): State
    decreases |acts|
  {
    if acts == [] then s else Run(Step(s, acts[0]), acts[1..])
  }

  lemma InsideLimit(s: State, a: Action)
    requires Enabled(s, a) && (a.Call? || a.Finish?)
    ensures Step(s, a).pool.limitMax == s.pool.limitMax
  {
    hide GoBack, Wake;
    var co := s.phase.co;
    if a.Call? && a.added {
      GoBackFields(s.(registry := s.registry[a.fd := Of(co)], io := s.io[co := Waiting(a.kind, a.fd, 0)]),
          s.phase.back);
    } else if a.Finish? {
      var c := s.io[co];
      GoBackFields(s.(io := s.io[co := Waiting(c.kind, c.fd, a.sys.ret)]), s.phase.back);
    }
  }

  lemma ExitLimit(s: State, now: Time)
    requires Inv(s) && Enabled(s, Exit(now))
    ensures Step(s, Exit(now)).pool.limitMax == s.pool.limitMax
  {
    hide Inv, GoBack, ReleaseAll;
    var co := s.phase.co;
    ReleaseKeeps(s, co, now);
    var fd := s.conn[co];
    GoBackFields(s.(registry := s.registry - {fd}, home := ReleaseAll(s.home - {fd}, co), io := s.io - {co}, conn :=
        s.conn - {co},
                    pool := Finished(s.pool, co, now), clock := now), s.phase.back);
  }

  lemma TrimmedLimit(s: State, now: Time, millis: int, count: int)
    ensures Trimmed(s, now, millis, count).pool.limitMax == s.pool.limitMax
  {
    hide Shrunk;
    ShrunkLimit(s.pool, millis, count, now);
  }

  lemma StopLimit(s: State, now: Time, later: Time, millis: int, count: int)
    ensures Step(s, Stop(now, later, millis, count)).pool.limitMax == s.pool.limitMax
  {
    hide Shrunk, Closed, Trimmed;
    ClosedFields(s);
    TrimmedLimit(s, later, millis, count);
    var t := Closed(s);
    ShrunkLimit(t.pool, 0, -t.pool.fullCount, now);
    ShrunkLimit(t.pool, 0, -t.pool.freeCount, now);
    TrimmedLimit(t.(pool := Shrunk(t.pool, 0, -t.pool.freeCount, now)), later, millis, count);
  }

  lemma EventLimit(s: State, evts: seq<Event>)
    ensures HandleEvent(s, evts).pool.limitMax == s.pool.limitMax
  {
    hide ResumeFor;
    if evts != [] && evts[0].target.Of? {
      ResumeLimit(s, evts[0].target.co, evts[0].mask, evts[1..]);
    }
  }

  lemma QueuedLimit(s: State, todo: seq<int>, addr: int, fiberOk: bool)
    ensures VisitQueue(s, todo, addr, fiberOk).pool.limitMax == s.pool.limitMax
  {
    hide StartHead;
    if HasHead(s.queue, todo) {
      StartLimit(s, todo, addr, fiberOk);
    }
  }

  lemma ResumeLimit(s: State, co: int, mask: Mask, rest: seq<Event>)
    ensures ResumeFor(s, co, mask, rest).pool == s.pool
  {
    hide IsLive;
  }

  lemma StartLimit(s: State, todo: seq<int>, addr: int, fiberOk: bool)
    requires HasHead(s.queue, todo)
    ensures StartHead(s, todo, addr, fiberOk).pool.limitMax == s.pool.limitMax
  {
  }

  lemma StepLimit(s: State, a: Action)
    requires Inv(s) && Enabled(s, a)
    ensures Step(s, a).pool.limitMax == s.pool.limitMax
  {
    hide Inv, Closed, GoBack, Trimmed, HandleEvent, VisitQueue;
    match a
    case Call(_, _, _) => InsideLimit(s, a); hide *;
    case Finish(_) => InsideLimit(s, a); hide *;
    case Exit(now) => ExitLimit(s, now); hide *;
    case Stop(now, later, millis, count) => StopLimit(s, now, later, millis, count); hide *;
    case NextEvent => EventLimit(s, s.phase.evts); hide *;
    case NextQueued(addr, ok) => QueuedLimit(s, s.phase.todo, addr, ok); hide *;
    case _ =>
  }

  lemma ShrunkLimit(p: PoolState, millis: int, count: int, now: Time)
    ensures Shrunk(p, millis, count, now).limitMax == p.limitMax
  {
  }

  lemma {:induction false} RunKeeps(s: State, acts: seq<Action>)
    requires Inv(s) && QueueInv(s) && Allowed(s, acts)
    ensures Inv(Run(s, acts)) && QueueInv(Run(s, acts)) && Run(s, acts).pool.limitMax == s.pool.limitMax
    decreases |acts|
  {
    hide Inv, QueueInv, Enabled, Step;
    if acts != [] {
      StepKeeps(s, acts[0]);
      StepLimit(s, acts[0]);
      RunKeeps(Step(s, acts[0]), acts[1..]);
    }
  }

  lemma Reached(s0: State, acts: seq<Action>)
    requires Initial(s0) && Allowed(s0, acts)
    ensures Inv(Run(s0, acts)) && QueueInv(Run(s0, acts)) && Run(s0, acts).pool.limitMax == s0.pool.limitMax
  {
    hide Inv, QueueInv, Allowed, Run, Initial;
    InitialInv(s0);
    InitialQueueInv(s0);
    RunKeeps(s0, acts);
  }

  // Whenever control is in the main loop, the registered descriptors that are not listening
  // and the coroutines that have not exited correspond one to one: each such coroutine is
  // suspended, waiting on its descriptor.
  lemma WaitersAreRegistered(s0: State, acts: seq<Action>)
    requires Initial(s0) && Allowed(s0, acts) && !Run(s0, acts).phase.Inside?
    ensures var s := Run(s0, acts);
            && (forall fd :: fd in s.registry && s.registry[fd].Of? ==>
                  IsLive(s.pool, s.registry[fd].co) && s.registry[fd].co in s.io &&
                      s.io[s.registry[fd].co].Waiting? && s.io[s.registry[fd].co].fd == fd)
            && (forall co :: IsLive(s.pool, co) ==>
                  co in s.io && s.io[co].Waiting? && s.io[co].fd in s.registry && s.registry[s.io[co].fd] == Of(co))
            && (forall fd, fd' ::
                  fd in s.registry && fd' in s.registry && s.registry[fd].Of? && s.registry[fd] == s.registry[fd'] ==>
                    fd == fd')
  {
    hide Allowed, Run, Initial, QueueInv, IsLive, PoolInv;
    Reached(s0, acts);
  }

  // Every event of a batch resumes a coroutine that is still waiting on that descriptor, and
  // no event ever reaches an exited, free or deleted one.
  lemma EventsResumeWaiters(s0: State, acts: seq<Action>)
    requires Initial(s0) && Allowed(s0, acts)
    ensures var s := Run(s0, acts);
            && !s.phase.Crashed?
            && (s.phase.Batch? && s.phase.evts != [] && s.phase.evts[0].target.Of? ==>
                  var e := s.phase.evts[0]; var t := Step(s, NextEvent);
                  && IsLive(s.pool, e.target.co) && e.target.co in s.io && s.io[e.target.co].Waiting? &&
                      s.io[e.target.co].fd == e.fd
                  && t.phase == Inside(e.target.co, ToBatch(s.phase.evts[1..]))
                  && t.io == s.io[e.target.co := InCall(s.io[e.target.co].kind, e.fd, s.io[e.target.co].prev, e.mask)])
  {
    hide Allowed, Run, Initial, QueueInv, PoolInv, LiveInv, RegInv, ListenInv, EvtInv;
    Reached(s0, acts);
    var s := Run(s0, acts);
    if s.phase.Batch? && s.phase.evts != [] && s.phase.evts[0].target.Of? {
      EventFindsWaiter(s);
    }
  }

  // First in, first out, per listener: the connections started are the first ones accepted,
  // in order, and the others are queued in order.
  lemma FirstInFirstOut(s0: State, acts: seq<Action>, l: int)
    requires Initial(s0) && Allowed(s0, acts)
    ensures var s := Run(s0, acts); var p := Pending(s.queue, Starting(s.phase), l);
            && Hist(s.started, l) <= Hist(s.accepted, l)
            && |Hist(s.accepted, l)| == |Hist(s.started, l)| + |p|
            && forall i :: 0 <= i < |p| ==>
                p[i] in s.nodeFd && s.nodeFd[p[i]] == Hist(s.accepted, l)[|Hist(s.started, l)| + i]
  {
    hide Allowed, Run, Initial, Inv, PlaceInv, HomeInv, PassInv, ListedInv, Hist, Pending;
    Reached(s0, acts);
    var s := Run(s0, acts);
    assert Flow(Hist(s.accepted, l), Hist(s.started, l), Pending(s.queue, Starting(s.phase), l), s.nodeFd);
  }

  // A node is in one list at a time.
  lemma NodesInOneList(s0: State, acts: seq<Action>, n: int)
    requires Initial(s0) && Allowed(s0, acts)
    ensures var s := Run(s0, acts);
            && (forall l, k :: l in s.queue && k in s.queue && n in s.queue[l] && n in s.queue[k] ==> l == k)
            && (forall l :: l in s.queue && n in s.queue[l] ==> n !in s.freeNodes && Distinct(s.queue[l]))
            && Distinct(s.freeNodes)
  {
    hide Allowed, Run, Initial, Inv, HomeInv, FlowInv, PassInv, ListedInv, Distinct;
    Reached(s0, acts);
  }

  // A start hands the oldest connection to a coroutine that was not live; when there
  // is no coroutine to be had the connection stays at the head of its queue.
  lemma StartsTheOldest(s: State, addr: int, fiberOk: bool)
    requires Inv(s) && QueueInv(s) && Enabled(s, NextQueued(addr, fiberOk)) && HasHead(s.queue, s.phase.todo)
    ensures var l, t := s.phase.todo[0], Step(s, NextQueued(addr, fiberOk)); var started := Hist(s.started, l);
            if !CanCreate(s.pool, fiberOk) then
              t == s.(phase := StopCheck(!Exhausted(s.pool)))
            else
              && t.phase.Inside? && !IsLive(s.pool, t.phase.co) && IsLive(t.pool, t.phase.co)
              && |started| < |Hist(s.accepted, l)|
              && Hist(t.started, l) == started + [Hist(s.accepted, l)[|started|]]
              && t.phase.co in t.conn && t.conn[t.phase.co] == Hist(s.accepted, l)[|started|]
              && t.io == s.io[t.phase.co := Running] && t.home == s.home[t.conn[t.phase.co] := Owned(t.phase.co)]
  {
    hide PoolInv, LiveInv, RegInv, ListenInv, EvtInv, PlaceInv, HomeInv, PassInv, ListedInv, Handed, Created;
    var l := s.phase.todo[0];
    HeadIsQueued(s);
    assert Flow(Hist(s.accepted, l), Hist(s.started, l), Pending(s.queue, {}, l), s.nodeFd);
    assert Pending(s.queue, {}, l)[0] == s.queue[l][0];
    if CanCreate(s.pool, fiberOk) {
      StartIsFresh(s, addr, fiberOk);
    }
  }

  lemma StartIsFresh(s: State, addr: int, fiberOk: bool)
    requires Inv(s) && Enabled(s, NextQueued(addr, fiberOk)) && HeadQueued(s) && HasHead(s.queue, s.phase.todo) &&
            CanCreate(s.pool, fiberOk)
    ensures !IsLive(s.pool, Handed(s.pool, addr)) && IsLive(Created(s.pool, addr), Handed(s.pool, addr))
  {
    hide RegInv, ListenInv, EvtInv, PoolInv, Created, Handed;
    StartKeepsLive(s, addr, fiberOk);
    var co := Handed(s.pool, addr);
    assert co in s.io[co := Running];
  }

  // ---------- leaving ----------

  lemma AllExited(p: PoolState, co: int)
    requires Good(p) && p.freeCount == p.fullCount
    ensures !IsLive(p, co)
  {
    if IsLive(p, co) {
      forall c | c in p.free ensures c in p.full && c != co {
        assert c in p.cos;
      }
      assert SetOf(p.free) <= SetOf(p.full) - {co};
      assert co in p.full;
      DistinctSize(p.free);
      DistinctSize(p.full);
      Sets.SubsetSize(SetOf(p.free), SetOf(p.full) - {co});
      assert false;
    }
  }

  lemma {:induction false} DistinctSize(s: seq<int>)
    requires Distinct(s)
    ensures |SetOf(s)| == |s|
    decreases |s|
  {
    if s != [] {
      var rest := s[1..];
      assert forall i, j :: 0 <= i < j < |rest| ==> rest[i] == s[i + 1] && rest[j] == s[j + 1];
      assert s[0] !in rest;
      DistinctSize(rest);
      assert SetOf(s) == SetOf(rest) + {s[0]};
    }
  }

  // Leaving through the stopping branch, when the pool has room for a coroutine at all and
  // the last pass did not end because a fiber could not be mapped:
  // every queue and the listen list are empty, no coroutine is live, the pool is empty, the
  // registry too, every accepted connection was started, and no step follows.
  lemma LeavesClean(s0: State, acts: seq<Action>, a: Action)
    requires Initial(s0) && Allowed(s0, acts) && Enabled(Run(s0, acts), a) && s0.pool.limitMax >= 1
    requires a.Stop? && Step(Run(s0, acts), a).phase.Left? && !Run(s0, acts).phase.starved
    ensures var s, t := Run(s0, acts), Step(Run(s0, acts), a);
            && s.stopping && t.listen == [] && t.queue == map[] &&
                (forall l :: Hist(t.started, l) == Hist(t.accepted, l))
            && (forall co :: !IsLive(s.pool, co)) && t.io == map[] && t.registry == map[]
            && t.pool.full == [] && t.pool.free == [] && t.pool.cos == map[]
            && !t.polled && (forall b :: !Enabled(t, b))
  {
    hide Allowed, Run, Initial;
    Reached(s0, acts);
    StopIsClean(Run(s0, acts), a);
  }

  lemma StopsAt(s: State, a: Action)
    requires Enabled(s, a) && a.Stop?
    ensures s.phase.StopCheck?
    ensures Step(s, a).phase.Left? ==> s.stopping && s.pool.freeCount == s.pool.fullCount
  {
    hide Closed, Shrunk, Clock, NotAfter;
    ClosedFields(s);
  }

  // The state the stopping branch leaves behind.
  lemma StepFields(s: State, a: Action)
    requires a.Stop? && s.stopping && s.pool.freeCount == s.pool.fullCount
    ensures var t, c := Step(s, a), Closed(s);
            && t.listen == c.listen && t.queue == c.queue && t.registry == c.registry && t.io == s.io && !t.polled &&
                t.phase == Left(0)
            && t.started == s.started && t.accepted == s.accepted &&
                t.pool == Shrunk(s.pool, 0, -s.pool.fullCount, a.now)
    ensures forall b :: !Enabled(Step(s, a), b)
  {
    hide Staying, OpenFds, Shrunk, Trimmed;
  }

  lemma StopIsClean(s: State, a: Action)
    requires Inv(s) && QueueInv(s) && Enabled(s, a) && s.pool.limitMax >= 1 && a.Stop? && Step(s, a).phase.Left? &&
            !s.phase.starved
    ensures var t := Step(s, a);
            && s.stopping && t.listen == [] && t.queue == map[] &&
                (forall l :: Hist(t.started, l) == Hist(t.accepted, l))
            && (forall co :: !IsLive(s.pool, co)) && t.io == map[] && t.registry == map[]
            && t.pool.full == [] && t.pool.free == [] && t.pool.cos == map[]
            && !t.polled && (forall b :: !Enabled(t, b))
  {
    hide Inv, QueueInv, Closed, Shrunk, Trimmed, Enabled, IsLive, Hist;
    StopsAt(s, a);
    StopDrains(s);
    StopEmpties(s, a);
    ClosedFields(s);
    StepFields(s, a);
  }

  lemma {:induction false} NoneStay(listen: seq<int>, queue: map<int, seq<int>>)
    requires forall l :: l in queue ==> queue[l] == []
    ensures Staying(listen, queue) == []
    decreases |listen|
  {
    if listen != [] {
      NoneStay(listen[1..], queue);
    }
  }

  // At the end of a pass the queues are empty, unless every coroutine is in use.
  lemma StopDrains(s: State)
    requires Inv(s) && QueueInv(s) && s.phase.StopCheck? && !s.phase.starved && s.pool.limitMax >= 1 &&
            s.pool.freeCount == s.pool.fullCount
    ensures Closed(s).listen == [] && Closed(s).queue == map[]
    ensures forall l :: Hist(s.started, l) == Hist(s.accepted, l)
  {
    hide LiveInv, SuspendedInv, RegInv, ListenInv, EvtInv, PlaceInv, HomeInv, ListedInv, Ordered, Staying, OpenFds;
    StayingMembers(s.listen, s.queue);
    assert forall l :: l in s.queue ==> s.queue[l] == [];
    NoneStay(s.listen, s.queue);
    forall l ensures Hist(s.started, l) == Hist(s.accepted, l) {
      assert Flow(Hist(s.accepted, l), Hist(s.started, l), Pending(s.queue, {}, l), s.nodeFd);
    }
  }

  lemma ClosedRegistry(s: State)
    requires RegInv(s.registry, s.home, s.io)
    ensures forall fd :: fd in Closed(s).registry && Closed(s).registry[fd].Of? ==> Closed(s).registry[fd].co in s.io
  {
    hide OpenFds, Staying;
  }

  lemma StopEmpties(s: State, a: Action)
    requires Inv(s) && Enabled(s, a) && a.Stop? && s.pool.freeCount == s.pool.fullCount
    ensures forall co :: !IsLive(s.pool, co)
    ensures s.io == map[] && Closed(s).registry == map[]
    ensures var p := Shrunk(s.pool, 0, -s.pool.fullCount, a.now); p.full == [] && p.free == [] && p.cos == map[]
  {
    hide SuspendedInv, EvtInv, Shrunk, Good, Ordered, Closed;
    forall co ensures !IsLive(s.pool, co) { AllExited(s.pool, co); }
    hide IsLive;
    assert forall co :: co !in s.io;
    ClosedListens(s);
    var registry := Closed(s).registry;
    ClosedRegistry(s);
    assert forall fd :: fd !in registry;
    ShrinkEmptiesFreeList(s.pool, -s.pool.fullCount, s.clock, a.now);
  }

  // Without room for any coroutine the loop leaves at the first check, and abandons the
  // connections that are queued.
  lemma LeavesQueuedWithoutRoom(s: State, now: Time, later: Time, millis: int, count: int)
    requires Inv(s) && QueueInv(s) && Enabled(s, Stop(now, later, millis, count)) && s.stopping && s.pool.limitMax < 1
    ensures var t := Step(s, Stop(now, later, millis, count));
            t.phase == Left(0) && (t.listen != [] <==> SomeQueued(s.queue))
  {
    hide Inv, QueueInv, Staying, OpenFds, Shrunk, Trimmed, Enabled;
    PoolOf(s);
    NoRoom(s.pool);
    StopsAt(s, Stop(now, later, millis, count));
    StepFields(s, Stop(now, later, millis, count));
    NoneStayIff(s);
  }

  lemma NoneStayIff(s: State)
    requires QueueInv(s)
    ensures Staying(s.listen, s.queue) != [] <==> SomeQueued(s.queue)
  {
    hide PlaceInv, HomeInv, FlowInv, PassInv, Staying;
    StayingMembers(s.listen, s.queue);
    var listen := Staying(s.listen, s.queue);
    HeadIn(listen);
    if listen == [] {
      forall l | l in s.queue ensures s.queue[l] == [] {
        assert l in s.listen && l !in listen;
      }
    } else {
      var l := listen[0];
      assert l in s.queue && s.queue[l] != [];
    }
  }

  // On leaving, connections are abandoned exactly if some are queued, and that is exactly
  // when the last pass ended for want of a fiber, or some are queued and the pool has no room.
  lemma AbandonsQueued(s: State, a: Action)
    requires Inv(s) && QueueInv(s) && Enabled(s, a) && a.Stop? && Step(s, a).phase.Left?
    ensures Step(s, a).listen != [] <==> SomeQueued(s.queue)
    ensures Step(s, a).listen != [] <==> s.phase.starved || (s.pool.limitMax < 1 && SomeQueued(s.queue))
  {
    hide Inv, QueueInv, SomeQueued, Staying, OpenFds, Shrunk, Trimmed, Enabled;
    StopsAt(s, a);
    StepFields(s, a);
    NoneStayIff(s);
    if s.phase.starved {
      StarvedLeaves(s);
    } else if s.pool.limitMax >= 1 {
      StopDrains(s);
    }
  }

  lemma StarvedLeaves(s: State)
    requires QueueInv(s) && s.phase.StopCheck? && s.phase.starved
    ensures SomeQueued(s.queue)
  {
    hide PlaceInv, HomeInv, FlowInv, ListedInv, SomeQueued;
  }

  lemma HeadIn(s: seq<int>)
    ensures s == [] || s[0] in s
  {
  }

  lemma NoRoom(p: PoolState)
    requires Good(p) && p.limitMax < 1
    ensures p.freeCount == 0 && p.fullCount == 0
  {
    assert p.full == [];
    HeadIn(p.free);
    forall c ensures c !in p.free {
      assert c in p.free ==> c in p.cos && c in p.full;
    }
  }
}
