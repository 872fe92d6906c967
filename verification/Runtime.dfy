/**
  framework.c over the epoll backend: the event loop, the connection queues and the I/O
  wrappers, as steps of one state.  The kernel, the clock and the routines choose the
  actions; routines touch only their own descriptors and leave the connection to ef_proc.
 */
module Runtime {
  import opened Pool

  // ---------- the wrappers ----------

  datatype Kind = Connect | ReadOrRecv | WriteOrSend

  datatype Mask = Mask(pollIn: bool, pollOut: bool, pollErr: bool, pollHup: bool)

  // What the system call behind a wrapper answers.
  datatype Sys = Sys(ret: int, again: bool, errno: int)

  const EBADF: int := 9

  datatype Woken = YieldAgain | Returns(ret: int, errno: int)

  // Where a wrapper goes once an event has resumed it; `prev` is what its result variable
  // holds from the association or from an earlier attempt.
  function Wake(kind: Kind, m: Mask, prev: int, sys: Sys): Woken {
    match kind
    case Connect =>
      if m.pollErr || m.pollHup then Returns(-1, EBADF)
      else if m.pollOut then Returns(prev, sys.errno) else Returns(prev, 0)
    case ReadOrRecv =>
      if m.pollErr then Returns(-1, EBADF)
      else if m.pollIn || m.pollHup then
        if sys.ret < 0 && sys.again then YieldAgain else Returns(sys.ret, if sys.ret < 0 then sys.errno else 0)
      else Returns(prev, 0)
    case WriteOrSend =>
      if m.pollErr || m.pollHup then Returns(-1, EBADF)
      else if m.pollOut then
        if sys.ret < 0 && sys.again then YieldAgain else Returns(sys.ret, if sys.ret < 0 then sys.errno else 0)
      else Returns(prev, 0)
  }

  // One resumption of a suspended wrapper: the event, and what its system call would answer.
  datatype Try = Try(mask: Mask, sys: Sys)

  // The event lets the wrapper make its system call, and the call is refused for now.
  predicate TriesAgain(kind: Kind, m: Mask, sys: Sys) {
    && sys.ret < 0 && sys.again && !kind.Connect? && !m.pollErr
    && (kind.ReadOrRecv? ==> m.pollIn || m.pollHup) && (kind.WriteOrSend? ==> m.pollOut && !m.pollHup)
  }

  lemma WaitsAgain(kind: Kind, m: Mask, prev: int, sys: Sys)
    ensures Wake(kind, m, prev, sys).YieldAgain? <==> TriesAgain(kind, m, sys)
  {
  }

  // A whole call, over the resumptions it takes.
  ghost function CallResult(kind: Kind, prev: int, tries: seq<Try>): Woken
    decreases |tries|
  {
    if tries == [] then YieldAgain
    else
      var w := Wake(kind, tries[0].mask, prev, tries[0].sys);
      if w.YieldAgain? then CallResult(kind, tries[0].sys.ret, tries[1..]) else w
  }

  // What a wrapper answers to an event: a broken descriptor, what its call did, or what it held
  // before.
  function Answer(kind: Kind, m: Mask, held: int, sys: Sys): Woken
    requires !kind.Connect?
  {
    if m.pollErr || (kind.WriteOrSend? && m.pollHup) then Returns(-1, 9)
    else if (if kind.ReadOrRecv? then m.pollIn || m.pollHup else m.pollOut) then
      Returns(sys.ret, if sys.ret < 0 then sys.errno else 0)
    else Returns(held, 0)
  }

  // Every attempt but the last makes its call, which transfers nothing; the answer is that of
  // the last one, and the routine is never told to try again.
  lemma {:induction false} LastTryAnswers(kind: Kind, prev: int, tries: seq<Try>) returns (n: nat)
    requires !kind.Connect?
    ensures n <= |tries| && forall i :: 0 <= i < n ==> TriesAgain(kind, tries[i].mask, tries[i].sys)
    ensures n == |tries| <==> CallResult(kind, prev, tries).YieldAgain?
    ensures n < |tries| ==>
              && !TriesAgain(kind, tries[n].mask, tries[n].sys)
              && CallResult(kind, prev, tries) ==
                 Answer(kind, tries[n].mask, if n == 0 then prev else tries[n - 1].sys.ret, tries[n].sys)
    decreases |tries|
  {
    if tries == [] {
      n := 0;
    } else if Wake(kind, tries[0].mask, prev, tries[0].sys).YieldAgain? {
      var m := LastTryAnswers(kind, tries[0].sys.ret, tries[1..]);
      assert forall i :: 1 <= i < m + 1 ==> tries[i] == tries[1..][i - 1];
      n := m + 1;
    } else {
      n := 0;
    }
  }

  // A zero, the end of the stream for a read, is answered only if the call answered it, or if
  // zero was held and the event had none of the bits.
  lemma ZeroMeansEnd(kind: Kind, m: Mask, held: int, sys: Sys)
    requires !kind.Connect? && Answer(kind, m, held, sys).ret == 0
    ensures !m.pollErr
    ensures sys.ret == 0 || (held == 0 && !m.pollHup && !(if kind.ReadOrRecv? then m.pollIn else m.pollOut))
  {
  }

  // A call of the connect wrapper: what connect answered, and, once it is in progress, what
  // the association answered and the event that came.
  datatype Connecting = Connecting(ret: int, errno: int, inProgress: bool, assoc: int, event: Mask, soError: int)

  function ConnectCall(c: Connecting): Woken {
    if c.ret >= 0 then Returns(c.ret, 0)
    else if !c.inProgress then Returns(c.ret, c.errno)
    else if c.assoc < 0 then Returns(c.assoc, c.errno)
    else Wake(Connect, c.event, c.assoc, Sys(0, false, c.soError))
  }

  // The connection is there.
  predicate Established(c: Connecting) {
    c.ret >= 0 || (c.inProgress && c.assoc >= 0 && !c.event.pollErr && !c.event.pollHup && c.event.pollOut &&
        c.soError == 0)
  }

  // Exactly when the wrapper answers negative, and exactly when its answer is wrong: an error
  // pending on the socket, or an event without any of the bits, is answered like a success.
  lemma ConnectAnswers(c: Connecting)
    ensures ConnectCall(c).Returns?
    ensures ConnectCall(c).ret < 0 <==>
            c.ret < 0 && (!c.inProgress || c.assoc < 0 || c.event.pollErr || c.event.pollHup)
    ensures (ConnectCall(c).ret >= 0 <==> Established(c)) <==>
            !(c.ret < 0 && c.inProgress && c.assoc >= 0 && !c.event.pollErr && !c.event.pollHup &&
                (!c.event.pollOut || c.soError != 0))
    ensures var waits := c.ret < 0 && c.inProgress && c.assoc >= 0;
            && (!waits && c.ret < 0 ==> ConnectCall(c) == Returns(if c.inProgress then c.assoc else c.ret, c.errno))
            && (waits && (c.event.pollErr || c.event.pollHup) ==> ConnectCall(c) == Returns(-1, 9))
            && (ConnectCall(c).ret >= 0 && waits && c.event.pollOut ==> ConnectCall(c).errno == c.soError)
    ensures c.event.pollOut || c.event.pollErr || c.event.pollHup ==>
              (Established(c) <==> ConnectCall(c).ret >= 0 && ConnectCall(c).errno == 0)
  {
  }

  // A connection reset (error 104) between a writable event and the look at the socket's
  // error is answered with zero.
  lemma ResetConnectAnswersZero()
    ensures var c := Connecting(-1, 115, true, 0, Mask(false, true, false, false), 104);
            ConnectCall(c) == Returns(0, 104) && !Established(c)
  {
  }

  // ---------- the state ----------

  datatype Target = Listen(l: int) | Of(co: int)

  // A live routine runs its own code, is inside a wrapper with the event that resumed it,
  // or is suspended until its descriptor has an event.
  datatype Io = Running | InCall(kind: Kind, fd: int, prev: int, mask: Mask) | Waiting(kind: Kind, fd: int, prev: int)

  // Every open descriptor belongs to one party.
  datatype Home = Listener(l: int) | Queued(node: int) | Owned(co: int) | Lost

  datatype Event = Event(fd: int, target: Target, mask: Mask)

  // Where the loop goes on when the routine it resumed or started gives control back.
  datatype Back = ToBatch(evts: seq<Event>) | ToQueue(todo: seq<int>)

  datatype Phase =
    | AtWait
    | Batch(evts: seq<Event>)
    | Accepting(l: int, evts: seq<Event>)
    | Inside(co: int, back: Back)
    | Queueing(todo: seq<int>)
    | StopCheck(starved: bool)
    | Left(ret: int)
    | Crashed

  datatype Place = InQueue(l: int) | InFree

  datatype State = State(
    pool: PoolState, clock: Time,
    registry: map<int, Target>, home: map<int, Home>,
    io: map<int, Io>, conn: map<int, int>,
    listen: seq<int>, lfd: map<int, int>, queue: map<int, seq<int>>,
    nodeFd: map<int, int>, place: map<int, Place>, freeNodes: seq<int>,
    accepted: map<int, seq<int>>, started: map<int, seq<int>>,
    stopping: bool, polled: bool, phase: Phase)

  datatype Action =
    | SetStopping
    | WaitFails(ret: int)
    | WaitInterrupted
    | WaitReturns(evts: seq<Event>)
    | NextEvent
    | AcceptFails
    | AcceptDropped(fd: int, closed: bool)
    | Accept(fd: int, node: int)
    | NextQueued(addr: int, fiberOk: bool)
    | Open(fd: int)
    | Close(fd: int)
    | Call(kind: Kind, fd: int, added: bool)
    | Finish(sys: Sys)
    | Exit(now: Time)
    | Stop(now: Time, later: Time, millis: int, count: int)

  // ---------- the steps ----------

  ghost predicate DistinctFds(evts: seq<Event>) {
    forall i, j :: 0 <= i < j < |evts| ==> evts[i].fd != evts[j].fd
  }

  // The connection of a routine that ends is open and its own, or the routine closed it and
  // the number is not in use.
  ghost predicate MayClose(home: map<int, Home>, conn: map<int, int>, co: int) {
    co in conn && conn[co] in home ==> home[conn[co]] == Owned(co)
  }

  // What an action takes for granted about the kernel, the clock and the routine's manners.
  ghost predicate Enabled(s: State, a: Action) {
    match a
    case SetStopping => !s.phase.Left? && !s.phase.Crashed?
    case WaitFails(ret) => s.phase.AtWait? && ret < 0
    case WaitInterrupted => s.phase.AtWait?
    case WaitReturns(evts) =>
      s.phase.AtWait? && DistinctFds(evts) &&
      forall i :: 0 <= i < |evts| ==> evts[i].fd in s.registry && s.registry[evts[i].fd] == evts[i].target
    case NextEvent => s.phase.Batch?
    case AcceptFails => s.phase.Accepting?
    case AcceptDropped(fd, _) => s.phase.Accepting? && fd !in s.home && fd >= 0
    case Accept(fd, node) =>
      s.phase.Accepting? && fd !in s.home && fd >= 0 &&
      (if s.freeNodes != [] then node == s.freeNodes[0] else node !in s.place)
    case NextQueued(addr, _) => s.phase.Queueing? && addr !in s.pool.cos
    case Open(fd) => s.phase.Inside? && s.phase.co in s.io && s.io[s.phase.co].Running? && fd !in s.home && fd >= 0
    case Close(fd) =>
      s.phase.Inside? && s.phase.co in s.io && s.io[s.phase.co].Running? &&
      fd in s.home && s.home[fd] == Owned(s.phase.co)
    case Call(_, fd, added) =>
      s.phase.Inside? && s.phase.co in s.io && s.io[s.phase.co].Running? &&
      fd in s.home && s.home[fd] == Owned(s.phase.co) && (added ==> fd !in s.registry)
    case Finish(_) => s.phase.Inside? && s.phase.co in s.io && s.io[s.phase.co].InCall?
    case Exit(now) =>
      s.phase.Inside? && s.phase.co in s.io && s.io[s.phase.co].Running? && Clock(now) && NotAfter(s.clock, now) &&
      MayClose(s.home, s.conn, s.phase.co)
    case Stop(now, later, _, _) =>
        s.phase.StopCheck? && Clock(now) && NotAfter(s.clock, now) && Clock(later) && NotAfter(now, later)
  }

  ghost predicate HasHead(queue: map<int, seq<int>>, todo: seq<int>) {
    todo != [] && todo[0] in queue && queue[todo[0]] != []
  }

  function PhaseAfter(back: Back): Phase {
    match back
    case ToBatch(evts) => Batch(evts)
    case ToQueue(todo) => Queueing(todo)
  }

  // The routine has suspended or exited: its starter goes on, and a started connection's
  // node leaves its queue.
  ghost function GoBack(s: State, back: Back): State {
    var moves := back.ToQueue? && HasHead(s.queue, back.todo);
    s.(queue := if moves then s.queue[back.todo[0] := s.queue[back.todo[0]][1..]] else s.queue,
       freeNodes := if moves then [s.queue[back.todo[0]][0]] + s.freeNodes else s.freeNodes,
       place := if moves then s.place[s.queue[back.todo[0]][0] := InFree] else s.place,
       phase := PhaseAfter(back))
  }

  ghost predicate IsLive(p: PoolState, co: int) {
    co in p.cos && p.cos[co].status == Inited
  }

  // ef_coroutine_resume on the coroutine an event points to.
  ghost function ResumeFor(s: State, co: int, mask: Mask, rest: seq<Event>): State {
    var resumes := IsLive(s.pool, co) && co in s.io && s.io[co].Waiting?;
    s.(io := if resumes then s.io[co := InCall(s.io[co].kind, s.io[co].fd, s.io[co].prev, mask)] else s.io,
       phase := if resumes then Inside(co, ToBatch(rest))
                else if co in s.pool.cos && s.pool.cos[co].status == Exited then Batch(rest)
                else Crashed)
  }

  // ef_routine_run on the head of a queue, if a new fiber can be mapped when one is needed.
  // The pass ends starved when it could not although the pool has room.
  ghost function StartHead(s: State, todo: seq<int>, addr: int, fiberOk: bool): State
    requires todo != [] && todo[0] in s.queue && s.queue[todo[0]] != []
  {
    var l, node, co := todo[0], s.queue[todo[0]][0], Handed(s.pool, addr);
    var starts := CanCreate(s.pool, fiberOk) && node in s.nodeFd;
    s.(pool := if starts then Created(s.pool, addr) else s.pool,
       io := if starts then s.io[co := Running] else s.io,
       conn := if starts then s.conn[co := s.nodeFd[node]] else s.conn,
       home := if starts then s.home[s.nodeFd[node] := Owned(co)] else s.home,
       started := if starts then s.started[l := (if l in s.started then s.started[l] else []) + [s.nodeFd[node]]]
           else s.started,
       phase := if starts then Inside(co, ToQueue(todo)) else StopCheck(CanCreate(s.pool, true)))
  }

  // One turn of the loop over the events of a batch.
  ghost function HandleEvent(s: State, evts: seq<Event>): State {
    if evts != [] && evts[0].target.Of? then ResumeFor(s, evts[0].target.co, evts[0].mask, evts[1..])
    else s.(phase := if evts == [] then Queueing(s.listen) else Accepting(evts[0].target.l, evts[1..]))
  }

  // One turn of the loops over the listeners and their queues.
  ghost function VisitQueue(s: State, todo: seq<int>, addr: int, fiberOk: bool): State {
    if HasHead(s.queue, todo) then StartHead(s, todo, addr, fiberOk)
    else s.(phase := if todo == [] then StopCheck(false) else Queueing(todo[1..]))
  }

  ghost function ReleaseAll(home: map<int, Home>, co: int): map<int, Home> {
    map fd | fd in home :: if home[fd] == Owned(co) then Lost else home[fd]
  }

  // The listeners that stay: those with queued connections.
  ghost function Staying(listen: seq<int>, queue: map<int, seq<int>>): seq<int>
    decreases |listen|
  {
    if listen == [] then []
    else if listen[0] in queue && queue[listen[0]] != [] then [listen[0]] + Staying(listen[1..], queue)
    else Staying(listen[1..], queue)
  }

  // The listening sockets that are still open.
  ghost function OpenFds(listen: seq<int>, lfd: map<int, int>): set<int> {
    set l | l in listen && l in lfd && lfd[l] >= 0 :: lfd[l]
  }

  // The stopping branch before the pool is looked at: listening sockets are closed, idle
  // listeners and free nodes are freed.
  ghost function Closed(s: State): State {
    s.(registry := s.registry - OpenFds(s.listen, s.lfd),
       home := s.home - OpenFds(s.listen, s.lfd),
       lfd := map l | l in s.lfd :: if l in s.listen then -1 else s.lfd[l],
       listen := Staying(s.listen, s.queue),
       queue := map l | l in s.queue && s.queue[l] != [] :: s.queue[l],
       place := map n | n in s.place && s.place[n].InQueue? :: s.place[n],
       freeNodes := [])
  }

  ghost function Trimmed(s: State, now: Time, millis: int, count: int): State {
    var shrinks := s.pool.freeCount > 0 && s.pool.fullCount > s.pool.limitMin;
    s.(pool := if shrinks then Shrunk(s.pool, millis, count, now) else s.pool, clock := now, phase := AtWait)
  }

  ghost function Step(s: State, a: Action): State {
    match a
    case SetStopping => s.(stopping := true)
    case WaitFails(ret) => s.(phase := Left(ret))
    case WaitInterrupted => s.(phase := Queueing(s.listen))
    case WaitReturns(evts) => s.(phase := Batch(evts))
    case NextEvent => if s.phase.Batch? then HandleEvent(s, s.phase.evts) else s
    case AcceptFails => if s.phase.Accepting? then s.(phase := Batch(s.phase.evts)) else s
    case AcceptDropped(fd, closed) =>
      if s.phase.Accepting? then s.(home := if closed then s.home
          else s.home[fd := Lost], phase := Batch(s.phase.evts)) else s
    case Accept(fd, node) =>
      if !s.phase.Accepting? then s
      else
        var l := s.phase.l;
        s.(freeNodes := if s.freeNodes != [] then s.freeNodes[1..] else [],
           nodeFd := s.nodeFd[node := fd], place := s.place[node := InQueue(l)], home := s.home[fd := Queued(node)],
           queue := s.queue[l := (if l in s.queue then s.queue[l] else []) + [node]],
           accepted := s.accepted[l := (if l in s.accepted then s.accepted[l] else []) + [fd]])
    case NextQueued(addr, fiberOk) => if s.phase.Queueing? then VisitQueue(s, s.phase.todo, addr, fiberOk) else s
    case Open(fd) => if s.phase.Inside? then s.(home := s.home[fd := Owned(s.phase.co)]) else s
    case Close(fd) => s.(home := s.home - {fd}, registry := s.registry - {fd})
    case Call(kind, fd, added) =>
      if !s.phase.Inside? || !added then s
      else GoBack(s.(registry := s.registry[fd := Of(s.phase.co)], io := s.io[s.phase.co := Waiting(kind, fd, 0)]),
          s.phase.back)
    case Finish(sys) =>
      if !s.phase.Inside? || s.phase.co !in s.io || !s.io[s.phase.co].InCall? then s
      else
        var co, c := s.phase.co, s.io[s.phase.co];
        if Wake(c.kind, c.mask, c.prev, sys).YieldAgain? then
          GoBack(s.(io := s.io[co := Waiting(c.kind, c.fd, sys.ret)]), s.phase.back)
        else s.(registry := s.registry - {c.fd}, io := s.io[co := Running])
    case Exit(now) =>
      if !s.phase.Inside? || s.phase.co !in s.pool.cos || s.phase.co !in s.conn then s
      else
        var co, fd := s.phase.co, s.conn[s.phase.co];
        GoBack(s.(registry := s.registry - {fd}, home := ReleaseAll(s.home - {fd}, co), io := s.io - {co}, conn :=
            s.conn - {co},
                  pool := Finished(s.pool, co, now), clock := now), s.phase.back)
    case Stop(now, later, millis, count) =>
      if !s.stopping then Trimmed(s, later, millis, count)
      else
        var t := Closed(s);
        if t.pool.freeCount == t.pool.fullCount then
          t.(polled := false, pool := Shrunk(t.pool, 0, -t.pool.fullCount, now), clock := now, phase := Left(0))
        else Trimmed(t.(pool := Shrunk(t.pool, 0, -t.pool.freeCount, now)), later, millis, count)
  }

  // ---------- what every reachable state keeps ----------

  // Live coroutines are the started and unfinished ones, each with its connection.
  ghost predicate LiveInv(p: PoolState, io: map<int, Io>, conn: map<int, int>) {
    && (forall co :: co in io <==> IsLive(p, co))
    && (forall co :: co in io ==> co in conn)
  }

  ghost predicate PoolInv(p: PoolState, clock: Time) {
    Good(p) && Clock(clock) && Ordered(p, clock)
  }

  // All live coroutines but the one inside are suspended.
  ghost predicate SuspendedInv(io: map<int, Io>, phase: Phase) {
    && (forall co :: co in io && !io[co].Waiting? ==> phase.Inside? && phase.co == co)
    && (phase.Inside? ==> phase.co in io && !io[phase.co].Waiting?)
    && !phase.Crashed?
  }

  // The registered descriptors are the listening ones and, one to one, those that the
  // suspended coroutines wait on.
  ghost predicate RegInv(registry: map<int, Target>, home: map<int, Home>, io: map<int, Io>) {
    && (forall fd :: fd in registry ==> fd in home)
    && (forall fd :: fd in registry && registry[fd].Of? ==>
          registry[fd].co in io && !io[registry[fd].co].Running? && io[registry[fd].co].fd == fd &&
              home[fd] == Owned(registry[fd].co))
    && (forall co :: co in io && !io[co].Running? ==> io[co].fd in registry && registry[io[co].fd] == Of(co))
  }

  // Listening sockets belong to their listeners until they are closed.
  ghost predicate ListenInv(registry: map<int, Target>, home: map<int, Home>, listen: seq<int>, lfd: map<int, int>) {
    && (forall l :: l in listen ==> l in lfd && (lfd[l] >= 0 ==> lfd[l] in home && home[lfd[l]] == Listener(l)))
    && (forall fd :: fd in registry && registry[fd].Listen? ==>
          registry[fd].l in listen && registry[fd].l in lfd && lfd[registry[fd].l] == fd && fd >= 0)
  }

  function EventsOf(p: Phase): seq<Event> {
    if p.Batch? || p.Accepting? then p.evts
    else if p.Inside? && p.back.ToBatch? then p.back.evts
    else []
  }

  // Events still to be handled point to parties that are still registered for them.
  ghost predicate EvtInv(registry: map<int, Target>, listen: seq<int>, phase: Phase) {
    var evts := EventsOf(phase);
    && DistinctFds(evts)
    && (forall i :: 0 <= i < |evts| ==> evts[i].fd in registry && registry[evts[i].fd] == evts[i].target)
    && (phase.Inside? ==> forall i :: 0 <= i < |evts| ==> evts[i].target != Of(phase.co))
    && (phase.Accepting? ==> phase.l in listen)
  }

  ghost predicate Inv(s: State) {
    && PoolInv(s.pool, s.clock)
    && LiveInv(s.pool, s.io, s.conn)
    && SuspendedInv(s.io, s.phase)
    && RegInv(s.registry, s.home, s.io)
    && ListenInv(s.registry, s.home, s.listen, s.lfd)
    && EvtInv(s.registry, s.listen, s.phase)
  }

  // Giving control back moves at most a queue node.
  lemma GoBackFields(s: State, back: Back)
    ensures var t := GoBack(s, back);
            && t.pool == s.pool && t.clock == s.clock && t.registry == s.registry && t.home == s.home &&
                t.io == s.io && t.conn == s.conn
            && t.listen == s.listen && t.lfd == s.lfd && t.phase == PhaseAfter(back)
  {
    hide HasHead;
  }

  lemma EventsGoBack(registry: map<int, Target>, listen: seq<int>, co: int, back: Back)
    requires EvtInv(registry, listen, Inside(co, back))
    ensures EvtInv(registry, listen, PhaseAfter(back))
  {
  }

  // ---------- one lemma an action ----------

  // The routine suspends or exits: the loop is at one of its own places again.
  lemma GoBackKeeps(s: State, co: int, back: Back)
    requires PoolInv(s.pool, s.clock) && LiveInv(s.pool, s.io, s.conn) && RegInv(s.registry, s.home, s.io)
    requires ListenInv(s.registry, s.home, s.listen, s.lfd) && EvtInv(s.registry, s.listen, Inside(co, back))
    requires forall c :: c in s.io ==> s.io[c].Waiting?
    ensures Inv(GoBack(s, back))
  {
    hide PoolInv, LiveInv, RegInv, ListenInv, EvtInv, GoBack;
    GoBackFields(s, back);
    EventsGoBack(s.registry, s.listen, co, back);
  }

  lemma Registers(registry: map<int, Target>, home: map<int, Home>, io: map<int, Io>, co: int, kind: Kind, fd: int)
    requires RegInv(registry, home, io) && co in io && io[co].Running? && fd !in registry && fd in home &&
            home[fd] == Owned(co)
    ensures RegInv(registry[fd := Of(co)], home, io[co := Waiting(kind, fd, 0)])
  {
  }

  lemma CallKeeps(s: State, kind: Kind, fd: int, added: bool)
    requires Inv(s) && Enabled(s, Call(kind, fd, added))
    ensures Inv(Step(s, Call(kind, fd, added)))
  {
    hide PoolInv, RegInv, GoBack;
    if added {
      var co := s.phase.co;
      Registers(s.registry, s.home, s.io, co, kind, fd);
      var t := s.(registry := s.registry[fd := Of(co)], io := s.io[co := Waiting(kind, fd, 0)]);
      assert LiveInv(t.pool, t.io, t.conn);
      assert ListenInv(t.registry, t.home, t.listen, t.lfd);
      assert EvtInv(t.registry, t.listen, t.phase);
      GoBackKeeps(t, co, s.phase.back);
    }
  }

  lemma WaitAgainKeeps(s: State, sys: Sys)
    requires Inv(s) && Enabled(s, Finish(sys))
    ensures var co, c := s.phase.co, s.io[s.phase.co];
            Inv(GoBack(s.(io := s.io[co := Waiting(c.kind, c.fd, sys.ret)]), s.phase.back))
  {
    hide PoolInv;
    var co, c := s.phase.co, s.io[s.phase.co];
    var t := s.(io := s.io[co := Waiting(c.kind, c.fd, sys.ret)]);
    assert RegInv(t.registry, t.home, t.io) && LiveInv(t.pool, t.io, t.conn);
    GoBackKeeps(t, co, s.phase.back);
  }

  lemma ReturnKeeps(s: State, sys: Sys)
    requires Inv(s) && Enabled(s, Finish(sys))
    ensures var co, c := s.phase.co, s.io[s.phase.co];
            Inv(s.(registry := s.registry - {c.fd}, io := s.io[co := Running]))
  {
    hide PoolInv;
    var co, c := s.phase.co, s.io[s.phase.co];
    var registry, io := s.registry - {c.fd}, s.io[co := Running];
    assert RegInv(registry, s.home, io) && LiveInv(s.pool, io, s.conn) && SuspendedInv(io, s.phase);
    assert ListenInv(registry, s.home, s.listen, s.lfd);
    assert EvtInv(registry, s.listen, s.phase);
    hide LiveInv, SuspendedInv, RegInv, ListenInv, EvtInv;
  }

  lemma FinishKeeps(s: State, sys: Sys)
    requires Inv(s) && Enabled(s, Finish(sys))
    ensures Inv(Step(s, Finish(sys)))
  {
    hide Inv, Wake, GoBack;
    WaitAgainKeeps(s, sys);
    ReturnKeeps(s, sys);
  }

  lemma OpenKeeps(s: State, fd: int)
    requires Inv(s) && Enabled(s, Open(fd))
    ensures Inv(Step(s, Open(fd)))
  {
    hide PoolInv, SuspendedInv, EvtInv;
  }

  lemma CloseKeeps(s: State, fd: int)
    requires Inv(s) && Enabled(s, Close(fd))
    ensures Inv(Step(s, Close(fd)))
  {
    hide PoolInv, SuspendedInv, EvtInv;
    assert fd !in s.registry;
    assert s.registry - {fd} == s.registry;
    OwnedGoes(s, fd);
    hide LiveInv, RegInv, ListenInv;
  }

  lemma OwnedGoes(s: State, fd: int)
    requires RegInv(s.registry, s.home, s.io) && ListenInv(s.registry, s.home, s.listen, s.lfd)
    requires fd !in s.registry && fd in s.home && s.home[fd].Owned?
    ensures RegInv(s.registry, s.home - {fd}, s.io)
    ensures ListenInv(s.registry, s.home - {fd}, s.listen, s.lfd)
  {
  }

  lemma HomeGrows(s: State, fd: int, h: Home)
    requires RegInv(s.registry, s.home, s.io) && ListenInv(s.registry, s.home, s.listen, s.lfd)
    requires fd !in s.home
    ensures RegInv(s.registry, s.home[fd := h], s.io)
    ensures ListenInv(s.registry, s.home[fd := h], s.listen, s.lfd)
  {
  }

  lemma AcceptKeeps(s: State, a: Action)
    requires Inv(s) && Enabled(s, a) && (a.Accept? || a.AcceptFails? || a.AcceptDropped?)
    ensures Inv(Step(s, a))
  {
    hide PoolInv, LiveInv, RegInv, ListenInv;
    if a.AcceptDropped? {
      HomeGrows(s, a.fd, Lost);
    } else if a.Accept? {
      HomeGrows(s, a.fd, Queued(a.node));
    }
  }

  lemma WaitKeeps(s: State, a: Action)
    requires Inv(s) && Enabled(s, a) && (a.WaitFails? || a.WaitInterrupted? || a.WaitReturns? || a.SetStopping?)
    ensures Inv(Step(s, a))
  {
    hide PoolInv, LiveInv, RegInv, ListenInv;
  }

  // The event of a batch always finds its coroutine suspended on the event's descriptor,
  // never exited, free or deleted.
  lemma EventFindsWaiter(s: State)
    requires Inv(s) && s.phase.Batch? && s.phase.evts != [] && s.phase.evts[0].target.Of?
    ensures var e := s.phase.evts[0];
            IsLive(s.pool, e.target.co) && e.target.co in s.io && s.io[e.target.co].Waiting? &&
                s.io[e.target.co].fd == e.fd
  {
    hide PoolInv;
    var e := s.phase.evts[0];
    assert s.registry[e.fd] == e.target;
  }

  lemma EventsPop(registry: map<int, Target>, listen: seq<int>, evts: seq<Event>, phase: Phase)
    requires EvtInv(registry, listen, Batch(evts)) && evts != [] && EventsOf(phase) == evts[1..]
    requires phase.Accepting? ==> phase.l in listen
    requires phase.Inside? ==> evts[0].target == Of(phase.co)
    requires forall fd, fd' ::
            fd in registry && fd' in registry && registry[fd].Of? && registry[fd] == registry[fd'] ==> fd == fd'
    ensures EvtInv(registry, listen, phase)
  {
    forall i | 0 <= i < |evts[1..]| && phase.Inside? ensures evts[1..][i].target != Of(phase.co) {
      assert evts[1..][i] == evts[i + 1] && evts[i + 1].fd != evts[0].fd;
    }
  }

  lemma ResumeKeeps(s: State)
    requires Inv(s) && s.phase.Batch? && s.phase.evts != [] && s.phase.evts[0].target.Of?
    ensures var e := s.phase.evts[0];
            Inv(ResumeFor(s, e.target.co, e.mask, s.phase.evts[1..])) &&
                ResumeFor(s, e.target.co, e.mask, s.phase.evts[1..]).phase.Inside?
  {
    hide PoolInv;
    var e, rest := s.phase.evts[0], s.phase.evts[1..];
    var co := e.target.co;
    EventFindsWaiter(s);
    var io := s.io[co := InCall(s.io[co].kind, s.io[co].fd, s.io[co].prev, e.mask)];
    assert RegInv(s.registry, s.home, io) && LiveInv(s.pool, io, s.conn) && SuspendedInv(io, Inside(co, ToBatch(rest)));
    OneToOne(s.registry, s.home, s.io);
    hide LiveInv, SuspendedInv, RegInv, ListenInv;
    EventsPop(s.registry, s.listen, s.phase.evts, Inside(co, ToBatch(rest)));
  }

  lemma ListenEventKeeps(s: State)
    requires Inv(s) && s.phase.Batch? && s.phase.evts != [] && s.phase.evts[0].target.Listen?
    ensures Inv(s.(phase := Accepting(s.phase.evts[0].target.l, s.phase.evts[1..])))
  {
    var evts := s.phase.evts;
    assert s.registry[evts[0].fd] == evts[0].target;
    OneToOne(s.registry, s.home, s.io);
    hide PoolInv, LiveInv, RegInv;
    EventsPop(s.registry, s.listen, evts, Accepting(evts[0].target.l, evts[1..]));
  }

  lemma NextEventKeeps(s: State)
    requires Inv(s) && s.phase.Batch?
    ensures Inv(Step(s, NextEvent))
  {
    hide PoolInv, LiveInv, RegInv, ListenInv, ResumeFor;
    if s.phase.evts != [] {
      if s.phase.evts[0].target.Of? {
        ResumeKeeps(s);
      } else {
        ListenEventKeeps(s);
      }
    }
  }

  lemma OneToOne(registry: map<int, Target>, home: map<int, Home>, io: map<int, Io>)
    requires RegInv(registry, home, io)
    ensures forall fd, fd' ::
            fd in registry && fd' in registry && registry[fd].Of? && registry[fd] == registry[fd'] ==> fd == fd'
  {
  }

  // ---------- exit, start and stop ----------

  lemma ReleaseKeeps(s: State, co: int, now: Time)
    requires Inv(s) && Enabled(s, Exit(now)) && co == s.phase.co
    ensures co in s.pool.cos && s.pool.cos[co].status == Inited && co in s.conn
    ensures var fd := s.conn[co]; var home, io := ReleaseAll(s.home - {fd}, co), s.io - {co};
            && s.registry - {fd} == s.registry && RegInv(s.registry, home, io)
            && LiveInv(Finished(s.pool, co, now), io, s.conn - {co})
            && ListenInv(s.registry, home, s.listen, s.lfd)
  {
    hide PoolInv, EvtInv;
    var fd := s.conn[co];
    assert fd !in s.registry;
    assert s.registry - {fd} == s.registry;
    hide ListenInv;
    Releases(s, co, fd);
  }

  lemma Releases(s: State, co: int, fd: int)
    requires RegInv(s.registry, s.home, s.io) && ListenInv(s.registry, s.home, s.listen, s.lfd)
    requires co in s.io && s.io[co].Running? && (fd in s.home ==> s.home[fd] == Owned(co))
    ensures RegInv(s.registry, ReleaseAll(s.home - {fd}, co), s.io - {co})
    ensures ListenInv(s.registry, ReleaseAll(s.home - {fd}, co), s.listen, s.lfd)
  {
  }

  // Without that condition: when a routine closed its connection itself and the number is in
  // use again, ef_proc closes it once more, and takes away another routine's registration
  // exactly if that routine waits on it.
  lemma SecondCloseSteals(s: State, now: Time)
    requires Inv(s) && s.phase.Inside? && s.phase.co in s.io && s.io[s.phase.co].Running?
    ensures s.phase.co in s.conn
    ensures var t, fd := Step(s, Exit(now)), s.conn[s.phase.co];
            (forall c :: c in t.io && !t.io[c].Running? ==> t.io[c].fd in t.registry) <==>
                !(fd in s.registry && s.registry[fd].Of?)
  {
    hide PoolInv, ListenInv, EvtInv, GoBack, ReleaseAll, Finished;
    var co := s.phase.co;
    assert IsLive(s.pool, co) && co in s.pool.cos;
    var fd := s.conn[co];
    GoBackFields(s.(registry := s.registry - {fd}, home := ReleaseAll(s.home - {fd}, co), io := s.io - {co}, conn :=
        s.conn - {co},
                    pool := Finished(s.pool, co, now), clock := now), s.phase.back);
    OthersWait(s, co, fd);
    var t := Step(s, Exit(now));
    assert t.io == s.io - {co};
    assert t.registry == s.registry - {fd};
  }

  lemma OthersWait(s: State, co: int, fd: int)
    requires RegInv(s.registry, s.home, s.io) && co in s.io && s.io[co].Running?
    ensures var io, registry := s.io - {co}, s.registry - {fd};
            (forall c :: c in io && !io[c].Running? ==> io[c].fd in registry) <==>
                !(fd in s.registry && s.registry[fd].Of?)
  {
    if fd in s.registry && s.registry[fd].Of? {
      var c := s.registry[fd].co;
      assert c in s.io - {co} && s.io[c].fd == fd;
    }
  }

  // The end of a routine takes a descriptor that is not its own.
  ghost predicate TakesOthers(home: map<int, Home>, home': map<int, Home>, co: int) {
    exists fd :: fd in home && home[fd] != Owned(co) && fd !in home'
  }

  // Whatever the number stands for, a connection still queued, a listening socket or the
  // descriptor of another routine, its owner loses it exactly if the condition fails.
  lemma SecondCloseTakes(s: State, now: Time)
    requires Inv(s) && s.phase.Inside? && s.phase.co in s.io && s.io[s.phase.co].Running?
    ensures TakesOthers(s.home, Step(s, Exit(now)).home, s.phase.co) <==> !MayClose(s.home, s.conn, s.phase.co)
  {
    hide PoolInv, RegInv, ListenInv, EvtInv, GoBack, ReleaseAll, Finished;
    var co := s.phase.co;
    assert IsLive(s.pool, co) && co in s.pool.cos;
    var fd := s.conn[co];
    GoBackFields(s.(registry := s.registry - {fd}, home := ReleaseAll(s.home - {fd}, co), io := s.io - {co}, conn :=
        s.conn - {co},
                    pool := Finished(s.pool, co, now), clock := now), s.phase.back);
    ReleaseTakes(s.home, co, fd);
  }

  lemma ReleaseTakes(home: map<int, Home>, co: int, fd: int)
    ensures TakesOthers(home, ReleaseAll(home - {fd}, co), co) <==> fd in home && home[fd] != Owned(co)
  {
    var home' := ReleaseAll(home - {fd}, co);
    assert home'.Keys == home.Keys - {fd};
    if fd in home && home[fd] != Owned(co) {
      assert fd !in home';
    }
  }

  lemma ExitKeeps(s: State, now: Time)
    requires Inv(s) && Enabled(s, Exit(now))
    ensures Inv(Step(s, Exit(now)))
  {
    hide LiveInv, RegInv, ListenInv, EvtInv, GoBack, ReleaseAll, Finished, Good, Ordered;
    var co := s.phase.co;
    ReleaseKeeps(s, co, now);
    var fd := s.conn[co];
    FinishedKeepsGood(s.pool, co, now);
    FinishedKeepsOrder(s.pool, co, s.clock, now);
    var t := s.(registry := s.registry - {fd}, home := ReleaseAll(s.home - {fd}, co), io := s.io - {co}, conn :=
        s.conn - {co},
                pool := Finished(s.pool, co, now), clock := now);
    GoBackKeeps(t, co, s.phase.back);
  }

  // What the start of a routine takes from the queues: the head's descriptor is the node's.
  ghost predicate HeadQueued(s: State) {
    s.phase.Queueing? && HasHead(s.queue, s.phase.todo) ==>
      var node := s.queue[s.phase.todo[0]][0];
      node in s.nodeFd && s.nodeFd[node] in s.home && s.home[s.nodeFd[node]] == Queued(node)
  }

  lemma StartKeepsLive(s: State, addr: int, fiberOk: bool)
    requires Inv(s) && Enabled(s, NextQueued(addr, fiberOk)) && HeadQueued(s) && HasHead(s.queue, s.phase.todo) &&
            CanCreate(s.pool, fiberOk)
    ensures PoolInv(Created(s.pool, addr), s.clock)
    ensures var fd, co := s.nodeFd[s.queue[s.phase.todo[0]][0]], Handed(s.pool, addr);
            co !in s.io && LiveInv(Created(s.pool, addr), s.io[co := Running], s.conn[co := fd])
  {
    hide RegInv, ListenInv, EvtInv, Good, Ordered, Created, Handed;
    assert s.pool.freeCount >= 0 by { FreeCountNat(s.pool); }
    CreatedKeepsGood(s.pool, addr);
    CreatedKeepsOrder(s.pool, addr, s.clock);
    CreatedOthers(s.pool, addr);
  }

  lemma FreeCountNat(p: PoolState)
    requires Good(p)
    ensures p.freeCount >= 0
  {
  }

  lemma CreatedOthers(p: PoolState, addr: int)
    ensures forall c :: c in Created(p, addr).cos ==> c in p.cos || c == Handed(p, addr)
  {
  }

  lemma Runs(io: map<int, Io>, phase: Phase, co: int, back: Back)
    requires SuspendedInv(io, phase) && !phase.Inside? && co !in io
    ensures SuspendedInv(io[co := Running], Inside(co, back))
  {
  }

  // A queued connection goes to a new coroutine.
  lemma Gives(s: State, fd: int, co: int)
    requires RegInv(s.registry, s.home, s.io) && ListenInv(s.registry, s.home, s.listen, s.lfd)
    requires fd in s.home && s.home[fd].Queued? && co !in s.io
    ensures RegInv(s.registry, s.home[fd := Owned(co)], s.io[co := Running])
    ensures ListenInv(s.registry, s.home[fd := Owned(co)], s.listen, s.lfd)
  {
  }

  lemma StartKeeps(s: State, addr: int, fiberOk: bool)
    requires Inv(s) && Enabled(s, NextQueued(addr, fiberOk)) && HeadQueued(s) && HasHead(s.queue, s.phase.todo)
    ensures Inv(StartHead(s, s.phase.todo, addr, fiberOk))
  {
    hide PoolInv, LiveInv, Created, Handed;
    if CanCreate(s.pool, fiberOk) {
      StartKeepsLive(s, addr, fiberOk);
      var node := s.queue[s.phase.todo[0]][0];
      var fd, co := s.nodeFd[node], Handed(s.pool, addr);
      Gives(s, fd, co);
      hide RegInv, ListenInv, SuspendedInv;
      assert SuspendedInv(s.io[co := Running], Inside(co, ToQueue(s.phase.todo))) by
          { Runs(s.io, s.phase, co, ToQueue(s.phase.todo)); }
    }
  }

  // The loop goes on to another of its own places.
  lemma LoopKeeps(s: State, phase: Phase)
    requires Inv(s) && (s.phase.Queueing? || s.phase.StopCheck?)
    requires phase.Queueing? || phase.StopCheck? || phase.AtWait? || phase.Left?
    ensures Inv(s.(phase := phase))
  {
    hide PoolInv, LiveInv, RegInv, ListenInv;
  }

  lemma NextQueuedKeeps(s: State, addr: int, fiberOk: bool)
    requires Inv(s) && Enabled(s, NextQueued(addr, fiberOk)) && HeadQueued(s)
    ensures Inv(Step(s, NextQueued(addr, fiberOk)))
  {
    hide Inv, StartHead, HeadQueued, HasHead;
    if HasHead(s.queue, s.phase.todo) {
      StartKeeps(s, addr, fiberOk);
    } else if s.phase.todo == [] {
      LoopKeeps(s, StopCheck(false));
    } else {
      LoopKeeps(s, Queueing(s.phase.todo[1..]));
    }
  }

  lemma NotAfterTrans(a: Time, b: Time, c: Time)
    requires NotAfter(a, b) && NotAfter(b, c)
    ensures NotAfter(a, c)
  {
  }

  lemma LaterOrdered(p: PoolState, clock: Time, now: Time)
    requires Ordered(p, clock) && NotAfter(clock, now)
    ensures Ordered(p, now)
  {
  }

  // Shrinking deletes no live coroutine.
  lemma ShrunkKeeps(p: PoolState, clock: Time, millis: int, count: int, now: Time)
    requires PoolInv(p, clock) && Clock(now) && NotAfter(clock, now)
    ensures PoolInv(p, now) && PoolInv(Shrunk(p, millis, count, now), now)
    ensures forall co :: IsLive(p, co) <==> IsLive(Shrunk(p, millis, count, now), co)
  {
    hide Good, Ordered, Cut, Tail, Budget;
    ShrinkDeletesOnlyExited(p, millis, count, now);
    LaterOrdered(p, clock, now);
    CutKeepsOrder(p, Freed(p, millis, count, now), now);
  }

  lemma {:induction false} StayingMembers(listen: seq<int>, queue: map<int, seq<int>>)
    ensures forall l :: l in Staying(listen, queue) <==> l in listen && l in queue && queue[l] != []
    decreases |listen|
  {
    if listen != [] {
      StayingMembers(listen[1..], queue);
      assert forall l :: l in listen <==> l == listen[0] || l in listen[1..];
    }
  }

  lemma OpenFdsListen(s: State)
    requires ListenInv(s.registry, s.home, s.listen, s.lfd)
    ensures forall fd :: fd in OpenFds(s.listen, s.lfd) ==> fd in s.home && s.home[fd].Listener?
    ensures forall fd :: fd in s.registry && s.registry[fd].Listen? ==> fd in OpenFds(s.listen, s.lfd)
  {
  }

  lemma ListenersGo(s: State, fds: set<int>)
    requires RegInv(s.registry, s.home, s.io)
    requires forall fd :: fd in fds ==> fd in s.home && s.home[fd].Listener?
    ensures RegInv(s.registry - fds, s.home - fds, s.io)
  {
    forall co | co in s.io && !s.io[co].Running? ensures s.io[co].fd !in fds {
      var fd := s.io[co].fd;
      assert s.registry[fd] == Of(co);
      assert !s.home[fd].Listener?;
    }
  }

  lemma ClosedListens(s: State)
    requires ListenInv(s.registry, s.home, s.listen, s.lfd)
    ensures var t := Closed(s); ListenInv(t.registry, t.home, t.listen, t.lfd) && forall fd :: fd in t.registry ==>
            t.registry[fd].Of?
  {
    hide Staying, OpenFds;
    OpenFdsListen(s);
    StayingMembers(s.listen, s.queue);
  }

  lemma ClosedKeeps(s: State)
    requires Inv(s) && s.phase.StopCheck?
    ensures Inv(Closed(s))
    ensures forall fd :: fd in Closed(s).registry ==> Closed(s).registry[fd].Of?
  {
    hide PoolInv, Staying, LiveInv, RegInv, ListenInv, OpenFds;
    StayingMembers(s.listen, s.queue);
    OpenFdsListen(s);
    ListenersGo(s, OpenFds(s.listen, s.lfd));
    ClosedListens(s);
  }

  // Only the pool, the clock and the phase change, from one place of the loop to another.
  lemma PoolChanges(s: State, pool: PoolState, clock: Time, phase: Phase, polled: bool)
    requires Inv(s) && s.phase.StopCheck? && (phase.AtWait? || phase.StopCheck? || phase.Left?) && PoolInv(pool, clock)
    requires forall co :: IsLive(s.pool, co) <==> IsLive(pool, co)
    ensures Inv(s.(pool := pool, clock := clock, phase := phase, polled := polled))
  {
    hide PoolInv, IsLive, RegInv, ListenInv;
  }

  lemma PoolOf(s: State)
    requires Inv(s)
    ensures PoolInv(s.pool, s.clock)
  {
    hide PoolInv, LiveInv, SuspendedInv, RegInv, ListenInv, EvtInv;
  }

  lemma TrimmedKeeps(s: State, now: Time, millis: int, count: int)
    requires Inv(s) && s.phase.StopCheck? && Clock(now) && NotAfter(s.clock, now)
    ensures Inv(Trimmed(s, now, millis, count))
  {
    hide Inv, PoolInv, IsLive, Shrunk, Clock, NotAfter;
    PoolOf(s);
    ShrunkKeeps(s.pool, s.clock, millis, count, now);
    if s.pool.freeCount > 0 && s.pool.fullCount > s.pool.limitMin {
      PoolChanges(s, Shrunk(s.pool, millis, count, now), now, AtWait, s.polled);
    } else {
      PoolChanges(s, s.pool, now, AtWait, s.polled);
    }
  }

  // The stopping branch with the listening sockets closed.
  lemma ReclaimKeeps(t: State, now: Time, later: Time, millis: int, count: int)
    requires Inv(t) && t.phase.StopCheck? && Clock(now) && NotAfter(t.clock, now) && Clock(later) &&
            NotAfter(now, later)
    ensures Inv(t.(pool := Shrunk(t.pool, 0, -t.pool.fullCount, now), clock := now, phase := Left(0), polled := false))
    ensures Inv(Trimmed(t.(pool := Shrunk(t.pool, 0, -t.pool.freeCount, now)), later, millis, count))
  {
    hide Inv, PoolInv, IsLive, Shrunk, Trimmed, Clock, NotAfter;
    PoolOf(t);
    ShrunkKeeps(t.pool, t.clock, 0, -t.pool.fullCount, now);
    PoolChanges(t, Shrunk(t.pool, 0, -t.pool.fullCount, now), now, Left(0), false);
    ShrunkKeeps(t.pool, t.clock, 0, -t.pool.freeCount, now);
    PoolChanges(t, Shrunk(t.pool, 0, -t.pool.freeCount, now), now, t.phase, t.polled);
    var u := t.(pool := Shrunk(t.pool, 0, -t.pool.freeCount, now), clock := now, phase := t.phase, polled := t.polled);
    TrimmedKeeps(u, later, millis, count);
    TrimmedClock(u, t.clock, later, millis, count);
  }

  lemma TrimmedClock(s: State, clock: Time, now: Time, millis: int, count: int)
    ensures Trimmed(s, now, millis, count) == Trimmed(s.(clock := clock), now, millis, count)
  {
    hide Shrunk;
  }

  lemma StopKeeps(s: State, now: Time, later: Time, millis: int, count: int)
    requires Inv(s) && Enabled(s, Stop(now, later, millis, count))
    ensures Inv(Step(s, Stop(now, later, millis, count)))
  {
    hide Inv, Shrunk, Trimmed, Closed, Clock, NotAfter;
    NotAfterTrans(s.clock, now, later);
    if s.stopping {
      ClosedKeeps(s);
      ClosedFields(s);
      ReclaimKeeps(Closed(s), now, later, millis, count);
    } else {
      TrimmedKeeps(s, later, millis, count);
    }
  }

  lemma ClosedFields(s: State)
    ensures Closed(s).pool == s.pool && Closed(s).clock == s.clock && Closed(s).phase == s.phase && Closed(s).io == s.io
  {
    hide Staying, OpenFds;
  }
}
