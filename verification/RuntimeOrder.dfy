/**
  The event loop told by its actions: which events a batch handles, in which order a round
  goes through its parts, what a routine's actions do, and how the pool is trimmed.
 */
module RuntimeOrder {
  import opened Pool
  import opened Runtime
  import opened RuntimeRuns

  // ---------- the order of a round ----------

  // The parts a round goes through, with what is left to do in each.
  ghost predicate Follows(p: Phase, q: Phase, listen: seq<int>, queue: map<int, seq<int>>) {
    match p
    case AtWait => q.AtWait? || q.Batch? || q == Queueing(listen) || q.Left?
    case Batch(evts) =>
      if evts == [] then q == p || q == Queueing(listen)
      else
        || q == p
        || (evts[0].target.Listen? && q == Accepting(evts[0].target.l, evts[1..]))
        || (evts[0].target.Of? && q == Inside(evts[0].target.co, ToBatch(evts[1..])))
    case Accepting(_, evts) => q == p || q == Batch(evts)
    case Inside(_, ToBatch(evts)) => q == p || q == Batch(evts)
    case Inside(_, ToQueue(todo)) => q == p || q == Queueing(todo)
    case Queueing(todo) =>
      || q == p
      || (todo == [] && q == StopCheck(false))
      || (todo != [] && (todo[0] !in queue || queue[todo[0]] == []) && q == Queueing(todo[1..]))
      || (todo != [] && todo[0] in queue && queue[todo[0]] != [] &&
            (q.StopCheck? || (q.Inside? && q.back == ToQueue(todo))))
    case StopCheck(_) => q == p || q.AtWait? || q == Left(0)
    case Left(_) => q == p
    case Crashed => false
  }

  // A step goes on, unless only the wish to stop is noted, another connection is accepted,
  // or a routine runs on.
  ghost predicate Goes(p: Phase, a: Action, q: Phase, listen: seq<int>, queue: map<int, seq<int>>) {
    && Follows(p, q, listen, queue)
    && (q == p ==> a.SetStopping? || a.Accept? || p.Inside?)
    && (a.SetStopping? || a.Accept? ==> q == p)
    && (a.WaitReturns? ==> q == Batch(a.evts))
    && (a.WaitFails? ==> q == Left(a.ret))
    && (a.WaitInterrupted? ==> q == Queueing(listen))
  }

  // The phase of the next state.
  ghost predicate StepGoes(s: State, a: Action) {
    Goes(s.phase, a, Step(s, a).phase, s.listen, s.queue)
  }

  lemma EventGoes(s: State)
    requires Inv(s) && s.phase.Batch?
    ensures StepGoes(s, NextEvent)
  {
    if s.phase.evts != [] && s.phase.evts[0].target.Of? {
      EventFindsWaiter(s);
      EventResumes(s, s.phase.evts);
      ResumePhase(s, s.phase.evts[0].target.co, s.phase.evts[0].mask, s.phase.evts[1..]);
    } else {
      EventPhase(s, s.phase.evts);
    }
    hide Inv, HandleEvent, ResumeFor, Goes, StepGoes;
    EventFollows(s.phase.evts, Step(s, NextEvent).phase, s.listen, s.queue);
    StepGoesIs(s, NextEvent);
  }

  lemma StepGoesIs(s: State, a: Action)
    ensures StepGoes(s, a) <==> Goes(s.phase, a, Step(s, a).phase, s.listen, s.queue)
  {
    hide Goes, Step;
  }

  lemma EventFollows(evts: seq<Event>, q: Phase, listen: seq<int>, queue: map<int, seq<int>>)
    requires q == if evts == [] then Queueing(listen)
                  else if evts[0].target.Of? then Inside(evts[0].target.co, ToBatch(evts[1..]))
                  else Accepting(evts[0].target.l, evts[1..])
    ensures Goes(Batch(evts), NextEvent, q, listen, queue)
  {
  }

  lemma EventPhase(s: State, evts: seq<Event>)
    requires evts == [] || evts[0].target.Listen?
    ensures HandleEvent(s, evts).phase == if evts == [] then Queueing(s.listen)
                                          else Accepting(evts[0].target.l, evts[1..])
  {
    hide ResumeFor;
  }

  lemma EventResumes(s: State, evts: seq<Event>)
    requires evts != [] && evts[0].target.Of?
    ensures HandleEvent(s, evts) == ResumeFor(s, evts[0].target.co, evts[0].mask, evts[1..])
  {
    hide ResumeFor;
  }

  lemma ResumePhase(s: State, co: int, mask: Mask, rest: seq<Event>)
    requires IsLive(s.pool, co) && co in s.io && s.io[co].Waiting?
    ensures ResumeFor(s, co, mask, rest).phase == Inside(co, ToBatch(rest))
  {
  }

  lemma QueuedGoes(s: State, addr: int, ok: bool)
    requires s.phase.Queueing?
    ensures StepGoes(s, NextQueued(addr, ok))
  {
    hide Goes, StepGoes, StartHead, HasHead;
    var todo, q := s.phase.todo, Step(s, NextQueued(addr, ok)).phase;
    if HasHead(s.queue, todo) {
      StartPhase(s, todo, addr, ok);
    }
    QueuedFollows(todo, q, s.listen, s.queue, addr, ok);
    StepGoesIs(s, NextQueued(addr, ok));
  }

  lemma StartPhase(s: State, todo: seq<int>, addr: int, ok: bool)
    requires HasHead(s.queue, todo)
    ensures var q := StartHead(s, todo, addr, ok).phase; q.StopCheck? || (q.Inside? && q.back == ToQueue(todo))
  {
    hide CanCreate, Created, Handed;
  }

  lemma QueuedFollows(todo: seq<int>, q: Phase, listen: seq<int>, queue: map<int, seq<int>>, addr: int, ok: bool)
    requires if HasHead(queue, todo) then q.StopCheck? || (q.Inside? && q.back == ToQueue(todo))
             else if todo == [] then q == StopCheck(false) else q == Queueing(todo[1..])
    ensures Goes(Queueing(todo), NextQueued(addr, ok), q, listen, queue)
  {
    assert todo != [] ==> |todo[1..]| < |todo|;
  }

  lemma InsideFollows(p: Phase, listen: seq<int>, queue: map<int, seq<int>>)
    requires p.Inside?
    ensures Follows(p, p, listen, queue) && Follows(p, PhaseAfter(p.back), listen, queue)
  {
  }

  lemma CallGoes(s: State, kind: Kind, fd: int, added: bool)
    requires s.phase.Inside?
    ensures StepGoes(s, Call(kind, fd, added))
    ensures added <==> !Step(s, Call(kind, fd, added)).phase.Inside?
  {
    hide GoBack, Follows;
    var co := s.phase.co;
    InsideFollows(s.phase, s.listen, s.queue);
    GoBackFields(s.(registry := s.registry[fd := Of(co)], io := s.io[co := Waiting(kind, fd, 0)]), s.phase.back);
  }

  lemma FinishGoes(s: State, sys: Sys)
    requires s.phase.Inside? && s.phase.co in s.io && s.io[s.phase.co].InCall?
    ensures StepGoes(s, Finish(sys))
  {
    hide GoBack, Wake, Follows;
    InsideFollows(s.phase, s.listen, s.queue);
    var co, c := s.phase.co, s.io[s.phase.co];
    GoBackFields(s.(io := s.io[co := Waiting(c.kind, c.fd, sys.ret)]), s.phase.back);
  }

  lemma ExitGoes(s: State, now: Time)
    requires s.phase.Inside? && s.phase.co in s.pool.cos && s.phase.co in s.conn
    ensures StepGoes(s, Exit(now))
    ensures !Step(s, Exit(now)).phase.Inside?
  {
    hide GoBack, ReleaseAll, Finished, Follows;
    InsideFollows(s.phase, s.listen, s.queue);
    var co, fd := s.phase.co, s.conn[s.phase.co];
    GoBackFields(s.(registry := s.registry - {fd}, home := ReleaseAll(s.home - {fd}, co), io := s.io - {co}, conn :=
        s.conn - {co},
                    pool := Finished(s.pool, co, now), clock := now), s.phase.back);
  }

  lemma StopGoes(s: State, now: Time, later: Time, millis: int, count: int)
    requires s.phase.StopCheck?
    ensures StepGoes(s, Stop(now, later, millis, count))
  {
    hide Closed, Shrunk;
  }

  lemma WaitGoes(s: State, a: Action)
    requires s.phase.AtWait? && (a.WaitFails? || a.WaitInterrupted? || a.WaitReturns?)
    ensures StepGoes(s, a)
  {
    WaitFollows(s.phase, a, s.listen, s.queue);
    hide Goes;
  }

  lemma WaitFollows(p: Phase, a: Action, listen: seq<int>, queue: map<int, seq<int>>)
    requires p.AtWait? && (a.WaitFails? || a.WaitInterrupted? || a.WaitReturns?)
    ensures Goes(p, a, if a.WaitFails? then Left(a.ret) else if a.WaitReturns? then Batch(a.evts) else Queueing(listen),
                listen, queue)
  {
  }

  lemma AcceptGoes(s: State, a: Action)
    requires s.phase.Accepting? && (a.AcceptFails? || a.AcceptDropped? || a.Accept?)
    ensures StepGoes(s, a)
  {
    AcceptFollows(s.phase, a, s.listen, s.queue);
    hide Goes;
  }

  lemma AcceptFollows(p: Phase, a: Action, listen: seq<int>, queue: map<int, seq<int>>)
    requires p.Accepting? && (a.AcceptFails? || a.AcceptDropped? || a.Accept?)
    ensures Goes(p, a, if a.Accept? then p else Batch(p.evts), listen, queue)
  {
  }

  lemma StaysGoes(s: State, a: Action)
    requires a.SetStopping? || (s.phase.Inside? && (a.Open? || a.Close?))
    requires !s.phase.Crashed?
    ensures StepGoes(s, a)
  {
    StaysFollows(s.phase, a, s.listen, s.queue);
    hide Goes;
  }

  lemma StaysFollows(p: Phase, a: Action, listen: seq<int>, queue: map<int, seq<int>>)
    requires a.SetStopping? || (p.Inside? && (a.Open? || a.Close?))
    requires !p.Crashed?
    ensures Goes(p, a, p, listen, queue)
  {
  }

  lemma HasConn(s: State)
    requires Inv(s) && s.phase.Inside?
    ensures s.phase.co in s.pool.cos && s.phase.co in s.conn
  {
    hide PoolInv, RegInv, ListenInv, EvtInv;
    assert IsLive(s.pool, s.phase.co);
  }

  lemma NotCrashed(s: State)
    requires Inv(s)
    ensures !s.phase.Crashed?
  {
    hide PoolInv, LiveInv, RegInv, ListenInv, EvtInv;
  }

  lemma StepsGo(s: State, a: Action)
    requires Inv(s) && Enabled(s, a)
    ensures StepGoes(s, a)
  {
    hide Inv, StepGoes, Step;
    NotCrashed(s);
    match a
    case NextEvent => EventGoes(s);
    case NextQueued(addr, ok) => QueuedGoes(s, addr, ok);
    case Call(kind, fd, added) => CallGoes(s, kind, fd, added);
    case Finish(sys) => FinishGoes(s, sys);
    case Exit(now) => HasConn(s); ExitGoes(s, now);
    case Stop(now, later, millis, count) => StopGoes(s, now, later, millis, count);
    case WaitFails(_) => WaitGoes(s, a);
    case WaitInterrupted => WaitGoes(s, a);
    case WaitReturns(_) => WaitGoes(s, a);
    case AcceptFails => AcceptGoes(s, a);
    case AcceptDropped(_, _) => AcceptGoes(s, a);
    case Accept(_, _) => AcceptGoes(s, a);
    case _ => StaysGoes(s, a);
  }

  // Every step goes from one part of the round to the next as the loop is written, and
  // nowhere else.
  lemma PhasesFollow(s: State, a: Action)
    requires Inv(s) && Enabled(s, a)
    ensures Goes(s.phase, a, Step(s, a).phase, s.listen, s.queue)
  {
    hide Inv, StepGoes, Step, Goes, Enabled;
    StepsGo(s, a);
    StepGoesIs(s, a);
  }

  // ---------- events ----------

  // The events still to be handled change only when a wait brings them and when one is
  // handled, the first; the loop goes on to the queues only when none is left.
  lemma EventsInOrder(s: State, a: Action)
    requires Inv(s) && Enabled(s, a)
    ensures EventsOf(Step(s, a).phase) ==
            if a.WaitReturns? then a.evts
            else if a.NextEvent? && EventsOf(s.phase) != [] then EventsOf(s.phase)[1..]
            else EventsOf(s.phase)
    ensures s.phase.Batch? && Step(s, a).phase.Queueing? ==> EventsOf(s.phase) == []
  {
    PhasesFollow(s, a);
    Remaining(s, a, Step(s, a));
    hide Inv, Step;
  }

  lemma Remaining(s: State, a: Action, t: State)
    requires Enabled(s, a) && Goes(s.phase, a, t.phase, s.listen, s.queue)
    ensures EventsOf(t.phase) ==
            if a.WaitReturns? then a.evts
            else if a.NextEvent? && EventsOf(s.phase) != [] then EventsOf(s.phase)[1..]
            else EventsOf(s.phase)
    ensures s.phase.Batch? && t.phase.Queueing? ==> EventsOf(s.phase) == []
  {
    hide Clock, NotAfter, DistinctFds, HasHead, MayClose;
  }

  // The event a step takes up, and those that a run does, in order.
  ghost function TakenUp(s: State, a: Action): seq<Event> {
    if a.NextEvent? && s.phase.Batch? && s.phase.evts != [] then [s.phase.evts[0]] else []
  }

  ghost function Handled(s: State, acts: seq<Action>): seq<Event>
    decreases |acts|
  {
    if acts == [] then [] else TakenUp(s, acts[0]) + Handled(Step(s, acts[0]), acts[1..])
  }

  lemma TakesFirst(s: State, a: Action)
    requires Inv(s) && Enabled(s, a) && !a.WaitReturns?
    ensures TakenUp(s, a) + EventsOf(Step(s, a).phase) == EventsOf(s.phase)
  {
    EventsInOrder(s, a);
    hide Inv, Step;
    if a.NextEvent? && s.phase.evts != [] {
      assert [s.phase.evts[0]] + s.phase.evts[1..] == s.phase.evts;
    }
  }

  lemma Associative<T>(x: seq<T>, y: seq<T>, z: seq<T>)
    ensures (x + y) + z == x + (y + z)
  {
  }

  lemma {:induction false} HandledInOrder(s: State, acts: seq<Action>)
    requires Inv(s) && QueueInv(s) && Allowed(s, acts) && forall i :: 0 <= i < |acts| ==> !acts[i].WaitReturns?
    ensures Handled(s, acts) + EventsOf(Run(s, acts).phase) == EventsOf(s.phase)
    decreases |acts|
  {
    hide Inv, QueueInv, Enabled, Step, EventsOf, TakenUp;
    if acts == [] {
      assert [] + EventsOf(s.phase) == EventsOf(s.phase);
    } else {
      var t, rest := Step(s, acts[0]), acts[1..];
      StepKeeps(s, acts[0]);
      TakesFirst(s, acts[0]);
      HandledInOrder(t, rest);
      Associative(TakenUp(s, acts[0]), Handled(t, rest), EventsOf(Run(t, rest).phase));
    }
  }

  // Between a wait and the next pass over the queues exactly the events that the wait returned
  // are handled, in their order.
  lemma WholeBatchHandled(s0: State, acts: seq<Action>, evts: seq<Event>, more: seq<Action>)
    requires Initial(s0) && Allowed(s0, acts) && Enabled(Run(s0, acts), WaitReturns(evts))
    requires var s := Step(Run(s0, acts), WaitReturns(evts));
             Allowed(s, more) && (forall i :: 0 <= i < |more| ==> !more[i].WaitReturns?) && Run(s, more).phase.Queueing?
    ensures Handled(Step(Run(s0, acts), WaitReturns(evts)), more) == evts
  {
    hide Inv, QueueInv, Enabled, Step, Handled, Initial, Run, Allowed;
    Reached(s0, acts);
    StepKeeps(Run(s0, acts), WaitReturns(evts));
    EventsInOrder(Run(s0, acts), WaitReturns(evts));
    HandledInOrder(Step(Run(s0, acts), WaitReturns(evts)), more);
  }

  // ---------- connections ----------

  // The connections a run accepts for a listener, and those it starts routines on, in order.
  ghost function Accepts(s: State, acts: seq<Action>, l: int): seq<int>
    decreases |acts|
  {
    if acts == [] then []
    else
      (if acts[0].Accept? && s.phase.Accepting? && s.phase.l == l then [acts[0].fd] else [])
      + Accepts(Step(s, acts[0]), acts[1..], l)
  }

  ghost function Starts(s: State, acts: seq<Action>, l: int): seq<int>
    decreases |acts|
  {
    if acts == [] then []
    else StartedBy(s, Step(s, acts[0]), l) + Starts(Step(s, acts[0]), acts[1..], l)
  }

  // A step that goes from the queue of the listener into a routine starts it on its connection.
  ghost function StartedBy(s: State, t: State, l: int): seq<int> {
    if s.phase.Queueing? && t.phase.Inside? && s.phase.todo != [] && s.phase.todo[0] == l && t.phase.co in t.conn
    then [t.conn[t.phase.co]] else []
  }

  ghost predicate SameHistory(s: State, t: State) {
    t.accepted == s.accepted && t.started == s.started
  }

  lemma GoBackHistory(s: State, back: Back)
    ensures SameHistory(s, GoBack(s, back))
  {
    hide HasHead;
  }

  lemma CallHistory(s: State, kind: Kind, fd: int, added: bool)
    requires s.phase.Inside?
    ensures SameHistory(s, Step(s, Call(kind, fd, added)))
  {
    hide GoBack;
    var co := s.phase.co;
    GoBackHistory(s.(registry := s.registry[fd := Of(co)], io := s.io[co := Waiting(kind, fd, 0)]), s.phase.back);
  }

  lemma FinishHistory(s: State, sys: Sys)
    requires s.phase.Inside? && s.phase.co in s.io && s.io[s.phase.co].InCall?
    ensures SameHistory(s, Step(s, Finish(sys)))
  {
    hide GoBack, Wake, Step;
    var co, c := s.phase.co, s.io[s.phase.co];
    FinishIs(s, sys);
    GoBackHistory(s.(io := s.io[co := Waiting(c.kind, c.fd, sys.ret)]), s.phase.back);
  }

  // The two ways a resumed wrapper goes on.
  lemma FinishIs(s: State, sys: Sys)
    requires s.phase.Inside? && s.phase.co in s.io && s.io[s.phase.co].InCall?
    ensures var co, c := s.phase.co, s.io[s.phase.co];
            Step(s, Finish(sys)) ==
            if Wake(c.kind, c.mask, c.prev, sys).YieldAgain? then
              GoBack(s.(io := s.io[co := Waiting(c.kind, c.fd, sys.ret)]), s.phase.back)
            else s.(registry := s.registry - {c.fd}, io := s.io[co := Running])
  {
    hide GoBack, Wake;
  }

  lemma ExitHistory(s: State, now: Time)
    requires s.phase.Inside? && s.phase.co in s.pool.cos && s.phase.co in s.conn
    ensures SameHistory(s, Step(s, Exit(now)))
  {
    hide GoBack, ReleaseAll, Finished;
    var co, fd := s.phase.co, s.conn[s.phase.co];
    GoBackHistory(s.(registry := s.registry - {fd}, home := ReleaseAll(s.home - {fd}, co), io := s.io - {co}, conn :=
        s.conn - {co},
                    pool := Finished(s.pool, co, now), clock := now), s.phase.back);
  }

  lemma StopHistory(s: State, now: Time, later: Time, millis: int, count: int)
    ensures SameHistory(s, Step(s, Stop(now, later, millis, count)))
  {
    hide Closed, Trimmed, Shrunk, SameHistory;
    var t := Closed(s);
    if !s.stopping {
      TrimmedHistory(s, later, millis, count);
    } else if t.pool.freeCount == t.pool.fullCount {
      ClosedHistory(s);
      LeftHistory(s, t, Shrunk(t.pool, 0, -t.pool.fullCount, now), now);
    } else {
      ClosedHistory(s);
      EmptiedHistory(s, t, Shrunk(t.pool, 0, -t.pool.freeCount, now), later, millis, count);
    }
  }

  lemma LeftHistory(s: State, t: State, pool: PoolState, now: Time)
    requires SameHistory(s, t)
    ensures SameHistory(s, t.(polled := false, pool := pool, clock := now, phase := Left(0)))
  {
  }

  lemma EmptiedHistory(s: State, t: State, pool: PoolState, now: Time, millis: int, count: int)
    requires SameHistory(s, t)
    ensures SameHistory(s, Trimmed(t.(pool := pool), now, millis, count))
  {
    hide Trimmed;
    TrimmedHistory(t.(pool := pool), now, millis, count);
  }

  lemma ClosedHistory(s: State)
    ensures SameHistory(s, Closed(s))
  {
    hide Staying, OpenFds;
  }

  lemma TrimmedHistory(s: State, now: Time, millis: int, count: int)
    ensures SameHistory(s, Trimmed(s, now, millis, count))
  {
    hide Shrunk;
  }

  lemma EventHistory(s: State)
    ensures SameHistory(s, Step(s, NextEvent))
  {
    hide HandleEvent, SameHistory;
    HandleHistory(s, if s.phase.Batch? then s.phase.evts else []);
    Unmoved(s);
  }

  lemma Unmoved(s: State)
    ensures SameHistory(s, s)
  {
  }

  lemma HandleHistory(s: State, evts: seq<Event>)
    ensures SameHistory(s, HandleEvent(s, evts))
  {
    if evts != [] && evts[0].target.Of? {
      EventResumes(s, evts);
      ResumeHistory(s, evts[0].target.co, evts[0].mask, evts[1..]);
      hide HandleEvent;
    }
  }

  lemma ResumeHistory(s: State, co: int, mask: Mask, rest: seq<Event>)
    ensures SameHistory(s, ResumeFor(s, co, mask, rest))
  {
    hide IsLive;
  }

  lemma WaitHistory(s: State, a: Action)
    requires a.WaitFails? || a.WaitInterrupted? || a.WaitReturns?
    ensures SameHistory(s, Step(s, a))
  {
  }

  lemma FailHistory(s: State)
    ensures SameHistory(s, Step(s, AcceptFails))
  {
  }

  lemma DropHistory(s: State, fd: int, closed: bool)
    ensures SameHistory(s, Step(s, AcceptDropped(fd, closed)))
  {
  }

  lemma OpenHistory(s: State, a: Action)
    requires a.Open? || a.Close?
    ensures SameHistory(s, Step(s, a))
  {
  }

  // What a step adds to the two histories of a listener.
  ghost predicate Adds(s: State, a: Action, l: int) {
    var t := Step(s, a);
    && Hist(t.accepted, l) ==
       Hist(s.accepted, l) + (if a.Accept? && s.phase.Accepting? && s.phase.l == l then [a.fd] else [])
    && Hist(t.started, l) == Hist(s.started, l) + StartedBy(s, t, l)
  }

  lemma SameAdds(s: State, a: Action, l: int)
    requires SameHistory(s, Step(s, a)) && !a.Accept? && !s.phase.Queueing?
    ensures Adds(s, a, l)
  {
    hide Step;
  }

  lemma AcceptAdds(s: State, fd: int, node: int, l: int)
    requires s.phase.Accepting?
    ensures Adds(s, Accept(fd, node), l)
  {
  }

  lemma QueuedAdds(s: State, addr: int, ok: bool, l: int)
    requires s.phase.Queueing? && HeadQueued(s)
    ensures Adds(s, NextQueued(addr, ok), l)
  {
    hide StartHead, HasHead, StartedBy, Hist;
    var todo, t := s.phase.todo, Step(s, NextQueued(addr, ok));
    if HasHead(s.queue, todo) {
      StartAdds(s, todo, addr, ok);
      BeginsOne(s, t, l);
    } else {
      BeginsNone(s, t, l);
      assert t.accepted == s.accepted && t.started == s.started;
      assert Hist(s.accepted, l) + [] == Hist(s.accepted, l) && Hist(s.started, l) + [] == Hist(s.started, l);
    }
  }

  // The start of a routine, or the failure to start one.
  ghost predicate Begins(s: State, todo: seq<int>, t: State) {
    && todo != [] && t.accepted == s.accepted
    && (t.phase.Inside? ==>
          t.phase.co in t.conn &&
          t.started == s.started[todo[0] := Hist(s.started, todo[0]) + [t.conn[t.phase.co]]])
    && (!t.phase.Inside? ==> t.started == s.started)
  }

  lemma StartAdds(s: State, todo: seq<int>, addr: int, ok: bool)
    requires HasHead(s.queue, todo)
    ensures Begins(s, todo, StartHead(s, todo, addr, ok))
  {
    hide CanCreate, Created, Handed;
  }

  lemma BeginsOne(s: State, t: State, l: int)
    requires s.phase.Queueing? && Begins(s, s.phase.todo, t)
    ensures Hist(t.accepted, l) == Hist(s.accepted, l) + []
    ensures Hist(t.started, l) == Hist(s.started, l) + StartedBy(s, t, l)
  {
  }

  lemma BeginsNone(s: State, t: State, l: int)
    requires !t.phase.Inside?
    ensures StartedBy(s, t, l) == []
  {
  }

  lemma StoppingAdds(s: State, l: int)
    ensures Adds(s, SetStopping, l)
  {
  }

  lemma StepAdds(s: State, a: Action, l: int)
    requires Inv(s) && QueueInv(s) && Enabled(s, a)
    ensures Adds(s, a, l)
  {
    hide Inv, QueueInv, Step, Adds, SameHistory;
    match a
    case SetStopping => StoppingAdds(s, l);
    case Accept(fd, node) => AcceptAdds(s, fd, node, l);
    case NextQueued(addr, ok) => HeadIsQueued(s); QueuedAdds(s, addr, ok, l);
    case NextEvent => EventHistory(s); SameAdds(s, a, l);
    case Call(kind, fd, added) => CallHistory(s, kind, fd, added); SameAdds(s, a, l);
    case Finish(sys) => FinishHistory(s, sys); SameAdds(s, a, l);
    case Exit(now) => HasConn(s); ExitHistory(s, now); SameAdds(s, a, l);
    case Stop(now, later, millis, count) => StopHistory(s, now, later, millis, count); SameAdds(s, a, l);
    case AcceptFails => FailHistory(s); SameAdds(s, a, l);
    case AcceptDropped(fd, closed) => DropHistory(s, fd, closed); SameAdds(s, a, l);
    case Open(_) => OpenHistory(s, a); SameAdds(s, a, l);
    case Close(_) => OpenHistory(s, a); SameAdds(s, a, l);
    case _ => WaitHistory(s, a); SameAdds(s, a, l);
  }

  lemma AddsIs(s: State, a: Action, l: int)
    requires Adds(s, a, l)
    ensures Hist(Step(s, a).accepted, l) ==
            Hist(s.accepted, l) + (if a.Accept? && s.phase.Accepting? && s.phase.l == l then [a.fd] else [])
    ensures Hist(Step(s, a).started, l) == Hist(s.started, l) + StartedBy(s, Step(s, a), l)
  {
    hide Hist, Step;
  }

  lemma {:induction false} HistoriesAreTheRuns(s: State, acts: seq<Action>, l: int)
    requires Inv(s) && QueueInv(s) && Allowed(s, acts)
    ensures Hist(Run(s, acts).accepted, l) == Hist(s.accepted, l) + Accepts(s, acts, l)
    ensures Hist(Run(s, acts).started, l) == Hist(s.started, l) + Starts(s, acts, l)
    decreases |acts|
  {
    hide Inv, QueueInv, Enabled, Step, Hist, Adds, EventsOf, StartedBy;
    if acts == [] {
      assert Hist(s.accepted, l) + [] == Hist(s.accepted, l) && Hist(s.started, l) + [] == Hist(s.started, l);
    } else {
      var a, t, rest := acts[0], Step(s, acts[0]), acts[1..];
      StepKeeps(s, a);
      StepAdds(s, a, l);
      AddsIs(s, a, l);
      HistoriesAreTheRuns(t, rest, l);
      var one := if a.Accept? && s.phase.Accepting? && s.phase.l == l then [a.fd] else [];
      Associative(Hist(s.accepted, l), one, Accepts(t, rest, l));
      Associative(Hist(s.started, l), StartedBy(s, t, l), Starts(t, rest, l));
    }
  }

  // In every run the connections that routines are started on are, per listener and in order,
  // the first of those accepted, and the others are as many as wait in the queue.
  lemma StartsFollowAccepts(s0: State, acts: seq<Action>, l: int)
    requires Initial(s0) && Allowed(s0, acts)
    ensures Starts(s0, acts, l) <= Accepts(s0, acts, l)
    ensures var s := Run(s0, acts); var p := Pending(s.queue, Starting(s.phase), l);
            && |Accepts(s0, acts, l)| == |Starts(s0, acts, l)| + |p|
            && forall i :: 0 <= i < |p| ==>
                p[i] in s.nodeFd && s.nodeFd[p[i]] == Accepts(s0, acts, l)[|Starts(s0, acts, l)| + i]
  {
    hide Inv, QueueInv, Allowed, Run, Accepts, Starts, Pending, Starting;
    InitialInv(s0);
    InitialQueueInv(s0);
    HistoriesAreTheRuns(s0, acts, l);
    FirstInFirstOut(s0, acts, l);
    var s := Run(s0, acts);
    assert Hist(s.accepted, l) == Accepts(s0, acts, l) && Hist(s.started, l) == Starts(s0, acts, l);
  }

  // An accepted connection that cannot be queued is closed, or stays open with no owner.
  lemma DroppedIsLost(s: State, fd: int, closed: bool)
    requires Enabled(s, AcceptDropped(fd, closed))
    ensures var t := Step(s, AcceptDropped(fd, closed));
            && t.queue == s.queue && t.registry == s.registry
            && (closed ==> t.home == s.home) && (!closed ==> t.home == s.home[fd := Lost])
  {
  }

  // ---------- what a routine's actions do ----------

  // A call whose association succeeds suspends the routine, registered for its descriptor;
  // otherwise nothing changes.
  lemma CallSuspends(s: State, kind: Kind, fd: int, added: bool)
    requires Inv(s) && Enabled(s, Call(kind, fd, added))
    ensures var t, co := Step(s, Call(kind, fd, added)), s.phase.co;
            && t.pool == s.pool && t.home == s.home && t.conn == s.conn
            && (if added then t.io == s.io[co := Waiting(kind, fd, 0)] && t.registry == s.registry[fd := Of(co)]
                else t == s)
  {
    hide Inv, GoBack;
    var co := s.phase.co;
    GoBackFields(s.(registry := s.registry[fd := Of(co)], io := s.io[co := Waiting(kind, fd, 0)]), s.phase.back);
  }

  // Resumed, a wrapper waits again, registered as before, exactly if its call is refused;
  // otherwise the routine runs on and its descriptor is not registered any more.
  lemma FinishGoesOn(s: State, sys: Sys)
    requires Inv(s) && Enabled(s, Finish(sys))
    ensures var t, co, c := Step(s, Finish(sys)), s.phase.co, s.io[s.phase.co];
            && t.pool == s.pool && t.home == s.home && t.conn == s.conn
            && (if TriesAgain(c.kind, c.mask, sys) then
                  t.io == s.io[co := Waiting(c.kind, c.fd, sys.ret)] && t.registry == s.registry && !t.phase.Inside?
                else t.io == s.io[co := Running] && t.registry == s.registry - {c.fd} && t.phase == s.phase)
  {
    var co, c := s.phase.co, s.io[s.phase.co];
    FinishIs(s, sys);
    GoBackFields(s.(io := s.io[co := Waiting(c.kind, c.fd, sys.ret)]), s.phase.back);
    WaitsAgain(c.kind, c.mask, c.prev, sys);
    hide Inv, Step, GoBack, Wake, TriesAgain;
  }

  // A routine that ends leaves its coroutine at the head of the free list, closes its
  // connection and loses what else it had open.
  lemma ExitEnds(s: State, now: Time)
    requires Inv(s) && Enabled(s, Exit(now))
    ensures s.phase.co in s.conn
    ensures var t, co, fd := Step(s, Exit(now)), s.phase.co, s.conn[s.phase.co];
            && t.io == s.io - {co} && t.registry == s.registry - {fd} && !t.phase.Inside?
            && t.home.Keys == s.home.Keys - {fd}
            && (forall x :: x in t.home ==> t.home[x] == if s.home[x] == Owned(co) then Lost else s.home[x])
            && t.pool.free == [co] + s.pool.free && co in t.pool.cos && t.pool.cos[co].status == Exited
            && t.pool.cos[co].last == now
  {
    HasConn(s);
    ExitGoes(s, now);
    hide Inv, GoBack;
    var co, fd := s.phase.co, s.conn[s.phase.co];
    GoBackFields(s.(registry := s.registry - {fd}, home := ReleaseAll(s.home - {fd}, co), io := s.io - {co}, conn :=
        s.conn - {co},
                    pool := Finished(s.pool, co, now), clock := now), s.phase.back);
  }

  // ---------- the end of a round ----------

  // The loop leaves exactly if it is to stop and no coroutine is live.
  lemma LeavesWhen(s: State, now: Time, later: Time, millis: int, count: int)
    requires Inv(s) && Enabled(s, Stop(now, later, millis, count))
    ensures Step(s, Stop(now, later, millis, count)).phase.Left? <==> s.stopping && forall co :: !IsLive(s.pool, co)
  {
    hide Closed, Trimmed, Shrunk, IsLive;
    ClosedFields(s);
    NoneLive(s);
    TrimmedWaits(s, later, millis, count);
    var t := Closed(s);
    TrimmedWaits(t.(pool := Shrunk(t.pool, 0, -t.pool.freeCount, now)), later, millis, count);
    hide Inv;
  }

  lemma TrimmedWaits(s: State, now: Time, millis: int, count: int)
    ensures Trimmed(s, now, millis, count).phase == AtWait
  {
    hide Shrunk;
  }

  lemma NoneLive(s: State)
    requires Inv(s)
    ensures s.pool.freeCount == s.pool.fullCount <==> forall co :: !IsLive(s.pool, co)
  {
    hide LiveInv, SuspendedInv, RegInv, ListenInv, EvtInv, Ordered, IsLive;
    if s.pool.freeCount == s.pool.fullCount {
      forall co ensures !IsLive(s.pool, co) {
        AllExited(s.pool, co);
      }
    } else if forall co :: !IsLive(s.pool, co) {
      SameMembers(s.pool);
    }
  }

  lemma SameMembers(p: PoolState)
    requires Good(p) && forall co :: !IsLive(p, co)
    ensures p.freeCount == p.fullCount
  {
    forall c ensures c in p.free <==> c in p.full {
      assert !IsLive(p, c);
    }
    assert SetOf(p.free) == SetOf(p.full);
    DistinctSize(p.free);
    DistinctSize(p.full);
  }

  // The pool of the next round, when the loop is not to stop.
  ghost predicate TrimsPool(p: PoolState, q: PoolState, count: int, millis: int, now: Time) {
    var beyond, there := p.fullCount - p.limitMin, |p.free|;
    var asked := if count <= 0 then -count else if count < beyond then count else beyond;
    if there == 0 || beyond <= 0 then q == p
    else FreesIdle(p, q, if asked < there then asked else there, millis, now)
  }

  // A round that goes on frees idle coroutines: the longest idle, as many as it is told to, and
  // none that the minimum needs.
  lemma RoundTrims(s: State, now: Time, later: Time, millis: int, count: int)
    requires Inv(s) && Enabled(s, Stop(now, later, millis, count)) && !s.stopping
    ensures TrimsPool(s.pool, Step(s, Stop(now, later, millis, count)).pool, count, millis, later)
  {
    hide LiveInv, SuspendedInv, RegInv, ListenInv, EvtInv, Good, Ordered, Shrunk, FreesIdle;
    GoodCounts(s.pool);
    TrimmedPool(s, later, millis, count);
    if count > 0 {
      PositiveCountFrees(s.pool, millis, count, later, s.clock);
    } else {
      OtherCountFrees(s.pool, millis, count, later, s.clock);
    }
  }

  lemma TrimmedPool(s: State, now: Time, millis: int, count: int)
    ensures Trimmed(s, now, millis, count).pool ==
            if s.pool.freeCount > 0 && s.pool.fullCount > s.pool.limitMin then Shrunk(s.pool, millis, count, now)
            else s.pool
  {
    hide Shrunk;
  }

  // A round of a loop that is to stop and cannot yet keeps exactly the live coroutines.
  lemma StoppingTrims(s: State, now: Time, later: Time, millis: int, count: int)
    requires Inv(s) && Enabled(s, Stop(now, later, millis, count)) && s.stopping
    ensures var t := Step(s, Stop(now, later, millis, count));
            !t.phase.Left? ==> && t.pool.free == [] && (forall co :: co in t.pool.cos <==> IsLive(s.pool, co))
                               && forall co :: co in t.pool.cos ==> t.pool.cos[co] == s.pool.cos[co]
  {
    hide LiveInv, SuspendedInv, RegInv, ListenInv, EvtInv, Good, Ordered, Shrunk, Trimmed, Closed, IsLive, Step;
    StoppingPool(s, now, later, millis, count);
    KeepsLive(s.pool, -s.pool.freeCount, s.clock, now);
  }

  lemma StoppingPool(s: State, now: Time, later: Time, millis: int, count: int)
    requires s.stopping
    ensures var t, q := Step(s, Stop(now, later, millis, count)), Shrunk(s.pool, 0, -s.pool.freeCount, now);
            t.phase.Left? || (q.freeCount == 0 ==> t.pool == q)
  {
    hide Shrunk, Trimmed, Closed;
    ClosedFields(s);
    var t, q := Closed(s), Shrunk(s.pool, 0, -s.pool.freeCount, now);
    TrimmedPool(t.(pool := q), later, millis, count);
  }

  lemma KeepsLive(p: PoolState, count: int, clock: Time, now: Time)
    requires Good(p) && Ordered(p, clock) && NotAfter(clock, now) && count <= -p.freeCount
    ensures var q := Shrunk(p, 0, count, now);
            && q.free == [] && q.freeCount == 0 && (forall co :: co in q.cos <==> IsLive(p, co))
            && forall co :: co in q.cos ==> q.cos[co] == p.cos[co]
  {
    hide Ordered, Shrunk;
    ShrinkEmptiesFreeList(p, count, clock, now);
    ShrinkDeletesOnlyExited(p, 0, count, now);
    var q := Shrunk(p, 0, count, now);
    forall co ensures co in q.cos <==> IsLive(p, co) {
      assert co in q.cos && q.cos[co].status == Exited ==> co in q.free;
    }
  }

  // Told to stop, the loop closes and unregisters its listening sockets and no other descriptor.
  lemma StoppingCloses(s: State, now: Time, later: Time, millis: int, count: int)
    requires Inv(s) && Enabled(s, Stop(now, later, millis, count)) && s.stopping
    ensures var t := Step(s, Stop(now, later, millis, count));
            && (forall fd :: fd in t.home <==> fd in s.home && !(s.home[fd].Listener? && IsOpen(s, fd)))
            && (forall fd :: fd in t.home ==> t.home[fd] == s.home[fd])
            && (forall fd :: fd in t.registry <==> fd in s.registry && s.registry[fd].Of?)
            && (forall fd :: fd in t.registry ==> t.registry[fd] == s.registry[fd])
            && (forall l :: l in s.listen ==> l in t.lfd && t.lfd[l] == -1)
  {
    hide Closed, Trimmed, Shrunk, Inv, IsOpen;
    StopIsClosed(s, now, later, millis, count);
    ClosesListeners(s);
  }

  // A listening socket that the loop has not closed yet.
  ghost predicate IsOpen(s: State, fd: int) {
    exists l :: l in s.listen && l in s.lfd && s.lfd[l] == fd && fd >= 0
  }

  lemma StopIsClosed(s: State, now: Time, later: Time, millis: int, count: int)
    requires s.stopping
    ensures var t := Step(s, Stop(now, later, millis, count));
            SameFds(Closed(s), t)
  {
    hide Closed, Shrunk, Trimmed, SameFds;
    var t := Closed(s);
    if t.pool.freeCount == t.pool.fullCount {
      LeftFds(t, Shrunk(t.pool, 0, -t.pool.fullCount, now), now);
    } else {
      TrimmedFds(t, Shrunk(t.pool, 0, -t.pool.freeCount, now), later, millis, count);
    }
  }

  ghost predicate SameFds(s: State, t: State) {
    t.home == s.home && t.registry == s.registry && t.lfd == s.lfd
  }

  lemma LeftFds(s: State, pool: PoolState, now: Time)
    ensures SameFds(s, s.(polled := false, pool := pool, clock := now, phase := Left(0)))
  {
  }

  lemma TrimmedFds(s: State, pool: PoolState, now: Time, millis: int, count: int)
    ensures SameFds(s, Trimmed(s.(pool := pool), now, millis, count))
  {
    hide Shrunk;
  }

  lemma ClosesListeners(s: State)
    requires Inv(s)
    ensures var t := Closed(s);
            && (forall fd :: fd in t.home <==> fd in s.home && !(s.home[fd].Listener? && IsOpen(s, fd)))
            && (forall fd :: fd in t.home ==> t.home[fd] == s.home[fd])
            && (forall fd :: fd in t.registry <==> fd in s.registry && s.registry[fd].Of?)
            && (forall fd :: fd in t.registry ==> t.registry[fd] == s.registry[fd])
            && (forall l :: l in s.listen ==> l in t.lfd && t.lfd[l] == -1)
  {
    hide PoolInv, LiveInv, SuspendedInv, EvtInv, Staying;
    forall fd ensures fd in OpenFds(s.listen, s.lfd) <==> IsOpen(s, fd) {
    }
  }
}
