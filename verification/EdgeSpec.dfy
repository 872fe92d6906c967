/**
  The edge-triggered poll registry of epollet.c as a map: what each descriptor waits
  for, what the kernel has reported about it, and which descriptors are filled, that
  is, set aside to be returned by the next wait.
 */
module EdgeSpec {

  type Mask = bv32

  const POLLIN: Mask := 0x001
  const POLLOUT: Mask := 0x004
  const POLLERR: Mask := 0x008
  const POLLHUP: Mask := 0x010

  datatype Entry = Entry(waiting: Mask, fired: Mask, ptr: nat)

  datatype Registry = Registry(entries: map<int, Entry>, filled: set<int>)

  // The events an entry has to deliver.
  function Pending(e: Entry): Mask {
    Matching(e.waiting, e.fired)
  }

  function Matching(waiting: Mask, fired: Mask): Mask {
    (waiting | POLLERR | POLLHUP) & fired
  }

  predicate Ready(e: Entry) {
    Pending(e) != 0
  }

  // The record of an entry after a report from the kernel, and after a caller used events up.
  function Noted(e: Entry, mask: Mask): Entry {
    e.(fired := e.fired | mask)
  }

  function UsedUp(e: Entry, events: Mask): Entry {
    e.(fired := e.fired & !events)
  }

  // ---------- the operations ----------

  ghost function Refilled(filled: set<int>, fd: int, e: Entry): set<int> {
    if Ready(e) then filled + {fd} else filled
  }

  // What an association makes of the descriptor's entry; a new one is taken to be writable.
  ghost function Rearmed(r: Registry, fd: int, events: Mask, ptr: nat): Entry {
    if fd in r.entries then r.entries[fd].(waiting := events, ptr := ptr) else Entry(events, POLLOUT, ptr)
  }

  ghost function Associated(r: Registry, fd: int, events: Mask, ptr: nat, added: bool): Registry {
    var e := Rearmed(r, fd, events, ptr);
    Registry(r.entries[fd := e], if fd in r.entries || added then Refilled(r.filled, fd, e) else r.filled)
  }

  ghost function Dissociated(r: Registry, fd: int, onclose: bool): Registry {
    if fd !in r.entries then r
    else if onclose then Registry(r.entries - {fd}, r.filled - {fd})
    else Registry(r.entries[fd := r.entries[fd].(waiting := 0)], r.filled - {fd})
  }

  ghost function Cleared(r: Registry, fd: int, events: Mask): Registry {
    if fd !in r.entries then r
    else
      var e := UsedUp(r.entries[fd], events);
      Registry(r.entries[fd := e], if Ready(e) then r.filled else r.filled - {fd})
  }

  // The kernel reports `mask` for a registered descriptor.
  ghost function Fired(r: Registry, fd: int, mask: Mask): Registry {
    if fd !in r.entries then r
    else
      var e := Noted(r.entries[fd], mask);
      Registry(r.entries[fd := e], Refilled(r.filled, fd, e))
  }

  datatype Report = Report(fd: int, mask: Mask)

  ghost function FiredAll(r: Registry, reports: seq<Report>): Registry
    decreases |reports|
  {
    if reports == [] then r
    else
      var n := |reports| - 1;
      Fired(FiredAll(r, reports[..n]), reports[n].fd, reports[n].mask)
  }

  // A wait asks the kernel only when nothing is filled.
  ghost function Waited(r: Registry, reports: seq<Report>): Registry {
    if r.filled == {} then FiredAll(r, reports) else r
  }

  // ---------- what every run keeps ----------

  // An entry that waits for something it has already been told of is set aside for delivery.
  ghost predicate NoLostWakeup(r: Registry) {
    forall fd :: fd in r.entries && fd !in r.filled && r.entries[fd].waiting != 0 ==> !Ready(r.entries[fd])
  }

  // Everything set aside has something to deliver.
  ghost predicate AllReady(r: Registry) {
    forall fd :: fd in r.filled ==> fd in r.entries && Ready(r.entries[fd])
  }

  datatype Call =
    | Associate(fd: int, events: Mask, ptr: nat, added: bool)
    | Dissociate(fd: int, onclose: bool)
    | Unset(fd: int, events: Mask)
    | Wait(reports: seq<Report>)

  ghost function Step(r: Registry, c: Call): Registry {
    match c
    case Associate(fd, events, ptr, added) => Associated(r, fd, events, ptr, added)
    case Dissociate(fd, onclose) => Dissociated(r, fd, onclose)
    case Unset(fd, events) => Cleared(r, fd, events)
    case Wait(reports) => Waited(r, reports)
  }

  ghost function Run(r: Registry, calls: seq<Call>): Registry
    decreases |calls|
  {
    if calls == [] then r else Step(Run(r, calls[..|calls| - 1]), calls[|calls| - 1])
  }

  // The kernel accepted the descriptor, if it was asked to.
  ghost predicate AddSucceeds(r: Registry, c: Call) {
    c.Associate? && c.fd !in r.entries ==> c.added
  }

  // A registered descriptor is dissociated before it is associated with another mask.
  ghost predicate Disciplined(r: Registry, c: Call) {
    c.Associate? && c.fd in r.entries ==> r.entries[c.fd].waiting == 0 || r.entries[c.fd].waiting == c.events
  }

  const EMPTY: Registry := Registry(map[], {})

  // ---------- wakeups ----------

  lemma ClearingKeepsIdle(e: Entry, gone: Mask)
    requires !Ready(e)
    ensures !Ready(UsedUp(e, gone))
  {
  }

  lemma FiringKeepsReady(e: Entry, more: Mask)
    requires Ready(e)
    ensures Ready(Noted(e, more))
  {
  }

  lemma ErrorsStayReady(e: Entry, events: Mask)
    requires e.waiting == 0 && Ready(e)
    ensures Ready(e.(waiting := events))
  {
  }

  lemma FreshIsReady(events: Mask, ptr: nat)
    ensures Ready(Entry(events, POLLOUT, ptr)) <==> events & POLLOUT != 0
    ensures events & POLLOUT != 0 ==> events != 0
  {
  }

  lemma PointerIsNoMatter(e: Entry, ptr: nat)
    ensures Ready(e.(ptr := ptr)) <==> Ready(e)
  {
    hide Matching;
  }

  lemma FiredKeepsWakeups(r: Registry, fd: int, mask: Mask)
    requires NoLostWakeup(r)
    ensures NoLostWakeup(Fired(r, fd, mask))
  {
    hide Ready;
  }

  lemma {:induction false} FiredAllKeepsWakeups(r: Registry, reports: seq<Report>)
    requires NoLostWakeup(r)
    ensures NoLostWakeup(FiredAll(r, reports))
    decreases |reports|
  {
    hide NoLostWakeup;
    if reports != [] {
      var n := |reports| - 1;
      FiredAllKeepsWakeups(r, reports[..n]);
      FiredKeepsWakeups(FiredAll(r, reports[..n]), reports[n].fd, reports[n].mask);
    }
  }

  lemma UnsetKeepsWakeups(r: Registry, fd: int, events: Mask)
    requires NoLostWakeup(r)
    ensures NoLostWakeup(Cleared(r, fd, events))
  {
    hide Ready;
    if fd in r.entries && !Ready(r.entries[fd]) {
      ClearingKeepsIdle(r.entries[fd], events);
    }
  }

  lemma RefusalLosesWakeup(r: Registry, fd: int, events: Mask, ptr: nat)
    requires NoLostWakeup(r) && fd !in r.entries && fd !in r.filled
    ensures NoLostWakeup(Associated(r, fd, events, ptr, false)) <==> events & POLLOUT == 0
  {
    hide Ready;
    var r' := Associated(r, fd, events, ptr, false);
    assert r'.entries[fd] == Entry(events, POLLOUT, ptr);
    FreshIsReady(events, ptr);
    assert forall x :: x in r'.entries && x != fd ==> x in r.entries && r'.entries[x] == r.entries[x];
  }

  // One call leaves an event on record undelivered exactly when the kernel refuses a new
  // descriptor that asked for the writability it was assumed to have.
  lemma StepKeepsWakeups(r: Registry, c: Call)
    requires NoLostWakeup(r) && (c.Associate? && c.fd !in r.entries ==> c.fd !in r.filled)
    ensures NoLostWakeup(Step(r, c)) <==> !(c.Associate? && c.fd !in r.entries && !c.added && c.events & POLLOUT != 0)
  {
    hide Ready;
    match c
    case Associate(fd, events, ptr, added) =>
      if fd !in r.entries && !added {
        RefusalLosesWakeup(r, fd, events, ptr);
      }
    case Dissociate(fd, onclose) =>
    case Unset(fd, events) =>
      UnsetKeepsWakeups(r, fd, events);
    case Wait(reports) =>
      FiredAllKeepsWakeups(r, reports);
  }

  // ---------- deliverability ----------

  lemma FiredKeepsReady(r: Registry, fd: int, mask: Mask)
    requires AllReady(r)
    ensures AllReady(Fired(r, fd, mask))
  {
    hide Ready;
    if fd in r.filled {
      FiringKeepsReady(r.entries[fd], mask);
    }
  }

  lemma {:induction false} FiredAllKeepsReady(r: Registry, reports: seq<Report>)
    requires AllReady(r)
    ensures AllReady(FiredAll(r, reports))
    decreases |reports|
  {
    hide AllReady;
    if reports != [] {
      var n := |reports| - 1;
      FiredAllKeepsReady(r, reports[..n]);
      FiredKeepsReady(FiredAll(r, reports[..n]), reports[n].fd, reports[n].mask);
    }
  }

  // One call spoils deliverability exactly when it re-arms a filled descriptor with a
  // mask that none of its recorded events match.
  lemma StepKeepsReady(r: Registry, c: Call)
    requires AllReady(r)
    ensures AllReady(Step(r, c)) <==>
            !(c.Associate? && c.fd in r.filled && !Ready(r.entries[c.fd].(waiting := c.events)))
  {
    hide Ready;
    match c
    case Associate(fd, events, ptr, added) =>
      var r', e := Step(r, c), Rearmed(r, fd, events, ptr);
      assert r'.entries[fd] == e;
      if fd in r.filled {
        assert fd in r'.filled;
        PointerIsNoMatter(r.entries[fd].(waiting := events), ptr);
      }
    case Dissociate(fd, onclose) =>
    case Unset(fd, events) =>
    case Wait(reports) =>
      FiredAllKeepsReady(r, reports);
  }

  lemma DisciplineKeepsReady(r: Registry, c: Call)
    requires AllReady(r) && Disciplined(r, c)
    ensures AllReady(Step(r, c))
  {
    hide Ready;
    StepKeepsReady(r, c);
    if c.Associate? && c.fd in r.filled && r.entries[c.fd].waiting == 0 {
      ErrorsStayReady(r.entries[c.fd], c.events);
    }
    assert c.Associate? && c.fd in r.filled && r.entries[c.fd].waiting == c.events ==>
        r.entries[c.fd].(waiting := c.events) == r.entries[c.fd];
  }

  // ---------- runs ----------

  lemma {:induction false} FiredAllFills(r: Registry, reports: seq<Report>)
    requires r.filled <= r.entries.Keys
    ensures FiredAll(r, reports).filled <= FiredAll(r, reports).entries.Keys == r.entries.Keys
    decreases |reports|
  {
    if reports != [] {
      FiredAllFills(r, reports[..|reports| - 1]);
    }
  }

  lemma {:induction false} FilledAreRegistered(calls: seq<Call>)
    ensures Run(EMPTY, calls).filled <= Run(EMPTY, calls).entries.Keys
    decreases |calls|
  {
    if calls != [] {
      var n := |calls| - 1;
      FilledAreRegistered(calls[..n]);
      if calls[n].Wait? {
        FiredAllFills(Run(EMPTY, calls[..n]), calls[n].reports);
      }
    }
  }

  // Outside the filled descriptors nothing that is waited for, no error and no hangup is on
  // record.
  lemma NothingUndelivered(r: Registry, fd: int)
    requires NoLostWakeup(r) && fd in r.entries && fd !in r.filled
    ensures var e := r.entries[fd];
            e.waiting & e.fired == 0 && (e.waiting != 0 ==> e.fired & (POLLERR | POLLHUP) == 0)
  {
    var e := r.entries[fd];
    if e.waiting != 0 {
      NotReady(e.waiting, e.fired);
    }
  }

  lemma NotReady(waiting: Mask, fired: Mask)
    requires Matching(waiting, fired) == 0
    ensures waiting & fired == 0 && fired & (POLLERR | POLLHUP) == 0
  {
  }

  // In every run in which the kernel takes every new descriptor, no wakeup is lost.
  lemma {:induction false} RunsLoseNoWakeup(calls: seq<Call>)
    requires forall i :: 0 <= i < |calls| ==> AddSucceeds(Run(EMPTY, calls[..i]), calls[i])
    ensures NoLostWakeup(Run(EMPTY, calls))
    ensures var r := Run(EMPTY, calls);
            forall fd :: fd in r.entries && fd !in r.filled ==> r.entries[fd].waiting & r.entries[fd].fired == 0
    decreases |calls|
  {
    hide NoLostWakeup;
    if calls != [] {
      var n := |calls| - 1;
      var before := calls[..n];
      forall i | 0 <= i < n ensures AddSucceeds(Run(EMPTY, before[..i]), before[i]) {
        assert before[..i] == calls[..i];
      }
      RunsLoseNoWakeup(before);
      FilledAreRegistered(before);
      StepKeepsWakeups(Run(EMPTY, before), calls[n]);
    } else {
      EmptyLosesNothing();
    }
    NothingLost(Run(EMPTY, calls));
  }

  lemma EmptyLosesNothing()
    ensures NoLostWakeup(EMPTY)
  {
  }

  lemma NothingLost(r: Registry)
    requires NoLostWakeup(r)
    ensures forall fd :: fd in r.entries && fd !in r.filled ==> r.entries[fd].waiting & r.entries[fd].fired == 0
  {
    hide NoLostWakeup;
    forall fd | fd in r.entries && fd !in r.filled ensures r.entries[fd].waiting & r.entries[fd].fired == 0 {
      NothingUndelivered(r, fd);
    }
  }

  // So a wait turns to the kernel only when no waiting descriptor has a matching event on record.
  lemma BlocksOnlyWhenIdle(calls: seq<Call>, fd: int)
    requires forall i :: 0 <= i < |calls| ==> AddSucceeds(Run(EMPTY, calls[..i]), calls[i])
    requires var r := Run(EMPTY, calls); r.filled == {} && fd in r.entries && r.entries[fd].waiting != 0
    ensures Pending(Run(EMPTY, calls).entries[fd]) == 0
    ensures var e := Run(EMPTY, calls).entries[fd]; e.waiting & e.fired == 0 && e.fired & (POLLERR | POLLHUP) == 0
  {
    RunsLoseNoWakeup(calls);
    NothingUndelivered(Run(EMPTY, calls), fd);
  }

  lemma {:induction false} RunsStayReady(calls: seq<Call>)
    requires forall i :: 0 <= i < |calls| ==> Disciplined(Run(EMPTY, calls[..i]), calls[i])
    ensures AllReady(Run(EMPTY, calls))
    decreases |calls|
  {
    if calls != [] {
      var n := |calls| - 1;
      var before := calls[..n];
      forall i | 0 <= i < n ensures Disciplined(Run(EMPTY, before[..i]), before[i]) {
        assert before[..i] == calls[..i];
      }
      RunsStayReady(before);
      DisciplineKeepsReady(Run(EMPTY, before), calls[n]);
    }
  }

  // ---------- what the kernel watches ----------

  // The registry with the descriptors the kernel watches; only those are ever reported.
  datatype Backed = Backed(registry: Registry, watched: set<int>)

  ghost function StillWatched(b: Backed, c: Call): set<int> {
    match c
    case Associate(fd, _, _, added) => if fd !in b.registry.entries && added then b.watched + {fd} else b.watched
    case Dissociate(fd, onclose) => if onclose && fd in b.registry.entries then b.watched - {fd} else b.watched
    case _ => b.watched
  }

  ghost function BackedStep(b: Backed, c: Call): Backed {
    Backed(Step(b.registry, c), StillWatched(b, c))
  }

  // What may happen: a call of the registry, or a descriptor is closed, upon which the kernel
  // forgets it and its number may be given out again.
  datatype Happening = Made(call: Call) | Closed(fd: int)

  ghost function Next(b: Backed, h: Happening): Backed {
    match h
    case Made(c) => BackedStep(b, c)
    case Closed(fd) => Backed(b.registry, b.watched - {fd})
  }

  ghost predicate Honest(b: Backed, h: Happening) {
    h.Made? && h.call.Wait? ==> forall i :: 0 <= i < |h.call.reports| ==> h.call.reports[i].fd in b.watched
  }

  // Every waiting descriptor that is not set aside for delivery is watched, and nothing it
  // waits for is on record.
  ghost predicate Served(b: Backed) {
    forall fd :: fd in b.registry.entries && fd !in b.registry.filled && b.registry.entries[fd].waiting != 0 ==>
      fd in b.watched && !Ready(b.registry.entries[fd])
  }

  ghost predicate Sound(b: Backed) {
    b.registry.entries.Keys == b.watched && b.registry.filled <= b.watched && NoLostWakeup(b.registry)
  }

  lemma SoundServes(b: Backed)
    requires Sound(b)
    ensures Served(b)
  {
  }

  lemma StepKeys(r: Registry, c: Call)
    requires r.filled <= r.entries.Keys
    ensures Step(r, c).filled <= Step(r, c).entries.Keys
    ensures Step(r, c).entries.Keys ==
            match c
            case Associate(fd, _, _, _) => r.entries.Keys + {fd}
            case Dissociate(fd, onclose) => if onclose then r.entries.Keys - {fd} else r.entries.Keys
            case _ => r.entries.Keys
  {
    hide Ready, Rearmed;
    if c.Wait? {
      FiredAllFills(r, c.reports);
    }
  }

  // The kernel refuses a new descriptor, whatever it asks for: it stays registered, unwatched.
  ghost predicate RefusesNew(b: Backed, h: Happening) {
    h.Made? && h.call.Associate? && h.call.fd !in b.registry.entries && !h.call.added
  }

  // A descriptor is closed while it is registered, be it only dissociated without onclose.
  ghost predicate ClosesRegistered(b: Backed, h: Happening) {
    h.Closed? && h.fd in b.registry.entries
  }

  // Exactly these two leave a registered descriptor without its wakeups.
  lemma StepKeepsSound(b: Backed, h: Happening)
    requires Sound(b)
    ensures Sound(Next(b, h)) <==> !RefusesNew(b, h) && !ClosesRegistered(b, h)
  {
    hide NoLostWakeup, Step;
    if h.Made? {
      StepKeys(b.registry, h.call);
      StepKeepsWakeups(b.registry, h.call);
    } else {
      assert h.fd !in b.watched ==> b.watched - {h.fd} == b.watched;
    }
  }

  // A registered descriptor that the kernel does not watch.
  ghost predicate Orphan(b: Backed, fd: int) {
    fd in b.registry.entries && fd !in b.watched
  }

  lemma {:induction false} FiredOthers(r: Registry, reports: seq<Report>, fd: int)
    requires forall i :: 0 <= i < |reports| ==> reports[i].fd != fd
    ensures fd in r.entries ==> fd in FiredAll(r, reports).entries && FiredAll(r, reports).entries[fd] == r.entries[fd]
    decreases |reports|
  {
    if reports != [] {
      FiredOthers(r, reports[..|reports| - 1], fd);
    }
  }

  // Only a dissociation on close heals it: everything else, a retried association among it,
  // leaves it unwatched and adds nothing to its record.
  lemma OrphanStays(b: Backed, h: Happening, fd: int)
    requires Orphan(b, fd) && Honest(b, h)
    ensures Orphan(Next(b, h), fd) <==> h != Made(Dissociate(fd, true))
    ensures h != Made(Dissociate(fd, true)) ==>
              var e, e' := b.registry.entries[fd], Next(b, h).registry.entries[fd];
              e'.fired == e.fired || (h.Made? && h.call.Unset? && e'.fired == e.fired & !h.call.events)
  {
    hide Ready;
    if h.Made? && h.call.Wait? {
      FiredOthers(b.registry, h.call.reports, fd);
    }
  }

  ghost function BackedRun(b: Backed, hs: seq<Happening>): Backed
    decreases |hs|
  {
    if hs == [] then b else Next(BackedRun(b, hs[..|hs| - 1]), hs[|hs| - 1])
  }

  lemma FewerBits(fired: Mask, events: Mask)
    requires fired & !POLLOUT == 0
    ensures fired & !events & !POLLOUT == 0
  {
  }

  lemma NothingMatches(e: Entry)
    requires e.fired & !POLLOUT == 0 && e.waiting & POLLOUT == 0
    ensures !Ready(e)
  {
  }

  // A descriptor that is not watched, with no more than writability on record, and that waits
  // for something else waits for ever: in every run that does not dissociate it on close,
  // nothing for it is ever on record.
  lemma {:induction false} OrphanWaitsForEver(b: Backed, hs: seq<Happening>, fd: int)
    requires Orphan(b, fd) && b.registry.entries[fd].fired & !POLLOUT == 0
    requires forall i :: 0 <= i < |hs| ==> Honest(BackedRun(b, hs[..i]), hs[i]) && hs[i] != Made(Dissociate(fd, true))
    ensures var b' := BackedRun(b, hs);
            && Orphan(b', fd) && b'.registry.entries[fd].fired & !POLLOUT == 0
            && (b'.registry.entries[fd].waiting & POLLOUT == 0 ==> !Ready(b'.registry.entries[fd]))
    decreases |hs|
  {
    hide Next, Ready, Honest;
    if hs != [] {
      var n := |hs| - 1;
      var before := hs[..n];
      forall i | 0 <= i < n
        ensures Honest(BackedRun(b, before[..i]), before[i]) && before[i] != Made(Dissociate(fd, true))
      {
        assert before[..i] == hs[..i];
      }
      OrphanWaitsForEver(b, before, fd);
      OrphanStep(BackedRun(b, before), hs[n], fd);
    }
    var e := BackedRun(b, hs).registry.entries[fd];
    if e.waiting & POLLOUT == 0 {
      NothingMatches(e);
    }
  }

  lemma OrphanStep(b: Backed, h: Happening, fd: int)
    requires Orphan(b, fd) && Honest(b, h) && h != Made(Dissociate(fd, true))
    requires b.registry.entries[fd].fired & !POLLOUT == 0
    ensures var b' := Next(b, h); Orphan(b', fd) && b'.registry.entries[fd].fired & !POLLOUT == 0
  {
    hide Next, Honest;
    OrphanStays(b, h, fd);
    if h.Made? && h.call.Unset? {
      FewerBits(b.registry.entries[fd].fired, h.call.events);
    }
  }

  const NOTHING: Backed := Backed(EMPTY, {})

  // In every run in which the kernel takes every new descriptor and only unregistered ones
  // are closed, every waiting descriptor outside the filled ones is watched, and nothing it
  // waits for is on record.
  lemma {:induction false} RunsServeAll(hs: seq<Happening>)
    requires forall i :: 0 <= i < |hs| ==>
               !RefusesNew(BackedRun(NOTHING, hs[..i]), hs[i]) && !ClosesRegistered(BackedRun(NOTHING, hs[..i]), hs[i])
    ensures Sound(BackedRun(NOTHING, hs)) && Served(BackedRun(NOTHING, hs))
    ensures var r := BackedRun(NOTHING, hs).registry;
            forall fd :: fd in r.entries && fd !in r.filled ==> r.entries[fd].waiting & r.entries[fd].fired == 0
    decreases |hs|
  {
    hide Served, Next, RefusesNew, ClosesRegistered;
    if hs == [] {
      assert Sound(NOTHING);
    } else {
      var n := |hs| - 1;
      var before := hs[..n];
      forall i | 0 <= i < n
        ensures !RefusesNew(BackedRun(NOTHING, before[..i]), before[i])
        ensures !ClosesRegistered(BackedRun(NOTHING, before[..i]), before[i])
      {
        assert before[..i] == hs[..i];
      }
      RunsServeAll(before);
      StepKeepsSound(BackedRun(NOTHING, before), hs[n]);
    }
    SoundServes(BackedRun(NOTHING, hs));
    NothingLost(BackedRun(NOTHING, hs).registry);
  }

  lemma RunOn(b: Backed, hs: seq<Happening>, h: Happening)
    ensures BackedRun(b, hs + [h]) == Next(BackedRun(b, hs), h)
  {
    assert (hs + [h])[..|hs|] == hs;
  }

  // A descriptor refused while it asked for reading, and its association tried again: it is
  // registered and waits, the kernel does not watch it, and no wakeup counts as lost.
  lemma RefusedReader(fd: int, ptr: nat)
    ensures var first, again := Associate(fd, POLLIN, ptr, false), Associate(fd, POLLIN, ptr, true);
            var b := BackedRun(NOTHING, [Made(first), Made(again)]);
            && Orphan(b, fd) && b.registry.entries[fd] == Entry(POLLIN, POLLOUT, ptr) && b.registry.filled == {}
            && NoLostWakeup(b.registry) && !Served(b)
  {
    var first, again := Made(Associate(fd, POLLIN, ptr, false)), Made(Associate(fd, POLLIN, ptr, true));
    var b := Backed(Registry(map[fd := Entry(POLLIN, POLLOUT, ptr)], {}), {});
    RunOn(NOTHING, [], first);
    RunOn(NOTHING, [first], again);
    assert [] + [first] == [first] && [first] + [again] == [first, again];
    assert Next(NOTHING, first) == b && Next(b, again) == b;
  }

  // A reader is dissociated without onclose and closed, as the stopping loop does with its
  // listening sockets, and the number is given out again: though every addition succeeds,
  // the new descriptor is registered and waits, and the kernel does not watch it.
  lemma ReusedNumber(fd: int, ptr: nat, ptr': nat)
    ensures var first, dropped := Associate(fd, POLLIN, ptr, true), Dissociate(fd, false);
            var again := Associate(fd, POLLIN, ptr', true);
            var b := BackedRun(NOTHING, [Made(first), Made(dropped), Closed(fd), Made(again)]);
            && Orphan(b, fd) && b.registry.entries[fd] == Entry(POLLIN, POLLOUT, ptr') && b.registry.filled == {}
            && NoLostWakeup(b.registry) && !Served(b)
  {
    hide Next, Served, NoLostWakeup;
    var h1, h2, h3 := Made(Associate(fd, POLLIN, ptr, true)), Made(Dissociate(fd, false)), Closed(fd);
    var h4 := Made(Associate(fd, POLLIN, ptr', true));
    RunOn(NOTHING, [], h1);
    RunOn(NOTHING, [h1], h2);
    RunOn(NOTHING, [h1, h2], h3);
    RunOn(NOTHING, [h1, h2, h3], h4);
    assert [] + [h1] == [h1] && [h1] + [h2] == [h1, h2] && [h1, h2] + [h3] == [h1, h2, h3];
    assert [h1, h2, h3] + [h4] == [h1, h2, h3, h4];
    NumberIsClosed(fd, ptr);
    NumberIsReused(fd, ptr, ptr');
  }

  lemma NumberIsClosed(fd: int, ptr: nat)
    ensures var first := Next(NOTHING, Made(Associate(fd, POLLIN, ptr, true)));
            Next(Next(first, Made(Dissociate(fd, false))), Closed(fd)) ==
            Backed(Registry(map[fd := Entry(0, POLLOUT, ptr)], {}), {})
  {
    var first := Next(NOTHING, Made(Associate(fd, POLLIN, ptr, true)));
    assert first == Backed(Registry(map[fd := Entry(POLLIN, POLLOUT, ptr)], {}), {fd});
    assert Next(first, Made(Dissociate(fd, false))) == Backed(Registry(map[fd := Entry(0, POLLOUT, ptr)], {}), {fd});
  }

  lemma NumberIsReused(fd: int, ptr: nat, ptr': nat)
    ensures var closed := Backed(Registry(map[fd := Entry(0, POLLOUT, ptr)], {}), {});
            var b := Next(closed, Made(Associate(fd, POLLIN, ptr', true)));
            && b == Backed(Registry(map[fd := Entry(POLLIN, POLLOUT, ptr')], {}), {})
            && NoLostWakeup(b.registry) && !Served(b)
  {
    var closed := Backed(Registry(map[fd := Entry(0, POLLOUT, ptr)], {}), {});
    var b := Next(closed, Made(Associate(fd, POLLIN, ptr', true)));
    assert b.registry.entries == map[fd := Entry(POLLIN, POLLOUT, ptr')];
    NothingMatches(Entry(POLLIN, POLLOUT, ptr'));
    assert fd in b.registry.entries && fd !in b.watched && fd !in b.registry.filled;
  }

  // A descriptor filled while it waited for writing, then re-armed for reading without being
  // dissociated: it is still filled and has nothing to deliver.
  lemma RearmedReader(fd: int, ptr: nat)
    ensures var r := Run(EMPTY, [Associate(fd, POLLOUT, ptr, true), Associate(fd, POLLIN, ptr, true)]);
            fd in r.entries && r.filled == {fd} && Pending(r.entries[fd]) == 0
  {
    var first, again := Associate(fd, POLLOUT, ptr, true), Associate(fd, POLLIN, ptr, true);
    var r := Step(EMPTY, first);
    var calls := [first, again];
    assert calls[..1] == [first] && [first][..0] == [];
    assert Run(EMPTY, []) == EMPTY && Run(EMPTY, [first]) == r;
    assert r == Registry(map[fd := Entry(POLLOUT, POLLOUT, ptr)], {fd});
    assert Run(EMPTY, calls) == Step(r, again) == Registry(map[fd := Entry(POLLIN, POLLOUT, ptr)], {fd});
  }

  // ---------- events for nobody ----------

  // Every descriptor set aside for delivery waits for something.
  ghost predicate AllWait(r: Registry) {
    forall fd :: fd in r.filled ==> fd in r.entries && r.entries[fd].waiting != 0
  }

  // An error or a hangup is on record.
  predicate Broken(e: Entry) {
    e.fired & (POLLERR | POLLHUP) != 0
  }

  // A descriptor that waits for nothing has something to deliver exactly if it is broken.
  lemma IdleIsReadyWhenBroken(e: Entry)
    requires e.waiting == 0
    ensures Ready(e) <==> Broken(e)
  {
  }

  lemma BrokenStays(e: Entry, mask: Mask)
    requires Broken(e)
    ensures Broken(Noted(e, mask))
  {
  }

  lemma {:induction false} FiredAllGrows(r: Registry, reports: seq<Report>, fd: int)
    ensures FiredAll(r, reports).entries.Keys == r.entries.Keys
    ensures fd in r.entries ==>
              FiredAll(r, reports).entries[fd].waiting == r.entries[fd].waiting
              && (Broken(r.entries[fd]) ==> Broken(FiredAll(r, reports).entries[fd]))
    decreases |reports|
  {
    hide Broken, Ready;
    if reports != [] {
      var n := |reports| - 1;
      FiredAllGrows(r, reports[..n], fd);
      var s := FiredAll(r, reports[..n]);
      if fd in s.entries && Broken(s.entries[fd]) {
        BrokenStays(s.entries[fd], reports[n].mask);
      }
    }
  }

  // Some report is for a descriptor that waits for nothing and is broken in the end.
  ghost predicate ReportsBroken(r: Registry, reports: seq<Report>) {
    exists i :: 0 <= i < |reports| && reports[i].fd in r.entries && r.entries[reports[i].fd].waiting == 0 &&
                BrokenAfter(r, reports, reports[i].fd)
  }

  ghost predicate BrokenAfter(r: Registry, reports: seq<Report>, fd: int) {
    fd in FiredAll(r, reports).entries && Broken(FiredAll(r, reports).entries[fd])
  }

  lemma {:induction false} FiredAllWaits(r: Registry, reports: seq<Report>)
    requires AllWait(r)
    ensures AllWait(FiredAll(r, reports)) <==> !ReportsBroken(r, reports)
    decreases |reports|
  {
    hide Ready, Broken;
    if reports != [] {
      var n := |reports| - 1;
      var before, fd := reports[..n], reports[n].fd;
      FiredAllWaits(r, before);
      FiredAllGrows(r, before, fd);
      FiredAllGrows(r, reports, fd);
      var s, t := FiredAll(r, before), FiredAll(r, reports);
      if fd in r.entries && r.entries[fd].waiting == 0 {
        IdleIsReadyWhenBroken(t.entries[fd]);
        if Broken(s.entries[fd]) {
          BrokenStays(s.entries[fd], reports[n].mask);
        }
      }
      EarlierReports(r, reports, n);
      LastReport(r, reports, n);
    }
  }

  // The last report adds its own descriptor to those reported broken, and maybe earlier
  // reports of the same one.
  lemma EarlierReports(r: Registry, reports: seq<Report>, n: nat)
    requires n == |reports| - 1
    ensures ReportsBroken(r, reports[..n]) ==> ReportsBroken(r, reports)
    ensures ReportsBroken(r, reports) && !ReportsBroken(r, reports[..n]) ==>
              var fd := reports[n].fd; fd in r.entries && r.entries[fd].waiting == 0 && BrokenAfter(r, reports, fd)
  {
    hide Broken, Ready, FiredAll;
    if ReportsBroken(r, reports[..n]) {
      var i :| 0 <= i < n && reports[i].fd in r.entries && r.entries[reports[i].fd].waiting == 0 &&
               BrokenAfter(r, reports[..n], reports[i].fd);
      BrokenLater(r, reports, n, reports[i].fd);
      assert BrokenAfter(r, reports, reports[i].fd);
    } else if ReportsBroken(r, reports) {
      var i :| 0 <= i < |reports| && reports[i].fd in r.entries && r.entries[reports[i].fd].waiting == 0 &&
               BrokenAfter(r, reports, reports[i].fd);
      if reports[i].fd != reports[n].fd {
        BrokenEarlier(r, reports, n, i);
      }
    }
  }

  lemma BrokenEarlier(r: Registry, reports: seq<Report>, n: nat, i: nat)
    requires n == |reports| - 1 && i <= n && reports[i].fd != reports[n].fd
    requires reports[i].fd in r.entries && r.entries[reports[i].fd].waiting == 0
    requires BrokenAfter(r, reports, reports[i].fd)
    ensures ReportsBroken(r, reports[..n])
  {
    hide BrokenAfter;
    BrokenLater(r, reports, n, reports[i].fd);
    assert reports[..n][i] == reports[i];
  }

  lemma BrokenLater(r: Registry, reports: seq<Report>, n: nat, fd: int)
    requires n == |reports| - 1
    ensures BrokenAfter(r, reports[..n], fd) ==> BrokenAfter(r, reports, fd)
    ensures fd != reports[n].fd ==> (BrokenAfter(r, reports[..n], fd) <==> BrokenAfter(r, reports, fd))
  {
    hide Broken, Ready;
    var s := FiredAll(r, reports[..n]);
    if fd in s.entries && Broken(s.entries[fd]) {
      BrokenStays(s.entries[fd], reports[n].mask);
    }
  }

  lemma LastReport(r: Registry, reports: seq<Report>, n: nat)
    requires n == |reports| - 1
    ensures var fd := reports[n].fd;
            fd in r.entries && r.entries[fd].waiting == 0 && BrokenAfter(r, reports, fd) ==> ReportsBroken(r, reports)
  {
    hide BrokenAfter;
  }

  // One call leaves an event to be delivered for a descriptor that waits for nothing exactly
  // when it associates a filled or broken one with an empty mask, or asks the kernel and is
  // told of one that is broken in the end.
  lemma StepKeepsAllWait(r: Registry, c: Call)
    requires AllWait(r) && r.filled <= r.entries.Keys
    ensures AllWait(Step(r, c)) <==>
            !(c.Associate? && c.events == 0 && c.fd in r.entries && (c.fd in r.filled || Broken(r.entries[c.fd])))
            && !(c.Wait? && r.filled == {} && ReportsBroken(r, c.reports))
  {
    hide Ready, Broken, ReportsBroken;
    match c
    case Associate(fd, events, ptr, added) =>
      var e := Rearmed(r, fd, events, ptr);
      if events == 0 {
        IdleIsReadyWhenBroken(e);
        FreshIsNotBroken(events, ptr);
        if fd in r.entries {
          PointerKeepsBroken(r.entries[fd], events, ptr);
        }
      }
      assert Step(r, c).entries[fd] == e;
    case Dissociate(fd, onclose) =>
    case Unset(fd, events) =>
    case Wait(reports) =>
      FiredAllWaits(r, reports);
  }

  lemma FreshIsNotBroken(events: Mask, ptr: nat)
    ensures !Broken(Entry(events, POLLOUT, ptr))
  {
  }

  lemma PointerKeepsBroken(e: Entry, events: Mask, ptr: nat)
    ensures Broken(e.(waiting := events, ptr := ptr)) <==> Broken(e)
  {
  }

  // A dissociated descriptor hangs up: its event goes to its last pointer.
  lemma HangupForNobody(fd: int, ptr: nat)
    ensures var r := Run(EMPTY, [Associate(fd, POLLIN, ptr, true), Dissociate(fd, false), Wait([Report(fd, POLLHUP)])]);
            && r.filled == {fd} && fd in r.entries && r.entries[fd].waiting == 0
            && Pending(r.entries[fd]) == POLLHUP && r.entries[fd].ptr == ptr
  {
    var c1, c2, c3 := Associate(fd, POLLIN, ptr, true), Dissociate(fd, false), Wait([Report(fd, POLLHUP)]);
    var calls, reports := [c1, c2, c3], [Report(fd, POLLHUP)];
    assert calls[..2] == [c1, c2] && [c1, c2][..1] == [c1] && [c1][..0] == [] && reports[..0] == [];
    assert Run(EMPTY, []) == EMPTY;
    assert Run(EMPTY, [c1]) == Registry(map[fd := Entry(POLLIN, POLLOUT, ptr)], {});
    assert Run(EMPTY, [c1, c2]) == Registry(map[fd := Entry(0, POLLOUT, ptr)], {});
    var r := Run(EMPTY, [c1, c2]);
    assert FiredAll(r, []) == r;
    assert Run(EMPTY, calls) == FiredAll(r, reports) == Fired(r, fd, POLLHUP);
    assert Run(EMPTY, calls) == Registry(map[fd := Entry(0, POLLOUT | POLLHUP, ptr)], {fd});
  }
}
