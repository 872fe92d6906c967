/**
  What the edge-triggered registry holds, told by the calls and reports of a run alone: who is
  registered, for what, and which events are on record and due.
 */
module EdgeHistory {
  import opened EdgeSpec

  // ---------- single events ----------

  predicate OneBit(b: Mask) {
    b != 0 && b & (b - 1) == 0
  }

  predicate Has(m: Mask, b: Mask) {
    m & b != 0
  }

  // One bit is in a mask, or is not.
  lemma InOrOut(m: Mask, b: Mask)
    requires OneBit(b)
    ensures m & b == if Has(m, b) then b else 0
  {
  }

  lemma InEither(x: Mask, y: Mask, b: Mask)
    ensures Has(x | y, b) <==> Has(x, b) || Has(y, b)
  {
    assert (x | y) & b == (x & b) | (y & b);
    NoneOfTwo(x & b, y & b);
  }

  lemma NoneOfTwo(x: Mask, y: Mask)
    ensures x | y == 0 <==> x == 0 && y == 0
  {
  }

  lemma InBoth(x: Mask, y: Mask, b: Mask)
    requires OneBit(b)
    ensures Has(x & y, b) <==> Has(x, b) && Has(y, b)
  {
    InOrOut(x, b);
    assert (x & y) & b == (x & b) & (y & b);
    InOrOut(y, b);
  }

  lemma InNot(y: Mask, b: Mask)
    requires OneBit(b)
    ensures Has(!y, b) <==> !Has(y, b)
  {
    InOrOut(y, b);
    assert !y & b == b & !(y & b);
  }

  lemma InItself(c: Mask, b: Mask)
    requires OneBit(b) && OneBit(c)
    ensures Has(c, b) <==> b == c
  {
    InOrOut(c, b);
    InOrOut(b, c);
    assert c & b == b & c;
  }

  // An event is delivered if it was reported and is waited for, or is an error or a hangup.
  lemma PendingBits(e: Entry, b: Mask)
    requires OneBit(b)
    ensures Has(Pending(e), b) <==> Has(e.fired, b) && (Has(e.waiting, b) || b == 0x008 || b == 0x010)
  {
    hide Has, OneBit;
    MatchingBits(e.waiting, e.fired, b);
  }

  lemma MatchingBits(waiting: Mask, fired: Mask, b: Mask)
    requires OneBit(b)
    ensures Has(Matching(waiting, fired), b) <==>
            Has(fired, b) && (Has(waiting, b) || b == POLLERR || b == POLLHUP)
  {
    EventsAreBits();
    AskedBits(waiting, POLLERR, POLLHUP, fired, b);
    InItself(POLLERR, b);
    InItself(POLLHUP, b);
    hide Has, OneBit;
  }

  lemma AskedBits(waiting: Mask, x: Mask, y: Mask, fired: Mask, b: Mask)
    requires OneBit(b)
    ensures Has((waiting | x | y) & fired, b) <==> Has(fired, b) && (Has(waiting, b) || Has(x, b) || Has(y, b))
  {
    InBoth(waiting | x | y, fired, b);
    InOneOfThree(waiting, x, y, b);
    hide Has, OneBit;
  }

  lemma InOneOfThree(x: Mask, y: Mask, z: Mask, b: Mask)
    ensures Has(x | y | z, b) <==> Has(x, b) || Has(y, b) || Has(z, b)
  {
    InEither(x | y, z, b);
    InEither(x, y, b);
    hide Has;
  }

  lemma EventsAreBits()
    ensures OneBit(POLLIN) && OneBit(POLLOUT) && OneBit(POLLERR) && OneBit(POLLHUP)
  {
  }

  // A mask that is not empty has an event.
  lemma SomeBit(m: Mask) returns (b: Mask)
    requires m != 0
    ensures OneBit(b) && Has(m, b)
  {
    b := m & (0 - m);
  }

  lemma NotedBits(e: Entry, mask: Mask, b: Mask)
    ensures var e' := Noted(e, mask);
            e'.waiting == e.waiting && e'.ptr == e.ptr && (Has(e'.fired, b) <==> Has(e.fired, b) || Has(mask, b))
  {
    InEither(e.fired, mask, b);
    hide Has;
  }

  lemma UsedUpBits(e: Entry, events: Mask, b: Mask)
    requires OneBit(b)
    ensures Has(UsedUp(e, events).fired, b) <==> Has(e.fired, b) && !Has(events, b)
    ensures UsedUp(e, events).waiting == e.waiting && UsedUp(e, events).ptr == e.ptr
  {
    hide Has, OneBit;
    InBoth(e.fired, !events, b);
    InNot(events, b);
  }

  // ---------- histories ----------

  // The descriptor has been associated, and not been dissociated on close since.
  predicate Known(calls: seq<Call>, fd: int)
    decreases |calls|
  {
    calls != [] &&
    var n := |calls| - 1;
    match calls[n]
    case Associate(x, _, _, _) => x == fd || Known(calls[..n], fd)
    case Dissociate(x, onclose) => !(x == fd && onclose) && Known(calls[..n], fd)
    case _ => Known(calls[..n], fd)
  }

  const NOTHING_ASKED: Mask := 0

  // What its last association asked for, if it was not dissociated since.
  function Interest(calls: seq<Call>, fd: int): Mask
    decreases |calls|
  {
    if calls == [] then NOTHING_ASKED
    else
      var n := |calls| - 1;
      match calls[n]
      case Associate(x, events, _, _) => if x == fd then events else Interest(calls[..n], fd)
      case Dissociate(x, _) => if x == fd then NOTHING_ASKED else Interest(calls[..n], fd)
      case _ => Interest(calls[..n], fd)
  }

  // The pointer its last association gave.
  function Pointer(calls: seq<Call>, fd: int): nat
    decreases |calls|
  {
    if calls == [] then 0
    else
      var n := |calls| - 1;
      if calls[n].Associate? && calls[n].fd == fd then calls[n].ptr else Pointer(calls[..n], fd)
  }

  predicate Reported(reports: seq<Report>, fd: int, b: Mask) {
    exists i :: 0 <= i < |reports| && reports[i].fd == fd && Has(reports[i].mask, b)
  }

  // The event was reported, or assumed of a new descriptor, and not used up since.
  ghost predicate Told(calls: seq<Call>, fd: int, b: Mask)
    decreases |calls|
  {
    calls != [] &&
    var n := |calls| - 1;
    match calls[n]
    case Associate(x, _, _, _) => if x == fd && !Known(calls[..n], fd) then b == 0x004 else Told(calls[..n], fd, b)
    case Dissociate(_, _) => Told(calls[..n], fd, b)
    case Unset(x, events) => Told(calls[..n], fd, b) && !(x == fd && Has(events, b))
    case Wait(reports) =>
      Told(calls[..n], fd, b) || (Run(EMPTY, calls[..n]).filled == {} && Reported(reports, fd, b))
  }

  // The event is due: it is on record, and waited for unless it is an error or a hangup.
  ghost predicate Due(calls: seq<Call>, fd: int, b: Mask) {
    Told(calls, fd, b) && (Has(Interest(calls, fd), b) || b == 0x008 || b == 0x010)
  }

  // ---------- the registry is its history ----------

  ghost predicate AsTold(e: Entry, calls: seq<Call>, fd: int, b: Mask) {
    e.waiting == Interest(calls, fd) && e.ptr == Pointer(calls, fd) && (Has(e.fired, b) <==> Told(calls, fd, b))
  }

  lemma {:induction false} FiredAllBits(r: Registry, reports: seq<Report>, fd: int, b: Mask)
    ensures FiredAll(r, reports).entries.Keys == r.entries.Keys
    ensures fd in r.entries ==>
              var e, e' := r.entries[fd], FiredAll(r, reports).entries[fd];
              && e'.waiting == e.waiting && e'.ptr == e.ptr
              && (Has(e'.fired, b) <==> Has(e.fired, b) || Reported(reports, fd, b))
    decreases |reports|
  {
    hide Noted, Ready, Reported, Has;
    ReportedLast(reports, fd, b);
    if reports != [] {
      var n := |reports| - 1;
      var s := FiredAll(r, reports[..n]);
      FiredAllBits(r, reports[..n], fd, b);
      if fd in s.entries && reports[n].fd == fd {
        NotedBits(s.entries[fd], reports[n].mask, b);
      }
    }
  }

  lemma ReportedLast(reports: seq<Report>, fd: int, b: Mask)
    ensures reports == [] ==> !Reported(reports, fd, b)
    ensures reports != [] ==>
              var n := |reports| - 1;
              Reported(reports, fd, b) <==>
                Reported(reports[..n], fd, b) || (reports[n].fd == fd && Has(reports[n].mask, b))
  {
    hide Has;
    if reports != [] {
      var n := |reports| - 1;
      if Reported(reports[..n], fd, b) {
        var i :| 0 <= i < n && reports[..n][i].fd == fd && Has(reports[..n][i].mask, b);
        assert reports[i] == reports[..n][i];
      }
      forall i | 0 <= i < n ensures reports[..n][i] == reports[i] {
      }
    }
  }

  // The registry holds exactly what the calls and reports of the run say: who is registered,
  // what for, with which pointer, and which events are on record.
  lemma {:induction false} RegistryIsHistory(calls: seq<Call>, fd: int, b: Mask)
    requires OneBit(b)
    ensures fd in Run(EMPTY, calls).entries <==> Known(calls, fd)
    ensures Known(calls, fd) ==> AsTold(Run(EMPTY, calls).entries[fd], calls, fd, b)
    decreases |calls|
  {
    if calls != [] {
      var n := |calls| - 1;
      RegistryIsHistory(calls[..n], fd, b);
      match calls[n]
      case Associate(_, _, _, _) => HistoryAssociates(calls, fd, b);
      case Dissociate(_, _) => HistoryDissociates(calls, fd, b);
      case Unset(_, _) => HistoryUnsets(calls, fd, b);
      case Wait(_) => HistoryWaits(calls, fd, b);
    }
  }

  // The run without its last call is as its history says.
  ghost predicate Before(calls: seq<Call>, fd: int, b: Mask) {
    calls != [] &&
    var before := calls[..|calls| - 1];
    && (fd in Run(EMPTY, before).entries <==> Known(before, fd))
    && (Known(before, fd) ==> AsTold(Run(EMPTY, before).entries[fd], before, fd, b))
  }

  ghost predicate After(calls: seq<Call>, fd: int, b: Mask) {
    && (fd in Run(EMPTY, calls).entries <==> Known(calls, fd))
    && (Known(calls, fd) ==> AsTold(Run(EMPTY, calls).entries[fd], calls, fd, b))
  }

  lemma HistoryAssociates(calls: seq<Call>, fd: int, b: Mask)
    requires OneBit(b) && Before(calls, fd, b) && calls[|calls| - 1].Associate?
    ensures After(calls, fd, b)
  {
    EventsAreBits();
    hide Ready, Has, OneBit;
    InItself(POLLOUT, b);
  }

  lemma HistoryDissociates(calls: seq<Call>, fd: int, b: Mask)
    requires OneBit(b) && Before(calls, fd, b) && calls[|calls| - 1].Dissociate?
    ensures After(calls, fd, b)
  {
    hide Ready, Has, OneBit;
  }

  lemma HistoryUnsets(calls: seq<Call>, fd: int, b: Mask)
    requires OneBit(b) && Before(calls, fd, b) && calls[|calls| - 1].Unset?
    ensures After(calls, fd, b)
  {
    hide Ready, UsedUp, Has, OneBit;
    var n := |calls| - 1;
    var r := Run(EMPTY, calls[..n]);
    if fd in r.entries {
      UsedUpBits(r.entries[fd], calls[n].events, b);
    }
  }

  lemma HistoryWaits(calls: seq<Call>, fd: int, b: Mask)
    requires OneBit(b) && Before(calls, fd, b) && calls[|calls| - 1].Wait?
    ensures After(calls, fd, b)
  {
    hide Ready, FiredAll, Reported, Has, OneBit;
    var n := |calls| - 1;
    FiredAllBits(Run(EMPTY, calls[..n]), calls[n].reports, fd, b);
  }

  // ---------- no wakeup is lost, none is made up ----------

  // In every run in which the kernel takes every new descriptor, a descriptor that waits and
  // has an event due is set aside for the next wait to return.
  lemma DueIsDelivered(calls: seq<Call>, fd: int, b: Mask)
    requires forall i :: 0 <= i < |calls| ==> AddSucceeds(Run(EMPTY, calls[..i]), calls[i])
    requires OneBit(b) && Known(calls, fd) && Interest(calls, fd) != 0 && Due(calls, fd, b)
    ensures var r := Run(EMPTY, calls);
            fd in r.filled && fd in r.entries && Has(Pending(r.entries[fd]), b)
            && r.entries[fd].ptr == Pointer(calls, fd)
  {
    hide Run, Told, Interest, Pointer, Known, AddSucceeds;
    RegistryIsHistory(calls, fd, b);
    RunsLoseNoWakeup(calls);
    var e := Run(EMPTY, calls).entries[fd];
    PendingBits(e, b);
    assert Ready(e);
  }

  // In every run that dissociates before it associates with another mask, what is set aside
  // has an event due, and all it delivers is due.
  lemma DeliveredIsDue(calls: seq<Call>, fd: int) returns (b: Mask)
    requires forall i :: 0 <= i < |calls| ==> Disciplined(Run(EMPTY, calls[..i]), calls[i])
    requires fd in Run(EMPTY, calls).filled
    ensures OneBit(b) && Known(calls, fd) && Due(calls, fd, b)
    ensures fd in Run(EMPTY, calls).entries
    ensures forall c :: OneBit(c) && Has(Pending(Run(EMPTY, calls).entries[fd]), c) ==> Due(calls, fd, c)
  {
    hide Run, Told, Interest, Pointer, Known, Disciplined, OneBit, Has, Pending;
    RunsStayReady(calls);
    var e := Run(EMPTY, calls).entries[fd];
    b := SomeBit(Pending(e));
    forall c | OneBit(c) && Has(Pending(e), c) ensures Due(calls, fd, c) {
      RegistryIsHistory(calls, fd, c);
      PendingBits(e, c);
    }
    RegistryIsHistory(calls, fd, b);
  }

  // A reader: associated, and reported readable, it is returned as readable with its pointer.
  lemma ReaderIsTold(fd: int, ptr: nat)
    ensures var r := Run(EMPTY, [Associate(fd, POLLIN, ptr, true), Wait([Report(fd, POLLIN)])]);
            && r.filled == {fd} && fd in r.entries && r.entries[fd].ptr == ptr
            && Pending(r.entries[fd]) == 0x001
  {
    var c1, c2, reports := Associate(fd, POLLIN, ptr, true), Wait([Report(fd, POLLIN)]), [Report(fd, POLLIN)];
    assert [c1, c2][..1] == [c1] && [c1][..0] == [] && reports[..0] == [];
    assert Run(EMPTY, []) == EMPTY;
    var r := Registry(map[fd := Entry(POLLIN, POLLOUT, ptr)], {});
    assert Run(EMPTY, [c1]) == r;
    assert FiredAll(r, []) == r;
    assert Run(EMPTY, [c1, c2]) == FiredAll(r, reports) == Fired(r, fd, POLLIN);
    assert Fired(r, fd, POLLIN) == Registry(map[fd := Entry(POLLIN, POLLIN | POLLOUT, ptr)], {fd});
  }
}
