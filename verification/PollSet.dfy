/**
  poll.c: the registry over poll(2), as two arrays.  `index` sends a descriptor to its place
  among the first `nfds` of `pfds`; a removed place is taken by the last one.
 */
module PollSet {
  import opened Sets

  datatype Slot = Slot(idx: int, ptr: nat)

  datatype Watched = Watched(fd: int, events: int, revents: int)

  datatype Interest = Interest(events: int, ptr: nat)

  datatype Event = Event(events: int, ptr: nat)

  // index and pfds are mutually inverse on the registered descriptors.
  ghost predicate Inverse(cap: int, nfds: int, index: seq<Slot>, pfds: seq<Watched>) {
    && 0 <= nfds <= cap <= |index| && cap <= |pfds|
    && (forall i :: 0 <= i < nfds ==> 0 <= pfds[i].fd < cap && index[pfds[i].fd].idx == i)
    && (forall fd :: 0 <= fd < cap ==>
        index[fd].idx == -1 || (0 <= index[fd].idx < nfds && pfds[index[fd].idx].fd == fd))
  }

  ghost function Reading(cap: int, index: seq<Slot>, pfds: seq<Watched>): map<int, Interest> {
    map fd | 0 <= fd < cap && fd < |index| && 0 <= index[fd].idx < |pfds| ::
        Interest(pfds[index[fd].idx].events, index[fd].ptr)
  }

  ghost function Taken(pfds: seq<Watched>, nfds: int): set<int>
    requires 0 <= nfds <= |pfds|
  {
    set i | 0 <= i < nfds :: pfds[i].fd
  }

  lemma {:induction false} TakenSize(index: seq<Slot>, pfds: seq<Watched>, nfds: int)
    requires 0 <= nfds <= |pfds| && forall i :: 0 <= i < nfds ==>
            0 <= pfds[i].fd < |index| && index[pfds[i].fd].idx == i
    ensures |Taken(pfds, nfds)| == nfds
    decreases nfds
  {
    if nfds == 0 {
      assert Taken(pfds, nfds) == {};
    } else {
      TakenSize(index, pfds, nfds - 1);
      var last, rest := pfds[nfds - 1].fd, Taken(pfds, nfds - 1);
      assert last !in rest;
      assert Taken(pfds, nfds) == rest + {last} by {
        assert forall x :: x in Taken(pfds, nfds) <==> x == last || x in rest;
      }
    }
  }

  // Distinct descriptors below cap, and one more that is not among them, leave a free place.
  lemma FreePlaceExists(cap: int, nfds: int, index: seq<Slot>, pfds: seq<Watched>, fd: int)
    requires Inverse(cap, nfds, index, pfds) && 0 <= fd < cap && index[fd].idx == -1
    ensures nfds < cap
  {
    TakenSize(index, pfds, nfds);
    BelowSize(cap);
    SubsetSize(Taken(pfds, nfds), Below(cap) - {fd});
  }

  lemma GrowthKeeps(cap: int, cap': int, nfds: int, index: seq<Slot>, pfds: seq<Watched>, index': seq<Slot>,
        pfds': seq<Watched>)
    requires Inverse(cap, nfds, index, pfds) && cap <= cap' <= |index'| && cap <= |pfds'|
    requires forall fd :: 0 <= fd < cap ==> index'[fd] == index[fd]
    requires forall fd :: cap <= fd < cap' ==> index'[fd].idx == -1
    requires forall i :: 0 <= i < cap ==> pfds'[i] == pfds[i]
    ensures cap' <= |pfds'| ==> Inverse(cap', nfds, index', pfds')
    ensures Reading(cap', index', pfds') == Reading(cap, index, pfds)
  {
    assert forall fd :: fd in Reading(cap, index, pfds) <==> fd in Reading(cap', index', pfds');
  }

  // A registered descriptor gets new events and a new pointer.
  lemma RewriteKeeps(cap: int, nfds: int, index: seq<Slot>, pfds: seq<Watched>, fd: int, x: Interest, revents: int)
    requires Inverse(cap, nfds, index, pfds) && 0 <= fd < cap && index[fd].idx >= 0
    ensures var index', pfds' := index[fd := Slot(index[fd].idx, x.ptr)],
            pfds[index[fd].idx := Watched(fd, x.events, revents)];
            Inverse(cap, nfds, index', pfds') && Reading(cap, index', pfds') == Reading(cap, index, pfds)[fd := x]
  {
    var index', pfds' := index[fd := Slot(index[fd].idx, x.ptr)], pfds[index[fd].idx := Watched(fd, x.events, revents)];
    assert forall f :: f in Reading(cap, index', pfds') <==> f in Reading(cap, index, pfds);
  }

  // A new descriptor takes the first free place.
  lemma AppendKeeps(cap: int, nfds: int, index: seq<Slot>, pfds: seq<Watched>, fd: int, x: Interest, revents: int)
    requires Inverse(cap, nfds, index, pfds) && 0 <= fd < cap && index[fd].idx == -1
    ensures nfds < cap
    ensures var index', pfds' := index[fd := Slot(nfds, x.ptr)], pfds[nfds := Watched(fd, x.events, revents)];
            Inverse(cap, nfds + 1, index', pfds') && Reading(cap, index', pfds') == Reading(cap, index, pfds)[fd := x]
  {
    FreePlaceExists(cap, nfds, index, pfds, fd);
    var index', pfds' := index[fd := Slot(nfds, x.ptr)], pfds[nfds := Watched(fd, x.events, revents)];
    assert forall f :: f in Reading(cap, index', pfds') <==> f == fd || f in Reading(cap, index, pfds);
  }

  // The last place is forgotten.
  lemma LastGoes(cap: int, nfds: int, index: seq<Slot>, pfds: seq<Watched>, fd: int)
    requires Inverse(cap, nfds, index, pfds) && 0 <= fd < cap && index[fd].idx == nfds - 1 >= 0
    ensures var index' := index[fd := index[fd].(idx := -1)];
            Inverse(cap, nfds - 1, index', pfds) && Reading(cap, index', pfds) == Reading(cap, index, pfds) - {fd}
  {
    var index' := index[fd := index[fd].(idx := -1)];
    assert forall f :: f in Reading(cap, index', pfds) <==> f != fd && f in Reading(cap, index, pfds);
  }

  // The last place covers a forgotten one.
  lemma LastCovers(cap: int, nfds: int, index: seq<Slot>, pfds: seq<Watched>, fd: int)
    requires Inverse(cap, nfds, index, pfds) && 0 <= fd < cap && 0 <= index[fd].idx < nfds - 1
    ensures var idx, moved := index[fd].idx, pfds[nfds - 1].fd;
            && 0 <= moved < cap && moved != fd
            && var index' := index[fd := index[fd].(idx := -1)][moved := index[moved].(idx := idx)];
            var pfds' := pfds[idx := pfds[nfds - 1]];
            Inverse(cap, nfds - 1, index', pfds') && Reading(cap, index', pfds') == Reading(cap, index, pfds) - {fd}
  {
    var idx, moved := index[fd].idx, pfds[nfds - 1].fd;
    var index' := index[fd := index[fd].(idx := -1)][moved := index[moved].(idx := idx)];
    var pfds' := pfds[idx := pfds[nfds - 1]];
    assert Inverse(cap, nfds - 1, index', pfds');
    assert forall f :: f in Reading(cap, index', pfds') <==> f != fd && f in Reading(cap, index, pfds);
  }

  lemma Registered(cap: int, nfds: int, index: seq<Slot>, pfds: seq<Watched>, fd: int)
    requires Inverse(cap, nfds, index, pfds) && fd >= 0
    ensures fd in Reading(cap, index, pfds) <==> fd < cap && index[fd].idx >= 0
    ensures fd < cap && index[fd].idx < 0 ==> index[fd].idx == -1
  {
  }

  // The events of the ready ones among the first n places, in order.
  ghost function ReadyOnes(index: seq<Slot>, pfds: seq<Watched>, n: nat): seq<Event>
    requires n <= |pfds| && forall i :: 0 <= i < n ==> 0 <= pfds[i].fd < |index|
    decreases n
  {
    if n == 0 then []
    else if pfds[n - 1].revents != 0 then ReadyOnes(index, pfds, n - 1) +
        [Event(pfds[n - 1].revents, index[pfds[n - 1].fd].ptr)]
    else ReadyOnes(index, pfds, n - 1)
  }

  lemma {:induction false} ReadyPrefix(index: seq<Slot>, pfds: seq<Watched>, m: nat, n: nat)
    requires m <= n <= |pfds| && forall i :: 0 <= i < n ==> 0 <= pfds[i].fd < |index|
    ensures ReadyOnes(index, pfds, m) <= ReadyOnes(index, pfds, n)
    decreases n
  {
    if m < n {
      ReadyPrefix(index, pfds, m, n - 1);
    }
  }

  // The ready places, in order.
  ghost function ReadyPlaces(pfds: seq<Watched>, n: nat): seq<nat>
    requires n <= |pfds|
    decreases n
  {
    if n == 0 then []
    else if pfds[n - 1].revents != 0 then ReadyPlaces(pfds, n - 1) + [n - 1]
    else ReadyPlaces(pfds, n - 1)
  }

  ghost predicate Ascending(s: seq<nat>) {
    forall i, j :: 0 <= i < j < |s| ==> s[i] < s[j]
  }

  lemma {:induction false} PlacesAreReady(pfds: seq<Watched>, n: nat)
    requires n <= |pfds|
    ensures Ascending(ReadyPlaces(pfds, n))
    ensures forall i: nat :: i in ReadyPlaces(pfds, n) <==> i < n && pfds[i].revents != 0
    decreases n
  {
    if n > 0 {
      PlacesAreReady(pfds, n - 1);
      var before: seq<nat>, last: nat := ReadyPlaces(pfds, n - 1), n - 1;
      forall i: nat ensures i in before + [last] <==> i in before || i == last {
      }
      forall j | 0 <= j < |before| ensures before[j] < last {
        assert before[j] in before;
      }
    }
  }

  lemma {:induction false} EventsAtPlaces(index: seq<Slot>, pfds: seq<Watched>, n: nat, j: nat)
    requires n <= |pfds| && forall i :: 0 <= i < n ==> 0 <= pfds[i].fd < |index|
    requires j < |ReadyPlaces(pfds, n)|
    ensures |ReadyOnes(index, pfds, n)| == |ReadyPlaces(pfds, n)| && ReadyPlaces(pfds, n)[j] < n
    ensures var w := pfds[ReadyPlaces(pfds, n)[j]]; ReadyOnes(index, pfds, n)[j] == Event(w.revents, index[w.fd].ptr)
    decreases n
  {
    SameCount(index, pfds, n);
    if n > 0 && j < |ReadyPlaces(pfds, n - 1)| {
      EventsAtPlaces(index, pfds, n - 1, j);
    } else {
      SameCount(index, pfds, n - 1);
    }
  }

  lemma {:induction false} SameCount(index: seq<Slot>, pfds: seq<Watched>, n: nat)
    requires n <= |pfds| && forall i :: 0 <= i < n ==> 0 <= pfds[i].fd < |index|
    ensures |ReadyOnes(index, pfds, n)| == |ReadyPlaces(pfds, n)|
    decreases n
  {
    if n > 0 {
      SameCount(index, pfds, n - 1);
    }
  }

  // The places behind the events handed out.
  ghost predicate ComesFrom(evts: seq<Event>, places: seq<nat>, pfds: seq<Watched>, nfds: int, view: map<int, Interest>)
    requires nfds <= |pfds|
  {
    && |places| == |evts| && Ascending(places)
    && forall j :: 0 <= j < |evts| ==>
         places[j] < nfds &&
         var w := pfds[places[j]];
         w.revents != 0 && w.fd in view && evts[j] == Event(w.revents, view[w.fd].ptr)
  }

  // Ready places left out come after all of them, and only if the room is used up.
  ghost predicate LeavesLater(places: seq<nat>, pfds: seq<Watched>, nfds: int, count: nat)
    requires nfds <= |pfds|
  {
    forall i: nat :: i < nfds && pfds[i].revents != 0 && i !in places ==>
      |places| == count && forall j :: 0 <= j < |places| ==> places[j] < i
  }

  lemma PlacesOf(cap: int, nfds: int, index: seq<Slot>, pfds: seq<Watched>, evts: seq<Event>, count: nat)
    returns (places: seq<nat>)
    requires Inverse(cap, nfds, index, pfds)
    requires var all := ReadyOnes(index, pfds, nfds); evts == all[..if count < |all| then count else |all|]
    ensures ComesFrom(evts, places, pfds, nfds, Reading(cap, index, pfds))
    ensures LeavesLater(places, pfds, nfds, count)
  {
    var all := ReadyPlaces(pfds, nfds);
    SameCount(index, pfds, nfds);
    places := all[..|evts|];
    PlacesAreReady(pfds, nfds);
    PlacesCome(cap, nfds, index, pfds, evts, places);
    PlacesLeave(pfds, nfds, places, count, |evts|);
  }

  lemma PlacesCome(cap: int, nfds: int, index: seq<Slot>, pfds: seq<Watched>, evts: seq<Event>, places: seq<nat>)
    requires Inverse(cap, nfds, index, pfds) && evts <= ReadyOnes(index, pfds, nfds)
    requires |evts| <= |ReadyPlaces(pfds, nfds)| && places == ReadyPlaces(pfds, nfds)[..|evts|]
    ensures ComesFrom(evts, places, pfds, nfds, Reading(cap, index, pfds))
  {
    hide ReadyOnes, ReadyPlaces;
    PlacesAreReady(pfds, nfds);
    forall j | 0 <= j < |evts|
      ensures places[j] < nfds && pfds[places[j]].revents != 0 && pfds[places[j]].fd in Reading(cap, index, pfds)
      ensures evts[j] ==
              Event(pfds[places[j]].revents, Reading(cap, index, pfds)[pfds[places[j]].fd].ptr)
    {
      assert places[j] in ReadyPlaces(pfds, nfds);
      EventsAtPlaces(index, pfds, nfds, j);
    }
  }

  lemma PlacesLeave(pfds: seq<Watched>, nfds: int, places: seq<nat>, count: nat, most: nat)
    requires 0 <= nfds <= |pfds| && most <= |ReadyPlaces(pfds, nfds)| && places == ReadyPlaces(pfds, nfds)[..most]
    requires most == count || most == |ReadyPlaces(pfds, nfds)|
    ensures LeavesLater(places, pfds, nfds, count)
  {
    hide ReadyPlaces;
    PlacesAreReady(pfds, nfds);
    var all := ReadyPlaces(pfds, nfds);
    forall i: nat | i < nfds && pfds[i].revents != 0 && i !in places
      ensures |places| == count && forall j :: 0 <= j < |places| ==> places[j] < i
    {
      LaterOnes(all, most, i);
    }
  }

  lemma LaterOnes(all: seq<nat>, most: nat, i: nat)
    requires Ascending(all) && most <= |all| && i in all && i !in all[..most]
    ensures most < |all| && forall j :: 0 <= j < most ==> all[..most][j] < i
  {
    var x :| 0 <= x < |all| && all[x] == i;
    InFront(all, most, x);
  }

  lemma InFront(all: seq<nat>, most: nat, x: nat)
    requires x < |all| && most <= |all|
    ensures x < most ==> all[x] in all[..most]
  {
    assert x < most ==> all[..most][x] == all[x];
  }

  // What the kernel reports: an error or a timeout, or what happened at every place.
  datatype Answer = Nothing(ret: int) | Happened(revents: seq<int>)

  class Poll {
    var cap: int
    var nfds: int
    var index: array<Slot>
    var pfds: array<Watched>

    ghost predicate Valid()
      reads this, index, pfds
    {
      0 < cap && Inverse(cap, nfds, index[..], pfds[..])
    }

    ghost function View(): map<int, Interest>
      reads this, index, pfds
    {
      Reading(cap, index[..], pfds[..])
    }

    // ef_poll_create
    constructor (requested: int)
      ensures Valid() && View() == map[] && fresh(index) && fresh(pfds) && cap >= requested && cap >= 128
    {
      var c := if requested < 128 then 128 else requested;
      index := new Slot[c](_ => Slot(-1, 0));
      pfds := new Watched[c](_ => Watched(0, 0, 0));
      cap, nfds := c, 0;
    }

    // ef_poll_expand; the two reallocations succeed or fail independently.
    method Expand(fd: int, indexMemory: bool, pfdsMemory: bool) returns (ok: bool)
      requires Valid() && fd >= 0
      modifies this
      ensures Valid() && View() == old(View())
      ensures ok <==> fd < old(cap) || (indexMemory && pfdsMemory)
      ensures if ok then fd < cap else cap == old(cap)
      ensures (index == old(index) || fresh(index)) && (pfds == old(pfds) || fresh(pfds))
    {
      if cap > fd {
        return true;
      }
      var newCap := cap;
      while newCap <= fd
        invariant newCap >= cap > 0
        decreases fd - newCap
      {
        newCap := newCap * 2;
      }
      hide Inverse, Reading;
      Bounds(cap, nfds, index[..], pfds[..]);
      if !indexMemory {
        return false;
      }
      ghost var index0, pfds0 := index[..], pfds[..];
      index := GrowIndex(newCap);
      GrowthKeeps(cap, cap, nfds, index0, pfds0, index[..], pfds0);
      if !pfdsMemory {
        return false;
      }
      pfds := GrowPfds(newCap);
      GrowthKeeps(cap, newCap, nfds, index0, pfds0, index[..], pfds[..]);
      cap := newCap;
      return true;
    }

    // realloc and memset of the index: new places are unused.
    method GrowIndex(newCap: int) returns (newIndex: array<Slot>)
      requires 0 <= cap <= newCap && cap <= index.Length
      ensures fresh(newIndex) && newIndex.Length == newCap
      ensures forall fd :: 0 <= fd < newCap ==> newIndex[fd] == if fd < cap then index[fd] else Slot(-1, 0)
    {
      newIndex := new Slot[newCap](_ => Slot(-1, 0));
      forall i | 0 <= i < cap {
        newIndex[i] := index[i];
      }
    }

    method GrowPfds(newCap: int) returns (newPfds: array<Watched>)
      requires 0 <= cap <= newCap && cap <= pfds.Length
      ensures fresh(newPfds) && newPfds.Length == newCap
      ensures forall i :: 0 <= i < cap ==> newPfds[i] == pfds[i]
    {
      newPfds := new Watched[newCap](_ => Watched(0, 0, 0));
      forall i | 0 <= i < cap {
        newPfds[i] := pfds[i];
      }
    }

    // ef_poll_associate
    method Associate(fd: int, events: int, ptr: nat, fired: bool, indexMemory: bool,
          pfdsMemory: bool) returns (ret: int)
      requires Valid() && fd >= 0
      modifies this, index, pfds
      ensures Valid() && (index == old(index) || fresh(index)) && (pfds == old(pfds) || fresh(pfds))
      ensures ret == if fired || fd < old(cap) || (indexMemory && pfdsMemory) then 0 else -1
      ensures View() == if fired || ret < 0 then old(View()) else old(View())[fd := Interest(events, ptr)]
    {
      if fired {
        return 0;
      }
      if cap <= fd {
        var ok := Expand(fd, indexMemory, pfdsMemory);
        if !ok {
          return -1;
        }
      }
      hide Inverse, Reading;
      Record(fd, events, ptr);
      return 0;
    }

    // The place of a descriptor that fits the index: its own, or the first free one.
    method Record(fd: int, events: int, ptr: nat)
      requires Valid() && 0 <= fd < cap
      modifies this, index, pfds
      ensures Valid() && index == old(index) && pfds == old(pfds)
      ensures View() == old(View())[fd := Interest(events, ptr)]
    {
      hide Inverse, Reading;
      ghost var index0, pfds0 := index[..], pfds[..];
      Registered(cap, nfds, index0, pfds0, fd);
      Bounds(cap, nfds, index0, pfds0);
      var idx := index[fd].idx;
      if idx < 0 {
        FreePlaceExists(cap, nfds, index0, pfds0, fd);
        AppendKeeps(cap, nfds, index0, pfds0, fd, Interest(events, ptr), pfds0[nfds].revents);
        idx := nfds;
        nfds := nfds + 1;
        index[fd] := index[fd].(idx := idx);
      } else {
        PlaceOf(cap, nfds, index0, pfds0, fd);
        RewriteKeeps(cap, nfds, index0, pfds0, fd, Interest(events, ptr), pfds0[idx].revents);
      }
      index[fd] := index[fd].(ptr := ptr);
      pfds[idx] := pfds[idx].(fd := fd, events := events);
      assert index[..] == index0[fd := Slot(idx, ptr)];
      assert pfds[..] == pfds0[idx := Watched(fd, events, pfds0[idx].revents)];
    }

    // ef_poll_dissociate
    method Dissociate(fd: int)
      requires Valid() && fd >= 0
      modifies this, index, pfds
      ensures Valid() && index == old(index) && pfds == old(pfds)
      ensures View() == old(View()) - {fd}
    {
      hide Inverse, Reading;
      ghost var index0, pfds0 := index[..], pfds[..];
      Registered(cap, nfds, index0, pfds0, fd);
      Bounds(cap, nfds, index0, pfds0);
      if fd >= cap {
        assert View() - {fd} == View();
        return;
      }
      var idx := index[fd].idx;
      if idx < 0 {
        assert View() - {fd} == View();
        return;
      }
      PlaceOf(cap, nfds, index0, pfds0, fd);
      index[fd] := index[fd].(idx := -1);
      var last := nfds - 1;
      if idx < last {
        LastCovers(cap, nfds, index0, pfds0, fd);
        var moved := pfds[last].fd;
        index[moved] := index[moved].(idx := idx);
        pfds[idx] := pfds[last];
      } else {
        LastGoes(cap, nfds, index0, pfds0, fd);
      }
      nfds := nfds - 1;
    }

    // poll(2): the kernel writes what happened at every place, and answers how many are ready.
    method Ask(revents: seq<int>) returns (ready: nat)
      requires Valid() && |revents| == nfds
      modifies pfds
      ensures Valid() && View() == old(View())
      ensures forall i :: 0 <= i < nfds ==>
              pfds[i] == old(pfds[i]).(revents := revents[i]) && 0 <= pfds[i].fd < index.Length
      ensures ready == |ReadyOnes(index[..], pfds[..], nfds)|
    {
      hide Reading, Inverse;
      Bounds(cap, nfds, index[..], pfds[..]);
      InRange(cap, nfds, index[..], pfds[..]);
      ghost var index0, pfds0 := index[..], pfds[..];
      ready := 0;
      for i := 0 to nfds
        invariant forall j :: 0 <= j < i ==> pfds[j] == pfds0[j].(revents := revents[j])
        invariant forall j :: i <= j < pfds.Length ==> pfds[j] == pfds0[j]
        invariant forall j :: 0 <= j < nfds ==> 0 <= pfds[j].fd < index.Length
        invariant ready == |ReadyOnes(index0, pfds[..], i)|
      {
        ghost var before := pfds[..];
        pfds[i] := pfds[i].(revents := revents[i]);
        ready := if pfds[i].revents != 0 then ready + 1 else ready;
        ReadySame(index0, before, pfds[..], i);
      }
      ReventsKeep(cap, nfds, index0, pfds0, pfds[..]);
    }

    // ef_poll_wait: the first ready places, at most `count`, in the order of the array.
    // `places` tells where each event comes from.
    method Wait(count: nat, answer: Answer) returns (ret: int, evts: seq<Event>, ghost places: seq<nat>)
      requires Valid() && match answer { case Nothing(r) => r <= 0 case Happened(rev) => |rev| == nfds && exists i ::
              0 <= i < |rev| && rev[i] != 0 }
      modifies pfds
      ensures Valid() && View() == old(View())
      ensures answer.Nothing? ==> ret == answer.ret && evts == []
      ensures answer.Happened? ==>
                && (forall i :: 0 <= i < nfds ==> pfds[i] == old(pfds[i]).(revents := answer.revents[i]))
                && ret == |evts|
                && var all := ReadyOnes(index[..], pfds[..], nfds);
                   evts == all[..if count < |all| then count else |all|]
      ensures answer.Happened? ==>
                && |evts| <= count && ComesFrom(evts, places, pfds[..], nfds, View())
                && LeavesLater(places, pfds[..], nfds, count)
    {
      places := [];
      if answer.Nothing? {
        return answer.ret, [], [];
      }
      hide Inverse, Reading, ReadyOnes, ComesFrom, LeavesLater;
      var ready := Ask(answer.revents);
      evts := Collect(if count > ready then ready else count);
      ret := |evts|;
      places := PlacesOf(cap, nfds, index[..], pfds[..], evts, count);
    }

    // The loop that hands out the ready places.
    method Collect(most: nat) returns (evts: seq<Event>)
      requires 0 <= nfds <= pfds.Length && forall i :: 0 <= i < nfds ==> 0 <= pfds[i].fd < index.Length
      requires most <= |ReadyOnes(index[..], pfds[..], nfds)|
      ensures evts == ReadyOnes(index[..], pfds[..], nfds)[..most]
    {
      evts := [];
      var idx := 0;
      while idx < nfds && |evts| < most
        invariant 0 <= idx <= nfds && |evts| <= most && evts == ReadyOnes(index[..], pfds[..], idx)
      {
        if pfds[idx].revents != 0 {
          evts := evts + [Event(pfds[idx].revents, index[pfds[idx].fd].ptr)];
        }
        idx := idx + 1;
      }
      ReadyPrefix(index[..], pfds[..], idx, nfds);
    }
  }

  lemma InRange(cap: int, nfds: int, index: seq<Slot>, pfds: seq<Watched>)
    requires Inverse(cap, nfds, index, pfds)
    ensures forall i :: 0 <= i < nfds ==> 0 <= pfds[i].fd < |index|
  {
  }

  lemma ReventsKeep(cap: int, nfds: int, index: seq<Slot>, pfds: seq<Watched>, pfds': seq<Watched>)
    requires Inverse(cap, nfds, index, pfds) && |pfds'| == |pfds|
    requires forall i :: 0 <= i < |pfds| ==> pfds'[i].fd == pfds[i].fd && pfds'[i].events == pfds[i].events
    ensures Inverse(cap, nfds, index, pfds') && Reading(cap, index, pfds') == Reading(cap, index, pfds)
  {
    assert forall f :: f in Reading(cap, index, pfds') <==> f in Reading(cap, index, pfds);
  }

  lemma Bounds(cap: int, nfds: int, index: seq<Slot>, pfds: seq<Watched>)
    requires Inverse(cap, nfds, index, pfds)
    ensures 0 <= nfds <= cap <= |index| && cap <= |pfds|
  {
  }

  lemma PlaceOf(cap: int, nfds: int, index: seq<Slot>, pfds: seq<Watched>, fd: int)
    requires Inverse(cap, nfds, index, pfds) && 0 <= fd < cap && index[fd].idx >= 0
    ensures index[fd].idx < nfds && pfds[index[fd].idx].fd == fd
  {
  }

  lemma {:induction false} ReadySame(index: seq<Slot>, pfds: seq<Watched>, pfds': seq<Watched>, n: nat)
    requires n <= |pfds| == |pfds'| && forall i :: 0 <= i < n ==> pfds'[i] == pfds[i] && 0 <= pfds[i].fd < |index|
    ensures ReadyOnes(index, pfds', n) == ReadyOnes(index, pfds, n)
    decreases n
  {
    if n > 0 {
      ReadySame(index, pfds, pfds', n - 1);
    }
  }
}
