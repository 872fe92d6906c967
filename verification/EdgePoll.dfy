/**
  epollet.c: the registry as two arrays.  `index` sends a descriptor to its place in
  `items`; the first `fill` of the `used` items are the filled ones.  Items leave and
  enter the filled zone, and the registry, by swapping with the border item.
 */
module EdgePoll {
  import opened EdgeSpec
  import opened Sets

  datatype Item = Item(fd: int, entry: Entry)

  datatype Event = Event(events: Mask, ptr: nat)

  // index and items are mutually inverse on the registered descriptors.
  ghost predicate Inverse(cap: int, used: int, fill: int, index: seq<int>, items: seq<Item>) {
    && 0 <= fill <= used <= cap <= |index| && cap <= |items|
    && (forall i :: 0 <= i < used ==> 0 <= items[i].fd < cap && index[items[i].fd] == i)
    && (forall fd :: 0 <= fd < cap ==> index[fd] == -1 || (0 <= index[fd] < used && items[index[fd]].fd == fd))
  }

  ghost function Reading(cap: int, fill: int, index: seq<int>, items: seq<Item>): Registry {
    Registry(
      map fd | 0 <= fd < cap && fd < |index| && 0 <= index[fd] < |items| :: items[index[fd]].entry,
      set fd | 0 <= fd < cap && fd < |index| && 0 <= index[fd] < fill)
  }

  // Distinct descriptors below cap, and one more that is not among them, leave room in the items.
  lemma FreshSlotExists(cap: int, used: int, fill: int, index: seq<int>, items: seq<Item>, fd: int)
    requires Inverse(cap, used, fill, index, items) && 0 <= fd < cap && index[fd] == -1
    ensures used < cap
  {
    var taken := Taken(items, used, cap);
    TakenSize(index, items, used, cap);
    BelowSize(cap);
    SubsetSize(taken, Below(cap) - {fd});
  }

  ghost function Taken(items: seq<Item>, used: int, cap: int): set<int>
    requires 0 <= used <= |items|
  {
    set i | 0 <= i < used :: items[i].fd
  }

  lemma {:induction false} TakenSize(index: seq<int>, items: seq<Item>, used: int, cap: int)
    requires 0 <= used <= |items| && forall i :: 0 <= i < used ==> 0 <= items[i].fd < |index| && index[items[i].fd] == i
    ensures |Taken(items, used, cap)| == used
    decreases used
  {
    if used == 0 {
      assert Taken(items, used, cap) == {};
    } else {
      TakenSize(index, items, used - 1, cap);
      var last, rest := items[used - 1].fd, Taken(items, used - 1, cap);
      assert last !in rest;
      assert Taken(items, used, cap) == rest + {last} by {
        assert forall x :: x in Taken(items, used, cap) <==> x == last || x in rest;
      }
    }
  }

  // Two items change places, and the index follows.
  lemma SwapKeeps(cap: int, used: int, fill: int, index: seq<int>, items: seq<Item>, i: int, j: int, index': seq<int>,
        items': seq<Item>)
    requires Inverse(cap, used, fill, index, items) && 0 <= i < used && 0 <= j < used
    requires index' == index[items[i].fd := j][items[j].fd := i]
    requires items' == items[j := items[i]][i := items[j]]
    ensures Inverse(cap, used, fill, index', items')
    ensures forall fd :: 0 <= fd < cap && index[fd] == -1 ==> index'[fd] == -1
    ensures forall fd :: 0 <= fd < cap && index[fd] >= 0 ==>
              items'[index'[fd]] == items[index[fd]] && index'[fd] ==
                  (if index[fd] == i then j else if index[fd] == j then i else index[fd])
  {
  }

  lemma SwapEntries(cap: int, used: int, fill: int, index: seq<int>, items: seq<Item>, i: int, j: int,
        index': seq<int>, items': seq<Item>)
    requires Inverse(cap, used, fill, index, items) && 0 <= i < used && 0 <= j < used
    requires index' == index[items[i].fd := j][items[j].fd := i]
    requires items' == items[j := items[i]][i := items[j]]
    ensures forall f, f' :: Reading(cap, f', index', items').entries == Reading(cap, f, index, items).entries
  {
    SwapKeeps(cap, used, fill, index, items, i, j, index', items');
    var r, r' := Reading(cap, 0, index, items).entries, Reading(cap, 0, index', items').entries;
    assert forall fd :: fd in r <==> fd in r';
    assert r == r';
  }

  // Moving the border over an item adds exactly that item's descriptor to the filled ones.
  lemma BorderMoves(cap: int, used: int, fill: int, index: seq<int>, items: seq<Item>)
    requires Inverse(cap, used, fill, index, items) && fill < used
    ensures Reading(cap, fill + 1, index, items).filled == Reading(cap, fill, index, items).filled + {items[fill].fd}
    ensures items[fill].fd !in Reading(cap, fill, index, items).filled
  {
  }

  lemma SwapFilled(cap: int, used: int, fill: int, index: seq<int>, items: seq<Item>, i: int, j: int,
        index': seq<int>, items': seq<Item>)
    requires Inverse(cap, used, fill, index, items) && 0 <= i < used && 0 <= j < used && (i < fill <==> j < fill)
    requires index' == index[items[i].fd := j][items[j].fd := i]
    requires items' == items[j := items[i]][i := items[j]]
    ensures Reading(cap, fill, index', items').filled == Reading(cap, fill, index, items).filled
  {
    SwapKeeps(cap, used, fill, index, items, i, j, index', items');
  }

  // Longer arrays read the same, whether or not the capacity has caught up with them.
  lemma GrowthKeeps(cap: int, cap': int, used: int, fill: int, index: seq<int>, items: seq<Item>, index': seq<int>,
        items': seq<Item>)
    requires Inverse(cap, used, fill, index, items) && cap <= cap' <= |index'| && cap <= |items'|
    requires index'[..cap'] == index[..cap] + seq(cap' - cap, _ => -1) && items'[..cap] == items[..cap]
    ensures cap' <= |items'| ==> Inverse(cap', used, fill, index', items')
    ensures Reading(cap', fill, index', items') == Reading(cap, fill, index, items)
  {
    assert forall fd :: 0 <= fd < cap ==> index'[fd] == index[fd];
    assert forall fd :: cap <= fd < cap' ==> index'[fd] == -1;
    assert forall i :: 0 <= i < cap ==> items'[i] == items[i];
    var r, r' := Reading(cap, fill, index, items), Reading(cap', fill, index', items');
    assert r.entries == r'.entries;
    assert r.filled == r'.filled;
  }

  // A registered descriptor's item is rewritten in place.
  lemma RewriteKeeps(cap: int, used: int, fill: int, index: seq<int>, items: seq<Item>, idx: int, e: Entry)
    requires Inverse(cap, used, fill, index, items) && 0 <= idx < used
    ensures Inverse(cap, used, fill, index, items[idx := Item(items[idx].fd, e)])
    ensures items[idx].fd in Reading(cap, fill, index, items).entries
    ensures Reading(cap, fill, index, items[idx := Item(items[idx].fd, e)]) ==
            Registry(Reading(cap, fill, index, items).entries[items[idx].fd := e],
                Reading(cap, fill, index, items).filled)
  {
    var items' := items[idx := Item(items[idx].fd, e)];
    var r, r' := Reading(cap, fill, index, items), Reading(cap, fill, index, items');
    assert r'.entries == r.entries[items[idx].fd := e];
    assert r'.filled == r.filled;
  }

  // A new descriptor takes the first unused item.
  lemma AppendKeeps(cap: int, used: int, fill: int, index: seq<int>, items: seq<Item>, fd: int, e: Entry)
    requires Inverse(cap, used, fill, index, items) && 0 <= fd < cap && index[fd] == -1
    ensures used < cap
    ensures Inverse(cap, used + 1, fill, index[fd := used], items[used := Item(fd, e)])
    ensures fd !in Reading(cap, fill, index, items).entries
    ensures Reading(cap, fill, index[fd := used], items[used := Item(fd, e)]) ==
            Registry(Reading(cap, fill, index, items).entries[fd := e], Reading(cap, fill, index, items).filled)
  {
    FreshSlotExists(cap, used, fill, index, items, fd);
    var index', items' := index[fd := used], items[used := Item(fd, e)];
    var r, r' := Reading(cap, fill, index, items), Reading(cap, fill, index', items');
    assert r'.entries == r.entries[fd := e];
    assert r'.filled == r.filled;
  }

  // Between the two moves of a removal, the item at `hole` belongs to nobody.
  ghost predicate InverseBut(cap: int, used: int, fill: int, index: seq<int>, items: seq<Item>, hole: int) {
    && 0 <= fill <= hole < used <= cap <= |index| && cap <= |items|
    && (forall i :: 0 <= i < used && i != hole ==> 0 <= items[i].fd < cap && index[items[i].fd] == i)
    && (forall fd :: 0 <= fd < cap ==>
        index[fd] == -1 || (0 <= index[fd] < used && index[fd] != hole && items[index[fd]].fd == fd))
  }

  // Forgetting an unfilled item, or the last filled one, only moves the border.
  lemma ForgetKeeps(cap: int, used: int, fill: int, index: seq<int>, items: seq<Item>, idx: int)
    requires Inverse(cap, used, fill, index, items) && fill - 1 <= idx < used && 0 <= idx
    ensures var fd := items[idx].fd; var r := Reading(cap, fill, index, items);
            var fill' := if idx < fill then fill - 1 else fill;
            && InverseBut(cap, used, fill', index[fd := -1], items, idx)
            && Reading(cap, fill', index[fd := -1], items) == Registry(r.entries - {fd}, r.filled - {fd})
  {
    var fd, fill' := items[idx].fd, if idx < fill then fill - 1 else fill;
    var r, r' := Reading(cap, fill, index, items), Reading(cap, fill', index[fd := -1], items);
    assert r'.entries == r.entries - {fd};
    assert r'.filled == r.filled - {fd};
  }

  // First move: the last filled item covers a filled one.
  lemma CoverKeeps(cap: int, used: int, fill: int, index: seq<int>, items: seq<Item>, idx: int)
    requires Inverse(cap, used, fill, index, items) && 0 <= idx < fill - 1
    ensures 0 <= items[fill - 1].fd < |index|
    ensures var fd := items[idx].fd; var r := Reading(cap, fill, index, items);
            var items', index' := items[idx := items[fill - 1]], index[fd := -1][items[fill - 1].fd := idx];
            && InverseBut(cap, used, fill - 1, index', items', fill - 1)
            && Reading(cap, fill - 1, index', items') == Registry(r.entries - {fd}, r.filled - {fd})
  {
    var fd := items[idx].fd;
    var items', index' := items[idx := items[fill - 1]], index[fd := -1][items[fill - 1].fd := idx];
    var r, r' := Reading(cap, fill, index, items), Reading(cap, fill - 1, index', items');
    assert r'.entries == r.entries - {fd};
    assert r'.filled == r.filled - {fd};
  }

  // Second move: the last used item fills the hole.
  lemma FillHoleKeeps(cap: int, used: int, fill: int, index: seq<int>, items: seq<Item>, hole: int)
    requires InverseBut(cap, used, fill, index, items, hole)
    ensures hole < used <= |items| && 0 <= hole && (hole < used - 1 ==> 0 <= items[used - 1].fd < |index|)
    ensures if hole == used - 1 then Inverse(cap, used - 1, fill, index, items)
            else var items' := items[hole := items[used - 1]]; var index' := index[items[used - 1].fd := hole];
                 Inverse(cap, used - 1, fill, index', items') &&
                     Reading(cap, fill, index', items') == Reading(cap, fill, index, items)
  {
    if hole < used - 1 {
      var items' := items[hole := items[used - 1]];
      var index' := index[items[used - 1].fd := hole];
      assert Reading(cap, fill, index', items').entries == Reading(cap, fill, index, items).entries;
      assert Reading(cap, fill, index', items').filled == Reading(cap, fill, index, items).filled;
    }
  }

  lemma Registered(cap: int, used: int, fill: int, index: seq<int>, items: seq<Item>, fd: int)
    requires Inverse(cap, used, fill, index, items) && fd >= 0
    ensures fd in Reading(cap, fill, index, items).entries <==> fd < cap && index[fd] >= 0
    ensures fd in Reading(cap, fill, index, items).filled <==> fd < cap && 0 <= index[fd] < fill
    ensures fd < cap && index[fd] < 0 ==> index[fd] == -1
    ensures fd < cap && index[fd] >= 0 ==>
              index[fd] < used && items[index[fd]].fd == fd &&
                  Reading(cap, fill, index, items).entries[fd] == items[index[fd]].entry
  {
  }

  lemma Bounds(cap: int, used: int, fill: int, index: seq<int>, items: seq<Item>)
    requires Inverse(cap, used, fill, index, items)
    ensures 0 <= fill <= used <= cap <= |index| && cap <= |items|
  {
  }

  lemma FillIsEmpty(cap: int, used: int, fill: int, index: seq<int>, items: seq<Item>)
    requires Inverse(cap, used, fill, index, items)
    ensures fill == 0 <==> Reading(cap, fill, index, items).filled == {}
  {
    if fill > 0 {
      assert items[0].fd in Reading(cap, fill, index, items).filled;
    }
  }

  // The filled descriptors are those of the first `fill` items, each once.
  lemma FilledPrefix(cap: int, used: int, fill: int, index: seq<int>, items: seq<Item>)
    requires Inverse(cap, used, fill, index, items)
    ensures forall i :: 0 <= i < fill ==>
              var r := Reading(cap, fill, index, items);
              items[i].fd in r.filled && items[i].fd in r.entries && r.entries[items[i].fd] == items[i].entry
    ensures forall i, j :: 0 <= i < j < used ==> items[i].fd != items[j].fd
    ensures forall fd :: fd in Reading(cap, fill, index, items).filled ==>
            0 <= fd < |index| && 0 <= index[fd] < fill && items[index[fd]].fd == fd
  {
  }

  class Poll {
    var cap: int
    var used: int
    var fill: int
    var index: array<int>
    var items: array<Item>
    var eventsLen: int
    // The registered descriptors that the kernel watches: additions it took, less deletions
    // and those closed since.
    ghost var kernel: set<int>

    ghost function View(): Registry
      reads this, index, items
    {
      Reading(cap, fill, index[..], items[..])
    }

    // What the kernel watches is registered here; the scratch buffer holds cap events.
    ghost predicate Valid()
      reads this, index, items
    {
      && 0 < cap <= eventsLen
      && Inverse(cap, used, fill, index[..], items[..])
      && kernel <= View().entries.Keys
    }

    constructor (requested: int)
      ensures Valid() && View() == EMPTY && kernel == {} && fresh(index) && fresh(items)
      ensures cap >= requested && cap >= 128
    {
      var c := if requested < 128 then 128 else requested;
      index := new int[c](_ => -1);
      items := new Item[c](_ => Item(0, Entry(0, 0, 0)));
      eventsLen := c;
      cap, used, fill, kernel := c, 0, 0, {};
    }

    // realloc and memset of the index: new places are unused.
    method GrowIndex(newCap: int) returns (newIndex: array<int>)
      requires Valid() && newCap >= cap
      ensures fresh(newIndex) && newIndex.Length == newCap
      ensures newIndex[..] == index[..cap] + seq(newCap - cap, _ => -1)
    {
      newIndex := new int[newCap];
      forall i | 0 <= i < newCap {
        newIndex[i] := if i < cap then index[i] else -1;
      }
    }

    method GrowItems(newCap: int) returns (newItems: array<Item>)
      requires Valid() && newCap >= cap
      ensures fresh(newItems) && newItems.Length == newCap && newItems[..cap] == items[..cap]
    {
      newItems := new Item[newCap](_ => Item(0, Entry(0, 0, 0)));
      forall i | 0 <= i < cap {
        newItems[i] := items[i];
      }
    }

    // ef_epoll_expand; the three reallocations succeed or fail independently.
    method Expand(fd: int, indexMemory: bool, itemsMemory: bool, eventsMemory: bool) returns (ok: bool)
      requires Valid() && fd >= 0
      modifies this
      ensures Valid() && View() == old(View()) && kernel == old(kernel)
      ensures ok <==> fd < old(cap) || (indexMemory && itemsMemory && eventsMemory)
      ensures if ok then fd < cap else cap == old(cap)
      ensures (index == old(index) || fresh(index)) && (items == old(items) || fresh(items))
    {
      if cap > fd {
        return true;
      }
      var newCap := cap;
      while newCap <= fd
        invariant newCap >= cap > 0
        decreases fd - newCap
      {
        newCap := newCap * 2;
      }
      ghost var index0, items0 := index[..], items[..];
      hide Inverse, Reading;
      if !indexMemory {
        return false;
      }
      var newIndex := GrowIndex(newCap);
      GrowthKeeps(cap, cap, used, fill, index0, items0, newIndex[..], items0);
      GrowthKeeps(cap, newCap, used, fill, index0, items0, newIndex[..], items0);
      index := newIndex;
      if !itemsMemory {
        return false;
      }
      var newItems := GrowItems(newCap);
      items := newItems;
      GrowthKeeps(cap, cap, used, fill, index0, items0, index[..], items[..]);
      if !eventsMemory {
        return false;
      }
      GrowthKeeps(cap, newCap, used, fill, index0, items0, index[..], items[..]);
      eventsLen := newCap;
      cap := newCap;
      return true;
    }

    // Two items change places.
    method Swap(i: int, j: int)
      requires Inverse(cap, used, fill, index[..], items[..]) && 0 <= i < used && 0 <= j < used &&
              (i < fill <==> j < fill)
      modifies index, items
      ensures Inverse(cap, used, fill, index[..], items[..]) && View() == old(View())
      ensures items[..] == old(items[..][j := items[i]][i := items[j]])
    {
      ghost var index0, items0 := index[..], items[..];
      index[items[i].fd] := j;
      index[items[j].fd] := i;
      var tmp := items[i];
      items[i] := items[j];
      items[j] := tmp;
      SwapKeeps(cap, used, fill, index0, items0, i, j, index[..], items[..]);
      hide Inverse, Reading;
      SwapEntries(cap, used, fill, index0, items0, i, j, index[..], items[..]);
      SwapFilled(cap, used, fill, index0, items0, i, j, index[..], items[..]);
    }

    // The item at idx joins the filled zone.
    method Promote(idx: int)
      requires Inverse(cap, used, fill, index[..], items[..]) && fill <= idx < used
      modifies this`fill, index, items
      ensures Inverse(cap, used, fill, index[..], items[..])
      ensures View() == Registry(old(View()).entries, old(View()).filled + {old(items[idx].fd)})
    {
      if idx > fill {
        Swap(fill, idx);
      }
      BorderMoves(cap, used, fill, index[..], items[..]);
      fill := fill + 1;
    }

    // The item at idx leaves the filled zone.
    method Demote(idx: int)
      requires Inverse(cap, used, fill, index[..], items[..]) && 0 <= idx < fill
      modifies this`fill, index, items
      ensures Inverse(cap, used, fill, index[..], items[..])
      ensures View() == Registry(old(View()).entries, old(View()).filled - {old(items[idx].fd)})
    {
      if idx < fill - 1 {
        Swap(idx, fill - 1);
      }
      BorderMoves(cap, used, fill - 1, index[..], items[..]);
      fill := fill - 1;
    }

    // Move to the filled area if there is something to deliver.
    method Settle(fd: int, idx: int) returns (ret: int)
      requires Inverse(cap, used, fill, index[..], items[..]) && 0 <= idx < used && items[idx].fd == fd >= 0
      modifies this`fill, index, items
      ensures Inverse(cap, used, fill, index[..], items[..])
      ensures ret == if Ready(old(items[idx].entry)) then 1 else 0
      ensures View() == Registry(old(View()).entries, Refilled(old(View()).filled, fd, old(items[idx].entry)))
    {
      hide Ready;
      if !Ready(items[idx].entry) {
        return 0;
      }
      if idx >= fill {
        Promote(idx);
      } else {
        assert old(View()).filled + {fd} == old(View()).filled;
      }
      return 1;
    }

    // ef_epoll_associate; `added` is the kernel's answer to the addition of a new descriptor.
    method Associate(fd: int, events: Mask, ptr: nat, indexMemory: bool, itemsMemory: bool, eventsMemory: bool,
          added: bool)
      returns (ret: int)
      requires Valid() && fd >= 0
      modifies this, index, items
      ensures Valid()
      ensures (index == old(index) || fresh(index)) && (items == old(items) || fresh(items))
      ensures var room := fd < old(cap) || (indexMemory && itemsMemory && eventsMemory);
              && View() == (if room then Associated(old(View()), fd, events, ptr, added) else old(View()))
              && ret == (if !room || (fd !in old(View()).entries && !added) then -1
                         else if Ready(Rearmed(old(View()), fd, events, ptr)) then 1 else 0)
              && kernel == (if room then StillWatched(Backed(old(View()), old(kernel)),
                  Call.Associate(fd, events, ptr, added))
                            else old(kernel))
    {
      hide Inverse, Reading, Ready, Refilled;
      if fd >= cap {
        var ok := Expand(fd, indexMemory, itemsMemory, eventsMemory);
        if !ok {
          return -1;
        }
      }
      ghost var r := View();
      Bounds(cap, used, fill, index[..], items[..]);
      Registered(cap, used, fill, index[..], items[..], fd);
      var idx := index[fd];
      if idx < 0 {
        AppendKeeps(cap, used, fill, index[..], items[..], fd, Entry(events, POLLOUT, ptr));
        idx := used;
        used := used + 1;
        index[fd] := idx;
        items[idx] := Item(fd, Entry(events, POLLOUT, ptr));
        if !added {
          return -1;
        }
        kernel := kernel + {fd};
      } else {
        var e := items[idx].entry.(waiting := events, ptr := ptr);
        RewriteKeeps(cap, used, fill, index[..], items[..], idx, e);
        items[idx] := Item(fd, e);
      }
      assert View() == Registry(r.entries[fd := Rearmed(r, fd, events, ptr)], r.filled);
      ret := Settle(fd, idx);
    }

    // A descriptor is closed: the kernel forgets it.
    ghost method Forget(fd: int)
      requires Valid()
      modifies this`kernel
      ensures Valid() && Backed(View(), kernel) == Next(Backed(old(View()), old(kernel)), Closed(fd))
    {
      hide Inverse, Reading;
      kernel := kernel - {fd};
    }

    // ef_epoll_dissociate; `deleted` is the kernel's answer to a deletion, which fails only for
    // a descriptor it does not watch.
    method Dissociate(fd: int, onclose: bool, deleted: bool) returns (ret: int)
      requires Valid() && fd >= 0 && (!deleted ==> fd !in kernel)
      modifies this, index, items
      ensures Valid() && index == old(index) && items == old(items) && cap == old(cap)
      ensures View() == Dissociated(old(View()), fd, onclose)
      ensures kernel == StillWatched(Backed(old(View()), old(kernel)), Call.Dissociate(fd, onclose))
      ensures ret == if onclose && fd in old(View()).entries && !deleted then -1 else 0
    {
      hide Inverse, InverseBut, Reading, Ready;
      if fd >= cap {
        Registered(cap, used, fill, index[..], items[..], fd);
        return 0;
      }
      Bounds(cap, used, fill, index[..], items[..]);
      Registered(cap, used, fill, index[..], items[..], fd);
      var idx := index[fd];
      if idx < 0 {
        return 0;
      }
      if onclose {
        Remove(fd, idx);
        kernel := kernel - {fd};
        return if deleted then 0 else -1;
      } else {
        var e := items[idx].entry.(waiting := 0);
        RewriteKeeps(cap, used, fill, index[..], items[..], idx, e);
        items[idx] := Item(fd, e);
        if idx < fill {
          Demote(idx);
        } else {
          assert View().filled - {fd} == View().filled;
        }
      }
      return 0;
    }

    // The onclose half: out of the filled zone, then out of the used one.
    method Remove(fd: int, at: int)
      requires Inverse(cap, used, fill, index[..], items[..]) && 0 <= fd < cap && 0 <= at < used && index[fd] == at &&
              items[at].fd == fd
      modifies this`used, this`fill, index, items
      ensures Inverse(cap, used, fill, index[..], items[..])
      ensures View() == Registry(old(View()).entries - {fd}, old(View()).filled - {fd})
    {
      hide Inverse, InverseBut, Reading;
      Bounds(cap, used, fill, index[..], items[..]);
      var idx := at;
      if idx < fill - 1 {
        CoverKeeps(cap, used, fill, index[..], items[..], idx);
      } else {
        ForgetKeeps(cap, used, fill, index[..], items[..], idx);
      }
      index[fd] := -1;
      if idx < fill {
        fill := fill - 1;
        if idx < fill {
          items[idx] := items[fill];
          index[items[idx].fd] := idx;
          idx := fill;
        }
      }
      FillHoleKeeps(cap, used, fill, index[..], items[..], idx);
      used := used - 1;
      if idx < used {
        items[idx] := items[used];
        index[items[idx].fd] := idx;
      }
    }

    // ef_epoll_unset
    method Unset(fd: int, events: Mask)
      requires Valid() && fd >= 0
      modifies this`fill, index, items
      ensures Valid() && View() == Cleared(old(View()), fd, events)
      ensures fd in View().entries ==> View().entries[fd].fired & events == 0
    {
      hide Inverse, Reading, Ready, UsedUp;
      Registered(cap, used, fill, index[..], items[..], fd);
      Bounds(cap, used, fill, index[..], items[..]);
      if fd >= cap {
        return;
      }
      var idx := index[fd];
      if idx < 0 {
        return;
      }
      var e := UsedUp(items[idx].entry, events);
      NoneLeft(items[idx].entry, events);
      RewriteKeeps(cap, used, fill, index[..], items[..], idx, e);
      items[idx] := Item(fd, e);
      if idx < fill && !Ready(e) {
        Demote(idx);
      } else {
        assert !Ready(e) ==> View().filled - {fd} == View().filled;
      }
    }

    // One event of the kernel's answer.
    method Note(report: Report)
      requires Valid() && report.fd in kernel && report.fd >= 0
      modifies this`fill, index, items
      ensures Valid() && View() == Fired(old(View()), report.fd, report.mask)
    {
      hide Inverse, Reading, Ready, Refilled, Noted;
      Registered(cap, used, fill, index[..], items[..], report.fd);
      Bounds(cap, used, fill, index[..], items[..]);
      var idx := index[report.fd];
      var e := Noted(items[idx].entry, report.mask);
      RewriteKeeps(cap, used, fill, index[..], items[..], idx, e);
      items[idx] := Item(report.fd, e);
      var _ := Settle(report.fd, idx);
    }

    method NoteAll(reports: seq<Report>)
      requires Valid()
      requires forall i :: 0 <= i < |reports| ==> reports[i].fd in kernel && reports[i].fd >= 0
      modifies this`fill, index, items
      ensures Valid() && View() == FiredAll(old(View()), reports)
    {
      hide Inverse, Reading, Fired;
      ghost var r := View();
      assert reports[..0] == [];
      for cur := 0 to |reports|
        invariant Valid() && View() == FiredAll(r, reports[..cur])
      {
        assert reports[..cur + 1][..cur] == reports[..cur];
        Note(reports[cur]);
      }
      assert reports[..|reports|] == reports;
    }

    // Copying out the first n filled items; `fds` names the descriptors behind the events.
    method Collect(n: int) returns (evts: seq<Event>, ghost fds: seq<int>)
      requires Valid() && 0 <= n <= fill
      ensures |evts| == |fds| == n && forall i, j :: 0 <= i < j < n ==> fds[i] != fds[j]
      ensures forall i :: 0 <= i < n ==>
                fds[i] in View().filled && fds[i] in View().entries &&
                evts[i] == Event(Pending(View().entries[fds[i]]), View().entries[fds[i]].ptr)
      ensures n == fill ==> forall fd :: fd in View().filled ==> fd in fds
    {
      hide Pending, Reading, Inverse;
      Bounds(cap, used, fill, index[..], items[..]);
      FilledPrefix(cap, used, fill, index[..], items[..]);
      evts, fds := [], [];
      for idx := 0 to n
        invariant |evts| == |fds| == idx
        invariant forall i :: 0 <= i < idx ==>
                fds[i] == items[i].fd && evts[i] == Event(Pending(items[i].entry), items[i].entry.ptr)
      {
        evts := evts + [Event(Pending(items[idx].entry), items[idx].entry.ptr)];
        fds := fds + [items[idx].fd];
      }
      if n == fill {
        forall fd | fd in View().filled ensures fd in fds {
          assert fds[index[..][fd]] == fd;
        }
      }
    }

    // ef_epoll_wait.  The kernel is asked only when nothing is filled; it then fails, or
    // answers with descriptors it watches.
    method Wait(count: int, kernelFails: bool, reports: seq<Report>) returns (ret: int, evts: seq<Event>,
          ghost fds: seq<int>)
      requires Valid() && count >= 0 && |reports| <= cap
      requires forall i :: 0 <= i < |reports| ==> reports[i].fd in kernel && reports[i].fd >= 0
      modifies this`fill, index, items
      ensures Valid()
      ensures if kernelFails && old(View()).filled == {} then ret == -1 && evts == [] && View() == old(View())
              else ret == |evts| && View() == Waited(old(View()), reports)
      ensures |fds| == |evts| && forall i, j :: 0 <= i < j < |fds| ==> fds[i] != fds[j]
      ensures forall i :: 0 <= i < |fds| ==>
                fds[i] in View().filled && fds[i] in View().entries &&
                evts[i] == Event(Pending(View().entries[fds[i]]), View().entries[fds[i]].ptr)
      ensures ret >= 0 ==> |evts| <= count && (|evts| < count ==> forall fd :: fd in View().filled ==> fd in fds)
    {
      hide Inverse, Reading, Pending;
      FillIsEmpty(cap, used, fill, index[..], items[..]);
      if fill == 0 {
        if kernelFails {
          return -1, [], [];
        }
        NoteAll(reports);
      }
      Bounds(cap, used, fill, index[..], items[..]);
      var n := if count > fill then fill else count;
      evts, fds := Collect(n);
      ret := n;
    }
  }

  // The kernel refuses a descriptor that is to wait for reading, and the caller tries again:
  // the second answer is success, and nothing will ever be reported.
  method RefusedAndRetried(p: Poll, fd: int, ptr: nat) returns (first: int, second: int)
    requires p.Valid() && 0 <= fd < p.cap && fd !in p.View().entries
    modifies p, p.index, p.items
    ensures p.Valid() && first == -1 && second == 0
    ensures fd in p.View().entries && p.View().entries[fd] == Entry(POLLIN, POLLOUT, ptr)
    ensures Orphan(Backed(p.View(), p.kernel), fd)
  {
    hide Inverse, Reading, Ready, Refilled;
    ReaderIsIdle(ptr);
    first := p.Associate(fd, POLLIN, ptr, true, true, true, false);
    second := p.Associate(fd, POLLIN, ptr, true, true, true, true);
  }

  // A reader is dissociated without onclose and closed, and the number is associated again:
  // every call succeeds, and nothing will ever be reported for it.
  method ReusedAndUnwatched(p: Poll, fd: int, ptr: nat, ptr': nat) returns (first: int, second: int, third: int)
    requires p.Valid() && 0 <= fd < p.cap && fd !in p.View().entries
    modifies p, p.index, p.items
    ensures p.Valid() && first == second == third == 0
    ensures fd in p.View().entries && p.View().entries[fd] == Entry(POLLIN, POLLOUT, ptr')
    ensures Orphan(Backed(p.View(), p.kernel), fd)
  {
    hide Inverse, Reading, Ready, Refilled;
    ReaderIsIdle(ptr);
    ReaderIsIdle(ptr');
    first := p.Associate(fd, POLLIN, ptr, true, true, true, true);
    second := p.Dissociate(fd, false, true);
    p.Forget(fd);
    third := p.Associate(fd, POLLIN, ptr', true, true, true, true);
  }

  lemma NoneLeft(e: Entry, events: Mask)
    ensures UsedUp(e, events).fired & events == 0
  {
  }

  lemma ReaderIsIdle(ptr: nat)
    ensures !Ready(Entry(POLLIN, POLLOUT, ptr))
  {
  }
}
