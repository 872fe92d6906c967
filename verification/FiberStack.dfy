/**
  fiber.c: the stack area of a fiber.  Only its top page is mapped at first; a fault below
  extends the mapping down to the page of the faulting address.
 */
module FiberStack {

  // Rounding to pages; for a power of two this is the masking of the code.
  function PageDown(addr: nat, page: nat): (p: nat)
    requires page > 0
    ensures p <= addr < p + page && p % page == 0
  {
    Rounding(addr, page);
    addr / page * page
  }

  lemma Rounding(addr: nat, page: nat)
    requires page > 0
    ensures addr / page * page <= addr < addr / page * page + page && (addr / page * page) % page == 0
  {
    assert addr == addr / page * page + addr % page;
    MultipleOf(addr / page, page);
  }

  lemma {:induction false} MultipleOf(k: nat, page: nat)
    requires page > 0
    ensures (k * page) % page == 0
    decreases k
  {
    if k > 0 {
      MultipleOf(k - 1, page);
      AddPage((k - 1) * page, page);
      assert k * page == (k - 1) * page + page;
    }
  }

  lemma AddPage(a: int, page: nat)
    requires page > 0
    ensures (a + page) % page == a % page
  {
    var q, r := a / page, a % page;
    assert a == page * q + r;
    assert a + page == page * (q + 1) + r;
    Unique(a + page, page, q + 1, r);
  }

  lemma Distributes(page: nat, x: int, d: nat)
    ensures page * (x + 1 + d) == page * x + page + page * d
  {
  }

  lemma NotNegative(page: nat, d: nat)
    ensures page * d >= 0
  {
  }

  lemma Scaled(page: nat, x: int, y: int)
    ensures x < y ==> page * x + page <= page * y
  {
    if x < y {
      var d: nat := y - x - 1;
      Distributes(page, x, d);
      NotNegative(page, d);
    }
  }

  lemma Unique(a: int, page: nat, q: int, r: nat)
    requires page > 0 && a == page * q + r && r < page
    ensures a % page == r
  {
    var q', r' := a / page, a % page;
    assert a == page * q' + r';
    Scaled(page, q, q');
    Scaled(page, q', q);
  }

  lemma Aligned(a: int, b: int, page: nat)
    requires page > 0 && a % page == 0 && b % page == 0
    ensures (a + b) % page == 0 && (a - b) % page == 0
    ensures a > b ==> a >= b + page
  {
    var p, q := a / page, b / page;
    assert a == page * p && b == page * q;
    assert a + b == page * (p + q) && a - b == page * (p - q);
    Unique(a + b, page, p + q, 0);
    Unique(a - b, page, p - q, 0);
    Scaled(page, q, p);
    Scaled(page, p, q);
  }

  // One page is what up to one page of stack is rounded to.
  lemma OnePage(wanted: nat, page: nat)
    requires page > 0 && wanted > 0
    ensures PageDown(wanted + page - 1, page) == page <==> wanted <= page
  {
    var low := PageDown(wanted + page - 1, page);
    Aligned(low, page, page);
    Aligned(page, low, page);
  }

  class Stack {
    const page: nat
    const area: nat
    const size: nat
    const upper: nat
    var lower: nat

    // What is mapped is [lower, area + size): whole pages, at least the top one; the lowest
    // page is the guard, unless the stack is a single page.
    ghost predicate Valid()
      reads this
    {
      && page > 0 && area % page == 0 && size % page == 0 && lower % page == 0 && size >= page
      && area <= lower <= area + size - page && upper <= area + size
      && (lower == area <==> size == page)
    }

    // ef_fiber_create, once the area is reserved at `area` and its top page mapped.
    constructor (page: nat, stackSize: nat, headerSize: nat, area: nat)
      requires page > 0 && area % page == 0 && headerSize <= page
      ensures Valid() && this.page == page && this.area == area
      ensures stackSize <= size && (stackSize > 0 ==> size < stackSize + page)
      ensures size == page <==> stackSize <= page
      ensures lower == area + size - page && lower <= upper == area + size - headerSize
    {
      var wanted := if stackSize == 0 then page else stackSize;
      var whole := PageDown(wanted + page - 1, page);
      Aligned(whole, 0, page);
      Aligned(area, whole, page);
      Aligned(area + whole, page, page);
      this.page, this.area, size := page, area, whole;
      upper := area + whole - headerSize;
      lower := area + whole - page;
      OnePage(wanted, page);
    }

    // ef_fiber_expand_stack: it succeeds exactly for addresses between the guard page and what
    // is mapped, when the kernel agrees, and then maps the page of the address and all above.
    method Expand(addr: nat, agreed: bool) returns (ret: int)
      requires Valid()
      modifies this
      ensures Valid()
      ensures ret == (if area + page <= addr < old(lower) && agreed then 0 else -1)
      ensures if ret == 0 then lower <= addr < lower + page && lower < old(lower) else lower == old(lower)
    {
      ret := -1;
      var low := PageDown(addr, page);
      Aligned(low, area, page);
      Aligned(area, low, page);
      Aligned(low, lower, page);
      Aligned(lower, low, page);
      if low - area >= page && low < lower {
        ret := if agreed then 0 else -1;
        if ret >= 0 {
          lower := low;
        }
      }
    }

    // ef_fiber_sigsegv_handler over any faults, with the kernel's answers: the process goes on
    // exactly while each fault is below what is mapped at that time and above the guard page
    // and the kernel agrees.  `lowers` tells the boundary before each fault and after the last.
    // The guard page is never mapped; a stack of a single page has none and serves no fault.
    method Faults(addrs: seq<nat>, agreed: seq<bool>) returns (served: nat, ghost lowers: seq<nat>)
      requires Valid() && |agreed| == |addrs|
      modifies this
      ensures Valid() && served <= |addrs|
      ensures |lowers| == served + 1 && lowers[0] == old(lower) && lowers[served] == lower
      ensures forall i :: 0 <= i < served ==> Served(lowers[i], lowers[i + 1], addrs[i], agreed[i])
      ensures served < |addrs| ==> !agreed[served] || !(area + page <= addrs[served] < lower)
      ensures size > page ==> area + page <= lower
      ensures size == page ==> served == 0
    {
      served, lowers := 0, [lower];
      while served < |addrs|
        invariant Valid() && served <= |addrs|
        invariant |lowers| == served + 1 && lowers[0] == old(lower) && lowers[served] == lower
        invariant forall i :: 0 <= i < served ==> Served(lowers[i], lowers[i + 1], addrs[i], agreed[i])
        invariant size == page ==> served == 0
      {
        var r := Expand(addrs[served], agreed[served]);
        if r < 0 {
          break;
        }
        served, lowers := served + 1, lowers + [lower];
      }
      if size > page {
        Aligned(lower, area, page);
      }
    }

    // One fault with the boundary before and after it.
    ghost predicate Served(before: nat, after: nat, addr: nat, agreed: bool) {
      agreed && area + page <= addr < before && after <= addr < after + page
    }

    // The scheduler names the next fiber before the switch pushes the registers of the one
    // that leaves, so the handler takes a fault of these pushes for one of the next fiber's
    // stack, this one, and cannot serve it.
    method SwitchFault(leaving: Stack, addr: nat, agreed: bool) returns (ret: int)
      requires Valid() && leaving.Valid() && leaving.area <= addr < leaving.lower
      requires leaving.area + leaving.size <= area || area + size <= leaving.area
      modifies this
      ensures ret == -1 && lower == old(lower) && leaving.lower == old(leaving.lower)
    {
      ret := Expand(addr, agreed);
    }
  }
}
