/**
  fiber.c over the machine: resume, yield, exit and initialisation as steps of a world of
  fibers that each write only their own stack, and what every interleaving of them keeps.
 */
module FiberRuns {
  import opened FiberMachine

  const ERROR_EXITED := -1
  const ERROR_NOT_INITED := -2

  // A C function calls the swap: arguments in registers, return address pushed.
  ghost predicate CalledSwap(r: Regs, m: Mem, newSp: int, slot: int, val: int, ret: int, r': Regs, m': Mem) {
    Swapped(r.(rsp := r.rsp - 8, rdi := newSp, rsi := slot, rdx := val), m[r.rsp - 8 := ret], r', m')
  }

  // The two stores of ef_fiber_resume before the swap.
  function Linked(m: Mem, sched: int, to: int): Mem {
    m[to + PARENT := Read(m, sched)][sched := to]
  }

  class Fibers {
    const cpu: Cpu

    constructor (cpu: Cpu)
      ensures this.cpu == cpu
    {
      this.cpu := cpu;
    }

    method CallSwap(newSp: int, slot: int, val: int, ret: int)
      requires !(cpu.r.rsp - 112 <= slot < cpu.r.rsp)
      modifies cpu
      ensures CalledSwap(old(cpu.r), old(cpu.mem), newSp, slot, val, ret, cpu.r, cpu.mem)
    {
      cpu.r := cpu.r.(rdi := newSp, rsi := slot, rdx := val);
      cpu.Push(ret);
      cpu.Swap();
    }

    // ef_fiber_resume, up to the moment the target runs; a refusal returns at once.
    method Resume(sched: int, to: int, val: int, ret: int) returns (code: int)
      requires !(cpu.r.rsp - 112 <= Read(cpu.mem, sched) + STACK_PTR < cpu.r.rsp)
      modifies cpu
      ensures var status := Read(old(cpu.mem), to + STATUS);
              if status == INITED then
                var m := Linked(old(cpu.mem), sched, to);
                code == 0 &&
                CalledSwap(old(cpu.r), m, Read(m, to + STACK_PTR), Read(old(cpu.mem), sched) + STACK_PTR, val, ret,
                    cpu.r, cpu.mem)
              else
                code == (if status == EXITED then -1 else -2) && cpu.r == old(cpu.r) &&
                    cpu.mem == old(cpu.mem)
    {
      var status := Read(cpu.mem, to + STATUS);
      if status != INITED {
        if status == EXITED {
          return ERROR_EXITED;
        }
        return ERROR_NOT_INITED;
      }
      var current := Read(cpu.mem, sched);
      cpu.mem := cpu.mem[to + PARENT := current];
      cpu.mem := cpu.mem[sched := to];
      CallSwap(Read(cpu.mem, to + STACK_PTR), current + STACK_PTR, val, ret);
      return 0;
    }

    // ef_fiber_init: a procedure without a parameter gets its fiber.
    method Init(fiber: int, proc: int, param: int) returns (ghost m: Mem, ghost sp: int)
      modifies cpu
      ensures InitRan(old(cpu.mem), fiber, proc, if param != 0 then param else fiber, m, sp)
      ensures cpu.mem == m[fiber + STACK_PTR := sp]
    {
      cpu.r := cpu.r.(rdi := fiber, rsi := proc, rdx := if param != 0 then param else fiber);
      cpu.Init();
      m, sp := cpu.mem, cpu.r.rax;
      cpu.mem := cpu.mem[fiber + STACK_PTR := cpu.r.rax];
    }

    // ef_fiber_yield, up to the moment the parent runs.
    method Yield(sched: int, val: int, ret: int)
      requires !(cpu.r.rsp - 112 <= Read(cpu.mem, sched) + STACK_PTR < cpu.r.rsp)
      modifies cpu
      ensures var current := Read(old(cpu.mem), sched);
              var parent := Read(old(cpu.mem), current + PARENT);
              var m := old(cpu.mem)[sched := parent];
              CalledSwap(old(cpu.r), m, Read(m, Read(m, current + PARENT) + STACK_PTR), current + STACK_PTR, val, ret,
                  cpu.r, cpu.mem)
    {
      var current := Read(cpu.mem, sched);
      cpu.mem := cpu.mem[sched := Read(cpu.mem, current + PARENT)];
      CallSwap(Read(cpu.mem, Read(cpu.mem, current + PARENT) + STACK_PTR), current + STACK_PTR, val, ret);
    }
  }

  // ---------- worlds ----------

  // The cells [lo, hi) that a fiber's own code may write.
  datatype Span = Span(lo: int, hi: int)

  // What a suspended fiber will find: its frame and the place of it.
  datatype Context = Context(words: seq<int>, sp: int)

  // `chain` lists the fibers from the thread's own to the running one; `saved` remembers
  // how each suspended fiber was left.  Both are history, not memory.
  datatype World = World(regs: Regs, mem: Mem, stacks: map<int, Span>, thread: int, chain: seq<int>, saved: map<int,
      Context>)

  // The scheduler's only other word lies just below the thread's own fiber.
  function SchedOf(w: World): int {
    w.thread - 8
  }

  ghost predicate InHead(f: int, a: int) {
    f - 16 <= a < f + 64
  }

  ghost predicate InStack(s: Span, a: int) {
    s.lo <= a < s.hi
  }

  // Headers (with the two words below them) and stacks never overlap.
  ghost predicate Apart(stacks: map<int, Span>) {
    && (forall f, g, a :: f in stacks && g in stacks && f != g && InHead(f, a) ==> !InHead(g, a))
    && (forall f, g, a :: f in stacks && g in stacks && InHead(f, a) ==> !InStack(stacks[g], a))
    && (forall f, g, a :: f in stacks && g in stacks && f != g && InStack(stacks[f], a) ==> !InStack(stacks[g], a))
  }

  ghost predicate ChainLinked(m: Mem, chain: seq<int>, i: nat)
    requires 0 < i < |chain|
  {
    Read(m, chain[i] + PARENT) == chain[i - 1] && Read(m, chain[i] + STATUS) == INITED
  }

  // Parent pointers from the current fiber trace the chain back to the thread.
  ghost predicate ChainOk(w: World) {
    && w.chain != [] && w.chain[0] == w.thread
    && (forall i, j :: 0 <= i < j < |w.chain| ==> w.chain[i] != w.chain[j])
    && (forall i :: 0 <= i < |w.chain| ==> w.chain[i] in w.stacks)
    && (forall i :: 0 < i < |w.chain| ==> ChainLinked(w.mem, w.chain, i))
    && Read(w.mem, SchedOf(w)) == w.chain[|w.chain| - 1]
  }

  function Current(w: World): int
    requires w.chain != []
  {
    w.chain[|w.chain| - 1]
  }

  ghost predicate HeaderOk(w: World, f: int)
    requires f in w.stacks
  {
    && Read(w.mem, f + SCHED) == SchedOf(w) && Read(w.mem, f + STACK_UPPER) == f && w.stacks[f].hi == f - 16
    && (Read(w.mem, f + STATUS) == INITED ==> Read(w.mem, f - 16) == EXIT_STUB && Read(w.mem, f - 8) == f)
  }

  ghost predicate Alive(w: World, f: int) {
    f == w.thread || Read(w.mem, f + STATUS) == INITED
  }

  // A suspended fiber's stack pointer and frame are as it left them.
  ghost predicate FrameOk(w: World, f: int)
    requires f in w.stacks
  {
    && f in w.saved
    && Read(w.mem, f + STACK_PTR) == w.saved[f].sp
    && w.stacks[f].lo <= w.saved[f].sp && w.saved[f].sp + FRAME <= w.stacks[f].hi
    && HasFrame(w.mem, w.saved[f].sp, w.saved[f].words)
  }

  ghost predicate Inv(w: World) {
    && w.thread in w.stacks && Apart(w.stacks)
    && ChainOk(w)
    && (forall f :: f in w.stacks && f != w.thread ==> HeaderOk(w, f))
    && (forall f :: f in w.stacks && Alive(w, f) && f != Current(w) ==> FrameOk(w, f))
    && w.stacks[Current(w)].lo <= w.regs.rsp <= w.stacks[Current(w)].hi
  }

  // ---------- steps ----------

  ghost predicate Room(w: World)
    requires w.chain != [] && Current(w) in w.stacks
  {
    w.stacks[Current(w)].lo <= w.regs.rsp - FRAME && w.regs.rsp <= w.stacks[Current(w)].hi
  }

  // No header cell changes but the listed ones.
  ghost predicate HeadsKept(w: World, m': Mem, cells: set<int>) {
    forall f, a :: f in w.stacks && InHead(f, a) && a !in cells ==> Read(m', a) == Read(w.mem, a)
  }

  // Code of the running fiber: any registers, any writes to its own stack, to the heap and
  // to globals, but none to the stacks of other fibers or to fiber headers, save that the
  // handler of its faults may move the lower boundary of its own stack.
  ghost predicate Runs(w: World, w': World) {
    && w' == w.(regs := w'.regs, mem := w'.mem)
    && w.chain != [] && Current(w) in w.stacks
    && HeadsKept(w, w'.mem, {Current(w) + STACK_LOWER})
    && (forall f, a :: f in w.stacks && f != Current(w) && InStack(w.stacks[f], a) ==>
          Read(w'.mem, a) == Read(w.mem, a))
    && w.stacks[Current(w)].lo <= w'.regs.rsp <= w.stacks[Current(w)].hi
  }

  // The context a call of the swap leaves behind.
  function Left(r: Regs, newSp: int, slot: int, val: int, ret: int): Context {
    Context(Frame(r.(rsp := r.rsp - 8, rdi := newSp, rsi := slot, rdx := val), ret), r.rsp - FRAME)
  }

  ghost predicate Resumes(w: World, to: int, val: int, ret: int, w': World) {
    && w.chain != [] && Current(w) in w.stacks && Room(w)
    && to in w.stacks && to !in w.chain && Read(w.mem, to + STATUS) == INITED
    && var m := Linked(w.mem, SchedOf(w), to);
       var newSp := Read(m, to + STACK_PTR);
       var slot := Read(w.mem, SchedOf(w)) + STACK_PTR;
       && CalledSwap(w.regs, m, newSp, slot, val, ret, w'.regs, w'.mem)
       && w' == w.(regs := w'.regs, mem := w'.mem, chain := w.chain + [to],
                   saved := w.saved[Current(w) := Left(w.regs, newSp, slot, val, ret)])
  }

  ghost predicate Yields(w: World, val: int, ret: int, w': World) {
    && |w.chain| >= 2 && Current(w) in w.stacks && Room(w)
    && var current := Read(w.mem, SchedOf(w));
       var m := w.mem[SchedOf(w) := Read(w.mem, current + PARENT)];
       var newSp := Read(m, Read(m, current + PARENT) + STACK_PTR);
       && CalledSwap(w.regs, m, newSp, current + STACK_PTR, val, ret, w'.regs, w'.mem)
       && w' == w.(regs := w'.regs, mem := w'.mem, chain := w.chain[..|w.chain| - 1],
                   saved := w.saved[Current(w) := Left(w.regs, newSp, current + STACK_PTR, val, ret)])
  }

  // The procedure returns val: its stack is empty down to the exit stub's address.
  ghost predicate Exits(w: World, val: int, w': World) {
    && |w.chain| >= 2 && Current(w) in w.stacks
    && w.regs.rsp == Current(w) - 16 && w.regs.rax == val && Read(w.mem, w.regs.rsp) == EXIT_STUB
    && ExitRan(w.regs.(rsp := w.regs.rsp + 8, rip := EXIT_STUB), w.mem, w'.regs, w'.mem)
    && w' == w.(regs := w'.regs, mem := w'.mem, chain := w.chain[..|w.chain| - 1])
  }

  // ef_fiber_init on a fiber that is not on the chain: new, exited, or suspended and begun anew.
  ghost predicate Inits(w: World, f: int, proc: int, param: int, w': World) {
    && f in w.stacks && f != w.thread && f !in w.chain
    && w.stacks[f].lo <= f - 128
    && exists m, sp :: InitRan(w.mem, f, proc, param, m, sp) && w' == w.(mem := m[f + STACK_PTR := sp],
         saved := w.saved[f := Context(FirstFrame(f, proc, param), f - 128)])
  }

  // ef_fiber_create maps a region apart from all others and fills in its header.
  ghost predicate Creates(w: World, f: int, span: Span, w': World) {
    && f !in w.stacks && Apart(w.stacks[f := span]) && span.hi == f - 16
    && w' == w.(mem := w'.mem, stacks := w.stacks[f := span])
    && Read(w'.mem, f + SCHED) == SchedOf(w) && Read(w'.mem, f + STACK_UPPER) == f && Read(w'.mem, f + STATUS) != INITED
    && (forall a :: !InHead(f, a) && !InStack(span, a) ==> Read(w'.mem, a) == Read(w.mem, a))
  }

  // ef_fiber_delete on a fiber that is not on the chain: its region is unmapped, and what
  // becomes of those cells is open.
  ghost predicate Deletes(w: World, f: int, w': World) {
    && f in w.stacks && f != w.thread && f !in w.chain
    && w' == w.(mem := w'.mem, stacks := w.stacks - {f})
    && BesidesSame(w, w'.mem, f)
  }

  // The rest of the world after writes at f's header and stack, or outside all fibers, only.
  ghost predicate BesidesSame(w: World, m': Mem, f: int) {
    forall g, a :: g in w.stacks && g != f && (InHead(g, a) || InStack(w.stacks[g], a)) ==>
      Read(m', a) == Read(w.mem, a)
  }

  datatype Step =
    | Run
    | Resume(to: int, val: int, ret: int)
    | Yield(val: int, ret: int)
    | Exit(val: int)
    | Init(f: int, proc: int, param: int)
    | Create(f: int, span: Span)
    | Delete(f: int)

  ghost predicate Next(w: World, s: Step, w': World) {
    match s
    case Run => Runs(w, w')
    case Resume(to, val, ret) => Resumes(w, to, val, ret, w')
    case Yield(val, ret) => Yields(w, val, ret, w')
    case Exit(val) => Exits(w, val, w')
    case Init(f, proc, param) => Inits(w, f, proc, param, w')
    case Create(f, span) => Creates(w, f, span, w')
    case Delete(f) => Deletes(w, f, w')
  }

  // ---------- what one step keeps ----------

  // The registers a context describes, as its fiber finds them again.
  ghost predicate Restored(r: Regs, c: Context) {
    Frame(r, r.rip) == c.words && r.rsp == c.sp + FRAME
  }

  lemma SwapEffect(r: Regs, m: Mem, newSp: int, slot: int, val: int, ret: int, r': Regs, m': Mem)
    requires CalledSwap(r, m, newSp, slot, val, ret, r', m') && !(r.rsp - FRAME <= slot < r.rsp)
    ensures forall a :: a != slot && !(r.rsp - FRAME <= a < r.rsp) ==> Read(m', a) == Read(m, a)
    ensures Read(m', slot) == Left(r, newSp, slot, val, ret).sp
    ensures HasFrame(m', r.rsp - FRAME, Left(r, newSp, slot, val, ret).words)
    ensures Loaded(m', newSp, r') && r'.rax == val
  {
    hide HasFrame, Loaded;
    var r1, m1 := r.(rsp := r.rsp - 8, rdi := newSp, rsi := slot, rdx := val), m[r.rsp - 8 := ret];
    assert Read(m1, r1.rsp) == ret;
    assert r1.rsp - 104 == r.rsp - FRAME;
  }

  lemma FrameReadBack(m: Mem, sp: int, r: Regs, c: Context)
    requires Loaded(m, sp, r) && HasFrame(m, sp, c.words) && sp == c.sp
    ensures Restored(r, c)
  {
    var f := Frame(r, r.rip);
    forall i | 0 <= i < 14 ensures f[i] == c.words[i] {
      assert Read(m, sp + 8 * i) == f[i];
    }
  }

  lemma FrameKept(w: World, w': World, f: int)
    requires f in w.stacks && f in w'.stacks && w'.stacks[f] == w.stacks[f] && FrameOk(w, f)
    requires f in w.saved ==> f in w'.saved && w'.saved[f] == w.saved[f]
    requires Read(w'.mem, f + STACK_PTR) == Read(w.mem, f + STACK_PTR)
    requires forall a :: InStack(w.stacks[f], a) ==> Read(w'.mem, a) == Read(w.mem, a)
    ensures FrameOk(w', f)
  {
    var c := w.saved[f];
    forall i | 0 <= i < 14 ensures Read(w'.mem, c.sp + 8 * i) == c.words[i] {
      assert InStack(w.stacks[f], c.sp + 8 * i);
    }
  }

  // The cells of a header that only initialisation and exit write.
  ghost predicate SameFixed(m: Mem, m': Mem, f: int) {
    && Read(m', f + SCHED) == Read(m, f + SCHED) && Read(m', f + STACK_UPPER) == Read(m, f + STACK_UPPER)
    && Read(m', f - 16) == Read(m, f - 16) && Read(m', f - 8) == Read(m, f - 8)
    && Read(m', f + STATUS) == Read(m, f + STATUS)
  }

  lemma FixedKept(w: World, m': Mem, cells: set<int>, f: int)
    requires f in w.stacks && HeadsKept(w, m', cells)
    requires f + SCHED !in cells && f + STACK_UPPER !in cells && f - 16 !in cells && f - 8 !in cells &&
            f + STATUS !in cells
    ensures SameFixed(w.mem, m', f)
  {
    assert InHead(f, f + SCHED) && InHead(f, f + STACK_UPPER) && InHead(f, f - 16) && InHead(f, f - 8) &&
        InHead(f, f + STATUS);
  }

  // A cell of one header is no cell of another.
  lemma OtherHead(w: World, f: int, g: int, i: int, j: int)
    requires Apart(w.stacks) && f in w.stacks && g in w.stacks && f != g && -16 <= i < 64 && -16 <= j < 64
    ensures f + i != g + j
  {
    assert InHead(f, f + i) && InHead(g, g + j);
  }

  // What a step that switches between two fibers leaves of the others' headers:
  // only the scheduler's word, one parent field and one saved stack pointer change.
  lemma HeadersKept(w: World, m': Mem, p: int, q: int)
    requires Inv(w) && p in w.stacks && q in w.stacks && HeadsKept(w, m', {p + PARENT, SchedOf(w), q + STACK_PTR})
    ensures forall f :: f in w.stacks && f != w.thread ==> SameFixed(w.mem, m', f)
    ensures forall f :: f in w.stacks && f != q ==> Read(m', f + STACK_PTR) == Read(w.mem, f + STACK_PTR)
    ensures forall f :: f in w.stacks && f != w.thread ==> Read(m', f + STATUS) == Read(w.mem, f + STATUS)
    ensures forall f :: f in w.stacks && f != p ==> Read(m', f + PARENT) == Read(w.mem, f + PARENT)
  {
    var cells := {p + PARENT, SchedOf(w), q + STACK_PTR};
    forall f | f in w.stacks
      ensures f != w.thread ==> SameFixed(w.mem, m', f)
      ensures f != q ==> Read(m', f + STACK_PTR) == Read(w.mem, f + STACK_PTR)
      ensures f != p ==> Read(m', f + PARENT) == Read(w.mem, f + PARENT)
    {
      HeadCells(w, f, p, PARENT);
      HeadCells(w, f, q, STACK_PTR);
      HeadCells(w, f, w.thread, -8);
      if f != w.thread {
        FixedKept(w, m', cells, f);
      }
      assert InHead(f, f + STACK_PTR) && InHead(f, f + PARENT);
    }
  }

  lemma HeadCells(w: World, f: int, g: int, j: int)
    requires Apart(w.stacks) && f in w.stacks && g in w.stacks && -16 <= j < 64
    ensures f != g ==> f + SCHED != g + j && f + STACK_UPPER != g + j && f - 16 != g + j && f - 8 != g + j
    ensures f != g ==> f + STATUS != g + j && f + STACK_PTR != g + j && f + PARENT != g + j
  {
    if f != g {
      OtherHead(w, f, g, SCHED, j);
      OtherHead(w, f, g, STACK_UPPER, j);
      OtherHead(w, f, g, -16, j);
      OtherHead(w, f, g, -8, j);
      OtherHead(w, f, g, STATUS, j);
      OtherHead(w, f, g, STACK_PTR, j);
      OtherHead(w, f, g, PARENT, j);
    }
  }

  // The lower boundary of a stack is none of the cells the invariant is about.
  lemma LowerIsFree(w: World, f: int)
    requires Inv(w) && f in w.stacks
    ensures var free := Current(w) + STACK_LOWER;
            && f + SCHED != free && f + STACK_UPPER != free && f - 16 != free && f - 8 != free
            && f + STATUS != free && f + STACK_PTR != free && f + PARENT != free
  {
    HeadCells(w, f, Current(w), STACK_LOWER);
  }

  lemma RunsKeepsCells(w: World, w': World, f: int)
    requires Inv(w) && Runs(w, w') && f in w.stacks
    ensures SameFixed(w.mem, w'.mem, f)
    ensures Read(w'.mem, f + STACK_PTR) == Read(w.mem, f + STACK_PTR)
    ensures Read(w'.mem, f + PARENT) == Read(w.mem, f + PARENT)
  {
    hide Inv, Apart;
    LowerIsFree(w, f);
    FixedKept(w, w'.mem, {Current(w) + STACK_LOWER}, f);
    assert InHead(f, f + STACK_PTR) && InHead(f, f + PARENT);
  }

  lemma RunsKeepsChain(w: World, w': World)
    requires Inv(w) && Runs(w, w')
    ensures ChainOk(w')
  {
    hide FrameOk, HeaderOk, HeadsKept, Apart, InStack;
    SchedKept(w, w');
    forall i | 0 < i < |w.chain| ensures ChainLinked(w'.mem, w.chain, i) {
      assert ChainLinked(w.mem, w.chain, i);
      RunsKeepsCells(w, w', w.chain[i]);
    }
  }

  lemma SchedKept(w: World, w': World)
    requires Inv(w) && Runs(w, w')
    ensures Read(w'.mem, SchedOf(w)) == Read(w.mem, SchedOf(w))
  {
    RunsKeepsCells(w, w', w.thread);
  }

  // Headers, but for one cell, and other fibers' stacks are out of reach of the running code.
  lemma RunsKeepsInv(w: World, w': World)
    requires Inv(w) && Runs(w, w')
    ensures Inv(w')
  {
    hide FrameOk, HasFrame, HeadsKept, ChainOk, Apart, InStack;
    RunsKeepsChain(w, w');
    forall f | f in w.stacks && f != w.thread ensures HeaderOk(w', f) {
      RunsKeepsCells(w, w', f);
      assert HeaderOk(w, f);
    }
    forall f | f in w.stacks && Alive(w', f) && f != Current(w) ensures FrameOk(w', f) {
      RunsKeepsCells(w, w', f);
      assert Alive(w, f);
      OthersStack(w, w', f);
      FrameKept(w, w', f);
    }
  }

  lemma OthersStack(w: World, w': World, f: int)
    requires Apart(w.stacks) && f in w.stacks && Runs(w, w') && f != Current(w)
    ensures forall a :: InStack(w.stacks[f], a) ==> Read(w'.mem, a) == Read(w.mem, a)
  {
  }

  // The common part of resume and yield: the scheduler's word and at most one parent field
  // are written, then the running fiber calls the swap towards `next`.
  ghost predicate Switches(w: World, m: Mem, p: int, next: int, val: int, ret: int, w': World) {
    && w.chain != [] && Current(w) in w.stacks && Room(w)
    && p in w.stacks && next in w.stacks && next != Current(w)
    && (forall a :: a != p + PARENT && a != SchedOf(w) ==> Read(m, a) == Read(w.mem, a))
    && CalledSwap(w.regs, m, Read(m, next + STACK_PTR), Current(w) + STACK_PTR, val, ret, w'.regs, w'.mem)
    && w'.stacks == w.stacks && w'.thread == w.thread
    && w'.saved == w.saved[Current(w) := Left(w.regs, Read(m, next + STACK_PTR), Current(w) + STACK_PTR, val, ret)]
  }

  lemma SlotOffStack(w: World, f: int)
    requires Apart(w.stacks) && f in w.stacks && w.chain != [] && Current(w) in w.stacks && Room(w)
    ensures !(w.regs.rsp - FRAME <= f + STACK_PTR < w.regs.rsp)
  {
    if w.regs.rsp - FRAME <= f + STACK_PTR < w.regs.rsp {
      assert InHead(f, f + STACK_PTR) && InStack(w.stacks[Current(w)], f + STACK_PTR);
    }
  }

  // Beyond m, a switch writes the running fiber's frame and its saved stack pointer.
  ghost predicate WroteFrame(w: World, m: Mem, m': Mem)
    requires w.chain != []
  {
    forall a :: a != Current(w) + STACK_PTR && !(w.regs.rsp - FRAME <= a < w.regs.rsp) ==> Read(m', a) == Read(m, a)
  }

  lemma SwitchWrites(w: World, m: Mem, p: int, next: int, val: int, ret: int, w': World)
    requires Inv(w) && Switches(w, m, p, next, val, ret, w')
    ensures WroteFrame(w, m, w'.mem) && FrameOk(w', Current(w))
    ensures Loaded(w'.mem, Read(m, next + STACK_PTR), w'.regs) && w'.regs.rax == val
  {
    hide HasFrame, Loaded, CalledSwap, Inv;
    var c := Current(w);
    assert Apart(w.stacks) by { Parts(w); }
    SlotOffStack(w, c);
    SwapEffect(w.regs, m, Read(m, next + STACK_PTR), c + STACK_PTR, val, ret, w'.regs, w'.mem);
  }

  lemma Parts(w: World)
    requires Inv(w)
    ensures Apart(w.stacks) && ChainOk(w) && w.thread in w.stacks
  {
  }

  lemma SwitchHeads(w: World, m: Mem, p: int, m': Mem)
    requires Apart(w.stacks) && w.chain != [] && Current(w) in w.stacks && Room(w) && WroteFrame(w, m, m')
    requires forall a :: a != p + PARENT && a != SchedOf(w) ==> Read(m, a) == Read(w.mem, a)
    ensures HeadsKept(w, m', {p + PARENT, SchedOf(w), Current(w) + STACK_PTR})
  {
    forall f, a | f in w.stacks && InHead(f, a) && a !in {p + PARENT, SchedOf(w), Current(w) + STACK_PTR}
      ensures Read(m', a) == Read(w.mem, a)
    {
      OffStack(w, a, f);
    }
  }

  lemma SwitchStacks(w: World, m: Mem, p: int, m': Mem, f: int)
    requires Apart(w.stacks) && w.chain != [] && Current(w) in w.stacks && Room(w) && WroteFrame(w, m, m')
    requires forall a :: a != p + PARENT && a != SchedOf(w) ==> Read(m, a) == Read(w.mem, a)
    requires p in w.stacks && w.thread in w.stacks && f in w.stacks && f != Current(w)
    ensures forall a :: InStack(w.stacks[f], a) ==> Read(m', a) == Read(w.mem, a)
  {
    var c := Current(w);
    assert InHead(p, p + PARENT) && InHead(w.thread, SchedOf(w)) && InHead(c, c + STACK_PTR);
    forall a | InStack(w.stacks[f], a) ensures Read(m', a) == Read(w.mem, a) {
      assert !InStack(w.stacks[c], a);
    }
  }

  lemma OffStack(w: World, a: int, f: int)
    requires Apart(w.stacks) && f in w.stacks && InHead(f, a) && w.chain != [] && Current(w) in w.stacks && Room(w)
    ensures !(w.regs.rsp - FRAME <= a < w.regs.rsp)
  {
    assert !InStack(w.stacks[Current(w)], a);
  }

  lemma SwitchKeeps(w: World, m: Mem, p: int, next: int, val: int, ret: int, w': World)
    requires Inv(w) && Switches(w, m, p, next, val, ret, w') && Alive(w, next)
    ensures HeadsKept(w, w'.mem, {p + PARENT, SchedOf(w), Current(w) + STACK_PTR}) && WroteFrame(w, m, w'.mem)
    ensures forall f :: f in w.stacks && f != w.thread ==> HeaderOk(w', f)
    ensures forall f :: f in w.stacks && Alive(w', f) ==> FrameOk(w', f)
    ensures next in w.saved && Restored(w'.regs, w.saved[next]) && w'.regs.rax == val
    ensures w.stacks[next].lo <= w'.regs.rsp <= w.stacks[next].hi
  {
    hide HasFrame, Loaded, CalledSwap, WroteFrame;
    var c := Current(w);
    SwitchWrites(w, m, p, next, val, ret, w');
    SwitchHeads(w, m, p, w'.mem);
    HeadersKept(w, w'.mem, p, c);
    SwitchHeaders(w, w');
    hide HeaderOk, Apart, ChainOk, HeadsKept, SameFixed, Restored;
    SwitchFrames(w, m, p, next, val, ret, w');
    SwitchRestores(w, m, p, next, val, ret, w');
  }

  lemma SwitchFrames(w: World, m: Mem, p: int, next: int, val: int, ret: int, w': World)
    requires Inv(w) && Switches(w, m, p, next, val, ret, w') && WroteFrame(w, m, w'.mem) && FrameOk(w', Current(w))
    requires forall f :: f in w.stacks && f != w.thread ==> Read(w'.mem, f + STATUS) == Read(w.mem, f + STATUS)
    requires forall f :: f in w.stacks && f != Current(w) ==> Read(w'.mem, f + STACK_PTR) == Read(w.mem, f + STACK_PTR)
    ensures forall f :: f in w.stacks && Alive(w', f) ==> FrameOk(w', f)
  {
    hide HasFrame, CalledSwap, WroteFrame, FrameOk, HeaderOk, Apart, ChainLinked, Left, Alive;
    forall f | f in w.stacks && Alive(w', f) ensures FrameOk(w', f) {
      if f != Current(w) {
        OtherFrame(w, m, p, w', f);
      }
    }
  }

  lemma OtherFrame(w: World, m: Mem, p: int, w': World, f: int)
    requires Inv(w) && f in w.stacks && f != Current(w) && p in w.stacks && Room(w) && WroteFrame(w, m, w'.mem)
    requires w'.stacks == w.stacks && w'.thread == w.thread && Alive(w', f)
    requires w'.saved.Keys == w.saved.Keys + {Current(w)} && (f in w.saved ==> w'.saved[f] == w.saved[f])
    requires forall a :: a != p + PARENT && a != SchedOf(w) ==> Read(m, a) == Read(w.mem, a)
    requires f != w.thread ==> Read(w'.mem, f + STATUS) == Read(w.mem, f + STATUS)
    requires Read(w'.mem, f + STACK_PTR) == Read(w.mem, f + STACK_PTR)
    ensures FrameOk(w', f)
  {
    hide HasFrame, WroteFrame, HeaderOk, ChainLinked, FrameOk, Apart;
    assert Alive(w, f);
    SwitchStacks(w, m, p, w'.mem, f);
    FrameKept(w, w', f);
  }

  lemma SwitchHeaders(w: World, w': World)
    requires Inv(w) && w'.stacks == w.stacks && w'.thread == w.thread
    requires forall f :: f in w.stacks && f != w.thread ==> SameFixed(w.mem, w'.mem, f)
    ensures forall f :: f in w.stacks && f != w.thread ==> HeaderOk(w', f)
  {
    hide FrameOk, Apart, ChainOk;
    forall f | f in w.stacks && f != w.thread ensures HeaderOk(w', f) {
      assert HeaderOk(w, f) && SameFixed(w.mem, w'.mem, f);
    }
  }

  lemma SwitchRestores(w: World, m: Mem, p: int, next: int, val: int, ret: int, w': World)
    requires Inv(w) && Switches(w, m, p, next, val, ret, w') && Alive(w, next)
    requires Loaded(w'.mem, Read(m, next + STACK_PTR), w'.regs) && FrameOk(w', next)
    ensures next in w.saved && Restored(w'.regs, w.saved[next])
    ensures w.stacks[next].lo <= w'.regs.rsp <= w.stacks[next].hi
  {
    hide HasFrame, CalledSwap;
    assert FrameOk(w, next);
    HeadCells(w, next, p, PARENT);
    HeadCells(w, next, w.thread, -8);
    assert Read(m, next + STACK_PTR) == Read(w.mem, next + STACK_PTR);
    FrameReadBack(w'.mem, w.saved[next].sp, w'.regs, w.saved[next]);
  }

  lemma ResumeSwitches(w: World, to: int, val: int, ret: int, w': World)
    requires Inv(w) && Resumes(w, to, val, ret, w')
    ensures Switches(w, Linked(w.mem, SchedOf(w), to), to, to, val, ret, w') && Alive(w, to)
  {
    hide CalledSwap;
  }

  // The two written links are as written, and no other link of the chain moved.
  ghost predicate Relinked(w: World, m': Mem, p: int, parent: int, running: int) {
    && Read(m', p + PARENT) == parent && Read(m', SchedOf(w)) == running
    && (forall f :: f in w.stacks && f != w.thread ==> Read(m', f + STATUS) == Read(w.mem, f + STATUS))
    && (forall f :: f in w.stacks && f != p ==> Read(m', f + PARENT) == Read(w.mem, f + PARENT))
  }

  lemma SwitchRelinks(w: World, m: Mem, p: int, m': Mem)
    requires Inv(w) && p in w.stacks && Room(w) && WroteFrame(w, m, m')
    requires HeadsKept(w, m', {p + PARENT, SchedOf(w), Current(w) + STACK_PTR})
    ensures Relinked(w, m', p, Read(m, p + PARENT), Read(m, SchedOf(w)))
  {
    hide FrameOk, HeaderOk, HeadsKept, SameFixed, ChainLinked;
    var c := Current(w);
    HeadersKept(w, m', p, c);
    HeadCells(w, p, c, STACK_PTR);
    HeadCells(w, c, w.thread, -8);
    assert InHead(p, p + PARENT) && InHead(w.thread, SchedOf(w));
    OffStack(w, p + PARENT, p);
    OffStack(w, SchedOf(w), w.thread);
  }

  lemma ChainPushed(w: World, m': Mem, to: int)
    requires ChainOk(w) && to in w.stacks && to !in w.chain && to != w.thread && Read(w.mem, to + STATUS) == INITED
    requires Relinked(w, m', to, Current(w), to)
    ensures ChainOk(w.(mem := m', chain := w.chain + [to]))
  {
    var chain' := w.chain + [to];
    forall i | 0 < i < |chain'| ensures ChainLinked(m', chain', i) {
      if i < |w.chain| {
        assert ChainLinked(w.mem, w.chain, i);
        assert w.chain[i] != w.chain[0];
      }
    }
  }

  // Resuming pushes the target; it finds the registers it left, and the value sent.
  lemma ResumeKeepsInv(w: World, to: int, val: int, ret: int, w': World)
    requires Inv(w) && Resumes(w, to, val, ret, w')
    ensures Inv(w') && w'.chain == w.chain + [to]
    ensures to in w.saved && Restored(w'.regs, w.saved[to]) && w'.regs.rax == val
  {
    hide HasFrame, Loaded, FrameOk, CalledSwap, WroteFrame, Relinked, HeadsKept;
    var m := Linked(w.mem, SchedOf(w), to);
    ResumeSwitches(w, to, val, ret, w');
    SwitchKeeps(w, m, to, to, val, ret, w');
    SwitchRelinks(w, m, to, w'.mem);
    LinkedReads(w, to);
    ChainPushed(w, w'.mem, to);
    assert ChainOk(w');
  }

  lemma LinkedReads(w: World, to: int)
    requires Inv(w) && to in w.stacks
    ensures var m := Linked(w.mem, SchedOf(w), to); Read(m, to + PARENT) == Current(w) && Read(m, SchedOf(w)) == to
  {
    HeadCells(w, to, w.thread, -8);
  }

  lemma ChainPopped(w: World, m': Mem)
    requires ChainOk(w) && |w.chain| >= 2
    requires Relinked(w, m', Current(w), w.chain[|w.chain| - 2], w.chain[|w.chain| - 2])
    ensures ChainOk(w.(mem := m', chain := w.chain[..|w.chain| - 1]))
  {
    var n := |w.chain| - 1;
    var chain' := w.chain[..n];
    forall i | 0 < i < n ensures ChainLinked(m', chain', i) {
      assert ChainLinked(w.mem, w.chain, i);
      assert w.chain[i] != w.chain[0] && w.chain[i] != w.chain[n];
    }
  }

  // The parent of the running fiber is the one before it on the chain.
  lemma ParentIsBefore(w: World)
    requires ChainOk(w) && |w.chain| >= 2
    ensures Read(w.mem, Current(w) + PARENT) == w.chain[|w.chain| - 2] && Current(w) != w.thread
    ensures w.chain[|w.chain| - 2] in w.stacks && w.chain[|w.chain| - 2] != Current(w)
    ensures Alive(w, w.chain[|w.chain| - 2])
  {
    var n := |w.chain| - 1;
    assert ChainLinked(w.mem, w.chain, n);
    assert w.chain[0] != w.chain[n];
    if n > 1 {
      assert ChainLinked(w.mem, w.chain, n - 1);
    }
  }

  lemma YieldSwitches(w: World, val: int, ret: int, w': World)
    requires Inv(w) && Yields(w, val, ret, w')
    ensures var parent := w.chain[|w.chain| - 2];
            Switches(w, w.mem[SchedOf(w) := parent], Current(w), parent, val, ret, w') && Alive(w, parent)
  {
    hide CalledSwap, FrameOk, HeaderOk;
    ParentIsBefore(w);
    HeadCells(w, Current(w), w.thread, -8);
  }

  // Yielding pops the running fiber; its parent finds the registers it left, and the value.
  lemma YieldKeepsInv(w: World, val: int, ret: int, w': World)
    requires Inv(w) && Yields(w, val, ret, w')
    ensures Inv(w') && w'.chain == w.chain[..|w.chain| - 1]
    ensures var parent := Current(w'); parent in w.saved && Restored(w'.regs, w.saved[parent]) && w'.regs.rax == val
  {
    hide HasFrame, Loaded, FrameOk, CalledSwap, WroteFrame, Relinked, HeadsKept;
    var parent := w.chain[|w.chain| - 2];
    var m := w.mem[SchedOf(w) := parent];
    YieldSwitches(w, val, ret, w');
    SwitchKeeps(w, m, Current(w), parent, val, ret, w');
    SwitchRelinks(w, m, Current(w), w'.mem);
    ParentIsBefore(w);
    HeadCells(w, Current(w), w.thread, -8);
    ChainPopped(w, w'.mem);
    assert ChainOk(w');
  }

  // ---------- exit ----------

  lemma ExitEffect(w: World, val: int, w': World)
    requires Inv(w) && Exits(w, val, w')
    ensures var parent := w.chain[|w.chain| - 2];
            && w'.mem == w.mem[Current(w) + STATUS := EXITED][SchedOf(w) := parent]
            && Loaded(w'.mem, Read(w'.mem, parent + STACK_PTR), w'.regs) && w'.regs.rax == val
  {
    hide HasFrame, Loaded, FrameOk;
    var c := Current(w);
    ParentIsBefore(w);
    assert HeaderOk(w, c) && ChainLinked(w.mem, w.chain, |w.chain| - 1);
  }

  lemma ExitFrames(w: World, m': Mem, w': World, parent: int)
    requires Inv(w) && |w.chain| >= 2 && Current(w) != w.thread &&
            m' == w.mem[Current(w) + STATUS := EXITED][SchedOf(w) := parent]
    requires w'.mem == m' && w'.stacks == w.stacks && w'.saved == w.saved && w'.thread == w.thread
    ensures forall f :: f in w.stacks && f != w.thread ==> HeaderOk(w', f)
    ensures forall f :: f in w.stacks && Alive(w', f) ==> Alive(w, f) && f != Current(w) && FrameOk(w', f)
  {
    hide HasFrame, Apart, ChainOk;
    ExitCells(w, m', parent);
    forall f | f in w.stacks && f != w.thread ensures HeaderOk(w', f) {
      assert HeaderOk(w, f);
    }
    forall f | f in w.stacks && Alive(w', f) ensures Alive(w, f) && f != Current(w) && FrameOk(w', f) {
      assert f != Current(w) && Alive(w, f);
      FrameKept(w, w', f);
    }
  }

  lemma ExitRestores(w: World, w': World, parent: int)
    requires Inv(w) && parent in w.stacks && parent != Current(w) && Alive(w, parent)
    requires Loaded(w'.mem, Read(w'.mem, parent + STACK_PTR), w'.regs)
    requires w'.stacks == w.stacks && w'.saved == w.saved && FrameOk(w', parent)
    ensures parent in w.saved && Restored(w'.regs, w.saved[parent])
    ensures w.stacks[parent].lo <= w'.regs.rsp <= w.stacks[parent].hi
  {
    hide HasFrame, Apart, ChainOk;
    FrameReadBack(w'.mem, w.saved[parent].sp, w'.regs, w.saved[parent]);
  }

  // Returning from the procedure pops the fiber for good; its parent finds the registers it
  // left and the procedure's result.
  lemma ExitKeepsInv(w: World, val: int, w': World)
    requires Inv(w) && Exits(w, val, w')
    ensures Inv(w') && w'.chain == w.chain[..|w.chain| - 1] && Read(w'.mem, Current(w) + STATUS) == EXITED
    ensures var parent := Current(w'); parent in w.saved && Restored(w'.regs, w.saved[parent]) && w'.regs.rax == val
  {
    hide HasFrame, Loaded, ExitRan, Apart, HeaderOk, FrameOk, ChainOk;
    var c, parent := Current(w), w.chain[|w.chain| - 2];
    ExitEffect(w, val, w');
    ParentIsBefore(w);
    ExitCells(w, w'.mem, parent);
    ExitFrames(w, w'.mem, w', parent);
    ExitChain(w, w'.mem);
    assert Alive(w', parent) by {
      if parent != w.thread {
        assert SameFixed(w.mem, w'.mem, parent);
      }
    }
    ExitRestores(w, w', parent);
    assert w' == w'.(mem := w'.mem) && ChainOk(w'.(regs := w.regs));
    ChainIgnoresRegs(w', w.regs);
  }

  lemma ChainIgnoresRegs(w: World, r: Regs)
    ensures ChainOk(w.(regs := r)) <==> ChainOk(w)
  {
  }

  lemma ExitCells(w: World, m': Mem, parent: int)
    requires Inv(w) && |w.chain| >= 2 && Current(w) != w.thread &&
            m' == w.mem[Current(w) + STATUS := EXITED][SchedOf(w) := parent]
    ensures forall f :: f in w.stacks && f != w.thread && f != Current(w) ==> SameFixed(w.mem, m', f)
    ensures forall f :: f in w.stacks ==>
            Read(m', f + STACK_PTR) == Read(w.mem, f + STACK_PTR) && Read(m', f + PARENT) == Read(w.mem, f + PARENT)
    ensures forall f, a :: f in w.stacks && InStack(w.stacks[f], a) ==> Read(m', a) == Read(w.mem, a)
    ensures var c := Current(w);
            && Read(m', c + SCHED) == Read(w.mem, c + SCHED)
            && Read(m', c + STACK_UPPER) == Read(w.mem, c + STACK_UPPER) && Read(m', c + STATUS) == EXITED
    ensures Read(m', SchedOf(w)) == parent
  {
    ExitStacks(w, m', parent);
    var c := Current(w);
    assert c in w.stacks && w.thread in w.stacks;
    hide Inv, Apart, ChainOk, SameFixed;
    forall f | f in w.stacks
      ensures f != w.thread && f != c ==> SameFixed(w.mem, m', f)
      ensures Read(m', f + STACK_PTR) == Read(w.mem, f + STACK_PTR) && Read(m', f + PARENT) == Read(w.mem, f + PARENT)
    {
      ExitHead(w, m', parent, f);
    }
    ExitHead(w, m', parent, c);
    HeadCells(w, c, w.thread, -8);
  }

  // One header after the exit stub: only the status of the current fiber is written, and the
  // scheduler's word below the thread's header.
  lemma ExitHead(w: World, m': Mem, parent: int, f: int)
    requires Apart(w.stacks) && w.chain != [] && Current(w) in w.stacks && w.thread in w.stacks && f in w.stacks
    requires m' == w.mem[Current(w) + STATUS := EXITED][SchedOf(w) := parent]
    ensures f != w.thread && f != Current(w) ==> SameFixed(w.mem, m', f)
    ensures Read(m', f + STACK_PTR) == Read(w.mem, f + STACK_PTR) && Read(m', f + PARENT) == Read(w.mem, f + PARENT)
    ensures f != w.thread ==>
              Read(m', f + SCHED) == Read(w.mem, f + SCHED) && Read(m', f + STACK_UPPER) == Read(w.mem, f + STACK_UPPER)
  {
    HeadCells(w, f, Current(w), STATUS);
    HeadCells(w, f, w.thread, -8);
    hide Apart;
  }

  lemma ExitStacks(w: World, m': Mem, parent: int)
    requires Inv(w) && |w.chain| >= 2 && Current(w) != w.thread
    requires m' == w.mem[Current(w) + STATUS := EXITED][SchedOf(w) := parent]
    ensures forall f, a :: f in w.stacks && InStack(w.stacks[f], a) ==> Read(m', a) == Read(w.mem, a)
    ensures Apart(w.stacks)
  {
    hide FrameOk, HeaderOk, ChainLinked;
    assert InHead(Current(w), Current(w) + STATUS) && InHead(w.thread, SchedOf(w));
  }

  lemma ExitChain(w: World, m': Mem)
    requires ChainOk(w) && |w.chain| >= 2 && Read(m', SchedOf(w)) == w.chain[|w.chain| - 2]
    requires forall f :: f in w.stacks && f != w.thread && f != Current(w) ==> SameFixed(w.mem, m', f)
    requires forall f :: f in w.stacks ==> Read(m', f + PARENT) == Read(w.mem, f + PARENT)
    ensures ChainOk(w.(mem := m', chain := w.chain[..|w.chain| - 1]))
  {
    var n := |w.chain| - 1;
    var chain' := w.chain[..n];
    forall i | 0 < i < n ensures ChainLinked(m', chain', i) {
      assert ChainLinked(w.mem, w.chain, i);
      assert w.chain[i] != w.chain[0] && w.chain[i] != w.chain[n];
      assert SameFixed(w.mem, m', w.chain[i]);
    }
  }

  // ---------- initialisation and creation ----------

  // Nothing but the header and the stack of f is written.
  ghost predicate OnlyAt(w: World, m': Mem, f: int, span: Span) {
    forall a :: !InHead(f, a) && !InStack(span, a) ==> Read(m', a) == Read(w.mem, a)
  }

  lemma OnlyAtLeavesRest(w: World, m': Mem, f: int, span: Span)
    requires OnlyAt(w, m', f, span) && Apart(w.stacks[f := span])
    ensures BesidesSame(w, m', f)
  {
    forall g, a | g in w.stacks && g != f && (InHead(g, a) || InStack(w.stacks[g], a)) ensures Read(m', a) ==
        Read(w.mem, a) {
      ApartFrom(w.stacks[f := span], f, g);
    }
  }

  lemma BesidesChain(w: World, m': Mem, f: int, stacks': map<int, Span>)
    requires ChainOk(w) && BesidesSame(w, m', f) && f != w.thread && f !in w.chain
    requires forall i :: 0 <= i < |w.chain| ==> w.chain[i] in stacks'
    ensures ChainOk(w.(mem := m', stacks := stacks'))
  {
    assert InHead(w.thread, SchedOf(w));
    forall i | 0 < i < |w.chain| ensures ChainLinked(m', w.chain, i) {
      assert ChainLinked(w.mem, w.chain, i);
      assert InHead(w.chain[i], w.chain[i] + PARENT) && InHead(w.chain[i], w.chain[i] + STATUS);
    }
  }

  lemma BesidesFiber(w: World, w': World, f: int, g: int)
    requires BesidesSame(w, w'.mem, f) && g in w.stacks && g != f && w'.thread == w.thread
    requires g in w'.stacks && w'.stacks[g] == w.stacks[g] &&
            (g in w.saved ==> g in w'.saved && w'.saved[g] == w.saved[g])
    ensures HeaderOk(w, g) ==> HeaderOk(w', g)
    ensures Alive(w', g) <==> Alive(w, g)
    ensures FrameOk(w, g) ==> FrameOk(w', g)
  {
    assert InHead(g, g + SCHED) && InHead(g, g + STACK_UPPER) && InHead(g, g + STATUS) && InHead(g, g - 16) &&
        InHead(g, g - 8);
    assert InHead(g, g + STACK_PTR);
    if FrameOk(w, g) {
      hide HasFrame, FrameOk;
      FrameKept(w, w', g);
    }
  }

  lemma OthersKept(w: World, w': World, f: int, span: Span)
    requires Inv(w) && OnlyAt(w, w'.mem, f, span) && Apart(w.stacks[f := span]) && f != w.thread && f !in w.chain
    requires w'.stacks == w.stacks[f := span] && w'.thread == w.thread && w'.chain == w.chain && w'.regs == w.regs
    requires forall g :: g in w.saved && g != f ==> g in w'.saved && w'.saved[g] == w.saved[g]
    ensures ChainOk(w')
    ensures forall g :: g in w.stacks && g != w.thread && g != f ==> HeaderOk(w', g)
    ensures forall g :: g in w.stacks && g != f && Alive(w', g) && g != Current(w) ==> FrameOk(w', g)
    ensures w'.stacks[Current(w')].lo <= w'.regs.rsp <= w'.stacks[Current(w')].hi
  {
    hide BesidesSame, HeaderOk, FrameOk, OnlyAt, Apart, Alive;
    OnlyAtLeavesRest(w, w'.mem, f, span);
    BesidesChain(w, w'.mem, f, w'.stacks);
    assert ChainOk(w');
    forall g | g in w.stacks && g != f
      ensures g != w.thread ==> HeaderOk(w', g)
      ensures Alive(w', g) && g != Current(w) ==> FrameOk(w', g)
    {
      BesidesFiber(w, w', f, g);
    }
  }

  lemma ApartFrom(stacks: map<int, Span>, f: int, g: int)
    requires Apart(stacks) && f in stacks && g in stacks && f != g
    ensures forall a :: InHead(g, a) || InStack(stacks[g], a) ==> !InHead(f, a) && !InStack(stacks[f], a)
  {
  }

  // A fresh fiber waits to enter its procedure with its parameter, above the exit stub.
  lemma InitKeepsInv(w: World, f: int, proc: int, param: int, w': World)
    requires Inv(w) && Inits(w, f, proc, param, w')
    ensures Inv(w') && w'.chain == w.chain && f in w'.saved
    ensures forall r :: Restored(r, w'.saved[f]) ==> r.rip == proc && r.rdi == param && r.rsp == f - 16
  {
    hide HasFrame, FrameOk;
    assert HeaderOk(w, f);
    InitEffect(w, f, proc, param, w');
    assert w.stacks[f := w.stacks[f]] == w.stacks;
    OthersKept(w, w', f, w.stacks[f]);
    assert Apart(w'.stacks);
    assert HeaderOk(w', f) && FrameOk(w', f);
    forall r | Restored(r, w'.saved[f]) ensures r.rip == proc && r.rdi == param && r.rsp == f - 16 {
      var words := FirstFrame(f, proc, param);
      assert Frame(r, r.rip)[13] == words[13] && Frame(r, r.rip)[9] == words[9];
    }
  }

  lemma InitEffect(w: World, f: int, proc: int, param: int, w': World)
    requires Inits(w, f, proc, param, w') && HeaderOk(w, f)
    ensures OnlyAt(w, w'.mem, f, w.stacks[f]) && HeaderOk(w', f) && FrameOk(w', f)
  {
    var m, sp :| InitRan(w.mem, f, proc, param, m, sp) && w' == w.(mem := m[f + STACK_PTR := sp],
         saved := w.saved[f := Context(FirstFrame(f, proc, param), f - 128)]);
    hide FirstFrame, FrameOk;
    var base := w.mem[f + STATUS := INITED];
    assert Read(base, f + STACK_UPPER) == f && sp == f - 128;
    forall a | !InHead(f, a) && !InStack(w.stacks[f], a) ensures Read(w'.mem, a) == Read(w.mem, a) {
      assert Read(m, a) == Read(base, a);
    }
    assert HeaderOk(w', f) by {
      assert Read(m, f + SCHED) == Read(base, f + SCHED) && Read(m, f + STACK_UPPER) == Read(base, f + STACK_UPPER);
    }
    InitFrameOk(w, f, proc, param, m, w');
  }

  lemma InitFrameOk(w: World, f: int, proc: int, param: int, m: Mem, w': World)
    requires f in w.stacks && w.stacks[f].lo <= f - 128 && w.stacks[f].hi == f - 16 &&
            HasFrame(m, f - 128, FirstFrame(f, proc, param))
    requires w' == w.(mem := m[f + STACK_PTR := f - 128], saved :=
            w.saved[f := Context(FirstFrame(f, proc, param), f - 128)])
    ensures FrameOk(w', f)
  {
    hide FirstFrame;
    forall i | 0 <= i < 14 ensures Read(w'.mem, f - 128 + 8 * i) == FirstFrame(f, proc, param)[i] {
      assert f - 128 + 8 * i != f + STACK_PTR;
    }
  }

  lemma CreateKeepsInv(w: World, f: int, span: Span, w': World)
    requires Inv(w) && Creates(w, f, span, w')
    ensures Inv(w') && w'.chain == w.chain
  {
    hide FrameOk, HasFrame, Apart, ChainOk;
    assert f !in w.chain && f != w.thread by { Unchained(w, f); }
    OthersKept(w, w', f, span);
  }

  // Deleting a fiber disturbs no other, and its region is free for a later fiber.
  lemma DeleteKeepsInv(w: World, f: int, w': World)
    requires Inv(w) && Deletes(w, f, w')
    ensures Inv(w') && w'.chain == w.chain && f !in w'.stacks
  {
    hide FrameOk, HeaderOk, HasFrame, BesidesSame, Alive;
    BesidesChain(w, w'.mem, f, w'.stacks);
    FewerApart(w.stacks, f);
    hide Apart, ChainOk;
    forall g | g in w'.stacks
      ensures g != w.thread ==> HeaderOk(w', g)
      ensures Alive(w', g) && g != Current(w) ==> FrameOk(w', g)
    {
      BesidesFiber(w, w', f, g);
    }
  }

  lemma FewerApart(stacks: map<int, Span>, f: int)
    requires Apart(stacks)
    ensures Apart(stacks - {f})
  {
  }

  lemma Unchained(w: World, f: int)
    requires Inv(w) && f !in w.stacks
    ensures f !in w.chain && f != w.thread
  {
  }

  // ---------- every interleaving ----------

  // ef_fiber_init_sched leaves a world of one fiber, the thread's own.
  lemma SchedStarts(regs: Regs, mem: Mem, thread: int, span: Span)
    requires Read(mem, thread - 8) == thread && span.lo <= regs.rsp <= span.hi
    requires forall a :: InHead(thread, a) ==> !InStack(span, a)
    ensures Inv(World(regs, mem, map[thread := span], thread, [thread], map[]))
  {
  }

  lemma NextKeepsInv(w: World, s: Step, w': World)
    requires Inv(w) && Next(w, s, w')
    ensures Inv(w')
  {
    hide Inv, Runs, Resumes, Yields, Exits, Inits, Creates, Deletes;
    match s
    case Run => RunsKeepsInv(w, w');
    case Resume(to, val, ret) => ResumeKeepsInv(w, to, val, ret, w');
    case Yield(val, ret) => YieldKeepsInv(w, val, ret, w');
    case Exit(val) => ExitKeepsInv(w, val, w');
    case Init(f, proc, param) => InitKeepsInv(w, f, proc, param, w');
    case Create(f, span) => CreateKeepsInv(w, f, span, w');
    case Delete(f) => DeleteKeepsInv(w, f, w');
  }

  ghost predicate Trace(ws: seq<World>, ss: seq<Step>) {
    |ws| == |ss| + 1 && forall i :: 0 <= i < |ss| ==> Next(ws[i], ss[i], ws[i + 1])
  }

  lemma {:induction false} TraceKeepsInv(ws: seq<World>, ss: seq<Step>, n: nat)
    requires Trace(ws, ss) && Inv(ws[0]) && n < |ws|
    ensures Inv(ws[n])
    decreases n
  {
    hide Inv, Next;
    if n > 0 {
      TraceKeepsInv(ws, ss, n - 1);
      NextKeepsInv(ws[n - 1], ss[n - 1], ws[n]);
    }
  }

  // The step in which the running fiber f leaves the processor by calling the swap.
  ghost predicate Leaves(w: World, s: Step, f: int) {
    (s.Resume? || s.Yield?) && w.chain != [] && Current(w) == f
  }

  // Registers as they were when the swap was called: what the caller of resume or yield
  // may rely on afterwards.
  ghost predicate SameKept(r: Regs, r': Regs) {
    && r'.rbx == r.rbx && r'.rbp == r.rbp && r'.rsp == r.rsp && r'.flags == r.flags
    && r'.r8 == r.r8 && r'.r9 == r.r9 && r'.r10 == r.r10 && r'.r11 == r.r11
    && r'.r12 == r.r12 && r'.r13 == r.r13 && r'.r14 == r.r14 && r'.r15 == r.r15
  }

  // While f is off the processor and not started afresh, its context stays what it was.
  lemma NextKeepsContext(w: World, s: Step, w': World, f: int)
    requires Inv(w) && Next(w, s, w') && f in w.saved && f != Current(w) && !(s.Init? && s.f == f)
    ensures f in w'.saved && w'.saved[f] == w.saved[f]
  {
    hide CalledSwap, ExitRan, InitRan, Apart, HeaderOk, FrameOk, BesidesSame;
  }

  lemma {:induction false} TraceKeepsContext(ws: seq<World>, ss: seq<Step>, f: int, i: nat, j: nat)
    requires Trace(ws, ss) && Inv(ws[0]) && i <= j < |ws| && f in ws[i].saved
    requires forall k :: i <= k < j ==> ws[k].chain != [] && f != Current(ws[k]) && !(ss[k].Init? && ss[k].f == f)
    ensures f in ws[j].saved && ws[j].saved[f] == ws[i].saved[f]
    decreases j - i
  {
    hide Inv, Next;
    if i < j {
      TraceKeepsInv(ws, ss, j - 1);
      TraceKeepsContext(ws, ss, f, i, j - 1);
      NextKeepsContext(ws[j - 1], ss[j - 1], ws[j], f);
    }
  }

  lemma LeftDetermines(w: Regs, newSp: int, slot: int, val: int, ret: int, r: Regs)
    requires Restored(r, Left(w, newSp, slot, val, ret))
    ensures SameKept(w, r) && r.rip == ret
  {
    var a, b := Frame(r, r.rip), Left(w, newSp, slot, val, ret).words;
    assert a[0] == b[0] && a[1] == b[1] && a[2] == b[2] && a[3] == b[3] && a[4] == b[4] && a[5] == b[5] && a[6] == b[6];
    assert a[7] == b[7] && a[8] == b[8] && a[11] == b[11] && a[12] == b[12] && a[13] == b[13];
  }

  lemma LeavingSaves(w: World, s: Step, w': World, f: int)
    requires Inv(w) && Next(w, s, w') && Leaves(w, s, f)
    ensures f in w'.saved
    ensures forall r :: Restored(r, w'.saved[f]) ==> SameKept(w.regs, r) && r.rip == s.ret
  {
    hide CalledSwap, Inv, Restored, SameKept, Left;
    forall r | Restored(r, w'.saved[f]) ensures SameKept(w.regs, r) && r.rip == s.ret {
      var sched := SchedOf(w);
      match s
      case Resume(to, val, ret) =>
        var m := Linked(w.mem, sched, to);
        LeftDetermines(w.regs, Read(m, to + STACK_PTR), Read(w.mem, sched) + STACK_PTR, val, ret, r);
      case Yield(val, ret) =>
        var current := Read(w.mem, sched);
        var m := w.mem[sched := Read(w.mem, current + PARENT)];
        LeftDetermines(w.regs, Read(m, Read(m, current + PARENT) + STACK_PTR), current + STACK_PTR, val, ret, r);
    }
  }

  // The step in which f comes back, with the value it is handed.
  ghost predicate ComesBack(w: World, s: Step, w': World, f: int, val: int) {
    w'.chain != [] && Current(w') == f &&
    match s
    case Resume(to, v, _) => to == f && v == val
    case Yield(v, _) => v == val
    case Exit(v) => v == val
    case _ => false
  }

  lemma ComingBackRestores(w: World, s: Step, w': World, f: int, val: int)
    requires Inv(w) && Next(w, s, w') && ComesBack(w, s, w', f, val)
    ensures f in w.saved && Restored(w'.regs, w.saved[f]) && w'.regs.rax == val
  {
    hide Inv, Runs, Resumes, Yields, Exits, Inits, Creates, Deletes, Restored;
    match s
    case Resume(to, v, ret) => ResumeKeepsInv(w, to, v, ret, w');
    case Yield(v, ret) => YieldKeepsInv(w, v, ret, w');
    case Exit(v) => ExitKeepsInv(w, v, w');
    case _ =>
  }

  // In every interleaving: a fiber that leaves at step i and first comes back at step j
  // finds its registers and stack pointer as they were, resumes at its return address, and
  // has the value sent in rax.
  lemma SwappedOutAndIn(ws: seq<World>, ss: seq<Step>, f: int, i: nat, j: nat, val: int)
    requires Trace(ws, ss) && Inv(ws[0]) && i < j < |ss|
    requires Leaves(ws[i], ss[i], f) && ComesBack(ws[j], ss[j], ws[j + 1], f, val)
    requires forall k :: i < k <= j ==> ws[k].chain != [] && f != Current(ws[k]) && !(ss[k].Init? && ss[k].f == f)
    ensures SameKept(ws[i].regs, ws[j + 1].regs) && ws[j + 1].regs.rip == ss[i].ret && ws[j + 1].regs.rax == val
  {
    hide Inv, Next, Leaves, ComesBack, Restored;
    TraceKeepsInv(ws, ss, i);
    TraceKeepsInv(ws, ss, j);
    LeavingSaves(ws[i], ss[i], ws[i + 1], f);
    TraceKeepsContext(ws, ss, f, i + 1, j);
    ComingBackRestores(ws[j], ss[j], ws[j + 1], f, val);
  }

  // In every interleaving: the first run of an initialised fiber enters its procedure with
  // its parameter, above the exit stub.
  lemma FirstRun(ws: seq<World>, ss: seq<Step>, f: int, i: nat, j: nat, val: int)
    requires Trace(ws, ss) && Inv(ws[0]) && i < j < |ss|
    requires ss[i].Init? && ss[i].f == f && ComesBack(ws[j], ss[j], ws[j + 1], f, val)
    requires forall k :: i < k <= j ==> ws[k].chain != [] && f != Current(ws[k]) && !(ss[k].Init? && ss[k].f == f)
    ensures var r := ws[j + 1].regs; r.rip == ss[i].proc && r.rdi == ss[i].param && r.rsp == f - 16
  {
    TraceKeepsInv(ws, ss, i);
    TraceKeepsInv(ws, ss, j);
    assert Next(ws[i], ss[i], ws[i + 1]);
    assert Inits(ws[i], f, ss[i].proc, ss[i].param, ws[i + 1]);
    hide Inv, Next, ComesBack, Restored, Inits;
    InitKeepsInv(ws[i], f, ss[i].proc, ss[i].param, ws[i + 1]);
    TraceKeepsContext(ws, ss, f, i + 1, j);
    ComingBackRestores(ws[j], ss[j], ws[j + 1], f, val);
  }

  // In every interleaving: following n parent pointers from the current fiber gives the
  // n-th fiber of the chain from its end, and as many as the chain is long end at the thread.
  ghost function Ancestor(m: Mem, f: int, n: nat): int
    decreases n
  {
    if n == 0 then f else Ancestor(m, Read(m, f + PARENT), n - 1)
  }

  lemma {:induction false} AncestorsAreChain(w: World, i: nat, n: nat)
    requires ChainOk(w) && n <= i < |w.chain|
    ensures Ancestor(w.mem, w.chain[i], n) == w.chain[i - n]
    decreases n
  {
    if n > 0 {
      assert ChainLinked(w.mem, w.chain, i);
      AncestorsAreChain(w, i - 1, n - 1);
    }
  }

  lemma ParentsReachThread(ws: seq<World>, ss: seq<Step>, i: nat)
    requires Trace(ws, ss) && Inv(ws[0]) && i < |ws|
    ensures var w := ws[i];
            && w.chain != [] && Read(w.mem, SchedOf(w)) == Current(w)
            && Ancestor(w.mem, Read(w.mem, SchedOf(w)), |w.chain| - 1) == w.thread
            && (forall n :: 0 <= n < |w.chain| - 1 ==> Ancestor(w.mem, Current(w), n) != w.thread)
  {
    TraceKeepsInv(ws, ss, i);
    hide FrameOk, HeaderOk, Apart;
    var w := ws[i];
    var top := |w.chain| - 1;
    AncestorsAreChain(w, top, top);
    forall n | 0 <= n < top ensures Ancestor(w.mem, Current(w), n) != w.thread {
      AncestorsAreChain(w, top, n);
    }
  }
}
