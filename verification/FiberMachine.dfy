/**
  amd64/fiber.s, instruction by instruction, on registers and a memory of 64-bit words.
  Addresses are word aligned; words never overlap.
 */
module FiberMachine {

  type Mem = map<int, int>

  datatype Regs = Regs(
    rax: int, rbx: int, rcx: int, rdx: int, rsi: int, rdi: int, rbp: int, rsp: int,
    r8: int, r9: int, r10: int, r11: int, r12: int, r13: int, r14: int, r15: int,
    flags: int, rip: int)

  const STACK_UPPER := 16
  const STACK_LOWER := 24
  const STACK_PTR := 32
  const STATUS := 40
  const PARENT := 48
  const SCHED := 56
  const CURRENT_FIBER := 0

  const EXITED := 0
  const INITED := 1

  // The address of the code that a returning fiber procedure falls into.
  const EXIT_STUB := 1

  const FRAME := 112

  // The fields of a fiber in the order of their declaration, a word each.
  datatype Field = StackSize | StackArea | StackUpper | StackLower | StackPtr | Status | Parent | Sched

  const FIELDS: seq<Field> := [StackSize, StackArea, StackUpper, StackLower, StackPtr, Status, Parent, Sched]

  // The offsets the assembly counts on are those of the fields, and the frame is what its pushes
  // and the return address take.
  lemma Layout(i: nat)
    requires i < |FIELDS|
    ensures FIELDS[i].StackUpper? ==> STACK_UPPER == 8 * i
    ensures FIELDS[i].StackLower? ==> STACK_LOWER == 8 * i
    ensures FIELDS[i].StackPtr? ==> STACK_PTR == 8 * i
    ensures FIELDS[i].Status? ==> STATUS == 8 * i && EXITED == 0 && INITED == 1
    ensures FIELDS[i].Parent? ==> PARENT == 8 * i
    ensures FIELDS[i].Sched? ==> SCHED == 8 * i && CURRENT_FIBER == 0
    ensures FRAME == 8 * (13 + 1)
  {
  }

  function Read(m: Mem, a: int): int {
    if a in m then m[a] else 0
  }

  // The words a suspended fiber keeps on its stack, lowest address first.
  function Frame(r: Regs, ret: int): (f: seq<int>)
    ensures |f| == 14
  {
    [r.flags, r.r15, r.r14, r.r13, r.r12, r.r11, r.r10, r.r9, r.r8, r.rdi, r.rsi, r.rbp, r.rbx, ret]
  }

  ghost predicate HasFrame(m: Mem, sp: int, words: seq<int>) {
    |words| == 14 && forall i :: 0 <= i < 14 ==> Read(m, sp + 8 * i) == words[i]
  }

  // The registers hold what the frame at sp held, and the frame is off the stack.
  ghost predicate Loaded(m: Mem, sp: int, r: Regs) {
    HasFrame(m, sp, Frame(r, r.rip)) && r.rsp == sp + FRAME
  }

  // ef_fiber_internal_swap, from entry (return address on top of the stack) to its `ret`.
  ghost predicate Swapped(r: Regs, m: Mem, r': Regs, m': Mem) {
    && (forall a :: a != r.rsi && !(r.rsp - 104 <= a < r.rsp) ==> Read(m', a) == Read(m, a))
    && Read(m', r.rsi) == r.rsp - 104
    && HasFrame(m', r.rsp - 104, Frame(r, Read(m, r.rsp)))
    && Loaded(m', r.rdi, r')
    && r'.rax == r.rdx
  }

  // _ef_fiber_exit, from its first instruction to the `ret` into the parent.
  ghost predicate ExitRan(r: Regs, m: Mem, r': Regs, m': Mem) {
    var fiber := Read(m, r.rsp);
    var m1 := m[fiber + STATUS := EXITED];
    var parent := Read(m1, fiber + PARENT);
    && m' == m1[Read(m1, fiber + SCHED) + CURRENT_FIBER := parent]
    && Loaded(m', Read(m', parent + STACK_PTR), r')
    && r'.rax == r.rax
  }

  // The frame of a fiber that has not run: it returns into proc with param in rdi, and
  // proc returns into the exit stub, which finds the fiber above it.
  function FirstFrame(upper: int, proc: int, param: int): (f: seq<int>)
    ensures |f| == 14
  {
    [0, 0, 0, 0, 0, 0, 0, 0, 0, param, 0, upper, 0, proc]
  }

  // ef_fiber_internal_init(fiber, proc, param), whose result becomes the stack pointer.
  ghost predicate InitRan(m: Mem, fiber: int, proc: int, param: int, m': Mem, sp: int) {
    var upper := Read(m[fiber + STATUS := INITED], fiber + STACK_UPPER);
    && sp == upper - 128
    && HasFrame(m', sp, FirstFrame(upper, proc, param))
    && Read(m', upper - 16) == EXIT_STUB && Read(m', upper - 8) == fiber
    && (forall a :: !(upper - 128 <= a < upper) ==> Read(m', a) == Read(m[fiber + STATUS := INITED], a))
  }

  // The two memories agree outside [lo, hi).
  ghost predicate SameOutside(m: Mem, m': Mem, lo: int, hi: int) {
    forall a :: !(lo <= a < hi) ==> Read(m', a) == Read(m, a)
  }

  // Fourteen words in a row, one fact a word.
  lemma FrameWords(m: Mem, sp: int, w: seq<int>)
    requires |w| == 14
    requires Read(m, sp) == w[0] && Read(m, sp + 8) == w[1] && Read(m, sp + 16) == w[2] && Read(m, sp + 24) == w[3]
    requires Read(m, sp + 32) == w[4] && Read(m, sp + 40) == w[5] && Read(m, sp + 48) == w[6] &&
            Read(m, sp + 56) == w[7]
    requires Read(m, sp + 64) == w[8] && Read(m, sp + 72) == w[9] && Read(m, sp + 80) == w[10] &&
            Read(m, sp + 88) == w[11]
    requires Read(m, sp + 96) == w[12] && Read(m, sp + 104) == w[13]
    ensures HasFrame(m, sp, w)
  {
  }

  lemma FirstFrameWords(m: Mem, u: int, proc: int, param: int)
    requires Read(m, u - 24) == proc && Read(m, u - 32) == 0 && Read(m, u - 40) == u && Read(m, u - 48) == 0 &&
            Read(m, u - 56) == param
    requires Read(m, u - 64) == 0 && Read(m, u - 72) == 0 && Read(m, u - 80) == 0 && Read(m, u - 88) == 0 &&
            Read(m, u - 96) == 0
    requires Read(m, u - 104) == 0 && Read(m, u - 112) == 0 && Read(m, u - 120) == 0 && Read(m, u - 128) == 0
    ensures HasFrame(m, u - 128, FirstFrame(u, proc, param))
  {
    FrameWords(m, u - 128, FirstFrame(u, proc, param));
  }

  // Any registers loaded from the first frame enter the procedure with its parameter, the
  // stack just below the exit stub's address, and every other register cleared.
  lemma FirstFrameLoads(m: Mem, fiber: int, proc: int, param: int, m': Mem, sp: int, r: Regs)
    requires InitRan(m, fiber, proc, param, m', sp) && Loaded(m', sp, r)
    ensures var upper := sp + 128;
            && r.rip == proc && r.rdi == param && r.rsp == upper - 16 && r.rbp == upper
            && Read(m', r.rsp) == EXIT_STUB && Read(m', r.rsp + 8) == fiber
            && r.rbx == 0 && r.rsi == 0 && r.flags == 0 && r.r8 == 0 && r.r9 == 0 && r.r10 == 0 && r.r11 == 0
            && r.r12 == 0 && r.r13 == 0 && r.r14 == 0 && r.r15 == 0
  {
    var words, kept := FirstFrame(sp + 128, proc, param), Frame(r, r.rip);
    assert forall i :: 0 <= i < 14 ==> words[i] == Read(m', sp + 8 * i) == kept[i];
    assert kept[0] == words[0] && kept[1] == words[1] && kept[2] == words[2] && kept[3] == words[3] &&
        kept[4] == words[4];
    assert kept[5] == words[5] && kept[6] == words[6] && kept[7] == words[7] && kept[8] == words[8] &&
        kept[9] == words[9];
    assert kept[10] == words[10] && kept[11] == words[11] && kept[12] == words[12] && kept[13] == words[13];
  }

  class Cpu {
    var r: Regs
    var mem: Mem

    method Push(v: int)
      modifies this
      ensures r == old(r).(rsp := old(r).rsp - 8) && mem == old(mem)[old(r).rsp - 8 := v]
    {
      r := r.(rsp := r.rsp - 8);
      mem := mem[r.rsp := v];
    }

    // mov v, -off(%rdi)
    method Store(off: int, v: int)
      modifies this`mem
      ensures mem == old(mem)[r.rdi - off := v]
    {
      mem := mem[r.rdi - off := v];
    }

    method Pop() returns (v: int)
      modifies this`r
      ensures v == Read(mem, old(r).rsp) && r == old(r).(rsp := old(r).rsp + 8)
    {
      v := Read(mem, r.rsp);
      r := r.(rsp := r.rsp + 8);
    }

    // The thirteen pushes.
    method SaveAll()
      modifies this
      ensures r == old(r).(rsp := old(r).rsp - 104)
      ensures SameOutside(old(mem), mem, old(r).rsp - 104, old(r).rsp)
      ensures HasFrame(mem, r.rsp, Frame(old(r), Read(old(mem), old(r).rsp)))
    {
      SaveNamed();
      SaveNumbered();
      FrameWords(mem, r.rsp, Frame(old(r), Read(old(mem), old(r).rsp)));
    }

    method SaveNamed()
      modifies this
      ensures r == old(r).(rsp := old(r).rsp - 56)
      ensures SameOutside(old(mem), mem, old(r).rsp - 56, old(r).rsp)
      ensures var s := r.rsp;
              && Read(mem, s) == r.r10 && Read(mem, s + 8) == r.r9 && Read(mem, s + 16) == r.r8 &&
                  Read(mem, s + 24) == r.rdi
              && Read(mem, s + 32) == r.rsi && Read(mem, s + 40) == r.rbp && Read(mem, s + 48) == r.rbx
    {
      Push(r.rbx);
      Push(r.rbp);
      Push(r.rsi);
      Push(r.rdi);
      Push(r.r8);
      Push(r.r9);
      Push(r.r10);
    }

    method SaveNumbered()
      modifies this
      ensures r == old(r).(rsp := old(r).rsp - 48)
      ensures SameOutside(old(mem), mem, old(r).rsp - 48, old(r).rsp)
      ensures var s := r.rsp;
              && Read(mem, s) == r.flags && Read(mem, s + 8) == r.r15 && Read(mem, s + 16) == r.r14
              && Read(mem, s + 24) == r.r13 && Read(mem, s + 32) == r.r12 && Read(mem, s + 40) == r.r11
    {
      Push(r.r11);
      Push(r.r12);
      Push(r.r13);
      Push(r.r14);
      Push(r.r15);
      Push(r.flags);
    }

    // _ef_fiber_restore: the thirteen pops and the return.
    method Restore()
      modifies this`r
      ensures Loaded(mem, old(r).rsp, r)
      ensures r.rax == old(r).rax && r.rcx == old(r).rcx && r.rdx == old(r).rdx
    {
      ghost var sp := r.rsp;
      RestoreNew();
      RestoreOld();
      FrameWords(mem, sp, Frame(r, r.rip));
    }

    method RestoreNew()
      modifies this`r
      ensures var s := old(r).rsp;
              r == old(r).(flags := Read(mem, s), r15 := Read(mem, s + 8), r14 := Read(mem, s + 16), r13 :=
                  Read(mem, s + 24),
                           r12 := Read(mem, s + 32), r11 := Read(mem, s + 40), r10 := Read(mem, s + 48), rsp := s + 56)
    {
      var v := Pop();
      r := r.(flags := v);
      v := Pop();
      r := r.(r15 := v);
      v := Pop();
      r := r.(r14 := v);
      v := Pop();
      r := r.(r13 := v);
      v := Pop();
      r := r.(r12 := v);
      v := Pop();
      r := r.(r11 := v);
      v := Pop();
      r := r.(r10 := v);
    }

    method RestoreOld()
      modifies this`r
      ensures var s := old(r).rsp;
              r == old(r).(r9 := Read(mem, s), r8 := Read(mem, s + 8), rdi := Read(mem, s + 16), rsi :=
                  Read(mem, s + 24),
                           rbp := Read(mem, s + 32), rbx := Read(mem, s + 40), rip := Read(mem, s + 48), rsp := s + 56)
    {
      var v := Pop();
      r := r.(r9 := v);
      v := Pop();
      r := r.(r8 := v);
      v := Pop();
      r := r.(rdi := v);
      v := Pop();
      r := r.(rsi := v);
      v := Pop();
      r := r.(rbp := v);
      v := Pop();
      r := r.(rbx := v);
      v := Pop();
      r := r.(rip := v);
    }

    // ef_fiber_internal_swap(rdi: new stack pointer, rsi: where to keep the old one, rdx: value)
    method Swap()
      requires !(r.rsp - 104 <= r.rsi <= r.rsp)
      modifies this
      ensures Swapped(old(r), old(mem), r, mem)
    {
      r := r.(rax := r.rdx);
      SaveAll();
      assert Frame(old(r), Read(old(mem), old(r).rsp)) == Frame(old(r).(rax := old(r).rdx), Read(old(mem), old(r).rsp));
      mem := mem[r.rsi := r.rsp];
      r := r.(rsp := r.rdi);
      Restore();
    }

    // _ef_fiber_exit
    method Exit()
      modifies this
      ensures ExitRan(old(r), old(mem), r, mem)
    {
      var v := Pop();
      r := r.(rdx := v);
      r := r.(rcx := EXITED);
      mem := mem[r.rdx + STATUS := r.rcx];
      r := r.(rcx := Read(mem, r.rdx + PARENT));
      r := r.(rdx := Read(mem, r.rdx + SCHED));
      mem := mem[r.rdx + CURRENT_FIBER := r.rcx];
      r := r.(rsp := Read(mem, r.rcx + STACK_PTR));
      Restore();
    }

    // ef_fiber_internal_init(rdi: fiber, rsi: procedure, rdx: parameter)
    method Init()
      modifies this
      ensures InitRan(old(mem), old(r).rdi, old(r).rsi, old(r).rdx, mem, r.rax)
    {
      hide HasFrame;
      r := r.(rax := INITED);
      mem := mem[r.rdi + STATUS := r.rax];
      r := r.(rcx := r.rdi);
      r := r.(rdi := Read(mem, r.rdi + STACK_UPPER));
      ghost var base := mem;
      InitFrame();
      r := r.(rax := r.rdi);
      r := r.(rax := r.rax - 128);
    }

    method InitFrame()
      modifies this
      ensures r.rdi == old(r).rdi
      ensures SameOutside(old(mem), mem, r.rdi - 128, r.rdi)
      ensures HasFrame(mem, r.rdi - 128, FirstFrame(r.rdi, old(r).rsi, old(r).rdx))
      ensures Read(mem, r.rdi - 8) == old(r).rcx && Read(mem, r.rdi - 16) == EXIT_STUB
    {
      hide HasFrame, FirstFrame;
      Store(8, r.rcx);
      r := r.(rax := EXIT_STUB);
      Store(16, r.rax);
      Store(24, r.rsi);
      InitNamed();
      FirstFrameWords(mem, r.rdi, r.rsi, r.rdx);
    }

    // From the named registers down.
    method InitNamed()
      modifies this
      ensures r == old(r).(rax := 0)
      ensures SameOutside(old(mem), mem, r.rdi - 128, r.rdi - 24)
      ensures Read(mem, r.rdi - 32) == 0 && Read(mem, r.rdi - 40) == r.rdi && Read(mem, r.rdi - 48) == 0 &&
              Read(mem, r.rdi - 56) == r.rdx
      ensures Read(mem, r.rdi - 64) == 0 && Read(mem, r.rdi - 72) == 0 && Read(mem, r.rdi - 80) == 0 &&
              Read(mem, r.rdi - 88) == 0
      ensures Read(mem, r.rdi - 96) == 0 && Read(mem, r.rdi - 104) == 0 && Read(mem, r.rdi - 112) == 0 &&
              Read(mem, r.rdi - 120) == 0
      ensures Read(mem, r.rdi - 128) == 0
    {
      r := r.(rax := 0);
      Store(32, r.rax);
      Store(40, r.rdi);
      Store(48, r.rax);
      Store(56, r.rdx);
      InitNumbered();
    }

    method InitNumbered()
      requires r.rax == 0
      modifies this`mem
      ensures SameOutside(old(mem), mem, r.rdi - 128, r.rdi - 56)
      ensures Read(mem, r.rdi - 64) == 0 && Read(mem, r.rdi - 72) == 0 && Read(mem, r.rdi - 80) == 0 &&
              Read(mem, r.rdi - 88) == 0
      ensures Read(mem, r.rdi - 96) == 0 && Read(mem, r.rdi - 104) == 0 && Read(mem, r.rdi - 112) == 0 &&
              Read(mem, r.rdi - 120) == 0
      ensures Read(mem, r.rdi - 128) == 0
    {
      Store(64, r.rax);
      Store(72, r.rax);
      Store(80, r.rax);
      Store(88, r.rax);
      InitLowest();
    }

    method InitLowest()
      requires r.rax == 0
      modifies this`mem
      ensures SameOutside(old(mem), mem, r.rdi - 128, r.rdi - 88)
      ensures Read(mem, r.rdi - 96) == 0 && Read(mem, r.rdi - 104) == 0 && Read(mem, r.rdi - 112) == 0 &&
              Read(mem, r.rdi - 120) == 0
      ensures Read(mem, r.rdi - 128) == 0
    {
      Store(96, r.rax);
      Store(104, r.rax);
      Store(112, r.rax);
      Store(120, r.rax);
      Store(128, r.rax);
    }
  }
}
