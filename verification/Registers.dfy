/**
 The register file on its way through a timer interrupt: what the processor and the assembly
 stub push on the kernel stack, what the handler saves, and what a context switch loads again.
 */
module Registers {
  import opened Words
  import opened Processes
  import opened KernelSteps
  import opened KernelRuns
  import opened KernelFair

  /** Everything a user program can see of the processor; selectors have 16 bits. */
  datatype RawUser = User(eip: Word, cpu: Cpu, eflags: Word, cs: Half, ss: Half)
  type User = u: RawUser | u.cpu.gs < 0x1_0000 && u.cpu.fs < 0x1_0000 && u.cpu.es < 0x1_0000 && u.cpu.ds < 0x1_0000
    witness RawUser.User(0, ZERO_CPU, 0, 0, 0)

  function LowHalf(w: Word): Half {
    w % 0x1_0000
  }

  /** The user state that a context describes once it is loaded. */
  function Resumed(c: Context): User {
    RawUser.User(c.eip,
                 c.cpu.(gs := LowHalf(c.cpu.gs), fs := LowHalf(c.cpu.fs),
                        es := LowHalf(c.cpu.es), ds := LowHalf(c.cpu.ds)),
                 c.eflags, LowHalf(c.cs), USER_DATA)
  }

  /** A pushed selector fills the low half of its stack slot; the high half is whatever was there. */
  predicate HoldsSelectors(saved: Cpu, cpu: Cpu) {
    && LowHalf(saved.gs) == cpu.gs && LowHalf(saved.fs) == cpu.fs
    && LowHalf(saved.es) == cpu.es && LowHalf(saved.ds) == cpu.ds
  }

  /** What the stub saves of a user state: the user's stack pointer only if `ds` says it came from user mode. */
  predicate Saves(regs: Regs, u: User, kernelEsp: Word) {
    && regs.eip == u.eip && regs.eflags == u.eflags && regs.cs == u.cs
    && HoldsSelectors(regs.cpu, u.cpu)
    && regs.cpu.(gs := u.cpu.gs, fs := u.cpu.fs, es := u.cpu.es, ds := u.cpu.ds)
       == u.cpu.(esp := if u.cpu.ds % 4 != 0 then u.cpu.esp else kernelEsp)
  }

  /**
   Loading what was saved gives the user state back exactly when the stack segment is the user
   data segment and `ds` holds a selector of ring 3 (or the two stack pointers happen to agree).
   */
  lemma SaveThenResume(regs: Regs, u: User, kernelEsp: Word, dir: DirRef)
    requires Saves(regs, u, kernelEsp)
    ensures Resumed(Context(regs.eip, regs.cpu, regs.eflags, regs.cs, dir)) == u
      <==> u.ss == USER_DATA && (u.cpu.ds % 4 != 0 || u.cpu.esp == kernelEsp)
  {
    var saved := regs.cpu.(gs := u.cpu.gs, fs := u.cpu.fs, es := u.cpu.es, ds := u.cpu.ds);
    assert Resumed(Context(regs.eip, regs.cpu, regs.eflags, regs.cs, dir)).cpu == saved;
    assert saved == u.cpu <==> saved.esp == u.cpu.esp;
  }

  /**
   A process preempted at event `m` in user state `u` is handed that same state by the tick that
   dispatches it again, under its own directory, after any number of ticks, creations and kills of
   others.
   */
  lemma PreemptedResumesIntact(k: Kernel, es: seq<Event>, ks: seq<Kernel>, m: nat, n: nat, u: User, kernelEsp: Word)
    requires KernelOk(k) && IsRun(k, es, ks) && m < n <= |es| && es[m].TickEv?
    requires Isolated(ks[m]) && Waits(es, ks, m + 1, n, RunningSlot(ks[m]))
    requires Saves(es[m].regs, u, kernelEsp) && u.ss == USER_DATA && u.cpu.ds % 4 != 0
    ensures KernelOk(ks[n])
    ensures var i := RunningSlot(ks[m]);
      && Resumed(ks[n].procs[i].context) == u && ks[n].procs[i].context.pageDir == DirOf(ks[m], i)
      && HandsOut(ks[n], i, ks[n].procs[i].context)
  {
    ResumesExactly(k, es, ks, m, n);
    SaveThenResume(es[m].regs, u, kernelEsp, DirOf(ks[m], RunningSlot(ks[m])));
  }

  // ----- the processor

  /** The words of a context in the order of its fields. */
  function ContextWords(c: Context, dir: Word): (w: seq<Word>)
    ensures |w| == 16
  {
    [c.eip, c.cpu.edi, c.cpu.esi, c.cpu.ebp, c.cpu.esp, c.cpu.ebx, c.cpu.edx, c.cpu.ecx, c.cpu.eax,
     c.cpu.gs, c.cpu.fs, c.cpu.es, c.cpu.ds, c.eflags, c.cs, dir]
  }

  /** The handler's view of its frame. */
  function FrameRegs(w: seq<Word>): Regs
    requires |w| >= 17
  {
    Regs(w[14], Cpu(w[0], w[1], w[2], w[3], w[4], w[5], w[6], w[7], w[8], w[9], w[10], w[11]), w[16], w[15])
  }

  function WithZeroFlag(e: Word, zero: bool): Word {
    var without: int := e - 0x40 * ((e / 0x40) % 2);
    (without + if zero then 0x40 else 0) % 0x1_0000_0000
  }

  predicate ZeroFlag(e: Word) {
    (e / 0x40) % 2 == 1
  }

  lemma ZeroFlagSet(e: Word, zero: bool)
    ensures ZeroFlag(WithZeroFlag(e, zero)) == zero
  {
    var q, b := e / 0x80, (e / 0x40) % 2;
    assert e == 0x80 * q + 0x40 * b + e % 0x40;
    var f: int := 0x80 * q + (if zero then 0x40 else 0) + e % 0x40;
    assert WithZeroFlag(e, zero) == f;
    assert f / 0x40 == 2 * q + if zero then 1 else 0;
  }

  const KERNEL_DATA: Half := 0x10
  const KERNEL_CODE: Half := 0x8

  class Processor {
    var eax: Word
    var ebx: Word
    var ecx: Word
    var edx: Word
    var esi: Word
    var edi: Word
    var ebp: Word
    var esp: Word
    var eip: Word
    var eflags: Word
    var cs: Half
    var ss: Half
    var ds: Half
    var es: Half
    var fs: Half
    var gs: Half
    /** The kernel stack, from address `base` on. */
    const stack: array<Word>
    const base: Word

    ghost predicate Valid()
      reads this
    {
      base + 4 * stack.Length < 0x1_0000_0000
    }

    /** The stack pointer is in the kernel stack, `n` words of which are in use. */
    ghost predicate InKernel(n: nat)
      reads this
    {
      Valid() && n <= stack.Length && esp == base + 4 * (stack.Length - n)
    }

    /** The `j`-th of the words in use, in the order in which they were pushed. */
    ghost function At(j: nat): Word
      reads stack
      requires 1 <= j <= stack.Length
    {
      stack[stack.Length - j]
    }

    /** The stack holds the frame of an interrupt that saved `regs`, below the words the processor pushed. */
    ghost predicate FrameIs(regs: Regs, number: Word, error: Word, userEsp: Word, userSs: Word)
      reads stack
      requires stack.Length >= 19
    {
      && At(1) == userSs && At(2) == userEsp && At(3) == regs.eflags && At(4) == regs.cs && At(5) == regs.eip
      && At(6) == error && At(7) == number
      && At(8) == regs.cpu.ds && At(9) == regs.cpu.es && At(10) == regs.cpu.fs && At(11) == regs.cpu.gs
      && At(12) == regs.cpu.eax && At(13) == regs.cpu.ecx && At(14) == regs.cpu.edx && At(15) == regs.cpu.ebx
      && At(16) == regs.cpu.esp && At(17) == regs.cpu.ebp && At(18) == regs.cpu.esi && At(19) == regs.cpu.edi
    }

    function CpuState(): Cpu
      reads this
    {
      Cpu(edi, esi, ebp, esp, ebx, edx, ecx, eax, gs, fs, es, ds)
    }

    function UserState(): User
      reads this
    {
      RawUser.User(eip, CpuState(), eflags, cs, ss)
    }

    method Push(w: Word, ghost n: nat)
      requires InKernel(n) && n < stack.Length
      modifies `esp, stack
      ensures InKernel(n + 1) && At(n + 1) == w
      ensures forall j {:trigger At(j)} :: 1 <= j <= n ==> At(j) == old(At(j))
    {
      esp := esp - 4;
      stack[(esp - base) / 4] := w;
    }

    /** Pushing a selector leaves the high half of the slot as it was. */
    method PushSelector(sel: Half, ghost n: nat)
      requires InKernel(n) && n < stack.Length
      modifies `esp, stack
      ensures InKernel(n + 1) && LowHalf(At(n + 1)) == sel
      ensures forall j {:trigger At(j)} :: 1 <= j <= n ==> At(j) == old(At(j))
    {
      esp := esp - 4;
      var at := (esp - base) / 4;
      var high: int := stack[at] / 0x1_0000;
      stack[at] := 0x1_0000 * high + sel;
    }

    method Pop(ghost n: nat) returns (w: Word)
      requires InKernel(n) && n > 0
      modifies `esp
      ensures InKernel(n - 1) && w == At(n)
    {
      w := stack[(esp - base) / 4];
      esp := esp + 4;
    }

    /** The word `at` places above the stack pointer. */
    method Load(at: nat, ghost n: nat) returns (w: Word)
      requires InKernel(n) && at < n
      ensures w == At(n - at)
    {
      w := stack[(esp - base) / 4 + at];
    }

    method Store(at: nat, w: Word, ghost n: nat)
      requires InKernel(n) && at < n
      modifies stack
      ensures At(n - at) == w
      ensures forall j {:trigger At(j)} :: 1 <= j <= n && j != n - at ==> At(j) == old(At(j))
    {
      stack[(esp - base) / 4 + at] := w;
    }

    /** What the processor does at an interrupt from ring 3 (Intel SDM Vol. 3A, section 6.12.1). */
    method Interrupt(number: Word, error: Word)
      requires Valid() && stack.Length >= 7 && cs % 4 == 3
      modifies `esp, `ss, `cs, stack
      ensures InKernel(7)
      ensures At(1) == old(ss) && At(2) == old(esp) && At(3) == old(eflags) && At(4) == old(cs) && At(5) == old(eip)
      ensures At(6) == error && At(7) == number
    {
      var userEsp, userSs := esp, ss;
      esp, ss := base + 4 * stack.Length, KERNEL_DATA;
      Push(userSs, 0);
      Push(userEsp, 1);
      Push(eflags, 2);
      Push(cs, 3);
      Push(eip, 4);
      cs := KERNEL_CODE;
      Push(error, 5);
      Push(number, 6);
    }

    /** The four data selectors, in the stub's order. */
    method PushSegments(ghost n: nat)
      requires InKernel(n) && n + 4 <= stack.Length
      modifies `esp, stack
      ensures InKernel(n + 4)
      ensures LowHalf(At(n + 1)) == ds && LowHalf(At(n + 2)) == es
      ensures LowHalf(At(n + 3)) == fs && LowHalf(At(n + 4)) == gs
      ensures forall j {:trigger At(j)} :: 1 <= j <= n ==> At(j) == old(At(j))
    {
      PushSelector(ds, n);
      PushSelector(es, n + 1);
      PushSelector(fs, n + 2);
      PushSelector(gs, n + 3);
    }

    /** `pushad`: all general registers, with the stack pointer as it was before. */
    method PushAll(ghost n: nat)
      requires InKernel(n) && n + 8 <= stack.Length
      modifies `esp, stack
      ensures InKernel(n + 8)
      ensures At(n + 1) == eax && At(n + 2) == ecx && At(n + 3) == edx && At(n + 4) == ebx
      ensures At(n + 5) == old(esp) && At(n + 6) == ebp && At(n + 7) == esi && At(n + 8) == edi
      ensures forall j {:trigger At(j)} :: 1 <= j <= n ==> At(j) == old(At(j))
    {
      var before := esp;
      Push(eax, n);
      Push(ecx, n + 1);
      Push(edx, n + 2);
      Push(ebx, n + 3);
      Push(before, n + 4);
      Push(ebp, n + 5);
      Push(esi, n + 6);
      Push(edi, n + 7);
    }

    method PopIndex(ghost n: nat)
      requires InKernel(n) && n >= 3
      modifies `esp, `edi, `esi, `ebp
      ensures InKernel(n - 3) && edi == At(n) && esi == At(n - 1) && ebp == At(n - 2)
    {
      edi := Pop(n);
      esi := Pop(n - 1);
      ebp := Pop(n - 2);
    }

    /** `popad`: all general registers but the stack pointer. */
    method PopAll(ghost n: nat)
      requires InKernel(n) && n >= 8
      modifies `esp, `edi, `esi, `ebp, `ebx, `edx, `ecx, `eax
      ensures InKernel(n - 8)
      ensures edi == At(n) && esi == At(n - 1) && ebp == At(n - 2) && ebx == At(n - 4)
      ensures edx == At(n - 5) && ecx == At(n - 6) && eax == At(n - 7)
    {
      PopIndex(n);
      var skipped := Pop(n - 3);
      ebx := Pop(n - 4);
      edx := Pop(n - 5);
      ecx := Pop(n - 6);
      eax := Pop(n - 7);
    }

    method PopSegments(ghost n: nat)
      requires InKernel(n) && n >= 4
      modifies `esp, `gs, `fs, `es, `ds
      ensures InKernel(n - 4)
      ensures gs == LowHalf(At(n)) && fs == LowHalf(At(n - 1)) && es == LowHalf(At(n - 2)) && ds == LowHalf(At(n - 3))
    {
      var w := Pop(n);
      gs := LowHalf(w);
      w := Pop(n - 1);
      fs := LowHalf(w);
      w := Pop(n - 2);
      es := LowHalf(w);
      w := Pop(n - 3);
      ds := LowHalf(w);
    }

    /** Sets the zero flag when the selector saved as `ds` is of ring 0 (or null). */
    method TestSelector(ghost n: nat)
      requires InKernel(n) && n >= 14
      modifies `eax, `eflags
      ensures ZeroFlag(eflags) <==> At(n - 13) % 4 == 0
    {
      eax := Load(13, n);
      eax := eax % 4;
      ZeroFlagSet(eflags, eax == 0);
      eflags := WithZeroFlag(eflags, eax == 0);
    }

    method UseKernelSegments()
      modifies `eax, `ds, `es, `fs, `gs
      ensures ds == es == fs == gs == KERNEL_DATA
    {
      var high: int := eax / 0x1_0000;
      eax := 0x1_0000 * high + KERNEL_DATA;
      ds, es, fs, gs := KERNEL_DATA, KERNEL_DATA, KERNEL_DATA, KERNEL_DATA;
    }

    /** Replaces the saved stack pointer by the user's, unless the saved `ds` is not of ring 1 to 3. */
    method PatchStackPointer()
      requires InKernel(19) && stack.Length >= 21
      modifies `esp, `eax, `eflags, `ds, `es, `fs, `gs, stack
      ensures InKernel(19) && eax == old(eax) && eflags == old(eflags)
      ensures ds == es == fs == gs == KERNEL_DATA
      ensures At(16) == if At(8) % 4 != 0 then At(2) else old(At(16))
      ensures forall j {:trigger At(j)} :: 1 <= j <= 19 && j != 16 ==> At(j) == old(At(j))
    {
      Push(eflags, 19);
      Push(eax, 20);
      TestSelector(21);
      if !ZeroFlag(eflags) {
        eax := Load(19, 21);
        Store(5, eax, 21);
      }
      UseKernelSegments();
      eax := Pop(21);
      eflags := Pop(20);
    }

    /** The whole frame as first pushed, holding the kernel's stack pointer. */
    method PushFrame(number: Word, error: Word) returns (ghost regs: Regs)
      requires Valid() && stack.Length >= 21 && cs % 4 == 3
      modifies `esp, `ss, `cs, stack
      ensures InKernel(19) && FrameIs(regs, number, error, old(esp), old(ss))
      ensures var u := old(UserState());
        && regs.eip == u.eip && regs.eflags == u.eflags && regs.cs == u.cs && HoldsSelectors(regs.cpu, u.cpu)
        && regs.cpu.(gs := u.cpu.gs, fs := u.cpu.fs, es := u.cpu.es, ds := u.cpu.ds)
           == u.cpu.(esp := base + 4 * (stack.Length - 11))
    {
      ghost var u := UserState();
      Interrupt(number, error);
      PushSegments(7);
      PushAll(11);
      regs := Regs(u.eip,
                   u.cpu.(esp := base + 4 * (stack.Length - 11), gs := At(11), fs := At(10), es := At(9), ds := At(8)),
                   u.eflags, u.cs);
    }

    /**
     From the interrupt to the call of the handler: the frame on the stack saves the user state,
     and the processor's own frame lies above it.
     */
    method EnterHandler(number: Word, error: Word) returns (ghost regs: Regs)
      requires Valid() && stack.Length >= 21 && cs % 4 == 3
      modifies `esp, `ss, `cs, `eax, `eflags, `ds, `es, `fs, `gs, `ebp, stack
      ensures InKernel(19) && FrameIs(regs, number, error, old(esp), old(ss))
      ensures Saves(regs, old(UserState()), base + 4 * (stack.Length - 11))
      ensures var n := stack.Length;
        && stack[n - 1] == old(ss) && stack[n - 2] == old(esp) && stack[n - 3] == old(eflags)
        && stack[n - 4] == old(cs) && stack[n - 5] == old(eip) && stack[n - 6] == error && stack[n - 7] == number
        && LowHalf(stack[n - 8]) == old(ds) && LowHalf(stack[n - 9]) == old(es)
        && LowHalf(stack[n - 10]) == old(fs) && LowHalf(stack[n - 11]) == old(gs)
        && stack[n - 12] == old(eax) && stack[n - 13] == old(ecx) && stack[n - 14] == old(edx)
        && stack[n - 15] == old(ebx) && stack[n - 17] == old(ebp) && stack[n - 18] == old(esi)
        && stack[n - 19] == old(edi)
        && stack[n - 16] == if old(ds) % 4 != 0 then old(esp) else base + 4 * (n - 11)
      ensures ds == 0x10 && es == 0x10 && fs == 0x10 && gs == 0x10
    {
      var userEsp := esp;
      regs := PushFrame(number, error);
      PatchStackPointer();
      SelectorRing(regs.cpu.ds);
      if regs.cpu.ds % 4 != 0 { regs := regs.(cpu := regs.cpu.(esp := userEsp)); }
      ebp := esp;
    }

    /** `iret`: the three words of the frame and, back to an outer ring, the stack pointer and segment. */
    method InterruptReturn(ghost n: nat)
      requires InKernel(n) && n >= 5
      requires LowHalf(At(n - 1)) % 4 != 0
      modifies `eip, `cs, `eflags, `esp, `ss
      ensures eip == At(n) && eflags == At(n - 2) && esp == At(n - 3)
      ensures cs == LowHalf(At(n - 1)) && ss == LowHalf(At(n - 4))
    {
      eip := Pop(n);
      var code := Pop(n - 1);
      cs := LowHalf(code);
      eflags := Pop(n - 2);
      if cs % 4 != 0 {
        var userEsp := Pop(n - 3);
        var userSs := Pop(n - 4);
        esp := userEsp;
        ss := LowHalf(userSs);
      }
    }

    /** The way back from a handler that returns: the interrupted program goes on as it was. */
    method LeaveHandler(ghost regs: Regs, ghost u: User, ghost number: Word, ghost error: Word, ghost kernelEsp: Word)
      requires InKernel(19) && u.cs % 4 == 3
      requires FrameIs(regs, number, error, u.cpu.esp, u.ss) && Saves(regs, u, kernelEsp)
      modifies this
      ensures UserState() == u
    {
      LowOfHalf(u.cs);
      LowOfHalf(u.ss);
      RestoreRegisters(regs, u, number, error, kernelEsp);
      esp := esp + 8;
      InterruptReturn(5);
    }

    /** All registers but the stack pointer and the ones that `iret` restores. */
    method RestoreRegisters(ghost regs: Regs, ghost u: User, ghost number: Word, ghost error: Word,
                            ghost kernelEsp: Word)
      requires InKernel(19) && FrameIs(regs, number, error, u.cpu.esp, u.ss) && Saves(regs, u, kernelEsp)
      modifies `esp, `edi, `esi, `ebp, `ebx, `edx, `ecx, `eax, `gs, `fs, `es, `ds
      ensures InKernel(7) && CpuState() == u.cpu.(esp := esp)
    {
      PopAll(19);
      PopSegments(11);
    }

    method LoadIndexAndSegments(ctx: seq<Word>, ghost c: Context, ghost dir: Word)
      requires ctx == ContextWords(c, dir)
      modifies `edi, `esi, `ebp, `ebx, `edx, `gs, `fs, `es, `ds
      ensures edi == c.cpu.edi && esi == c.cpu.esi && ebp == c.cpu.ebp && ebx == c.cpu.ebx && edx == c.cpu.edx
      ensures gs == LowHalf(c.cpu.gs) && fs == LowHalf(c.cpu.fs) && es == LowHalf(c.cpu.es) && ds == LowHalf(c.cpu.ds)
    {
      edi, esi, ebp := ctx[1], ctx[2], ctx[3];
      ebx, edx := ctx[5], ctx[6];
      gs, fs, es, ds := LowHalf(ctx[9]), LowHalf(ctx[10]), LowHalf(ctx[11]), LowHalf(ctx[12]);
    }

    /** `process_context_switch`: loads the context that lies on the stack as `ctx`. */
    method ContextSwitch(ctx: seq<Word>, ghost c: Context, ghost dir: Word, ghost n: nat)
      requires InKernel(n) && n + 5 <= stack.Length && ctx == ContextWords(c, dir) && LowHalf(c.cs) % 4 != 0
      modifies this, stack
      ensures UserState() == Resumed(c)
      ensures eip == ctx[0] && edi == ctx[1] && esi == ctx[2] && ebp == ctx[3] && esp == ctx[4] && ebx == ctx[5]
      ensures edx == ctx[6] && ecx == ctx[7] && eax == ctx[8]
      ensures gs == LowHalf(ctx[9]) && fs == LowHalf(ctx[10]) && es == LowHalf(ctx[11]) && ds == LowHalf(ctx[12])
      ensures eflags == ctx[13] && cs == LowHalf(ctx[14]) && ss == 0x23
    {
      LoadIndexAndSegments(ctx, c, dir);
      PushReturnFrame(ctx[4], ctx[13], ctx[14], ctx[0], n);
      eax, ecx := ctx[8], ctx[7];
      LowOfHalf(USER_DATA);
      InterruptReturn(n + 5);
    }

    /** The frame that `iret` returns through to user mode. */
    method PushReturnFrame(userEsp: Word, flags: Word, code: Word, start: Word, ghost n: nat)
      requires InKernel(n) && n + 5 <= stack.Length
      modifies `esp, stack
      ensures InKernel(n + 5) && At(n + 1) == USER_DATA && At(n + 2) == userEsp && At(n + 3) == flags
      ensures At(n + 4) == code && At(n + 5) == start
    {
      Push(USER_DATA, n);
      Push(userEsp, n + 1);
      Push(flags, n + 2);
      Push(code, n + 3);
      Push(start, n + 4);
    }

    /** The seventeen words that the handler takes as its parameter. */
    method Frame() returns (w: seq<Word>)
      requires InKernel(19)
      ensures |w| == 17 && forall i :: 0 <= i < 17 ==> w[i] == At(19 - i)
    {
      var at := (esp - base) / 4;
      w := stack[at..at + 17];
    }

    /**
     A timer interrupt followed by a switch to the context it saved: the identity on every user
     state of ring 3, exactly when the stack segment and `ds` are as in `SaveThenResume`.
     */
    method SaveAndResume(number: Word, error: Word, dir: DirRef, dirAddress: Word)
      requires Valid() && stack.Length >= 24 && cs % 4 == 3
      modifies this, stack
      ensures UserState() == old(UserState()) <==>
        old(ss) == USER_DATA && (old(ds) % 4 != 0 || old(esp) == base + 4 * (stack.Length - 11))
    {
      ghost var u := UserState();
      ghost var regs := EnterHandler(number, error);
      var frame := Frame();
      var saved := FrameRegs(frame);
      assert saved == regs;
      var c := Context(saved.eip, saved.cpu, saved.eflags, saved.cs, dir);
      ContextSwitch(ContextWords(c, dirAddress), c, dirAddress, 19);
      SaveThenResume(regs, u, base + 4 * (stack.Length - 11), dir);
    }
  }

  lemma LowOfHalf(h: Half)
    ensures LowHalf(h) == h
  {
  }

  lemma SelectorRing(w: Word)
    ensures w % 4 == LowHalf(w) % 4
  {
  }
}
