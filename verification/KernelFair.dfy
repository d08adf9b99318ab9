/** Fairness of the scheduler, and what a process finds when it runs again. */
module KernelFair {
  import opened Words
  import opened AbsFiles
  import opened Paging
  import opened Processes
  import opened KernelSteps
  import opened KernelRuns

  // ----- fairness

  /** How many of the events from `m` on and before `n` are ticks. */
  function Ticks(es: seq<Event>, m: nat, n: nat): nat
    requires m <= n <= |es|
    decreases n - m
  {
    if m == n then 0 else (if es[m].TickEv? then 1 else 0) + Ticks(es, m + 1, n)
  }

  /** From event `m` on nobody kills process `i`. */
  predicate Spares(es: seq<Event>, m: nat, i: nat) {
    forall x :: m <= x < |es| && es[x].DestroyEv? ==> es[x].pid != i + 1
  }

  /** Process `i` waits at index `j` of the queue. */
  predicate WaitsAt(k: Kernel, i: nat, j: nat) {
    j < |k.queue| && k.queue[j] == i
  }

  lemma {:induction false} RemoveIndex(q: seq<nat>, x: nat, j: nat) returns (j': nat)
    requires j < |q| && q[j] != x
    ensures j' <= j && j' < |RemoveFirst(q, x)| && RemoveFirst(q, x)[j'] == q[j]
  {
    if q[0] == x {
      j' := j - 1;
    } else if j == 0 {
      j' := 0;
    } else {
      var r := RemoveIndex(q[1..], x, j - 1);
      j' := r + 1;
    }
  }

  /** A tick runs the head and moves every other waiting process forward by one. */
  lemma TickWaits(k: Kernel, e: Event, i: nat, j: nat)
    requires KernelOk(k) && e.TickEv? && WaitsAt(k, i, j)
    ensures if j == 0 then RunningSlot(Apply(k, e)) == i else WaitsAt(Apply(k, e), i, j - 1)
  {
    TickRotates(k, e.regs);
    assert j > 0 ==> Ring(Tick(k, e.regs))[j] == Ring(k)[j + 1];
  }

  lemma CreateWaits(k: Kernel, e: Event, i: nat, j: nat)
    requires KernelOk(k) && Legal(k, e) && e.CreateEv? && WaitsAt(k, i, j)
    ensures WaitsAt(Apply(k, e), i, j)
  {
    CreateKeeps(k, e);
    RingBounds(k);
  }

  lemma KillWaits(k: Kernel, e: Event, i: nat, j: nat) returns (j': nat)
    requires KernelOk(k) && Legal(k, e) && e.DestroyEv? && e.pid != i + 1 && WaitsAt(k, i, j)
    ensures j' <= j && WaitsAt(Apply(k, e), i, j')
  {
    DestroyRing(k, e.pid);
    j' := RemoveIndex(k.queue, e.pid - 1, j);
  }

  /** A step that is no tick never moves a waiting process backward. */
  lemma OthersWait(k: Kernel, e: Event, i: nat, j: nat) returns (j': nat)
    requires KernelOk(k) && Legal(k, e) && !e.TickEv? && WaitsAt(k, i, j) && (e.DestroyEv? ==> e.pid != i + 1)
    ensures j' <= j && WaitsAt(Apply(k, e), i, j')
  {
    if e.CreateEv? {
      CreateWaits(k, e, i, j);
      j' := j;
    } else {
      j' := KillWaits(k, e, i, j);
    }
  }

  /** At point `n` process `i` has just been dispatched, by the `t`-th tick after `m` at the latest. */
  ghost predicate Dispatched(es: seq<Event>, ks: seq<Kernel>, m: nat, n: nat, i: nat, t: nat) {
    && m < n <= |es| < |ks| && es[n - 1].TickEv? && RunningSlot(ks[n]) == i
    && Ticks(es, m, n) <= t
  }

  /**
   No starvation: a process at queue index `j` is dispatched by the (j+1)-th tick at the latest,
   in every interleaving with creations and with kills of other processes.
   */
  lemma {:induction false} NoStarvation(k: Kernel, es: seq<Event>, ks: seq<Kernel>, m: nat, i: nat, j: nat)
    returns (n: nat)
    requires KernelOk(k) && IsRun(k, es, ks) && m <= |es| && WaitsAt(ks[m], i, j)
    requires Spares(es, m, i) && Ticks(es, m, |es|) > j
    ensures Dispatched(es, ks, m, n, i, j + 1)
    decreases |es| - m
  {
    if es[m].TickEv? {
      TickAt(k, es, ks, m, i, j);
      if j == 0 {
        n := m + 1;
      } else {
        n := NoStarvation(k, es, ks, m + 1, i, j - 1);
      }
    } else {
      var j' := OtherAt(k, es, ks, m, i, j);
      n := NoStarvation(k, es, ks, m + 1, i, j');
    }
  }

  lemma TickAt(k: Kernel, es: seq<Event>, ks: seq<Kernel>, m: nat, i: nat, j: nat)
    requires KernelOk(k) && IsRun(k, es, ks) && m < |es| && es[m].TickEv? && WaitsAt(ks[m], i, j)
    ensures if j == 0 then RunningSlot(ks[m + 1]) == i else WaitsAt(ks[m + 1], i, j - 1)
  {
    RunStep(k, es, ks, m);
    TickWaits(ks[m], es[m], i, j);
  }

  lemma OtherAt(k: Kernel, es: seq<Event>, ks: seq<Kernel>, m: nat, i: nat, j: nat) returns (j': nat)
    requires KernelOk(k) && IsRun(k, es, ks) && m < |es| && !es[m].TickEv? && WaitsAt(ks[m], i, j)
    requires es[m].DestroyEv? ==> es[m].pid != i + 1
    ensures j' <= j && WaitsAt(ks[m + 1], i, j')
  {
    RunStep(k, es, ks, m);
    j' := OthersWait(ks[m], es[m], i, j);
  }

  /** Every process that waits in the queue runs within sixteen ticks. */
  lemma WithinSixteen(k: Kernel, es: seq<Event>, ks: seq<Kernel>, m: nat, i: nat) returns (n: nat)
    requires KernelOk(k) && IsRun(k, es, ks) && m <= |es| && i in ks[m].queue
    requires Spares(es, m, i) && Ticks(es, m, |es|) >= 16
    ensures Dispatched(es, ks, m, n, i, 16)
  {
    RunOk(k, es, ks, m);
    RingBounds(ks[m]);
    var j :| 0 <= j < |ks[m].queue| && ks[m].queue[j] == i;
    n := NoStarvation(k, es, ks, m, i, j);
  }

  function Rotations<T>(s: seq<T>, n: nat): (r: seq<T>)
    requires |s| > 0
    ensures |r| == |s|
  {
    if n == 0 then s else Rotate(Rotations(s, n - 1))
  }

  /** What `n` rotations make of a sequence. */
  lemma {:induction false} RotationsAre<T>(s: seq<T>, n: nat)
    requires 0 < |s| && n <= |s|
    ensures Rotations(s, n) == s[n..] + s[..n]
  {
    if n > 0 {
      RotationsAre(s, n - 1);
      assert s[n - 1..] == [s[n - 1]] + s[n..];
      assert s[..n] == s[..n - 1] + [s[n - 1]];
    }
  }

  ghost predicate OnlyTicks(es: seq<Event>, m: nat, n: nat) {
    forall x :: m <= x < n <= |es| ==> es[x].TickEv?
  }

  /** Every tick rotates the ring by one. */
  lemma {:induction false} TicksRotate(k: Kernel, es: seq<Event>, ks: seq<Kernel>, m: nat, n: nat)
    requires KernelOk(k) && IsRun(k, es, ks) && m + n <= |es| && OnlyTicks(es, m, m + n)
    ensures Ring(ks[m + n]) == Rotations(Ring(ks[m]), n)
  {
    if n > 0 {
      TicksRotate(k, es, ks, m, n - 1);
      RunTick(k, es, ks, m + n - 1);
    }
  }

  lemma RunTick(k: Kernel, es: seq<Event>, ks: seq<Kernel>, n: nat)
    requires KernelOk(k) && IsRun(k, es, ks) && n < |es| && es[n].TickEv?
    ensures Ring(ks[n + 1]) == Rotate(Ring(ks[n]))
  {
    RunStep(k, es, ks, n);
    TickRotates(ks[n], es[n].regs);
  }

  /** Without creations and kills the schedule repeats after as many ticks as the ring has places. */
  lemma SchedulePeriod(k: Kernel, es: seq<Event>, ks: seq<Kernel>, m: nat)
    requires KernelOk(k) && IsRun(k, es, ks) && m <= |es| && m + |ks[m].queue| + 1 <= |es|
    requires OnlyTicks(es, m, m + |ks[m].queue| + 1)
    ensures Ring(ks[m + |ks[m].queue| + 1]) == Ring(ks[m])
  {
    var n := |ks[m].queue| + 1;
    TicksRotate(k, es, ks, m, n);
    RotationsAre(Ring(ks[m]), n);
  }

  // ----- resumption

  /** At event `x` process `i` is not running, and it is not killed. */
  ghost predicate WaitsOver(es: seq<Event>, ks: seq<Kernel>, x: nat, i: nat)
    requires x < |es| < |ks|
  {
    RunningSlot(ks[x]) != i && !(es[x].DestroyEv? && es[x].pid == i + 1)
  }

  /** From `m` until `n` process `i` is neither dispatched nor killed. */
  ghost predicate Waits(es: seq<Event>, ks: seq<Kernel>, m: nat, n: nat, i: nat)
    requires m <= n <= |es| < |ks|
  {
    forall x {:trigger WaitsOver(es, ks, x, i)} :: m <= x < n ==> WaitsOver(es, ks, x, i)
  }

  lemma StepKeepsContext(k: Kernel, e: Event, i: nat)
    requires KernelOk(k) && Legal(k, e) && i < PROCS && k.live[i] && RunningSlot(k) != i
    requires !(e.DestroyEv? && e.pid == i + 1)
    ensures Apply(k, e).live[i] && Apply(k, e).procs[i].context == k.procs[i].context
  {
    match e
    case TickEv(regs) => TickKeepsContext(k, regs, i);
    case CreateEv(_, _, _) => CreateKeepsContext(k, e, i);
    case DestroyEv(pid) => SlotOfPid(k, pid);
  }

  lemma TickKeepsContext(k: Kernel, regs: Regs, i: nat)
    requires KernelOk(k) && i < PROCS && RunningSlot(k) != i
    ensures Apply(k, TickEv(regs)).live[i] == k.live[i]
    ensures Apply(k, TickEv(regs)).procs[i].context == k.procs[i].context
  {
    RingBounds(k);
    TickSlots(k, regs);
  }

  lemma CreateKeepsContext(k: Kernel, e: Event, i: nat)
    requires KernelOk(k) && Legal(k, e) && e.CreateEv? && i < PROCS && k.live[i]
    ensures Apply(k, e).live[i] && Apply(k, e).procs[i].context == k.procs[i].context
  {
    if Accepted(k, e) { Created(k, e); } else { CreateKeeps(k, e); }
  }

  lemma {:induction false} WaitingKeepsContext(k: Kernel, es: seq<Event>, ks: seq<Kernel>, m: nat, n: nat, i: nat)
    requires KernelOk(k) && IsRun(k, es, ks) && m <= n <= |es|
    requires i < PROCS && ks[m].live[i] && Waits(es, ks, m, n, i)
    ensures ks[n].live[i] && ks[n].procs[i].context == ks[m].procs[i].context
    decreases n - m
  {
    if m < n {
      WaitingKeepsContext(k, es, ks, m, n - 1, i);
      RunStep(k, es, ks, n - 1);
      assert WaitsOver(es, ks, n - 1, i);
      StepKeepsContext(ks[n - 1], es[n - 1], i);
    }
  }

  /** If process `i` is the next to run, a tick hands out context `c` and activates its directory. */
  ghost predicate HandsOut(k: Kernel, i: nat, c: Context)
    requires KernelOk(k) && i < PROCS
  {
    RunningSlot(k) != i && k.queue != [] && k.queue[0] == i ==>
      forall regs: Regs :: HandsOutAt(Apply(k, TickEv(regs)), i, c)
  }

  ghost predicate HandsOutAt(k: Kernel, i: nat, c: Context)
    requires i < PROCS
  {
    RunningSlot(k) == i && k.procs[i].context == c && k.cr3 == c.pageDir
  }

  /** A tick hands out the stored context of the head of the queue. */
  lemma HeadIsHandedOut(k: Kernel, i: nat)
    requires KernelOk(k) && i < PROCS
    ensures HandsOut(k, i, k.procs[i].context)
  {
    if RunningSlot(k) != i && k.queue != [] && k.queue[0] == i {
      forall regs: Regs
        ensures HandsOutAt(Apply(k, TickEv(regs)), i, k.procs[i].context)
      {
        TickRotates(k, regs);
        TickSlots(k, regs);
      }
    }
  }

  /** Whatever context a waiting process has, it keeps it and is handed it. */
  lemma WaitsThenRuns(k: Kernel, es: seq<Event>, ks: seq<Kernel>, m: nat, n: nat, i: nat)
    requires KernelOk(k) && IsRun(k, es, ks) && m <= n <= |es|
    requires i < PROCS && ks[m].live[i] && Waits(es, ks, m, n, i)
    ensures KernelOk(ks[n]) && ks[n].live[i] && ks[n].procs[i].context == ks[m].procs[i].context
    ensures HandsOut(ks[n], i, ks[m].procs[i].context)
  {
    WaitingKeepsContext(k, es, ks, m, n, i);
    RunOk(k, es, ks, n);
    HeadIsHandedOut(ks[n], i);
  }

  lemma PreemptedAt(k: Kernel, es: seq<Event>, ks: seq<Kernel>, m: nat)
    requires KernelOk(k) && IsRun(k, es, ks) && m < |es| && es[m].TickEv?
    requires Isolated(ks[m])
    ensures var i, regs := RunningSlot(ks[m]), es[m].regs;
      && ks[m + 1].live[i]
      && ks[m + 1].procs[i].context == Context(regs.eip, regs.cpu, regs.eflags, regs.cs, DirOf(ks[m], i))
  {
    RunStep(k, es, ks, m);
    TickSaves(ks[m], es[m].regs);
  }

  lemma CreatedAt(k: Kernel, es: seq<Event>, ks: seq<Kernel>, m: nat)
    requires KernelOk(k) && IsRun(k, es, ks) && m < |es|
    requires Accepted(ks[m], es[m]) && es[m].req.parent in es[m].files && AbsRead(es[m].files, es[m].req) == 0
    ensures var i := FirstClear(ks[m].live, 0);
      && i < PROCS && ks[m + 1].live[i]
      && ks[m + 1].procs[i].context == FirstContext(es[m].entry, UserDir(FirstClear(ks[m].pages.used, 0)))
  {
    RunStep(k, es, ks, m);
    NewContext(ks[m], es[m]);
  }

  /** What a tick saves of the process it preempts. */
  lemma TickSaves(k: Kernel, regs: Regs)
    requires KernelOk(k) && Isolated(k)
    ensures var i, k' := RunningSlot(k), Apply(k, TickEv(regs));
      && i < PROCS && k'.live[i]
      && k'.procs[i].context == Context(regs.eip, regs.cpu, regs.eflags, regs.cs, DirOf(k, i))
  {
    RingBounds(k);
    TickSlots(k, regs);
  }

  /**
   A process preempted at event `m` with registers `regs` still has exactly those registers, with
   its own directory, however long it then waits; the tick that dispatches it hands out exactly
   these and activates its directory.
   */
  lemma ResumesExactly(k: Kernel, es: seq<Event>, ks: seq<Kernel>, m: nat, n: nat)
    requires KernelOk(k) && IsRun(k, es, ks) && m < n <= |es| && es[m].TickEv?
    requires Isolated(ks[m]) && Waits(es, ks, m + 1, n, RunningSlot(ks[m]))
    ensures KernelOk(ks[n])
    ensures var i, regs := RunningSlot(ks[m]), es[m].regs;
      var c := Context(regs.eip, regs.cpu, regs.eflags, regs.cs, DirOf(ks[m], i));
      ks[n].live[i] && ks[n].procs[i].context == c && HandsOut(ks[n], i, c)
  {
    PreemptedAt(k, es, ks, m);
    WaitsThenRuns(k, es, ks, m + 1, n, RunningSlot(ks[m]));
  }

  /** The context a new process starts from: cleared registers, its stack and its entry. */
  function FirstContext(entry: Word, dir: DirRef): Context {
    Context(entry, Cpu(0, 0, 0, 0x3F_FFFC, 0, 0, 0, 0, 0x23, 0x23, 0x23, 0x23), 0x202, 0x1B, dir)
  }

  /** A process created at event `m` has that context until it is dispatched, and is then handed exactly it. */
  lemma StartsExactly(k: Kernel, es: seq<Event>, ks: seq<Kernel>, m: nat, n: nat)
    requires KernelOk(k) && IsRun(k, es, ks) && m < n <= |es|
    requires Accepted(ks[m], es[m]) && es[m].req.parent in es[m].files && AbsRead(es[m].files, es[m].req) == 0
    requires Waits(es, ks, m + 1, n, FirstClear(ks[m].live, 0))
    ensures KernelOk(ks[n]) && FirstClear(ks[m].live, 0) < PROCS
    ensures var i := FirstClear(ks[m].live, 0);
      var c := FirstContext(es[m].entry, UserDir(FirstClear(ks[m].pages.used, 0)));
      ks[n].live[i] && ks[n].procs[i].context == c && HandsOut(ks[n], i, c)
  {
    CreatedAt(k, es, ks, m);
    WaitsThenRuns(k, es, ks, m + 1, n, FirstClear(ks[m].live, 0));
  }

  lemma NewContext(k: Kernel, e: Event)
    requires KernelOk(k) && Accepted(k, e) && Legal(k, e) && AbsRead(e.files, e.req) == 0
    ensures var i, k1 := FirstClear(k.live, 0), Apply(k, e);
      i < PROCS && k1.live[i] && k1.procs[i].context == FirstContext(e.entry, UserDir(FirstClear(k.pages.used, 0)))
  {
    CreateKeeps(k, e);
    var i := FirstClear(k.live, 0);
    assert k.procs[i] == ZERO_PCB;
    StartedContext(k, i, e.entry);
  }

  lemma StartedContext(k: Kernel, i: nat, entry: Word)
    requires i == FirstClear(k.live, 0) < PROCS && FirstClear(k.pages.used, 0) < DIRS && k.procs[i] == ZERO_PCB
    ensures var k1 := Start(Claim(k, entry), i, entry, k.cr3);
      k1.live[i] && k1.procs[i].context == FirstContext(entry, UserDir(FirstClear(k.pages.used, 0)))
  {
  }
}
