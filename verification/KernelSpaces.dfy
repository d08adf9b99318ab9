/** What a process finds in memory: the pages of its directory, from its creation to its end. */
module KernelSpaces {
  import opened Words
  import opened FatLayout
  import opened AbsFiles
  import opened Paging
  import opened Processes
  import opened KernelSteps
  import opened KernelRuns
  import opened KernelFair

  /** Process `i` is live in both states, with the same directory and the same pages. */
  ghost predicate SameSpace(k: Kernel, k': Kernel, i: nat) {
    && i < PROCS && k.live[i] && k'.live[i] && DirOf(k', i) == DirOf(k, i)
    && DirOf(k, i).UserDir? && DirOf(k, i).index < DIRS
    && k'.pages.dirs[DirOf(k, i).index] == k.pages.dirs[DirOf(k, i).index]
  }

  lemma HasSpace(k: Kernel, i: nat)
    requires KernelOk(k) && i < PROCS && k.live[i]
    ensures SameSpace(k, k, i)
  {
  }

  lemma SpaceStays(k: Kernel, k1: Kernel, k2: Kernel, i: nat)
    requires SameSpace(k, k1, i) && SameSpace(k1, k2, i)
    ensures SameSpace(k, k2, i)
  {
  }

  // ----- one step

  lemma TickKeepsSpace(k: Kernel, regs: Regs, i: nat)
    requires KernelOk(k) && Isolated(k) && i < PROCS && k.live[i]
    ensures SameSpace(k, Apply(k, TickEv(regs)), i)
  {
    RingBounds(k);
    TickSlots(k, regs);
  }

  /** A claim writes only to the directory it takes. */
  lemma ClaimedPages(k: Kernel, entry: Word)
    requires KernelOk(k) && entry < KERNEL_BASE
    requires FirstClear(k.live, 0) < PROCS && FirstClear(k.pages.used, 0) < DIRS
    ensures var d, pg := FirstClear(k.pages.used, 0), Claim(k, entry).pages;
      && (forall x :: 0 <= x < DIRS && x != d ==> pg.dirs[x] == k.pages.dirs[x])
      && (forall j :: 0 <= j < ENTRIES ==> (pg.dirs[d][j].UserMapped() <==> j == PageIndex(entry) && k.pages.free > 0))
  {
    var (pages, d) := NewDirectory(k.pages);
    NewDirectoryKeeps(k.pages);
    EntryBelowKernel(entry);
    AllocateKeeps(pages, d, entry);
    forall x | 0 <= x < DIRS && x != d
      ensures Claim(k, entry).pages.dirs[x] == k.pages.dirs[x]
    {
      assert Claim(k, entry).pages.dirs[x] == pages.dirs[x];
    }
  }

  lemma CreateKeepsSpace(k: Kernel, e: Event, i: nat)
    requires KernelOk(k) && Legal(k, e) && e.CreateEv? && i < PROCS && k.live[i]
    ensures SameSpace(k, Apply(k, e), i)
  {
    if Accepted(k, e) {
      Created(k, e);
      ClaimedPages(k, e.entry);
      assert DirOf(k, i).UserDir? && k.pages.used[DirOf(k, i).index];
    } else {
      RefusedIs(k, e);
    }
  }

  lemma RefusedIs(k: Kernel, e: Event)
    requires KernelOk(k) && Legal(k, e) && e.CreateEv? && !Accepted(k, e)
    ensures Apply(k, e) == k
  {
  }

  lemma KillKeepsSpace(k: Kernel, pid: Word, i: nat)
    requires KernelOk(k) && Isolated(k) && Killable(k, pid) && i < PROCS && k.live[i] && i != pid - 1
    ensures SameSpace(k, Apply(k, DestroyEv(pid)), i)
  {
    DestroyKeeps(k, pid);
    DestroyedDirectories(k, pid);
    IsolatedOwns(k, pid);
  }

  /** No step but its own end changes the pages of a process. */
  lemma StepKeepsSpace(k: Kernel, e: Event, i: nat)
    requires KernelOk(k) && Isolated(k) && Legal(k, e) && i < PROCS && k.live[i]
    requires !(e.DestroyEv? && e.pid == i + 1)
    ensures SameSpace(k, Apply(k, e), i)
  {
    match e
    case TickEv(regs) => TickKeepsSpace(k, regs, i);
    case CreateEv(_, _, _) => CreateKeepsSpace(k, e, i);
    case DestroyEv(pid) => KillKeepsSpace(k, pid, i);
  }

  // ----- runs

  ghost predicate NotKilledAt(es: seq<Event>, x: nat, i: nat)
    requires x < |es|
  {
    !(es[x].DestroyEv? && es[x].pid == i + 1)
  }

  /** From `m` until `n` nobody kills process `i`, whatever else happens to it. */
  ghost predicate Survives(es: seq<Event>, m: nat, n: nat, i: nat)
    requires m <= n <= |es|
  {
    forall x {:trigger NotKilledAt(es, x, i)} :: m <= x < n ==> NotKilledAt(es, x, i)
  }

  /**
   As long as every program can be read, a process that is not killed keeps its directory and
   every entry of it, however often it and the others run, start and end.
   */
  lemma {:induction false} KeepsAddressSpace(k: Kernel, es: seq<Event>, ks: seq<Kernel>, m: nat, n: nat, i: nat)
    requires KernelOk(k) && Isolated(k) && IsRun(k, es, ks) && AllRead(es, ks) && m <= n <= |es|
    requires i < PROCS && ks[m].live[i] && Survives(es, m, n, i)
    ensures SameSpace(ks[m], ks[n], i)
    decreases n - m
  {
    if m < n {
      KeepsAddressSpace(k, es, ks, m, n - 1, i);
      assert NotKilledAt(es, n - 1, i);
      RunKeepsSpace(k, es, ks, n - 1, i);
      SpaceStays(ks[m], ks[n - 1], ks[n], i);
    } else {
      RunKeeps(k, es, ks, n);
      HasSpace(ks[n], i);
    }
  }

  lemma RunKeepsSpace(k: Kernel, es: seq<Event>, ks: seq<Kernel>, n: nat, i: nat)
    requires KernelOk(k) && Isolated(k) && IsRun(k, es, ks) && AllRead(es, ks) && n < |es|
    requires i < PROCS && ks[n].live[i] && NotKilledAt(es, n, i)
    ensures SameSpace(ks[n], ks[n + 1], i)
  {
    RunKeeps(k, es, ks, n);
    RunStep(k, es, ks, n);
    StepKeepsSpace(ks[n], es[n], i);
  }

  lemma WaitsSurvives(es: seq<Event>, ks: seq<Kernel>, m: nat, n: nat, i: nat)
    requires m < n <= |es| < |ks| && es[m].TickEv? && Waits(es, ks, m + 1, n, i)
    ensures Survives(es, m, n, i)
  {
    forall x | m <= x < n
      ensures NotKilledAt(es, x, i)
    {
      if m < x { assert WaitsOver(es, ks, x, i); }
    }
  }

  /**
   A process preempted at event `m` finds, when it is dispatched, not only the registers it had
   but also every page of its directory as it left it.
   */
  lemma ResumesInPlace(k: Kernel, es: seq<Event>, ks: seq<Kernel>, m: nat, n: nat)
    requires KernelOk(k) && Isolated(k) && IsRun(k, es, ks) && AllRead(es, ks)
    requires m < n <= |es| && es[m].TickEv? && Waits(es, ks, m + 1, n, RunningSlot(ks[m]))
    ensures KernelOk(ks[n])
    ensures var i, regs := RunningSlot(ks[m]), es[m].regs;
      && SameSpace(ks[m], ks[n], i)
      && HandsOut(ks[n], i, Context(regs.eip, regs.cpu, regs.eflags, regs.cs, DirOf(ks[n], i)))
  {
    RunKeeps(k, es, ks, m);
    ResumesExactly(k, es, ks, m, n);
    WaitsSurvives(es, ks, m, n, RunningSlot(ks[m]));
    RunningIsLive(ks[m]);
    KeepsAddressSpace(k, es, ks, m, n, RunningSlot(ks[m]));
  }

  lemma RunningIsLive(k: Kernel)
    requires KernelOk(k)
    ensures RunningSlot(k) < PROCS && k.live[RunningSlot(k)]
  {
    assert Ring(k)[0] == RunningSlot(k) && Ring(k)[0] in Ring(k);
  }

  // ----- a new process

  const STACK_TOP: Word := 0x3F_FFFC

  /**
   A new process has exactly one page, that of its entry, if a frame was free; so its stack is
   mapped if and only if the program lies in the first 4 MiB.
   */
  lemma NewSpace(k: Kernel, e: Event)
    requires KernelOk(k) && Accepted(k, e) && Legal(k, e)
    ensures var d, pg := FirstClear(k.pages.used, 0), Apply(k, e).pages;
      && (forall j :: 0 <= j < ENTRIES ==>
            (pg.dirs[d][j].UserMapped() <==> j == PageIndex(e.entry) && k.pages.free > 0))
      && (pg.dirs[d][PageIndex(STACK_TOP)].UserMapped() <==> e.entry < 0x40_0000 && k.pages.free > 0)
  {
    Created(k, e);
    ClaimedPages(k, e.entry);
    EntryBelowKernel(e.entry);
    StackPage();
  }

  lemma StackPage()
    ensures PageIndex(STACK_TOP) == 0
  {
  }

  /** The bytes that loading a program writes: all its clusters. */
  function LoadedBytes(e: Event): nat
    requires e.CreateEv? && e.req.parent in e.files && AbsRead(e.files, e.req) == 0
  {
    CLUSTER_SIZE * CeilDiv(|e.files[e.req.parent][e.req.key].bytes|, CLUSTER_SIZE)
  }

  /** Every address from `from` to before `to` lies in a page that the directory maps for the user. */
  ghost predicate Covers(dir: Directory, from: nat, to: nat) {
    forall a: Word :: from <= a < to ==> dir[PageIndex(a)].UserMapped()
  }

  /**
   Loading writes only to the new process's own memory if and only if a frame was free and the
   program's clusters do not cross into another page of 4 MiB.
   */
  lemma LoadCovered(k: Kernel, e: Event)
    requires KernelOk(k) && Accepted(k, e) && Legal(k, e) && AbsRead(e.files, e.req) == 0
    ensures Covers(Apply(k, e).pages.dirs[FirstClear(k.pages.used, 0)], e.entry, e.entry + LoadedBytes(e))
      <==> LoadedBytes(e) == 0 || (k.pages.free > 0 && e.entry % 0x40_0000 + LoadedBytes(e) <= 0x40_0000)
  {
    NewSpace(k, e);
    Created(k, e);
    var dir := Apply(k, e).pages.dirs[FirstClear(k.pages.used, 0)];
    OnePageCovers(dir, e.entry, LoadedBytes(e), k.pages.free > 0);
  }

  lemma OnePageCovers(dir: Directory, entry: Word, n: nat, mapped: bool)
    requires entry < KERNEL_BASE
    requires forall j :: 0 <= j < ENTRIES ==> (dir[j].UserMapped() <==> j == PageIndex(entry) && mapped)
    ensures Covers(dir, entry, entry + n) <==> n == 0 || (mapped && entry % FRAME_SIZE + n <= FRAME_SIZE)
  {
    if n > 0 {
      if mapped && entry % FRAME_SIZE + n <= FRAME_SIZE {
        forall a: Word | entry <= a < entry + n
          ensures dir[PageIndex(a)].UserMapped()
        {
          SamePage(entry, a);
        }
      } else if mapped {
        var b := NextPage(entry);
        assert entry <= b < entry + n && !dir[PageIndex(b)].UserMapped();
      } else {
        assert !dir[PageIndex(entry)].UserMapped();
      }
    }
  }

  lemma SamePage(entry: Word, a: Word)
    requires entry <= a && a - entry + entry % FRAME_SIZE < FRAME_SIZE
    ensures PageIndex(a) == PageIndex(entry)
  {
    assert a / FRAME_SIZE == entry / FRAME_SIZE;
  }

  lemma NextPage(entry: Word) returns (b: Word)
    requires entry < KERNEL_BASE
    ensures b == entry - entry % FRAME_SIZE + FRAME_SIZE && PageIndex(b) != PageIndex(entry)
  {
    b := (entry / FRAME_SIZE + 1) * FRAME_SIZE;
    assert b / FRAME_SIZE == entry / FRAME_SIZE + 1;
  }

  /** A program created in the first 4 MiB with a frame free has its stack mapped as long as it lives. */
  lemma StackStays(k: Kernel, es: seq<Event>, ks: seq<Kernel>, m: nat, n: nat)
    requires KernelOk(k) && Isolated(k) && IsRun(k, es, ks) && AllRead(es, ks) && m < n <= |es|
    requires Accepted(ks[m], es[m]) && es[m].entry < 0x40_0000 && ks[m].pages.free > 0
    requires Survives(es, m + 1, n, FirstClear(ks[m].live, 0))
    ensures FirstClear(ks[m].live, 0) < PROCS
    ensures var i := FirstClear(ks[m].live, 0);
      && ks[n].live[i] && DirOf(ks[n], i) == UserDir(FirstClear(ks[m].pages.used, 0))
      && DirOf(ks[n], i).index < DIRS
      && ks[n].pages.dirs[DirOf(ks[n], i).index][PageIndex(STACK_TOP)].UserMapped()
  {
    RunStep(k, es, ks, m);
    Created(ks[m], es[m]);
    NewSpace(ks[m], es[m]);
    KeepsAddressSpace(k, es, ks, m + 1, n, FirstClear(ks[m].live, 0));
  }
}
