/** Whole runs of the kernel from boot on: what every legal run keeps. */
module KernelRuns {
  import opened Words
  import opened FatLayout
  import opened FatOps
  import opened AbsFiles
  import opened Paging
  import opened Processes
  import opened KernelSteps

  // ----- boot

  function BootPages(): PageState {
    RawPages.Pages(seq<bool>(FRAMES, _ => false)[0 := true], FRAMES - 1, seq<bool>(DIRS, _ => false),
                   seq<Directory>(DIRS, _ => BlankDirectory()))
  }

  function BootKernel(): Kernel {
    RawKernel(seq(PROCS, _ => ZERO_PCB), seq<bool>(PROCS, _ => false), 0, [], BootPages(), KernelDir)
  }

  /** The shell: a program of up to a megabyte, read from the root and placed at address 0. */
  const SHELL_REQUEST: Request :=
    Request(RawKey.Key([0x73, 0x68, 0x65, 0x6C, 0x6C, 0, 0, 0], NO_EXT), ROOT, 0x10_0000)

  /** `scheduler_init`: the first process is marked running and queued a second time. */
  function InitScheduler(k: Kernel): Kernel
    requires |k.queue| > 0 && k.queue[0] < PROCS
  {
    var n := k.queue[0];
    k.(procs := k.procs[n := k.procs[n].(state := Running)], queue := Enqueue(k.queue[1..], n),
       cr3 := k.procs[n].context.pageDir)
  }

  lemma {:induction false} CountAllClear(flags: seq<bool>)
    requires forall i :: 0 <= i < |flags| ==> !flags[i]
    ensures CountClear(flags) == |flags|
  {
    if flags != [] { CountAllClear(flags[..|flags| - 1]); }
  }

  lemma BootPagesOk()
    ensures PagesOk(BootPages()) && NoLeak(BootPages())
  {
    var none: seq<bool> := seq(FRAMES, _ => false);
    CountAllClear(none);
    CountFlip(none, 0, true);
    forall d: nat, j: nat | d < DIRS && j < ENTRIES
      ensures EntryOk(BootPages(), d, j)
    {
    }
  }

  /** What the creation of the shell leaves: one process, ready and queued once. */
  ghost predicate OneProcess(k: Kernel) {
    && k.queue == [0] && k.active == 1 && k.live == BootKernel().live[0 := true] && PagesOk(k.pages) && LowOnly(k)
    && k.procs[0].pid == 1 && k.procs[0].context.pageDir == UserDir(0) && k.pages.used[0]
    && k.pages.dirs[0][KERNEL_ENTRY] == KERNEL_PDE
    && forall i :: 0 <= i < PROCS ==> k.procs[i].state == Ready && (i > 0 ==> k.procs[i] == ZERO_PCB)
  }

  /** Nothing refuses the shell at boot. */
  lemma BootAccepted(k: Kernel, size: Word)
    requires k == BootKernel() && size == 0x10_0000
    ensures TableOk(k) && CreateRefusal(k, 0, size) == 0
    ensures FirstClear(k.live, 0) == 0 && FirstClear(k.pages.used, 0) == 0
  {
    CountAllClear(k.live);
  }

  lemma BootClaim(k: Kernel)
    requires k == BootKernel()
    ensures FirstClear(k.live, 0) == 0 && FirstClear(k.pages.used, 0) == 0
    ensures var pages := Claim(k, 0).pages;
      && PagesOk(pages) && NoLeak(pages) && pages.used[0] && pages.dirs[0][KERNEL_ENTRY] == KERNEL_PDE
      && forall d, j :: 0 <= d < DIRS && 0 < j < ENTRIES ==> !pages.dirs[d][j].UserMapped()
  {
    BootPagesOk();
    var (pages, d) := NewDirectory(k.pages);
    NewDirectoryKeeps(k.pages);
    assert PageIndex(0) == 0;
    AllocateKeeps(pages, d, 0);
  }

  /** The shell is created exactly if it can be read; otherwise the queue the scheduler starts from is empty. */
  lemma BootExact(k: Kernel, req: Request, files: AbsFs)
    requires k == BootKernel() && ROOT in files
    requires req == Request(RawKey.Key([0x73, 0x68, 0x65, 0x6C, 0x6C, 0, 0, 0], [0, 0, 0]), 2, 0x10_0000)
    ensures TableOk(k) && CreateRefusal(k, 0, req.size) == 0
    ensures FirstClear(k.live, 0) == 0 && FirstClear(k.pages.used, 0) == 0
    ensures OneProcess(Create(k, 0, req, files).0) <==> AbsRead(files, req) == 0
    ensures Create(k, 0, req, files).0.queue == [] <==> AbsRead(files, req) != 0
  {
    BootAccepted(k, req.size);
    BootClaim(k);
  }

  /** `scheduler_init` and the first switch. */
  function Booted(k1: Kernel): (k: Kernel)
    requires k1.queue == [0] && forall i :: 0 <= i < PROCS ==> k1.procs[i].state == Ready
    ensures k.procs == k1.procs[0 := k1.procs[0].(state := Running)] && RunningSlot(k) == 0
    ensures k.queue == [0] && k.cr3 == k1.procs[0].context.pageDir
    ensures k.live == k1.live && k.active == k1.active && k.pages == k1.pages
  {
    RunningIs(InitScheduler(k1), 0);
    var k := Switch(InitScheduler(k1));
    RunningIs(k, 0);
    k
  }

  lemma BootTable(k1: Kernel, k: Kernel)
    requires k1.active == 1 && k1.live == BootKernel().live[0 := true] && k1.procs[0].pid == 1
    requires forall i :: 0 < i < PROCS ==> k1.procs[i] == ZERO_PCB
    requires k.procs == k1.procs[0 := k1.procs[0].(state := Running)] && k.live == k1.live && k.active == k1.active
    ensures TableOk(k)
  {
    CountAllClear(BootKernel().live);
    CountFlip(BootKernel().live, 0, true);
  }

  lemma BootRing(k: Kernel)
    requires Ring(k) == [0, 0] && k.live[0] && k.procs[0].state == Running
    requires forall i :: 0 < i < PROCS ==> k.procs[i].state == Ready
    ensures RingOk(k)
  {
    assert multiset(Ring(k)) == multiset{0, 0};
  }

  lemma BootDirs(k1: Kernel, k: Kernel)
    requires k1.live == BootKernel().live[0 := true] && k1.procs[0].context.pageDir == UserDir(0) && k1.pages.used[0]
    requires k1.pages.dirs[0][KERNEL_ENTRY] == KERNEL_PDE
    requires k.procs == k1.procs[0 := k1.procs[0].(state := Running)] && k.live == k1.live && k.pages == k1.pages
    requires k.cr3 == UserDir(0) && Ring(k) == [0, 0]
    ensures DirsOk(k) && RunningSlot(k) == 0 && Isolated(k) && MapsKernel(k)
  {
    assert Ring(k)[0] == 0;
    assert 0 in [0, 0];
  }

  /** Boot ends with the shell running, queued once behind itself, and every invariant in force. */
  lemma BootOk(k1: Kernel)
    requires OneProcess(k1)
    ensures var k := Booted(k1); KernelOk(k) && Isolated(k) && MapsKernel(k) && LowOnly(k) && Ring(k) == [0, 0]
  {
    var k := Booted(k1);
    assert Ring(k) == [0, 0];
    BootTable(k1, k);
    BootRing(k);
    BootDirs(k1, k);
  }

  // ----- events

  /** A creation reads its program from the file system as it is at that moment. */
  datatype Event = TickEv(regs: Regs) | CreateEv(entry: Word, req: Request, files: AbsFs) | DestroyEv(pid: Word)

  predicate Accepted(k: Kernel, e: Event) {
    e.CreateEv? && CreateRefusal(k, e.entry, e.req.size) == 0
  }

  /** A new process needs a directory and a program in some directory of the disk; only supported kills are made. */
  predicate Legal(k: Kernel, e: Event) {
    && (Accepted(k, e) ==> FirstClear(k.pages.used, 0) < DIRS && e.req.parent in e.files)
    && (e.DestroyEv? ==> Killable(k, e.pid))
  }

  /** A creation whose program cannot be read. */
  predicate FailedRead(k: Kernel, e: Event)
    requires Legal(k, e)
  {
    Accepted(k, e) && AbsRead(e.files, e.req) != 0
  }

  predicate PlacedLow(k: Kernel, e: Event) {
    Accepted(k, e) ==> e.entry < FRAME_SIZE
  }

  /** A kill takes no directory away that somebody else still uses. */
  predicate KillsOwn(k: Kernel, e: Event) {
    e.DestroyEv? ==> OwnDirectory(k, e.pid)
  }

  ghost function Apply(k: Kernel, e: Event): (k': Kernel)
    requires KernelOk(k) && Legal(k, e)
    ensures KernelOk(k')
  {
    match e
    case TickEv(regs) => TickKeeps(k, regs); Tick(k, regs)
    case CreateEv(entry, req, files) => CreateKeeps(k, e); Create(k, entry, req, files).0
    case DestroyEv(pid) => DestroyKeeps(k, pid); Destroy(k, pid)
  }

  lemma CreateDefined(k: Kernel, entry: Word, size: Word)
    requires KernelOk(k) && CreateRefusal(k, entry, size) == 0
    ensures k.active < PROCS && FirstClear(k.live, 0) < PROCS && entry < KERNEL_BASE
  {
    SlotIsFree(k);
  }

  lemma CreateKeeps(k: Kernel, e: Event)
    requires KernelOk(k) && e.CreateEv? && Legal(k, e)
    ensures Accepted(k, e) ==> k.active < PROCS && FirstClear(k.live, 0) < PROCS && e.entry < KERNEL_BASE
    ensures KernelOk(Create(k, e.entry, e.req, e.files).0)
  {
    if Accepted(k, e) {
      CreateDefined(k, e.entry, e.req.size);
      if AbsRead(e.files, e.req) == 0 { StartKeeps(k, e.entry); } else { FailedCreateKeeps(k, e.entry); }
    }
  }

  /** What an accepted creation does to slots and pages, whether the program can be read or not. */
  lemma Created(k: Kernel, e: Event)
    requires KernelOk(k) && Accepted(k, e) && Legal(k, e)
    ensures k.active < PROCS && FirstClear(k.live, 0) < PROCS && FirstClear(k.pages.used, 0) < DIRS
    ensures e.entry < KERNEL_BASE
    ensures var p, k' := FirstClear(k.live, 0), Apply(k, e);
      && k'.pages == Claim(k, e.entry).pages && k'.live == k.live[p := true]
      && DirOf(k', p) == UserDir(FirstClear(k.pages.used, 0))
      && (forall i :: 0 <= i < PROCS && i != p ==> k'.procs[i] == k.procs[i])
  {
    CreateKeeps(k, e);
    StartedSlots(k, e.entry);
  }

  lemma StartedSlots(k: Kernel, entry: Word)
    requires FirstClear(k.live, 0) < PROCS && FirstClear(k.pages.used, 0) < DIRS
    ensures var p, k1 := FirstClear(k.live, 0), Claim(k, entry);
      var k' := Start(k1, p, entry, k.cr3);
      && k1.live == k.live[p := true] && k'.live == k1.live && k'.pages == k1.pages
      && DirOf(k1, p) == UserDir(FirstClear(k.pages.used, 0)) == DirOf(k', p)
      && (forall i :: 0 <= i < PROCS && i != p ==> k1.procs[i] == k.procs[i] && k'.procs[i] == k.procs[i])
  {
  }

  /** One step keeps the kernel's invariants, and each stronger one under the condition it depends on. */
  lemma StepKeeps(k: Kernel, e: Event)
    requires KernelOk(k) && Legal(k, e)
    ensures KernelOk(Apply(k, e))
    ensures Isolated(k) && !FailedRead(k, e) ==> Isolated(Apply(k, e))
    ensures MapsKernel(k) && KillsOwn(k, e) ==> MapsKernel(Apply(k, e))
    ensures LowOnly(k) && PlacedLow(k, e) ==> LowOnly(Apply(k, e))
    ensures Isolated(k) ==> KillsOwn(k, e)
  {
    match e
    case TickEv(regs) =>
      TickKeeps(k, regs);
      if MapsKernel(k) { TickMaps(k, regs); }
    case DestroyEv(pid) =>
      DestroyKeeps(k, pid);
      if MapsKernel(k) { DestroyMaps(k, pid); }
      if Isolated(k) { IsolatedOwns(k, pid); }
    case CreateEv(_, _, _) =>
      CreateStepKeeps(k, e);
  }

  lemma CreateStepKeeps(k: Kernel, e: Event)
    requires KernelOk(k) && Legal(k, e) && e.CreateEv?
    ensures Isolated(k) && !FailedRead(k, e) ==> Isolated(Apply(k, e))
    ensures MapsKernel(k) ==> MapsKernel(Apply(k, e))
    ensures LowOnly(k) && PlacedLow(k, e) ==> LowOnly(Apply(k, e))
  {
    CreateKeeps(k, e);
    if Accepted(k, e) {
      if AbsRead(e.files, e.req) == 0 {
        StartKeeps(k, e.entry);
        if MapsKernel(k) { StartMaps(k, e.entry); }
      } else {
        FailedCreateKeeps(k, e.entry);
        if MapsKernel(k) { ClaimMaps(k, e.entry); }
      }
    }
  }

  /** What the kernel promises besides as long as every program can be read. */
  ghost predicate Separate(k: Kernel) {
    KernelOk(k) && Isolated(k) && MapsKernel(k)
  }

  // ----- runs

  /** As long as the kernel is consistent, the event is legal and leads from `k` to `k'`. */
  ghost predicate Follows(k: Kernel, e: Event, k': Kernel) {
    KernelOk(k) ==> Legal(k, e) && k' == Apply(k, e)
  }

  ghost predicate FollowsAt(es: seq<Event>, ks: seq<Kernel>, i: nat)
    requires i < |es| && i + 1 < |ks|
  {
    Follows(ks[i], es[i], ks[i + 1])
  }

  /** `ks` are the states of a legal run: from `k`, between the events, and after the last. */
  ghost predicate IsRun(k: Kernel, es: seq<Event>, ks: seq<Kernel>) {
    && |ks| == |es| + 1 && ks[0] == k
    && forall i {:trigger FollowsAt(es, ks, i)} :: 0 <= i < |es| ==> FollowsAt(es, ks, i)
  }

  /** The invariants hold at every point of every legal run. */
  lemma {:induction false} RunOk(k: Kernel, es: seq<Event>, ks: seq<Kernel>, n: nat)
    requires KernelOk(k) && IsRun(k, es, ks) && n <= |es|
    ensures KernelOk(ks[n])
  {
    if n > 0 {
      RunOk(k, es, ks, n - 1);
      assert FollowsAt(es, ks, n - 1);
    }
  }

  /** One step of a run, spelled out. */
  lemma RunStep(k: Kernel, es: seq<Event>, ks: seq<Kernel>, n: nat)
    requires KernelOk(k) && IsRun(k, es, ks) && n < |es|
    ensures KernelOk(ks[n]) && Legal(ks[n], es[n]) && ks[n + 1] == Apply(ks[n], es[n])
  {
    RunOk(k, es, ks, n);
    assert FollowsAt(es, ks, n);
  }

  /** A legal run goes on with any legal event. */
  lemma RunExtends(k: Kernel, es: seq<Event>, ks: seq<Kernel>, e: Event)
    requires KernelOk(k) && IsRun(k, es, ks) && Legal(ks[|es|], e)
    ensures KernelOk(ks[|es|]) && IsRun(k, es + [e], ks + [Apply(ks[|es|], e)])
  {
    RunOk(k, es, ks, |es|);
    var es', ks' := es + [e], ks + [Apply(ks[|es|], e)];
    forall i | 0 <= i < |es'|
      ensures FollowsAt(es', ks', i)
    {
      if i < |es| { assert FollowsAt(es, ks, i); }
    }
  }

  /** No creation of the run fails to read its program. */
  ghost predicate AllRead(es: seq<Event>, ks: seq<Kernel>)
    requires |ks| == |es| + 1
  {
    forall i {:trigger es[i]} :: 0 <= i < |es| && Legal(ks[i], es[i]) ==> !FailedRead(ks[i], es[i])
  }

  ghost predicate AllLow(es: seq<Event>, ks: seq<Kernel>)
    requires |ks| == |es| + 1
  {
    forall i {:trigger es[i]} :: 0 <= i < |es| ==> PlacedLow(ks[i], es[i])
  }

  ghost predicate AllOwn(es: seq<Event>, ks: seq<Kernel>)
    requires |ks| == |es| + 1
  {
    forall i {:trigger es[i]} :: 0 <= i < |es| ==> KillsOwn(ks[i], es[i])
  }

  /** At every point of every legal run each invariant holds under its condition on the run. */
  lemma {:induction false} RunKeeps(k: Kernel, es: seq<Event>, ks: seq<Kernel>, n: nat)
    requires KernelOk(k) && IsRun(k, es, ks) && n <= |es|
    ensures KernelOk(ks[n])
    ensures Isolated(k) && AllRead(es, ks) ==> Isolated(ks[n])
    ensures MapsKernel(k) && AllOwn(es, ks) ==> MapsKernel(ks[n])
    ensures MapsKernel(k) && Isolated(k) && AllRead(es, ks) ==> MapsKernel(ks[n])
    ensures LowOnly(k) && AllLow(es, ks) ==> LowOnly(ks[n])
  {
    if n > 0 {
      RunKeeps(k, es, ks, n - 1);
      RunStep(k, es, ks, n - 1);
      StepKeeps(ks[n - 1], es[n - 1]);
    }
  }

  // ----- isolation

  /** Live processes never have a user frame in common. */
  lemma FramesDisjoint(k: Kernel, i: nat, j: nat, x: nat, y: nat, f: nat)
    requires KernelOk(k) && Isolated(k) && i < PROCS && j < PROCS && k.live[i] && k.live[j] && i != j
    requires MapsTo(k.pages, DirOf(k, i).index, x, f)
    ensures !MapsTo(k.pages, DirOf(k, j).index, y, f)
  {
    assert DirOf(k, i).index != DirOf(k, j).index by {
      if i < j {
        assert k.procs[i].context.pageDir != k.procs[j].context.pageDir;
      } else {
        assert k.procs[j].context.pageDir != k.procs[i].context.pageDir;
      }
    }
  }

  /** With programs below 4 MiB a frame other than the kernel's is marked exactly when it is mapped. */
  lemma MarkedIffMapped(k: Kernel, f: nat)
    requires KernelOk(k) && LowOnly(k) && 1 <= f < FRAMES
    ensures k.pages.frames[f] <==> exists d, j :: MapsTo(k.pages, d, j, f)
  {
    if d, j :| MapsTo(k.pages, d, j, f) {
      assert EntryOk(k.pages, d, j);
    }
  }

  // ----- the supply of directories

  /** How many of the first `n` events are creations that get as far as taking a directory. */
  ghost function Creations(es: seq<Event>, ks: seq<Kernel>, n: nat): nat
    requires n <= |es| < |ks|
  {
    if n == 0 then 0 else Creations(es, ks, n - 1) + if Accepted(ks[n - 1], es[n - 1]) then 1 else 0
  }

  lemma DestroyUses(k: Kernel, pid: Word)
    requires DirsOk(k) && PagesOk(k.pages) && Killable(k, pid) && SlotOf(k, pid) == pid - 1 && k.active > 0
    ensures Destroy(k, pid).pages.used == k.pages.used
  {
    assert k.pages.used[DirOf(k, pid - 1).index];
    FreedAtZero(k.pages, DirOf(k, pid - 1).index);
  }

  /** A step takes one directory for an accepted creation, and no step gives one back. */
  lemma StepUses(k: Kernel, e: Event)
    requires KernelOk(k) && Legal(k, e)
    ensures CountClear(Apply(k, e).pages.used) + (if Accepted(k, e) then 1 else 0) == CountClear(k.pages.used)
  {
    match e
    case TickEv(regs) =>
      TickKeeps(k, regs);
      TickSlots(k, regs);
    case DestroyEv(pid) =>
      DestroyKeeps(k, pid);
      DestroyUses(k, pid);
    case CreateEv(entry, req, files) =>
      CreateKeeps(k, e);
      if Accepted(k, e) {
        ClaimPages(k, entry);
        CountFlip(k.pages.used, FirstClear(k.pages.used, 0), true);
      }
  }

  /** So a run makes exactly as many accepted creations as it uses up directories. */
  lemma {:induction false} CreationsBounded(k: Kernel, es: seq<Event>, ks: seq<Kernel>, n: nat)
    requires KernelOk(k) && IsRun(k, es, ks) && n <= |es|
    ensures CountClear(ks[n].pages.used) + Creations(es, ks, n) == CountClear(k.pages.used)
  {
    if n > 0 {
      CreationsBounded(k, es, ks, n - 1);
      RunUses(k, es, ks, n - 1);
    }
  }

  lemma RunUses(k: Kernel, es: seq<Event>, ks: seq<Kernel>, n: nat)
    requires KernelOk(k) && IsRun(k, es, ks) && n < |es|
    ensures CountClear(ks[n + 1].pages.used) + (if Accepted(ks[n], es[n]) then 1 else 0) == CountClear(ks[n].pages.used)
  {
    RunStep(k, es, ks, n);
    StepUses(ks[n], es[n]);
  }

  // ----- everything from boot on

  /** The kernel after boot from a disk whose root holds a shell that can be read. */
  ghost function BootState(files: AbsFs): (k: Kernel)
    requires ROOT in files && AbsRead(files, SHELL_REQUEST) == 0
    ensures KernelOk(k) && Isolated(k) && MapsKernel(k) && LowOnly(k) && Ring(k) == [0, 0]
    ensures CountClear(k.pages.used) == DIRS - 1
  {
    BootExact(BootKernel(), SHELL_REQUEST, files);
    var k1 := Create(BootKernel(), 0, SHELL_REQUEST, files).0;
    BootUses(BootKernel());
    BootOk(k1);
    Booted(k1)
  }

  lemma BootUses(k: Kernel)
    requires k == BootKernel()
    ensures FirstClear(k.live, 0) == 0 && FirstClear(k.pages.used, 0) == 0
    ensures CountClear(Claim(k, 0).pages.used) == DIRS - 1
  {
    CountAllClear(k.pages.used);
    CountFlip(k.pages.used, 0, true);
    var (pages, d) := NewDirectory(k.pages);
    BootPagesOk();
    NewDirectoryKeeps(k.pages);
    AllocateKeeps(pages, d, 0);
  }

  /** No frame is mapped by two live processes. */
  ghost predicate FramesApart(k: Kernel) {
    forall i, j, x, y, f {:trigger ProcessMaps(k, i, x, f), ProcessMaps(k, j, y, f)} ::
      i != j && ProcessMaps(k, i, x, f) ==> !ProcessMaps(k, j, y, f)
  }

  ghost predicate ProcessMaps(k: Kernel, i: nat, x: nat, f: nat) {
    i < PROCS && k.live[i] && DirOf(k, i).UserDir? && MapsTo(k.pages, DirOf(k, i).index, x, f)
  }

  /** A frame other than the kernel's is marked exactly when some directory maps it. */
  ghost predicate FramesAccounted(k: Kernel) {
    forall f :: 1 <= f < FRAMES ==> (k.pages.frames[f] <==> exists d, j :: MapsTo(k.pages, d, j, f))
  }

  /**
   At every point of every legal run from boot the kernel's invariants hold, and at most 31
   creations were made.  If no program fails to load, every process keeps a directory of its own
   that maps the kernel, and no frame is shared.  If every program lies below 4 MiB, the frames
   marked are those mapped.
   */
  lemma BootedRun(files: AbsFs, es: seq<Event>, ks: seq<Kernel>, n: nat)
    requires ROOT in files && AbsRead(files, SHELL_REQUEST) == 0
    requires IsRun(BootState(files), es, ks) && n <= |es|
    ensures KernelOk(ks[n]) && Creations(es, ks, n) <= 31
    ensures AllRead(es, ks) ==> Isolated(ks[n]) && MapsKernel(ks[n]) && FramesApart(ks[n])
    ensures AllLow(es, ks) ==> FramesAccounted(ks[n])
  {
    RunKeeps(BootState(files), es, ks, n);
    CreationsBounded(BootState(files), es, ks, n);
    if AllRead(es, ks) { AllApart(ks[n]); }
    if AllLow(es, ks) { AllAccounted(ks[n]); }
  }

  lemma AllApart(k: Kernel)
    requires KernelOk(k) && Isolated(k)
    ensures FramesApart(k)
  {
    forall i: nat, j: nat, x: nat, y: nat, f: nat | i != j && ProcessMaps(k, i, x, f)
      ensures !ProcessMaps(k, j, y, f)
    {
      if ProcessMaps(k, j, y, f) { FramesDisjoint(k, i, j, x, y, f); }
    }
  }

  lemma AllAccounted(k: Kernel)
    requires KernelOk(k) && LowOnly(k)
    ensures FramesAccounted(k)
  {
    forall f | 1 <= f < FRAMES
      ensures k.pages.frames[f] <==> exists d, j :: MapsTo(k.pages, d, j, f)
    {
      MarkedIffMapped(k, f);
    }
  }
}
