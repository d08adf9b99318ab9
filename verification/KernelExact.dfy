/** Exactly when the guarantees of creating and killing hold, and what happens when they fail. */
module KernelExact {
  import opened Words
  import opened FatOps
  import opened AbsFiles
  import opened Paging
  import opened Processes
  import opened KernelSteps
  import opened KernelRuns

  // ----- creating

  /**
   What decides a creation is whether it is refused and whether the file system can read the
   program: its code is 4, the active directory is switched for good, and isolation is lost exactly
   when it is accepted and the program cannot be read.
   */
  lemma CreateExact(k: Kernel, e: Event)
    requires KernelOk(k) && e.CreateEv? && Legal(k, e)
    ensures Accepted(k, e) ==> FirstClear(k.live, 0) < PROCS
    ensures var (k', code) := Create(k, e.entry, e.req, e.files);
      var loads := !Accepted(k, e) || AbsRead(e.files, e.req) == 0;
      && (code != 4 <==> loads)
      && (k'.cr3 == k.cr3 <==> loads)
      && KernelOk(k') && (Isolated(k) ==> (Isolated(k') <==> loads))
  {
    CreateKeeps(k, e);
    if Accepted(k, e) {
      NewDirectoryIsNew(k);
      ClaimTable(k, e.entry);
      if AbsRead(e.files, e.req) == 0 { StartKeeps(k, e.entry); }
    }
  }

  /** The directory taken for a new process is nobody's. */
  lemma NewDirectoryIsNew(k: Kernel)
    requires KernelOk(k) && FirstClear(k.pages.used, 0) < DIRS
    ensures k.cr3 != UserDir(FirstClear(k.pages.used, 0))
    ensures forall i :: 0 <= i < PROCS && k.live[i] ==> DirOf(k, i) != UserDir(FirstClear(k.pages.used, 0))
  {
  }

  /** After a failed read the next tick files the running process under the failed one's directory. */
  lemma FailedReadMergesDirectories(k: Kernel, e: Event, regs: Regs)
    requires KernelOk(k) && Accepted(k, e) && Legal(k, e) && FailedRead(k, e)
    ensures var k1, p, r := Apply(k, e), FirstClear(k.live, 0), RunningSlot(k);
      && p < PROCS && r < PROCS && r != p && k1.live[p] && k1.live[r]
      && DirOf(Apply(k1, TickEv(regs)), r) == DirOf(k1, p)
  {
    CreateKeeps(k, e);
    ClaimTable(k, e.entry);
    var k1 := Apply(k, e);
    RingBounds(k1);
    TickSlots(k1, regs);
  }

  /**
   Killing a process that failed to load is a supported kill, and it keeps the process table
   consistent; but if no tick came between, it clears the directory that is still active, the
   kernel's own mapping included.
   */
  lemma FailedThenKilled(k: Kernel, e: Event)
    requires KernelOk(k) && Accepted(k, e) && Legal(k, e) && FailedRead(k, e)
    ensures FirstClear(k.live, 0) < PROCS && Killable(Apply(k, e), FirstClear(k.live, 0) + 1)
    ensures !OwnDirectory(Apply(k, e), FirstClear(k.live, 0) + 1)
    ensures var d, k2 := FirstClear(k.pages.used, 0), FailedKill(k, e);
      && k2 == Apply(Apply(k, e), DestroyEv(FirstClear(k.live, 0) + 1))
      && d < DIRS && k2.cr3 == UserDir(d) && k2.pages.dirs[d] == BlankDirectory() && !MapsKernel(k2)
  {
    FailedIsKillable(k, e);
    KilledWhileActive(Apply(k, e), FirstClear(k.live, 0) + 1);
  }

  /** Killing a process whose directory is the active one leaves no kernel mapped there. */
  lemma KilledWhileActive(k: Kernel, pid: Word)
    requires KernelOk(k) && Killable(k, pid) && k.cr3 == DirOf(k, pid - 1)
    ensures var k' := Apply(k, DestroyEv(pid));
      && k.cr3.UserDir? && k.cr3.index < DIRS && k'.cr3 == k.cr3 && k'.pages.dirs[k.cr3.index] == BlankDirectory()
      && !MapsKernel(k')
  {
    DestroyKeeps(k, pid);
    DestroyedDirectories(k, pid);
    assert BlankDirectory()[KERNEL_ENTRY] == ZERO_PDE;
  }

  /** The kernel after a creation that fails to load and the kill of what it left. */
  ghost function FailedKill(k: Kernel, e: Event): Kernel
    requires KernelOk(k) && Accepted(k, e) && Legal(k, e) && FailedRead(k, e)
  {
    FailedIsKillable(k, e);
    Apply(Apply(k, e), DestroyEv(FirstClear(k.live, 0) + 1))
  }

  lemma FailedIsKillable(k: Kernel, e: Event)
    requires KernelOk(k) && Accepted(k, e) && Legal(k, e) && FailedRead(k, e)
    ensures var k1, p := Apply(k, e), FirstClear(k.live, 0);
      && p < PROCS && Killable(k1, p + 1) && !OwnDirectory(k1, p + 1)
      && k1.cr3 == UserDir(FirstClear(k.pages.used, 0)) == DirOf(k1, p)
  {
    CreateKeeps(k, e);
    ClaimTable(k, e.entry);
    FirstIsLive(k);
  }

  lemma FirstIsLive(k: Kernel)
    requires KernelOk(k)
    ensures k.live[0]
  {
    assert 0 in Ring(k) by { assert Copies(Ring(k), 0) == 2; }
  }

  // ----- killing

  /**
   Killing a live process keeps the tables consistent exactly when it is neither running nor the
   first; it also keeps the kernel mapped everywhere exactly when, besides, no one else uses its
   directory.
   */
  lemma DestroyExact(k: Kernel, pid: Word)
    requires KernelOk(k) && 1 <= pid <= PROCS && k.live[pid - 1]
    ensures SlotOf(k, pid) == pid - 1 && k.active > 0
    ensures KernelOk(Destroy(k, pid)) <==> pid != 1 && pid - 1 != RunningSlot(k)
    ensures MapsKernel(k) ==>
      (KernelOk(Destroy(k, pid)) && MapsKernel(Destroy(k, pid)) <==>
         pid != 1 && pid - 1 != RunningSlot(k) && OwnDirectory(k, pid))
  {
    SlotOfPid(k, pid);
    RingBounds(k);
    if Killable(k, pid) {
      DestroyKeeps(k, pid);
    } else if pid - 1 == RunningSlot(k) {
      DestroyRunning(k, pid);
    } else {
      DestroyFirst(k);
    }
    if MapsKernel(k) { DestroyMaps(k, pid); }
  }

  lemma DestroyRunning(k: Kernel, pid: Word)
    requires KernelOk(k) && 1 <= pid <= PROCS && pid - 1 == RunningSlot(k) && SlotOf(k, pid) == pid - 1
    requires k.live[pid - 1] && k.active > 0
    ensures RunningSlot(Destroy(k, pid)) == PROCS
  {
    var k' := Destroy(k, pid);
    assert forall i :: 0 <= i < PROCS ==> k'.procs[i].state != Running;
  }

  /** The first process is queued twice, and a kill removes only one of the two. */
  lemma DestroyFirst(k: Kernel)
    requires KernelOk(k) && RunningSlot(k) != 0 && k.live[0] && SlotOf(k, 1) == 0 && k.active > 0
    ensures 0 in Destroy(k, 1).queue && !Destroy(k, 1).live[0] && !RingOk(Destroy(k, 1))
  {
    ConsCopies(k.queue, RunningSlot(k), 0);
    RemoveCopies(k.queue, 0, 0);
    var k' := Destroy(k, 1);
    assert Copies(k'.queue, 0) == 1;
    assert 0 in Ring(k') by { ConsCopies(k'.queue, RunningSlot(k'), 0); }
  }

  lemma {:induction false} RemoveLast(q: seq<nat>, p: nat)
    requires p !in q
    ensures RemoveFirst(q + [p], p) == q
  {
    if q != [] {
      assert (q + [p])[1..] == q[1..] + [p];
      RemoveLast(q[1..], p);
    }
  }

  /** What a process that holds a page at `entry` leaves when only the page at address 0 is freed. */
  lemma PagesRestored(k: Kernel, entry: Word)
    requires KernelOk(k) && FirstClear(k.live, 0) < PROCS && FirstClear(k.pages.used, 0) < DIRS
    requires entry < KERNEL_BASE
    ensures var d := FirstClear(k.pages.used, 0);
      Free(Claim(k, entry).pages, d, 0).0.frames == k.pages.frames <==> entry < FRAME_SIZE || k.pages.free == 0
  {
    var (pages, d) := NewDirectory(k.pages);
    NewDirectoryKeeps(k.pages);
    EntryBelowKernel(entry);
    AllocateKeeps(pages, d, entry);
    assert PageIndex(0) == 0;
    var pg, f := Claim(k, entry).pages, FirstClear(k.pages.frames, 0);
    FreeKeeps(pg, d, 0);
    if k.pages.free > 0 {
      if entry < FRAME_SIZE {
        assert pg.dirs[d][0].lower == f;
        assert pg.frames[f := false] == k.pages.frames;
      } else {
        assert !pg.dirs[d][0].present;
        assert pg.frames[f] && !k.pages.frames[f];
      }
    }
  }

  lemma CreatedIsKillable(k: Kernel, e: Event)
    requires KernelOk(k) && Accepted(k, e) && Legal(k, e) && !FailedRead(k, e)
    ensures var p, k1 := FirstClear(k.live, 0), Apply(k, e);
      && p < PROCS && Killable(k1, p + 1) && SlotOf(k1, p + 1) == p && k1.active > 0
      && p !in k.queue && k1.queue == k.queue + [p]
  {
    CreateKeeps(k, e);
    StartKeeps(k, e.entry);
    ClaimTable(k, e.entry);
    var p, k1 := FirstClear(k.live, 0), Apply(k, e);
    FirstIsLive(k);
    RingBounds(k);
    SlotOfPid(k1, p + 1);
    assert forall x :: x in k.queue ==> x in Ring(k);
  }

  /**
   Creating a process and killing it restores the process table, the count, the queue and the
   active directory; it restores the frames if and only if the program was placed below 4 MiB (or
   got no frame), because a kill frees only the page at address 0.
   */
  lemma CreateThenDestroy(k: Kernel, e: Event)
    requires KernelOk(k) && Accepted(k, e) && Legal(k, e) && !FailedRead(k, e)
    ensures var p, k1 := FirstClear(k.live, 0), Apply(k, e);
      && p < PROCS && Killable(k1, p + 1)
      && var k2 := Apply(k1, DestroyEv(p + 1));
      && k2.procs == k.procs && k2.live == k.live && k2.active == k.active && k2.queue == k.queue && k2.cr3 == k.cr3
      && (k2.pages.frames == k.pages.frames <==> e.entry < FRAME_SIZE || k.pages.free == 0)
  {
    CreatedIsKillable(k, e);
    LoadedIs(k, e);
    assert k.procs[FirstClear(k.live, 0)] == ZERO_PCB;
    UndoneTable(k, e.entry);
    PagesRestored(k, e.entry);
  }

  lemma LoadedIs(k: Kernel, e: Event)
    requires KernelOk(k) && Accepted(k, e) && Legal(k, e) && !FailedRead(k, e)
    ensures k.active < PROCS && FirstClear(k.live, 0) < PROCS && FirstClear(k.pages.used, 0) < DIRS
    ensures e.entry < KERNEL_BASE
    ensures Apply(k, e) == Start(Claim(k, e.entry), FirstClear(k.live, 0), e.entry, k.cr3)
  {
    CreateKeeps(k, e);
  }

  /** The tables after a process was started and killed. */
  lemma UndoneTable(k: Kernel, entry: Word)
    requires FirstClear(k.live, 0) < PROCS && FirstClear(k.pages.used, 0) < DIRS
    requires k.procs[FirstClear(k.live, 0)] == ZERO_PCB
    requires var p := FirstClear(k.live, 0);
      var k1 := Start(Claim(k, entry), p, entry, k.cr3);
      SlotOf(k1, p + 1) == p && k1.queue == k.queue + [p] && p !in k.queue
    ensures var p := FirstClear(k.live, 0);
      var k1 := Start(Claim(k, entry), p, entry, k.cr3);
      var k2 := Destroy(k1, p + 1);
      && k2.procs == k.procs && k2.live == k.live && k2.active == k.active && k2.queue == k.queue && k2.cr3 == k.cr3
      && k2.pages.frames == Free(Claim(k, entry).pages, FirstClear(k.pages.used, 0), 0).0.frames
  {
    RemoveLast(k.queue, FirstClear(k.live, 0));
    SlotUndone(k, entry);
  }

  lemma SlotUndone(k: Kernel, entry: Word)
    requires FirstClear(k.live, 0) < PROCS && FirstClear(k.pages.used, 0) < DIRS
    ensures var p := FirstClear(k.live, 0);
      var k1 := Start(Claim(k, entry), p, entry, k.cr3);
      k1.procs[p := k.procs[p]] == k.procs && k1.live[p := false] == k.live && k1.active - 1 == k.active
  {
  }

  // ----- counting frames

  /** The frames that are counted for a program of `size` bytes. */
  function FramesCounted(size: Word): nat {
    if size <= 0xFF80_0000 then CeilDiv(size, 0x40_0000) + 1 else if size <= 0xFFC0_0000 then 0 else 1
  }

  /** The program's frames and one more, up to 8 MiB below 2^32; above, the 32-bit sums wrap around. */
  lemma NeededFramesExact(size: Word)
    ensures NeededFrames(size) == FramesCounted(size)
    ensures FramesCounted(size) == CeilDiv(size, 0x40_0000) + 1 <==> size <= 0xFF80_0000
  {
  }

  /** What each refusal means: no slot is free, the entry lies in the kernel's part, or frames are short. */
  lemma RefusalsExact(k: Kernel, entry: Word, size: Word)
    requires KernelOk(k)
    ensures CreateRefusal(k, entry, size) ==
      if forall i :: 0 <= i < 16 ==> k.live[i] then 1
      else if entry >= 0xC000_0000 then 2
      else if FramesCounted(size) > CountClear(k.pages.frames) || FramesCounted(size) > 8 then 3
      else 0
  {
    NeededFramesExact(size);
    EntryInKernel(entry);
    var f := FirstClear(k.live, 0);
    if f < PROCS {
      CountPositive(k.live, f);
    } else {
      CountNone(k.live);
    }
  }

  lemma EntryInKernel(entry: Word)
    ensures PageIndex(entry) >= 0x300 <==> entry >= KERNEL_BASE
    ensures entry >= 0xC000_0000 <==> entry >= KERNEL_BASE
  {
  }

  /**
   An accepted creation gets a frame if and only if one is free, and none can be free only for the
   sizes whose count wraps around to zero.
   */
  lemma FrameIsFound(k: Kernel, e: Event)
    requires KernelOk(k) && Accepted(k, e) && Legal(k, e)
    ensures Allocate(NewDirectory(k.pages).0, NewDirectory(k.pages).1, e.entry).1 <==> k.pages.free > 0
    ensures k.pages.free == 0 ==> 0xFF80_0000 < e.req.size <= 0xFFC0_0000
  {
    NeededFramesExact(e.req.size);
    NewDirectoryKeeps(k.pages);
    FreeMeansFound(NewDirectory(k.pages).0);
  }

  /** With no frame free such a size is accepted, and the new process's page is mapped to nothing. */
  lemma NoFrameIsFound(k: Kernel, entry: Word, files: AbsFs, req: Request)
    requires KernelOk(k) && k.active < PROCS && entry < KERNEL_BASE && k.pages.free == 0
    requires req.size == 0xFFC0_0000 && FirstClear(k.pages.used, 0) < DIRS && req.parent in files
    ensures Accepted(k, CreateEv(entry, req, files)) && Legal(k, CreateEv(entry, req, files))
    ensures var pg := Apply(k, CreateEv(entry, req, files)).pages;
      pg.frames == k.pages.frames && !pg.dirs[FirstClear(k.pages.used, 0)][PageIndex(entry)].present
  {
    NeededFramesExact(req.size);
    CreateKeeps(k, CreateEv(entry, req, files));
    NewDirectoryKeeps(k.pages);
    EntryBelowKernel(entry);
  }

  // ----- the kill call

  /** Whether some slot holds `pid`, free slots holding 0; the call then answers 0 and otherwise 1. */
  function KillCode(k: Kernel, pid: Word): int {
    if SlotOf(k, pid) < PROCS then 0 else 1
  }

  /** A live process has number `n`, or `n` is 0 and a slot is free. */
  ghost predicate HasPid(k: Kernel, n: int) {
    if n == 0 then exists i :: 0 <= i < 16 && !k.live[i]
    else exists i :: 0 <= i < 16 && k.live[i] && k.procs[i].pid == n
  }

  /** What the call answers in terms of the processes: 0 for a number that is there, and 1 otherwise. */
  lemma KillAnswers(k: Kernel, pid: Word)
    requires TableOk(k)
    ensures KillCode(k, pid) == if HasPid(k, pid) then 0 else 1
  {
    KillCodeExact(k, pid);
    if pid == 0 {
      var f := FirstClear(k.live, 0);
      if f < PROCS { CountPositive(k.live, f); } else { CountNone(k.live); }
    } else if pid <= PROCS && k.live[pid - 1] {
      assert k.procs[pid - 1].pid == pid;
    }
  }

  /** The call reports success exactly for live processes, and for pid 0 while a slot is free. */
  lemma KillCodeExact(k: Kernel, pid: Word)
    requires TableOk(k)
    ensures KillCode(k, pid) == 0 <==>
      (if pid == 0 then k.active < PROCS else pid <= PROCS && k.live[pid - 1])
  {
    if pid == 0 {
      var f := FirstClear(k.live, 0);
      if f < PROCS { CountPositive(k.live, f); } else { CountNone(k.live); }
    } else if pid <= PROCS && k.live[pid - 1] {
      SlotOfPid(k, pid);
    }
  }
}
