/** Every step of the kernel keeps its invariants, whatever its result code. */
module KernelSteps {
  import opened Words
  import opened Paging
  import opened Processes

  // ----- ticks

  /** A tick rotates the ring by one: the head of the queue runs and the running process goes last. */
  lemma TickRotates(k: Kernel, regs: Regs)
    requires KernelOk(k)
    ensures 0 < |k.queue| && k.queue[0] < PROCS
    ensures RunningSlot(Tick(k, regs)) == k.queue[0]
    ensures Ring(Tick(k, regs)) == Rotate(Ring(k))
  {
    RingBounds(k);
    SavedRunning(k, regs);
    var n, k' := k.queue[0], Tick(k, regs);
    RunningIs(k', n);
    assert |k.queue[1..]| < QUEUE_CAPACITY;
    assert Ring(k)[1..] == k.queue;
    assert [n] + k.queue[1..] == k.queue;
  }

  lemma RotateCopies(q: seq<nat>, x: nat)
    requires |q| > 0
    ensures Copies(Rotate(q), x) == Copies(q, x)
    ensures x in Rotate(q) <==> x in q
  {
    assert q == [q[0]] + q[1..];
    assert multiset(Rotate(q)) == multiset(q);
    assert x in q <==> x in multiset(q);
  }

  /** What a tick does slot by slot. */
  lemma TickSlots(k: Kernel, regs: Regs)
    requires KernelOk(k) && 0 < |k.queue| && k.queue[0] < PROCS
    ensures var r, n, k' := RunningSlot(k), k.queue[0], Tick(k, regs);
      && r < PROCS && k.live[r] && k.live[n] && k'.live == k.live && k'.active == k.active && k'.pages == k.pages
      && (forall i :: 0 <= i < PROCS ==> k'.procs[i].pid == k.procs[i].pid)
      && (forall i :: 0 <= i < PROCS ==> (k'.procs[i].state == Running <==> i == n))
      && (forall i :: 0 <= i < PROCS && i != r ==> k'.procs[i].context == k.procs[i].context)
      && (forall i :: 0 <= i < PROCS && i != r && i != n ==> k'.procs[i] == k.procs[i])
      && k'.procs[r].context == Context(regs.eip, regs.cpu, regs.eflags, regs.cs, k.cr3)
      && k'.cr3 == k'.procs[n].context.pageDir
  {
    SavedRunning(k, regs);
    assert Ring(k)[0] == RunningSlot(k) && Ring(k)[0] in Ring(k);
    assert Ring(k)[1] == k.queue[0] && Ring(k)[1] in Ring(k);
  }

  lemma TickRing(k: Kernel, regs: Regs)
    requires KernelOk(k) && 0 < |k.queue| && k.queue[0] < PROCS
    ensures RingOk(Tick(k, regs))
  {
    TickRotates(k, regs);
    TickSlots(k, regs);
    var k' := Tick(k, regs);
    forall x: nat
      ensures Copies(Ring(k'), x) == Copies(Ring(k), x) && (x in Ring(k') <==> x in Ring(k))
    {
      RotateCopies(Ring(k), x);
    }
  }

  lemma TickIsolated(k: Kernel, regs: Regs)
    requires KernelOk(k) && Isolated(k) && 0 < |k.queue| && k.queue[0] < PROCS
    ensures RunningSlot(Tick(k, regs)) < PROCS && Isolated(Tick(k, regs))
  {
    TickRotates(k, regs);
    TickSlots(k, regs);
    forall x: nat
      ensures x in Ring(Tick(k, regs)) <==> x in Ring(k)
    {
      RotateCopies(Ring(k), x);
    }
  }

  lemma TickTable(k: Kernel, regs: Regs)
    requires KernelOk(k) && 0 < |k.queue| && k.queue[0] < PROCS
    ensures TableOk(Tick(k, regs)) && DirsOk(Tick(k, regs))
  {
    TickSlots(k, regs);
    var k' := Tick(k, regs);
    forall i | 0 <= i < PROCS && !k.live[i]
      ensures k'.procs[i] == ZERO_PCB
    {
      assert i != k.queue[0] && i != RunningSlot(k);
    }
  }

  lemma TickKeeps(k: Kernel, regs: Regs)
    requires KernelOk(k)
    ensures 0 < |k.queue| && k.queue[0] < PROCS
    ensures KernelOk(Tick(k, regs))
    ensures Isolated(k) ==> Isolated(Tick(k, regs))
    ensures LowOnly(k) ==> LowOnly(Tick(k, regs))
  {
    RingBounds(k);
    TickPages(k, regs);
    TickTable(k, regs);
    TickRing(k, regs);
    if Isolated(k) { TickIsolated(k, regs); }
  }

  lemma TickPages(k: Kernel, regs: Regs)
    requires RunningSlot(k) < PROCS && 0 < |k.queue| && k.queue[0] < PROCS
    ensures Tick(k, regs).pages == k.pages
  {
    SavedRunning(k, regs);
  }

  // ----- creating

  lemma SlotIsFree(k: Kernel)
    requires TableOk(k) && k.active < PROCS
    ensures FirstClear(k.live, 0) < PROCS
  {
    if FirstClear(k.live, 0) == PROCS { CountNone(k.live); }
  }

  /** The directory and the frame that a new process is given. */
  lemma ClaimPages(k: Kernel, entry: Word)
    requires KernelOk(k) && FirstClear(k.live, 0) < PROCS && FirstClear(k.pages.used, 0) < DIRS && entry < KERNEL_BASE
    ensures var d, pages := FirstClear(k.pages.used, 0), Claim(k, entry).pages;
      && PagesOk(pages) && !k.pages.used[d] && pages.used == k.pages.used[d := true]
      && (LowOnly(k) && entry < FRAME_SIZE ==> LowOnly(Claim(k, entry)))
      && (k.pages.free > 0 ==> pages.dirs[d][PageIndex(entry)].UserMapped())
  {
    var (pages, d) := NewDirectory(k.pages);
    NewDirectoryKeeps(k.pages);
    EntryBelowKernel(entry);
    AllocateKeeps(pages, d, entry);
  }

  lemma EntryBelowKernel(entry: Word)
    requires entry < KERNEL_BASE
    ensures PageIndex(entry) < KERNEL_ENTRY && (entry < FRAME_SIZE <==> PageIndex(entry) == 0)
  {
  }

  lemma ClaimTable(k: Kernel, entry: Word)
    requires KernelOk(k) && FirstClear(k.live, 0) < PROCS && FirstClear(k.pages.used, 0) < DIRS && entry < KERNEL_BASE
    ensures var p, k' := FirstClear(k.live, 0), Claim(k, entry);
      && TableOk(k') && DirsOk(k') && p !in Ring(k) && p != RunningSlot(k)
      && RunningSlot(k') == RunningSlot(k) && Ring(k') == Ring(k) && RingOk(k')
  {
    var p, k' := FirstClear(k.live, 0), Claim(k, entry);
    CountFlip(k.live, p, true);
    ClaimPages(k, entry);
    assert RunningSlot(k) in Ring(k) by { assert Ring(k)[0] == RunningSlot(k); }
    RunningIs(k', RunningSlot(k));
  }

  /** A program that fails to load leaves its slot, directory and frame taken, all consistent. */
  lemma FailedCreateKeeps(k: Kernel, entry: Word)
    requires KernelOk(k) && FirstClear(k.live, 0) < PROCS && FirstClear(k.pages.used, 0) < DIRS && entry < KERNEL_BASE
    ensures KernelOk(Claim(k, entry))
    ensures LowOnly(k) && entry < FRAME_SIZE ==> LowOnly(Claim(k, entry))
  {
    ClaimTable(k, entry);
    ClaimPages(k, entry);
  }

  lemma SnocCopies(q: seq<nat>, p: nat, x: nat)
    ensures Copies(q + [p], x) == Copies(q, x) + if p == x then 1 else 0
    ensures x in q + [p] <==> x in q || x == p
  {
    assert multiset(q + [p]) == multiset(q) + multiset{p};
  }

  /** A process that starts joins the ring last, and the running one keeps its directory. */
  lemma StartKeeps(k: Kernel, entry: Word)
    requires KernelOk(k) && k.active < PROCS && FirstClear(k.live, 0) < PROCS
    requires FirstClear(k.pages.used, 0) < DIRS && entry < KERNEL_BASE
    ensures var p, k' := FirstClear(k.live, 0), Start(Claim(k, entry), FirstClear(k.live, 0), entry, k.cr3);
      && KernelOk(k') && RunningSlot(k') == RunningSlot(k) && Ring(k') == Ring(k) + [p]
      && (Isolated(k) ==> Isolated(k'))
      && (LowOnly(k) && entry < FRAME_SIZE ==> LowOnly(k'))
  {
    StartRing(k, entry);
    StartTable(k, entry);
    if Isolated(k) { StartIsolated(k, entry); }
  }

  lemma StartTable(k: Kernel, entry: Word)
    requires KernelOk(k) && FirstClear(k.live, 0) < PROCS && FirstClear(k.pages.used, 0) < DIRS && entry < KERNEL_BASE
    ensures var k' := Start(Claim(k, entry), FirstClear(k.live, 0), entry, k.cr3);
      && TableOk(k') && DirsOk(k') && PagesOk(k'.pages)
      && (LowOnly(k) && entry < FRAME_SIZE ==> LowOnly(k'))
  {
    ClaimTable(k, entry);
    ClaimPages(k, entry);
  }

  lemma StartRing(k: Kernel, entry: Word)
    requires KernelOk(k) && k.active < PROCS && FirstClear(k.live, 0) < PROCS
    requires FirstClear(k.pages.used, 0) < DIRS && entry < KERNEL_BASE
    ensures var p, k' := FirstClear(k.live, 0), Start(Claim(k, entry), FirstClear(k.live, 0), entry, k.cr3);
      && RingOk(k') && RunningSlot(k') == RunningSlot(k) && Ring(k') == Ring(k) + [p]
  {
    var p := FirstClear(k.live, 0);
    var k' := Start(Claim(k, entry), p, entry, k.cr3);
    RingBounds(k);
    ClaimTable(k, entry);
    RunningIs(k', RunningSlot(k));
    assert Ring(k') == Ring(k) + [p];
    assert Copies(Ring(k), p) == 0 && Copies(Ring(k), 0) == 2;
    forall x: nat
      ensures Copies(Ring(k'), x) == Copies(Ring(k), x) + if p == x then 1 else 0
      ensures x in Ring(k') <==> x in Ring(k) || x == p
    {
      SnocCopies(Ring(k), p, x);
    }
  }

  lemma StartIsolated(k: Kernel, entry: Word)
    requires KernelOk(k) && Isolated(k) && k.active < PROCS && FirstClear(k.live, 0) < PROCS
    requires FirstClear(k.pages.used, 0) < DIRS && entry < KERNEL_BASE
    requires var p, k' := FirstClear(k.live, 0), Start(Claim(k, entry), FirstClear(k.live, 0), entry, k.cr3);
      RunningSlot(k') == RunningSlot(k) && Ring(k') == Ring(k) + [p]
    ensures Isolated(Start(Claim(k, entry), FirstClear(k.live, 0), entry, k.cr3))
  {
    var p, k' := FirstClear(k.live, 0), Start(Claim(k, entry), FirstClear(k.live, 0), entry, k.cr3);
    StartApart(k, entry);
    forall i | 0 <= i < PROCS && k'.live[i]
      ensures i in Ring(k')
    {
      SnocCopies(Ring(k), p, i);
    }
  }

  /** A process that starts has a directory that no other has, and the others keep theirs. */
  lemma StartApart(k: Kernel, entry: Word)
    requires KernelOk(k) && Isolated(k) && FirstClear(k.live, 0) < PROCS && FirstClear(k.pages.used, 0) < DIRS
    ensures var p, k' := FirstClear(k.live, 0), Start(Claim(k, entry), FirstClear(k.live, 0), entry, k.cr3);
      && k'.live == k.live[p := true] && RunningSlot(k) != p && k'.cr3 == k.cr3
      && (forall i :: 0 <= i < PROCS && i != p ==> k'.procs[i] == k.procs[i])
      && (forall i, j :: 0 <= i < j < PROCS && k'.live[i] && k'.live[j] ==>
            k'.procs[i].context.pageDir != k'.procs[j].context.pageDir)
  {
    assert RunningSlot(k) in Ring(k) by { assert Ring(k)[0] == RunningSlot(k); }
    var d := FirstClear(k.pages.used, 0);
    assert forall i :: 0 <= i < PROCS && k.live[i] ==> k.procs[i].context.pageDir != UserDir(d);
  }

  // ----- destroying

  /** Kills the kernel supports: a live process that is neither running nor the first. */
  predicate Killable(k: Kernel, pid: Word) {
    1 < pid <= PROCS && k.live[pid - 1] && pid - 1 != RunningSlot(k)
  }

  lemma SlotOfPid(k: Kernel, pid: Word)
    requires TableOk(k) && 1 <= pid <= PROCS && k.live[pid - 1]
    ensures SlotOf(k, pid) == pid - 1
  {
    forall i | 0 <= i < pid - 1
      ensures k.procs[i].pid != pid
    {
    }
  }

  lemma {:induction false} RemoveCopies(q: seq<nat>, i: nat, x: nat)
    ensures Copies(RemoveFirst(q, i), x) == if x == i && x in q then Copies(q, x) - 1 else Copies(q, x)
    ensures x in RemoveFirst(q, i) ==> x in q
    ensures x != i && x in q ==> x in RemoveFirst(q, i)
  {
    if q != [] {
      assert q == [q[0]] + q[1..];
      assert Copies(q, x) == Copies(q[1..], x) + if q[0] == x then 1 else 0;
      if q[0] != i {
        RemoveCopies(q[1..], i, x);
        var rest := RemoveFirst(q[1..], i);
        assert RemoveFirst(q, i) == [q[0]] + rest;
        assert Copies([q[0]] + rest, x) == Copies(rest, x) + if q[0] == x then 1 else 0;
      }
    }
  }

  lemma ConsCopies(q: seq<nat>, r: nat, x: nat)
    ensures Copies([r] + q, x) == Copies(q, x) + if r == x then 1 else 0
    ensures x in [r] + q <==> x in q || x == r
  {
    assert multiset([r] + q) == multiset{r} + multiset(q);
  }

  lemma DestroyRing(k: Kernel, pid: Word)
    requires KernelOk(k) && Killable(k, pid)
    ensures SlotOf(k, pid) == pid - 1 && k.active > 0
    ensures var i, k' := pid - 1, Destroy(k, pid);
      && RunningSlot(k') == RunningSlot(k) && Ring(k') == [RunningSlot(k)] + RemoveFirst(k.queue, i)
      && i !in Ring(k')
      && (forall x: nat :: x != i ==> Copies(Ring(k'), x) == Copies(Ring(k), x))
      && (forall x: nat :: x != i ==> (x in Ring(k') <==> x in Ring(k)))
  {
    SlotOfPid(k, pid);
    RingBounds(k);
    var r, i, k' := RunningSlot(k), pid - 1, Destroy(k, pid);
    RunningIs(k', r);
    forall x: nat
      ensures Copies(Ring(k), x) == Copies(k.queue, x) + (if r == x then 1 else 0)
      ensures Copies(Ring(k'), x) == Copies(k'.queue, x) + (if r == x then 1 else 0)
      ensures Copies(k'.queue, x) == if x == i && x in k.queue then Copies(k.queue, x) - 1 else Copies(k.queue, x)
      ensures x != i ==> (x in Ring(k') <==> x in Ring(k))
    {
      ConsCopies(k.queue, r, x);
      ConsCopies(k'.queue, r, x);
      RemoveCopies(k.queue, i, x);
    }
    assert Copies(Ring(k'), i) == 0;
  }

  /** Freeing the page at address 0, which is never the kernel's. */
  lemma FreedAtZero(pg: PageState, d: nat)
    requires PagesOk(pg) && d < DIRS
    ensures PagesOk(Free(pg, d, 0).0) && Free(pg, d, 0).0.used == pg.used
    ensures NoLeak(pg) ==> NoLeak(Free(pg, d, 0).0)
    ensures !Free(pg, d, 0).0.dirs[d][0].present
    ensures forall x, y :: 0 <= x < DIRS && 0 <= y < ENTRIES && (x != d || y != 0) ==>
      Free(pg, d, 0).0.dirs[x][y] == pg.dirs[x][y]
  {
    FirstPage();
    FirstIsUsers(pg, d);
    FreeKeeps(pg, d, 0);
    assert FreesEntry(pg, d, 0);
  }

  lemma FirstPage()
    ensures PageIndex(0) == 0
  {
  }

  lemma FirstIsUsers(pg: PageState, d: nat)
    requires PagesOk(pg) && d < DIRS
    ensures pg.dirs[d][0].present ==> pg.dirs[d][0].user
  {
    assert EntryOk(pg, d, 0);
  }

  lemma DestroyPages(k: Kernel, pid: Word)
    requires KernelOk(k) && Killable(k, pid) && SlotOf(k, pid) == pid - 1 && k.active > 0
    ensures PagesOk(Destroy(k, pid).pages)
    ensures forall d :: 0 <= d < DIRS && k.pages.used[d] ==> Destroy(k, pid).pages.used[d]
    ensures LowOnly(k) ==> LowOnly(Destroy(k, pid))
  {
    var d := k.procs[pid - 1].context.pageDir.index;
    var pages := Free(k.pages, d, 0).0;
    FreedAtZero(k.pages, d);
    FreeDirectoryKeeps(pages, d);
    if LowOnly(k) {
      assert forall j :: 0 <= j < ENTRIES ==> !pages.dirs[d][j].UserMapped();
    }
  }

  lemma DestroyTable(k: Kernel, pid: Word)
    requires KernelOk(k) && Killable(k, pid) && SlotOf(k, pid) == pid - 1 && k.active > 0
    ensures TableOk(Destroy(k, pid)) && DirsOk(Destroy(k, pid))
  {
    DestroyPages(k, pid);
    CountFlip(k.live, pid - 1, false);
  }

  lemma DestroyRingOk(k: Kernel, pid: Word)
    requires KernelOk(k) && Killable(k, pid) && SlotOf(k, pid) == pid - 1 && k.active > 0
    ensures RingOk(Destroy(k, pid)) && RunningSlot(Destroy(k, pid)) == RunningSlot(k)
    ensures pid - 1 !in Destroy(k, pid).queue
    ensures forall x: nat :: x != pid - 1 ==> (x in Ring(Destroy(k, pid)) <==> x in Ring(k))
  {
    DestroyRing(k, pid);
    DestroyMembers(k, pid);
    DestroyedCopies(k, pid);
  }

  lemma DestroyedCopies(k: Kernel, pid: Word)
    requires RingOk(k) && DirsOk(k) && Killable(k, pid) && SlotOf(k, pid) == pid - 1 && k.active > 0
    requires pid - 1 !in Ring(Destroy(k, pid))
    requires forall x: nat :: x != pid - 1 ==> Copies(Ring(Destroy(k, pid)), x) == Copies(Ring(k), x)
    ensures var ring := Ring(Destroy(k, pid));
      Copies(ring, 0) == 2 && forall x: nat :: x != 0 ==> Copies(ring, x) <= 1
    ensures pid - 1 !in Destroy(k, pid).queue
  {
    var k' := Destroy(k, pid);
    assert Copies(Ring(k'), pid - 1) == 0;
    assert forall x :: x in k'.queue ==> x in Ring(k');
  }

  /** Whoever is left in the ring is live, and only the running process is running. */
  lemma DestroyMembers(k: Kernel, pid: Word)
    requires RingOk(k) && DirsOk(k) && Killable(k, pid) && SlotOf(k, pid) == pid - 1 && k.active > 0
    requires pid - 1 !in Ring(Destroy(k, pid)) && RunningSlot(Destroy(k, pid)) == RunningSlot(k)
    requires forall x: nat :: x != pid - 1 ==> (x in Ring(Destroy(k, pid)) <==> x in Ring(k))
    ensures var k' := Destroy(k, pid);
      && (forall x :: x in Ring(k') ==> x < PROCS && k'.live[x])
      && (forall i :: 0 <= i < PROCS ==> (k'.procs[i].state == Running <==> i == RunningSlot(k')))
  {
  }

  lemma DestroyIsolated(k: Kernel, pid: Word)
    requires Killable(k, pid) && SlotOf(k, pid) == pid - 1 && k.active > 0
    requires k.procs[pid - 1].context.pageDir.UserDir? && k.procs[pid - 1].context.pageDir.index < DIRS
    requires RunningSlot(k) < PROCS && RunningSlot(Destroy(k, pid)) == RunningSlot(k) && Isolated(k)
    requires forall x: nat :: x != pid - 1 ==> (x in Ring(Destroy(k, pid)) <==> x in Ring(k))
    ensures Isolated(Destroy(k, pid))
  {
  }

  /** A supported kill takes the process out of the table and out of the queue altogether. */
  lemma DestroyKeeps(k: Kernel, pid: Word)
    requires KernelOk(k) && Killable(k, pid)
    ensures SlotOf(k, pid) == pid - 1 && k.active > 0
    ensures KernelOk(Destroy(k, pid)) && pid - 1 !in Destroy(k, pid).queue
    ensures Isolated(k) ==> Isolated(Destroy(k, pid))
    ensures LowOnly(k) ==> LowOnly(Destroy(k, pid))
  {
    SlotOfPid(k, pid);
    RingBounds(k);
    DestroyTable(k, pid);
    DestroyPages(k, pid);
    DestroyRingOk(k, pid);
    if Isolated(k) { DestroyIsolated(k, pid); }
  }

  // ----- the kernel's mapping

  const KERNEL_PDE := Pde(true, true, false, true, 0, 0)

  function DirOf(k: Kernel, i: nat): DirRef
    requires i < PROCS
  {
    k.procs[i].context.pageDir
  }

  ghost predicate KernelMapped(pg: PageState, r: DirRef) {
    r.UserDir? && r.index < DIRS && pg.dirs[r.index][KERNEL_ENTRY] == KERNEL_PDE
  }

  /** The active directory and the directory of every live process map the kernel. */
  ghost predicate MapsKernel(k: Kernel) {
    && KernelMapped(k.pages, k.cr3)
    && forall i {:trigger DirOf(k, i)} :: 0 <= i < PROCS && k.live[i] ==> KernelMapped(k.pages, DirOf(k, i))
  }

  /** The directory of process `pid` is neither active nor another live process's. */
  predicate OwnDirectory(k: Kernel, pid: Word) {
    && 1 <= pid <= PROCS && k.cr3 != DirOf(k, pid - 1)
    && forall i :: 0 <= i < PROCS && k.live[i] && i != pid - 1 ==> DirOf(k, i) != DirOf(k, pid - 1)
  }

  lemma TickMaps(k: Kernel, regs: Regs)
    requires KernelOk(k) && MapsKernel(k) && 0 < |k.queue| && k.queue[0] < PROCS
    ensures MapsKernel(Tick(k, regs))
  {
    TickSlots(k, regs);
    var k' := Tick(k, regs);
    forall i | 0 <= i < PROCS && k'.live[i]
      ensures KernelMapped(k'.pages, DirOf(k', i))
    {
      assert i != RunningSlot(k) ==> DirOf(k', i) == DirOf(k, i);
    }
    assert KernelMapped(k'.pages, DirOf(k', k.queue[0]));
  }

  lemma ClaimMaps(k: Kernel, entry: Word)
    requires KernelOk(k) && MapsKernel(k) && entry < KERNEL_BASE
    requires FirstClear(k.live, 0) < PROCS && FirstClear(k.pages.used, 0) < DIRS
    ensures MapsKernel(Claim(k, entry)) && KernelMapped(Claim(k, entry).pages, k.cr3)
  {
    ClaimedDirectories(k, entry);
    var p, d, k' := FirstClear(k.live, 0), FirstClear(k.pages.used, 0), Claim(k, entry);
    forall i | 0 <= i < PROCS && k'.live[i]
      ensures KernelMapped(k'.pages, DirOf(k', i))
    {
      if i != p { assert DirOf(k', i) == DirOf(k, i) && DirOf(k, i) != UserDir(d); }
    }
  }

  /** A new directory maps the kernel, and the directories in use keep their kernel entry. */
  lemma ClaimedDirectories(k: Kernel, entry: Word)
    requires KernelOk(k) && entry < KERNEL_BASE
    requires FirstClear(k.live, 0) < PROCS && FirstClear(k.pages.used, 0) < DIRS
    ensures var d, pg := FirstClear(k.pages.used, 0), Claim(k, entry).pages;
      && pg.dirs[d][KERNEL_ENTRY] == KERNEL_PDE
      && (forall x :: 0 <= x < DIRS && x != d ==> pg.dirs[x][KERNEL_ENTRY] == k.pages.dirs[x][KERNEL_ENTRY])
  {
    var (pages, d) := NewDirectory(k.pages);
    NewDirectoryKeeps(k.pages);
    EntryBelowKernel(entry);
    AllocateKeeps(pages, d, entry);
  }

  lemma StartMaps(k: Kernel, entry: Word)
    requires KernelOk(k) && MapsKernel(k) && entry < KERNEL_BASE
    requires FirstClear(k.live, 0) < PROCS && FirstClear(k.pages.used, 0) < DIRS
    ensures MapsKernel(Start(Claim(k, entry), FirstClear(k.live, 0), entry, k.cr3))
  {
    ClaimMaps(k, entry);
    var p, k1 := FirstClear(k.live, 0), Claim(k, entry);
    var k' := Start(k1, p, entry, k.cr3);
    forall i | 0 <= i < PROCS && k'.live[i]
      ensures KernelMapped(k'.pages, DirOf(k', i))
    {
      assert DirOf(k', i) == DirOf(k1, i);
    }
  }

  /** A kill clears one whole directory and touches no other. */
  lemma DestroyedDirectories(k: Kernel, pid: Word)
    requires KernelOk(k) && 1 <= pid <= PROCS && k.live[pid - 1] && SlotOf(k, pid) == pid - 1 && k.active > 0
    ensures var d, pg := DirOf(k, pid - 1).index, Destroy(k, pid).pages;
      && pg.dirs[d] == BlankDirectory()
      && (forall x :: 0 <= x < DIRS && x != d ==> pg.dirs[x] == k.pages.dirs[x])
  {
    var d := DirOf(k, pid - 1).index;
    FreedAtZero(k.pages, d);
    assert forall x :: 0 <= x < DIRS && x != d ==> Free(k.pages, d, 0).0.dirs[x] == k.pages.dirs[x];
  }

  /** Which directories still map the kernel after a kill, and which slots are left. */
  lemma DestroyedMaps(k: Kernel, pid: Word)
    requires KernelOk(k) && 1 <= pid <= PROCS && k.live[pid - 1] && SlotOf(k, pid) == pid - 1 && k.active > 0
    ensures var k' := Destroy(k, pid);
      && k'.cr3 == k.cr3
      && (forall i :: 0 <= i < PROCS ==> (k'.live[i] <==> k.live[i] && i != pid - 1))
      && (forall i {:trigger DirOf(k', i)} :: 0 <= i < PROCS && i != pid - 1 ==> DirOf(k', i) == DirOf(k, i))
      && (forall x: DirRef :: KernelMapped(k.pages, x) ==> (KernelMapped(k'.pages, x) <==> x != DirOf(k, pid - 1)))
  {
    DestroyedDirectories(k, pid);
    assert BlankDirectory()[KERNEL_ENTRY] == ZERO_PDE;
  }

  /** The kernel stays mapped exactly when the directory that goes was the process's own alone. */
  lemma DestroyMaps(k: Kernel, pid: Word)
    requires KernelOk(k) && MapsKernel(k) && 1 <= pid <= PROCS && k.live[pid - 1]
    requires SlotOf(k, pid) == pid - 1 && k.active > 0
    ensures MapsKernel(Destroy(k, pid)) <==> OwnDirectory(k, pid)
  {
    DestroyedMaps(k, pid);
    var k' := Destroy(k, pid);
    if OwnDirectory(k, pid) {
      forall i | 0 <= i < PROCS && k'.live[i]
        ensures KernelMapped(k'.pages, DirOf(k', i))
      {
        assert KernelMapped(k.pages, DirOf(k, i));
      }
    }
    if MapsKernel(k') {
      forall i | 0 <= i < PROCS && k.live[i] && i != pid - 1
        ensures DirOf(k, i) != DirOf(k, pid - 1)
      {
        assert KernelMapped(k'.pages, DirOf(k', i)) && KernelMapped(k.pages, DirOf(k, i));
      }
    }
  }

  /** As long as no program failed to load, a supported kill is of a process with a directory of its own. */
  lemma IsolatedOwns(k: Kernel, pid: Word)
    requires KernelOk(k) && Isolated(k) && Killable(k, pid)
    ensures OwnDirectory(k, pid)
  {
    var r, p := RunningSlot(k), pid - 1;
    assert Ring(k)[0] == r && r in Ring(k);
    forall i | 0 <= i < PROCS && k.live[i] && i != p
      ensures DirOf(k, i) != DirOf(k, p)
    {
      assert if i < p then k.procs[i].context.pageDir != k.procs[p].context.pageDir
             else k.procs[p].context.pageDir != k.procs[i].context.pageDir;
    }
    assert k.cr3 == DirOf(k, r);
  }
}
