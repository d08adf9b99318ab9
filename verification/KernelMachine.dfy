/** The kernel's tables as it keeps them: arrays and counters updated in place. */
module KernelMachine {
  import opened Words
  import opened Paging
  import opened Processes
  import opened KernelSteps
  import opened KernelRuns
  import opened KernelExact

  /** The bounded queue of process slots. */
  class PcbQueue {
    const element: array<nat>
    var count: nat

    ghost predicate Valid()
      reads this
    {
      element.Length == QUEUE_CAPACITY && count <= QUEUE_CAPACITY
    }

    ghost function Contents(): seq<nat>
      reads this, element
      requires Valid()
    {
      element[..count]
    }

    constructor ()
      ensures Valid() && Contents() == [] && fresh(element)
    {
      element := new nat[QUEUE_CAPACITY](_ => 0);
      count := 0;
    }

    method Init()
      requires Valid()
      modifies `count
      ensures Valid() && Contents() == []
    {
      count := 0;
    }

    method Enqueue(pcb: nat)
      requires Valid()
      modifies this, element
      ensures Valid() && Contents() == Processes.Enqueue(old(Contents()), pcb)
      ensures Contents() == if |old(Contents())| < 16 then old(Contents()) + [pcb] else old(Contents())
    {
      if count < QUEUE_CAPACITY {
        element[count] := pcb;
        count := count + 1;
        assert element[..count - 1] == old(Contents());
      }
    }

    /** Takes the head and moves the rest up; `found` is false for an empty queue. */
    method Dequeue() returns (found: bool, pcb: nat)
      requires Valid()
      modifies this, element
      ensures Valid()
      ensures if old(Contents()) == [] then !found && Contents() == []
        else found && pcb == old(Contents())[0] && Contents() == old(Contents())[1..]
    {
      if count == 0 {
        return false, 0;
      }
      pcb := element[0];
      ShiftDown(0);
      return true, pcb;
    }

    /** Removes the entry at `at` by moving the later ones up. */
    method ShiftDown(at: nat)
      requires Valid() && at < count
      modifies this, element
      ensures Valid() && Contents() == old(Contents())[..at] + old(Contents())[at + 1..]
    {
      for i := at to count - 1
        invariant count == old(count)
        invariant forall j :: 0 <= j < at ==> element[j] == old(element[j])
        invariant forall j :: at <= j < i ==> element[j] == old(element[j + 1])
        invariant forall j :: i <= j < count ==> element[j] == old(element[j])
      {
        element[i] := element[i + 1];
      }
      count := count - 1;
    }

    /** Removes the first occurrence of `pcb`, if any. */
    method Remove(pcb: nat)
      requires Valid()
      modifies this, element
      ensures Valid() && Contents() == RemoveFirst(old(Contents()), pcb)
    {
      ghost var q := Contents();
      for i := 0 to count
        invariant Valid() && Contents() == q && count == |q|
        invariant pcb !in q[..i]
      {
        if element[i] == pcb {
          ShiftDown(i);
          RemoveAt(q, pcb, i);
          return;
        }
        assert q[..i + 1] == q[..i] + [q[i]];
      }
      assert q[..|q|] == q;
      RemoveAbsent(q, pcb);
    }
  }

  lemma {:induction false} RemoveAt(q: seq<nat>, x: nat, i: nat)
    requires i < |q| && q[i] == x && x !in q[..i]
    ensures RemoveFirst(q, x) == q[..i] + q[i + 1..]
  {
    if i > 0 {
      assert q[0] == q[..i][0];
      assert q[1..][..i - 1] == q[..i][1..];
      RemoveAt(q[1..], x, i - 1);
      assert q[..i] + q[i + 1..] == [q[0]] + (q[1..][..i - 1] + q[1..][i..]);
    }
  }

  lemma {:induction false} RemoveAbsent(q: seq<nat>, x: nat)
    requires x !in q
    ensures RemoveFirst(q, x) == q
  {
    if q != [] { RemoveAbsent(q[1..], x); }
  }

  /** A pid that some slot holds is a live process's, unless it is 0. */
  lemma FoundIsLive(k: Kernel, pid: Word)
    requires KernelOk(k) && pid != 0 && SlotOf(k, pid) < PROCS
    ensures pid <= PROCS && k.live[pid - 1] && SlotOf(k, pid) == pid - 1 && k.active > 0
    ensures DirOf(k, pid - 1).UserDir? && DirOf(k, pid - 1).index < DIRS
  {
    assert k.procs[SlotOf(k, pid)].pid == pid;
    DestroyExact(k, pid);
  }

  /** Page frames and page directories. */
  class PageManager {
    const frames: array<bool>
    var free: nat
    const used: array<bool>
    const dirs: array<Directory>

    ghost predicate Valid()
      reads this
    {
      frames.Length == FRAMES && used.Length == DIRS && dirs.Length == DIRS && frames != used
    }

    ghost function State(): PageState
      reads this, frames, used, dirs
      requires Valid()
    {
      RawPages.Pages(frames[..], free, used[..], dirs[..])
    }

    constructor ()
      ensures Valid() && State() == BootPages() && fresh(frames) && fresh(used) && fresh(dirs)
    {
      frames := new bool[FRAMES](i => i == 0);
      used := new bool[DIRS](_ => false);
      dirs := new Directory[DIRS](_ => BlankDirectory());
      free := FRAMES - 1;
      new;
      assert frames[..] == BootPages().frames && used[..] == BootPages().used && dirs[..] == BootPages().dirs;
    }

    method AllocateCheck(amount: nat) returns (ok: bool)
      requires Valid()
      ensures ok <==> State().free >= amount
    {
      return free >= amount;
    }

    method UpdateEntry(d: nat, va: Word, frame: nat)
      requires Valid() && d < DIRS
      modifies dirs
      ensures Valid() && State() == MapEntry(old(State()), d, PageIndex(va), frame)
    {
      var j := PageIndex(va);
      var e := dirs[d][j];
      dirs[d] := dirs[d][j := e.(present := true, write := true, user := true, big := true, lower := frame % ENTRIES)];
    }

    method AllocateUserPageFrame(d: nat, va: Word) returns (ok: bool)
      requires Valid() && d < DIRS
      modifies this, frames, dirs
      ensures Valid() && (State(), ok) == Allocate(old(State()), d, va)
    {
      if free == 0 {
        return false;
      }
      ghost var pg := State();
      for i := 0 to FRAMES
        invariant State() == pg && FirstClear(pg.frames, 0) == FirstClear(pg.frames, i)
      {
        if !frames[i] {
          frames[i] := true;
          free := free - 1;
          assert State() == pg.(frames := pg.frames[i := true], free := pg.free - 1);
          UpdateEntry(d, va, i);
          break;
        }
      }
      return true;
    }

    method FreeUserPageFrame(d: nat, va: Word) returns (ok: bool)
      requires Valid() && d < DIRS
      modifies this, frames, dirs
      ensures Valid() && (State(), ok) == Free(old(State()), d, va)
    {
      ghost var pg := State();
      var j := PageIndex(va);
      var e := dirs[d][j];
      if e.present {
        var frame := e.Frame();
        if frame < FRAMES {
          frames[frame] := false;
          free := free + 1;
          dirs[d] := dirs[d][j := e.(present := false, user := false, write := false, higher := 0, lower := 0)];
          assert frames[..] == pg.frames[frame := false];
          return true;
        }
      }
      return false;
    }

    /** The first unused directory, marked used and mapping the kernel; DIRS stands for null. */
    method CreateNewPageDirectory() returns (d: nat)
      requires Valid()
      modifies used, dirs
      ensures Valid() && (State(), d) == NewDirectory(old(State()))
    {
      ghost var pg := State();
      for i := 0 to DIRS
        invariant State() == pg && FirstClear(pg.used, 0) == FirstClear(pg.used, i)
      {
        if !used[i] {
          used[i] := true;
          var e := dirs[i][KERNEL_ENTRY];
          dirs[i] := dirs[i][KERNEL_ENTRY := e.(present := true, write := true, big := true, lower := 0)];
          assert used[..] == pg.used[i := true];
          return i;
        }
      }
      return DIRS;
    }

    method FreePageDirectory(d: nat) returns (ok: bool)
      requires Valid()
      modifies used, dirs
      ensures Valid() && ok == (d < DIRS)
      ensures State() == if d < DIRS then FreeDirectory(old(State()), d) else old(State())
    {
      ghost var pg := State();
      for i := 0 to DIRS
        invariant State() == pg && d >= i
      {
        if i == d {
          used[i] := true;
          dirs[i] := BlankDirectory();
          return true;
        }
      }
      return false;
    }
  }

  /** The kernel after a kill call: unchanged unless a live process has that pid. */
  ghost function AfterKill(k: Kernel, pid: Word): Kernel
    requires KernelOk(k)
  {
    if pid != 0 && SlotOf(k, pid) < PROCS then
      FoundIsLive(k, pid);
      Destroy(k, pid)
    else k
  }

  /** The process table with its queue, its pages and the active directory. */
  class Machine {
    const procs: array<Pcb>
    const live: array<bool>
    var active: nat
    const queue: PcbQueue
    const pages: PageManager
    var cr3: DirRef

    ghost function Heap(): set<object>
    {
      {this, procs, live, queue, queue.element, pages, pages.frames, pages.used, pages.dirs}
    }

    ghost predicate Valid()
      reads Heap()
    {
      && procs.Length == PROCS && live.Length == PROCS
      && queue.Valid() && pages.Valid()
      && live != pages.frames && live != pages.used
    }

    ghost function State(): Kernel
      reads Heap()
      requires Valid()
    {
      RawKernel(procs[..], live[..], active, queue.Contents(), pages.State(), cr3)
    }

    constructor ()
      ensures Valid() && State() == BootKernel() && fresh(Heap())
    {
      procs := new Pcb[PROCS](_ => ZERO_PCB);
      live := new bool[PROCS](_ => false);
      active := 0;
      queue := new PcbQueue();
      pages := new PageManager();
      cr3 := KernelDir;
      new;
      assert procs[..] == BootKernel().procs && live[..] == BootKernel().live;
    }

    // ----- scans

    /** First free slot, or PROCS. */
    method GetInactiveIndex() returns (i: nat)
      requires Valid()
      ensures i == FirstClear(State().live, 0)
    {
      i := 0;
      while i < PROCS
        invariant i <= PROCS && FirstClear(State().live, 0) == FirstClear(State().live, i)
      {
        if !live[i] {
          return i;
        }
        i := i + 1;
      }
    }

    method GetCurrentRunning() returns (r: nat)
      requires Valid()
      ensures r == RunningSlot(State())
    {
      r := 0;
      while r < PROCS
        invariant r <= PROCS && RunningSlot(State()) == RunningFrom(State().procs, r)
      {
        if procs[r].state == Running {
          return r;
        }
        r := r + 1;
      }
    }

    method FindPid(pid: Word) returns (i: nat)
      requires Valid()
      ensures i == SlotOf(State(), pid)
    {
      i := 0;
      while i < PROCS
        invariant i <= PROCS && SlotOf(State(), pid) == SlotOfFrom(State().procs, pid, i)
      {
        if procs[i].pid == pid {
          return i;
        }
        i := i + 1;
      }
    }

    method SetPcb(i: nat, p: Pcb)
      requires Valid() && i < PROCS
      modifies procs
      ensures Valid() && State() == old(State()).(procs := old(State()).procs[i := p])
    {
      procs[i] := p;
    }

    method SetLive(i: nat, b: bool)
      requires Valid() && i < PROCS
      modifies live
      ensures Valid() && State() == old(State()).(live := old(State()).live[i := b])
    {
      live[i] := b;
    }

    // ----- the scheduler

    method InitScheduler()
      requires Valid() && |State().queue| > 0 && State().queue[0] < PROCS
      modifies Heap()
      ensures Valid() && State() == KernelRuns.InitScheduler(old(State()))
    {
      ghost var k := State();
      var found, n := queue.Dequeue();
      assert State() == k.(queue := k.queue[1..]);
      cr3 := procs[n].context.pageDir;
      queue.Enqueue(n);
      assert State() == k.(queue := Processes.Enqueue(k.queue[1..], n), cr3 := k.procs[n].context.pageDir);
      SetPcb(n, procs[n].(state := Running));
    }

    method SaveContextToRunning(regs: Regs)
      requires Valid() && RunningSlot(State()) < PROCS
      modifies procs
      ensures Valid() && State() == SaveContext(old(State()), regs)
    {
      var r := GetCurrentRunning();
      SetPcb(r, procs[r].(context := Context(regs.eip, regs.cpu, regs.eflags, regs.cs, cr3)));
    }

    /** Switches to the head of the queue and returns the context it resumes. */
    method SwitchToNext() returns (next: Context)
      requires Valid() && RunningSlot(State()) < PROCS && |State().queue| > 0 && State().queue[0] < PROCS
      modifies Heap()
      ensures Valid() && State() == Switch(old(State())) && next == State().procs[old(State().queue[0])].context
    {
      var r := GetCurrentRunning();
      var found, n := queue.Dequeue();
      SetPcb(r, procs[r].(state := Ready));
      SetPcb(n, procs[n].(state := Running));
      queue.Enqueue(r);
      cr3 := procs[n].context.pageDir;
      return procs[n].context;
    }

    /** The timer branch of the interrupt handler. */
    method TimerInterrupt(regs: Regs) returns (next: Context)
      requires Valid() && KernelOk(State())
      modifies Heap()
      ensures Valid() && KernelOk(State()) && State() == Apply(old(State()), TickEv(regs))
      ensures RunningSlot(State()) < PROCS && next == State().procs[RunningSlot(State())].context
    {
      TickKeeps(State(), regs);
      TickRotates(State(), regs);
      SavedRunning(State(), regs);
      SaveContextToRunning(regs);
      next := SwitchToNext();
    }

    // ----- processes

    /** The checks that come before anything is changed: 0 when the creation is not refused. */
    method CheckCreation(entry: Word, size: Word) returns (code: int)
      requires Valid()
      ensures code == CreateRefusal(State(), entry, size)
    {
      if active >= PROCS {
        return 1;
      }
      if entry >= KERNEL_BASE {
        return 2;
      }
      var needed := NeededFrames(size);
      var enough := pages.AllocateCheck(needed);
      if !enough || needed > FRAMES_PER_PROCESS {
        return 3;
      }
      return 0;
    }

    /** Takes a slot, a directory and a frame for a new process and activates the directory. */
    method ClaimSlot(entry: Word) returns (p: nat)
      requires Valid() && FirstClear(State().live, 0) < PROCS && FirstClear(State().pages.used, 0) < DIRS
      modifies Heap()
      ensures Valid() && p == FirstClear(old(State()).live, 0) && State() == Claim(old(State()), entry)
    {
      ghost var k := State();
      p := ClaimPid();
      ghost var k1 := State();
      var d := ClaimDirectory(entry);
      assert State() == k1.(pages := Allocate(NewDirectory(k.pages).0, d, entry).0);
      SetPcb(p, procs[p].(context := procs[p].context.(pageDir := UserDir(d))));
      cr3 := UserDir(d);
    }

    /** Marks the first free slot live and numbers it. */
    method ClaimPid() returns (p: nat)
      requires Valid() && FirstClear(State().live, 0) < PROCS
      modifies this`active, live, procs
      ensures Valid() && p == FirstClear(old(State()).live, 0)
      ensures State() == old(State()).(live := old(State()).live[p := true], active := old(State()).active + 1,
                                       procs := old(State()).procs[p := old(State()).procs[p].(pid := p + 1)])
    {
      p := GetInactiveIndex();
      SetLive(p, true);
      active := active + 1;
      SetPcb(p, procs[p].(pid := p + 1));
    }

    /** A new directory with a frame for the program's page. */
    method ClaimDirectory(entry: Word) returns (d: nat)
      requires Valid() && FirstClear(State().pages.used, 0) < DIRS
      modifies pages, pages.frames, pages.used, pages.dirs
      ensures Valid() && d == FirstClear(old(State()).pages.used, 0)
      ensures State() == old(State()).(pages := Allocate(NewDirectory(old(State()).pages).0, d, entry).0)
    {
      d := pages.CreateNewPageDirectory();
      var ignored := pages.AllocateUserPageFrame(d, entry);
    }

    method StartProcess(p: nat, entry: Word, back: DirRef)
      requires Valid() && p < PROCS
      modifies Heap()
      ensures Valid() && State() == Start(old(State()), p, entry, back)
    {
      var pcb := procs[p];
      SetPcb(p, pcb.(state := Ready, context := StartContext(pcb.context, entry, pcb.context.pageDir)));
      queue.Enqueue(p);
      cr3 := back;
    }

    /**
     Kills a process; only pid 0 is refused.  What the kill leaves is consistent exactly when it is
     a supported one, and maps the kernel everywhere exactly when nobody shares the directory.
     */
    method DestroyProcess(pid: Word) returns (ok: bool)
      requires Valid() && KernelOk(State()) && (pid == 0 || SlotOf(State(), pid) < PROCS)
      modifies Heap()
      ensures Valid() && ok == (pid != 0)
      ensures State() == AfterKill(old(State()), pid)
      ensures KernelOk(State()) <==> pid == 0 || Killable(old(State()), pid)
      ensures old(MapsKernel(State())) ==>
        (KernelOk(State()) && MapsKernel(State()) <==>
           pid == 0 || (Killable(old(State()), pid) && OwnDirectory(old(State()), pid)))
    {
      if pid == 0 {
        return false;
      }
      FoundIsLive(State(), pid);
      DestroyExact(State(), pid);
      DestroyLive(pid);
      return true;
    }

    /** The kill system call: looks for the pid, free slots holding 0, and answers 0 if some slot holds it. */
    method KillCall(pid: Word) returns (code: int)
      requires Valid() && KernelOk(State())
      modifies Heap()
      ensures Valid() && code == KillCode(old(State()), pid) && State() == AfterKill(old(State()), pid)
      ensures code == if HasPid(old(State()), pid) then 0 else 1
      ensures KernelOk(State()) <==> pid == 0 || code == 1 || Killable(old(State()), pid)
    {
      KillAnswers(State(), pid);
      var i := FindPid(pid);
      if i == PROCS {
        return 1;
      }
      var done := DestroyProcess(pid);
      return 0;
    }

    /** The steps of a kill that is carried out. */
    method DestroyLive(pid: Word)
      requires Valid() && 1 <= pid <= PROCS && SlotOf(State(), pid) == pid - 1 && State().active > 0
      requires State().procs[pid - 1].context.pageDir.UserDir? && State().procs[pid - 1].context.pageDir.index < DIRS
      modifies Heap()
      ensures Valid() && State() == Destroy(old(State()), pid)
    {
      var index := FindPid(pid);
      var dir := procs[index].context.pageDir.index;
      queue.Remove(index);
      ReleasePages(dir);
      ReleaseSlot(index, pid - 1);
    }

    /** Blanks the slot and takes its number back. */
    method ReleaseSlot(index: nat, number: nat)
      requires Valid() && index < PROCS && number < PROCS && active > 0
      modifies this`active, live, procs
      ensures Valid()
      ensures State() == old(State()).(procs := old(State()).procs[index := ZERO_PCB],
                                       live := old(State()).live[number := false], active := old(State()).active - 1)
    {
      SetPcb(index, ZERO_PCB);
      SetLive(number, false);
      active := active - 1;
    }

    /** Gives back the frame at address 0 and the directory. */
    method ReleasePages(dir: nat)
      requires Valid() && dir < DIRS
      modifies pages, pages.frames, pages.used, pages.dirs
      ensures Valid()
      ensures State() == old(State()).(pages := FreeDirectory(Free(old(State()).pages, dir, 0).0, dir))
    {
      var freed := pages.FreeUserPageFrame(dir, 0);
      var dropped := pages.FreePageDirectory(dir);
    }

    /** `scheduler_init` and the first switch. */
    method StartScheduling()
      requires Valid() && OneProcess(State())
      modifies Heap()
      ensures Valid() && State() == Booted(old(State()))
    {
      InitScheduler();
      var first := SwitchToNext();
    }
  }
}
