/**
 The process table, the scheduler queue and the active page directory as one state machine with
 the steps tick, create and destroy.
 */
module Processes {
  import opened Words
  import opened FatOps
  import opened AbsFiles
  import opened Paging

  const PROCS := 16
  const QUEUE_CAPACITY := 16
  const FRAMES_PER_PROCESS := 8
  const USER_DATA: Word := 0x23
  const USER_CODE: Word := 0x1B

  /** A page-directory pointer: null, the kernel's own, or one of the 32 in the list. */
  datatype DirRef = NullDir | KernelDir | UserDir(index: nat)

  datatype Cpu = Cpu(edi: Word, esi: Word, ebp: Word, esp: Word, ebx: Word, edx: Word, ecx: Word, eax: Word,
                     gs: Word, fs: Word, es: Word, ds: Word)

  datatype Context = Context(eip: Word, cpu: Cpu, eflags: Word, cs: Word, pageDir: DirRef)

  /** What a timer interrupt finds in the registers. */
  datatype Regs = Regs(eip: Word, cpu: Cpu, eflags: Word, cs: Word)

  datatype ProcState = Ready | Running | Blocked

  datatype Pcb = Pcb(pid: Word, state: ProcState, context: Context)

  const ZERO_CPU := Cpu(0, 0, 0, 0, 0, 0, 0, 0, 0, 0, 0, 0)
  const ZERO_PCB := Pcb(0, Ready, Context(0, ZERO_CPU, 0, 0, NullDir))

  datatype RawKernel = RawKernel(
    procs: seq<Pcb>,
    live: seq<bool>,
    active: nat,
    queue: seq<nat>,
    pages: PageState,
    cr3: DirRef)

  type Kernel = k: RawKernel | |k.procs| == PROCS && |k.live| == PROCS
    witness RawKernel(seq(PROCS, _ => ZERO_PCB), seq(PROCS, _ => false), 0, [],
                      RawPages.Pages(seq(FRAMES, _ => false), 0, seq(DIRS, _ => false),
                                     seq<Directory>(DIRS, _ => BlankDirectory())),
                      KernelDir)

  // ----- pieces

  /** `ceil_div` on 32-bit operands: the sum wraps around. */
  function CeilDiv32(a: Word, b: Word): Word
    requires b > 0
  {
    ((a + b - 1) % 0x1_0000_0000) / b
  }

  /** Frames an executable of `size` bytes needs, with one more for the stack. */
  function NeededFrames(size: Word): Word {
    CeilDiv32((size + FRAME_SIZE) % 0x1_0000_0000, FRAME_SIZE)
  }

  /** Sets the flag bits 1 and 9 (reserved, interrupt enable). */
  function UserFlags(e: Word): Word {
    var low: int := e + if (e / 2) % 2 == 0 then 2 else 0;
    (low + if (low / 0x200) % 2 == 0 then 0x200 else 0) % 0x1_0000_0000
  }

  /** The context a new process starts from; `ecx` is not set and stays what the slot held. */
  function StartContext(before: Context, entry: Word, dir: DirRef): Context {
    Context(entry,
            before.cpu.(edi := 0, esi := 0, ebp := 0, esp := 0x3F_FFFC, ebx := 0, edx := 0, eax := 0,
                        gs := USER_DATA, fs := USER_DATA, es := USER_DATA, ds := USER_DATA),
            UserFlags(before.eflags), USER_CODE, dir)
  }

  function Enqueue(q: seq<nat>, i: nat): seq<nat> {
    if |q| < QUEUE_CAPACITY then q + [i] else q
  }

  function RemoveFirst(q: seq<nat>, i: nat): seq<nat> {
    if q == [] then []
    else if q[0] == i then q[1..]
    else [q[0]] + RemoveFirst(q[1..], i)
  }

  /** First slot from `i` on whose process is running; PROCS when none is. */
  function RunningFrom(procs: seq<Pcb>, i: nat): (r: nat)
    requires i <= |procs|
    ensures i <= r <= |procs|
    ensures r < |procs| ==> procs[r].state == Running
    ensures forall j :: i <= j < r ==> procs[j].state != Running
    decreases |procs| - i
  {
    if i == |procs| then i
    else if procs[i].state == Running then i
    else RunningFrom(procs, i + 1)
  }

  function RunningSlot(k: Kernel): nat {
    RunningFrom(k.procs, 0)
  }

  function SlotOfFrom(procs: seq<Pcb>, pid: Word, i: nat): (r: nat)
    requires i <= |procs|
    ensures i <= r <= |procs|
    ensures r < |procs| ==> procs[r].pid == pid
    ensures forall j :: i <= j < r ==> procs[j].pid != pid
    decreases |procs| - i
  {
    if i == |procs| then i
    else if procs[i].pid == pid then i
    else SlotOfFrom(procs, pid, i + 1)
  }

  function SlotOf(k: Kernel, pid: Word): nat {
    SlotOfFrom(k.procs, pid, 0)
  }

  // ----- steps

  function SaveContext(k: Kernel, regs: Regs): Kernel
    requires RunningSlot(k) < PROCS
  {
    var r := RunningSlot(k);
    k.(procs := k.procs[r := k.procs[r].(context := Context(regs.eip, regs.cpu, regs.eflags, regs.cs, k.cr3))])
  }

  /** Dispatches the head of the queue and puts the running process behind it. */
  function Switch(k: Kernel): Kernel
    requires RunningSlot(k) < PROCS && |k.queue| > 0 && k.queue[0] < PROCS
  {
    var r, n := RunningSlot(k), k.queue[0];
    var paused := k.procs[r := k.procs[r].(state := Ready)];
    var procs := paused[n := paused[n].(state := Running)];
    k.(procs := procs, queue := Enqueue(k.queue[1..], r), cr3 := procs[n].context.pageDir)
  }

  /** A timer interrupt. */
  function Tick(k: Kernel, regs: Regs): Kernel
    requires RunningSlot(k) < PROCS && |k.queue| > 0 && k.queue[0] < PROCS
  {
    SavedRunning(k, regs);
    Switch(SaveContext(k, regs))
  }

  lemma RunningIs(k: Kernel, r: nat)
    requires r < PROCS && k.procs[r].state == Running
    requires forall i :: 0 <= i < r ==> k.procs[i].state != Running
    ensures RunningSlot(k) == r
  {
  }

  lemma SavedRunning(k: Kernel, regs: Regs)
    requires RunningSlot(k) < PROCS
    ensures RunningSlot(SaveContext(k, regs)) == RunningSlot(k)
  {
    RunningIs(SaveContext(k, regs), RunningSlot(k));
  }

  /** The three refusals that come before anything is changed. */
  function CreateRefusal(k: Kernel, entry: Word, size: Word): int {
    if k.active >= PROCS then 1
    else if entry >= KERNEL_BASE then 2
    else if k.pages.free < NeededFrames(size) || NeededFrames(size) > FRAMES_PER_PROCESS then 3
    else 0
  }

  /** The kernel after `process_create_user_process` has claimed slot, directory and frame. */
  function Claim(k: Kernel, entry: Word): Kernel
    requires FirstClear(k.live, 0) < PROCS && FirstClear(k.pages.used, 0) < DIRS
  {
    var p := FirstClear(k.live, 0);
    var (pages, d) := NewDirectory(k.pages);
    var pcb := k.procs[p];
    k.(procs := k.procs[p := pcb.(pid := p + 1, context := pcb.context.(pageDir := UserDir(d)))],
       live := k.live[p := true], active := k.active + 1,
       pages := Allocate(pages, d, entry).0, cr3 := UserDir(d))
  }

  /** ... and after it has loaded the program and queued the process. */
  function Start(k: Kernel, p: nat, entry: Word, back: DirRef): Kernel
    requires p < PROCS
  {
    var pcb := k.procs[p];
    k.(procs := k.procs[p := pcb.(state := Ready, context := StartContext(pcb.context, entry, pcb.context.pageDir))],
       queue := Enqueue(k.queue, p), cr3 := back)
  }

  /** Creates a process that runs at `entry` the program that `req` reads from the file system; 4 when it cannot. */
  function Create(k: Kernel, entry: Word, req: Request, files: AbsFs): (Kernel, int)
    requires CreateRefusal(k, entry, req.size) == 0 ==>
      FirstClear(k.live, 0) < PROCS && FirstClear(k.pages.used, 0) < DIRS && req.parent in files
  {
    if CreateRefusal(k, entry, req.size) != 0 then (k, CreateRefusal(k, entry, req.size))
    else if AbsRead(files, req) != 0 then (Claim(k, entry), 4)
    else (Start(Claim(k, entry), FirstClear(k.live, 0), entry, k.cr3), 0)
  }

  function Destroy(k: Kernel, pid: Word): Kernel
    requires pid != 0 ==> pid <= PROCS && SlotOf(k, pid) < PROCS
    requires pid != 0 ==> k.procs[SlotOf(k, pid)].context.pageDir.UserDir?
    requires pid != 0 ==> k.procs[SlotOf(k, pid)].context.pageDir.index < DIRS && k.active > 0
  {
    if pid == 0 then k
    else
      var i := SlotOf(k, pid);
      var d := k.procs[i].context.pageDir.index;
      k.(procs := k.procs[i := ZERO_PCB], live := k.live[pid - 1 := false], active := k.active - 1,
         queue := RemoveFirst(k.queue, i),
         pages := FreeDirectory(Free(k.pages, d, 0).0, d))
  }

  // ----- the invariant of every run

  ghost predicate TableOk(k: Kernel) {
    && k.active + CountClear(k.live) == PROCS
    && forall i :: 0 <= i < PROCS ==> if k.live[i] then k.procs[i].pid == i + 1 else k.procs[i] == ZERO_PCB
  }

  /** How often `x` occurs in `q`. */
  ghost function Copies(q: seq<nat>, x: nat): nat {
    multiset(q)[x]
  }

  lemma CopiesSnoc(q: seq<nat>, x: nat)
    requires |q| > 0
    ensures Copies(q, x) == Copies(q[..|q| - 1], x) + if q[|q| - 1] == x then 1 else 0
  {
    var n := |q| - 1;
    assert q == q[..n] + [q[n]];
  }

  /** The running process followed by the queue. */
  function Ring(k: Kernel): seq<nat> {
    [RunningSlot(k)] + k.queue
  }

  /** Every live process at most once in the ring, and the first process once more. */
  ghost predicate RingOk(k: Kernel) {
    && RunningSlot(k) < PROCS
    && (forall i :: 0 <= i < PROCS ==> (k.procs[i].state == Running <==> i == RunningSlot(k)))
    && (forall x :: x in Ring(k) ==> x < PROCS && k.live[x])
    && Copies(Ring(k), 0) == 2
    && (forall x: nat :: x != 0 ==> Copies(Ring(k), x) <= 1)
  }

  ghost predicate DirsOk(k: Kernel) {
    && k.cr3.UserDir? && k.cr3.index < DIRS && k.pages.used[k.cr3.index]
    && forall i :: 0 <= i < PROCS && k.live[i] ==>
         var r := k.procs[i].context.pageDir; r.UserDir? && r.index < DIRS && k.pages.used[r.index]
  }

  /** Holds after boot and after every step, whatever its result code. */
  ghost predicate KernelOk(k: Kernel) {
    TableOk(k) && RingOk(k) && DirsOk(k) && PagesOk(k.pages)
  }

  /** Holds as long as no program failed to load: every process has its own directory and is scheduled. */
  ghost predicate Isolated(k: Kernel) {
    && RunningSlot(k) < PROCS
    && k.cr3 == k.procs[RunningSlot(k)].context.pageDir
    && (forall i, j :: 0 <= i < j < PROCS && k.live[i] && k.live[j] ==>
          k.procs[i].context.pageDir != k.procs[j].context.pageDir)
    && (forall i :: 0 <= i < PROCS && k.live[i] ==> i in Ring(k))
  }

  /** Holds as long as every program was placed in the first 4 MiB. */
  ghost predicate LowOnly(k: Kernel) {
    && NoLeak(k.pages)
    && forall d, j :: 0 <= d < DIRS && 0 < j < ENTRIES ==> !k.pages.dirs[d][j].UserMapped()
  }

  // ----- ticks

  function Rotate<T>(s: seq<T>): seq<T>
    requires |s| > 0
  {
    s[1..] + [s[0]]
  }

  /** The queue is never empty and never full when somebody has to join it. */
  lemma RingBounds(k: Kernel)
    requires KernelOk(k)
    ensures 0 < |k.queue| <= k.active <= PROCS && k.queue[0] < PROCS
  {
    var ring := Ring(k);
    LiveBelowAll(k.live);
    OneCopyLess(ring, LiveBelow(k.live, PROCS));
    assert k.queue[0] == ring[1] && ring[1] in ring;
  }

  function LiveBelow(live: seq<bool>, n: nat): set<nat>
    requires n <= |live|
  {
    set i: nat | i < n && live[i]
  }

  lemma {:induction false} LiveBelowSize(live: seq<bool>, n: nat)
    requires n <= |live|
    ensures |LiveBelow(live, n)| + CountClear(live[..n]) == n
  {
    if n > 0 {
      LiveBelowSize(live, n - 1);
      assert live[..n][..n - 1] == live[..n - 1];
      if live[n - 1] {
        assert LiveBelow(live, n) == LiveBelow(live, n - 1) + {n - 1};
      } else {
        assert LiveBelow(live, n) == LiveBelow(live, n - 1);
      }
    } else {
      assert LiveBelow(live, 0) == {};
    }
  }

  lemma LiveBelowAll(live: seq<bool>)
    ensures |LiveBelow(live, |live|)| + CountClear(live) == |live|
  {
    LiveBelowSize(live, |live|);
    assert live[..|live|] == live;
  }

  /** A ring that repeats one member once. */
  lemma {:induction false} OneCopyLess(q: seq<nat>, s: set<nat>)
    requires forall x :: x in q ==> x in s
    requires Copies(q, 0) == 2 && forall x: nat :: x != 0 ==> Copies(q, x) <= 1
    ensures 2 <= |q| <= |s| + 1
  {
    var n := |q| - 1;
    forall x: nat ensures Copies(q, x) == Copies(q[..n], x) + if q[n] == x then 1 else 0 { CopiesSnoc(q, x); }
    if q[n] == 0 {
      assert q[..n] != [] by { assert Copies(q[..n], 0) == 1; }
      NoRepeats(q[..n], s);
    } else {
      assert Copies(q[..n], q[n]) == 0;
      OneCopyLess(q[..n], s - {q[n]});
    }
  }

  /** Without repetitions a sequence is no longer than the set it is drawn from. */
  lemma {:induction false} NoRepeats(q: seq<nat>, s: set<nat>)
    requires forall x :: x in q ==> x in s
    requires forall x: nat :: Copies(q, x) <= 1
    ensures |q| <= |s|
  {
    if q != [] {
      var n := |q| - 1;
      forall x: nat ensures Copies(q, x) == Copies(q[..n], x) + if q[n] == x then 1 else 0 { CopiesSnoc(q, x); }
      assert Copies(q[..n], q[n]) == 0;
      NoRepeats(q[..n], s - {q[n]});
    }
  }
}
