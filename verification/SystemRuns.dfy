/** Runs of the whole system: file-system calls and kernel steps in any order, on one disk. */
module SystemRuns {
  import opened Words
  import opened FatLayout
  import opened Volumes
  import opened FatOps
  import opened AbsFiles
  import FatRuns
  import opened Processes
  import opened KernelSteps
  import opened KernelRuns

  datatype State = State(v: Volume, k: Kernel)

  datatype SystemEvent =
    | FileCall(cmd: FatRuns.Command)
    | Timer(regs: Regs)
    | Load(entry: Word, req: Request)
    | Kill(pid: Word)
    /** The machine restarts with `memory` where the cached table was, and boots from the disk. */
    | Restart(memory: Fat)

  /** A kernel event as the kernel sees it: a program is read from the disk as it is now. */
  ghost function KernelEvent(v: Volume, e: SystemEvent): Event
    requires WellFormed(v) && !e.FileCall? && !e.Restart?
  {
    match e
    case Timer(regs) => TickEv(regs)
    case Load(entry, req) => CreateEv(entry, req, FatRuns.AbsOf(v))
    case Kill(pid) => DestroyEv(pid)
  }

  /** The disk holds a shell that can be read. */
  ghost predicate Bootable(v: Volume) {
    WellFormed(v) && ROOT in FatRuns.AbsOf(v) && AbsRead(FatRuns.AbsOf(v), SHELL_REQUEST) == 0
  }

  ghost predicate Sound(s: State) {
    WellFormed(s.v) && KernelOk(s.k)
  }

  /** As long as the system is sound, the event is legal and leads from `s` to `s'`. */
  ghost predicate Leads(s: State, e: SystemEvent, s': State) {
    Sound(s) ==>
      if e.FileCall? then
        FatRuns.Legal(s.v, e.cmd) && !e.cmd.RebootCmd? && s' == State(FatRuns.Step(s.v, e.cmd), s.k)
      else if e.Restart? then
        Bootable(s.v) && s' == State(Mount(RawVolume(e.memory, s.v.disk)), BootState(FatRuns.AbsOf(s.v)))
      else Legal(s.k, KernelEvent(s.v, e)) && s' == State(s.v, Apply(s.k, KernelEvent(s.v, e)))
  }

  ghost predicate LeadsAt(es: seq<SystemEvent>, ss: seq<State>, i: nat)
    requires i < |es| && i + 1 < |ss|
  {
    Leads(ss[i], es[i], ss[i + 1])
  }

  ghost predicate IsSystemRun(s: State, es: seq<SystemEvent>, ss: seq<State>) {
    && |ss| == |es| + 1 && ss[0] == s
    && forall i {:trigger LeadsAt(es, ss, i)} :: 0 <= i < |es| ==> LeadsAt(es, ss, i)
  }

  /** Whether the program that `e` loads, if it loads one, is a file on the disk that fits its buffer. */
  ghost predicate Readable(v: Volume, e: SystemEvent) {
    WellFormed(v) && e.Load? && e.req.parent in FatRuns.AbsOf(v) ==> AbsRead(FatRuns.AbsOf(v), e.req) == 0
  }

  ghost predicate AllReadable(es: seq<SystemEvent>, ss: seq<State>)
    requires |ss| == |es| + 1
  {
    forall i {:trigger ReadableAt(es, ss, i)} :: 0 <= i < |es| ==> ReadableAt(es, ss, i)
  }

  ghost predicate ReadableAt(es: seq<SystemEvent>, ss: seq<State>, i: nat)
    requires i < |es| && i < |ss|
  {
    Readable(ss[i].v, es[i])
  }

  lemma StepKeepsSystem(s: State, e: SystemEvent, s': State)
    requires Sound(s) && Leads(s, e, s')
    ensures Sound(s')
    ensures Separate(s.k) && Readable(s.v, e) ==> Separate(s'.k)
  {
    if e.FileCall? {
      FatRuns.StepRefines(s.v, e.cmd);
    } else if e.Restart? {
      FatRuns.RebootRestores(s.v, e.memory);
    } else {
      StepKeeps(s.k, KernelEvent(s.v, e));
    }
  }

  lemma SystemStep(s: State, es: seq<SystemEvent>, ss: seq<State>, n: nat)
    requires IsSystemRun(s, es, ss) && n < |es| && Sound(ss[n])
    ensures Sound(ss[n + 1])
    ensures Separate(ss[n].k) && AllReadable(es, ss) ==> Separate(ss[n + 1].k)
  {
    assert LeadsAt(es, ss, n);
    assert AllReadable(es, ss) ==> ReadableAt(es, ss, n);
    StepKeepsSystem(ss[n], es[n], ss[n + 1]);
  }

  /** At every point of every legal run of the system, disk and kernel are both consistent. */
  lemma {:induction false} SystemKeeps(s: State, es: seq<SystemEvent>, ss: seq<State>, n: nat)
    requires Sound(s) && IsSystemRun(s, es, ss) && n <= |es|
    ensures Sound(ss[n])
    ensures Separate(s.k) && AllReadable(es, ss) ==> Separate(ss[n].k)
  {
    if n > 0 {
      var m := n - 1;
      SystemKeeps(s, es, ss, m);
      SystemStep(s, es, ss, m);
      assert ss[m + 1] == ss[n];
    }
  }

  /** In particular from boot on, on any consistent disk that holds a shell. */
  lemma SystemFromBoot(v: Volume, es: seq<SystemEvent>, ss: seq<State>, n: nat)
    requires WellFormed(v) && ROOT in FatRuns.AbsOf(v) && AbsRead(FatRuns.AbsOf(v), SHELL_REQUEST) == 0
    requires IsSystemRun(State(v, BootState(FatRuns.AbsOf(v))), es, ss) && n <= |es|
    ensures WellFormed(ss[n].v) && KernelOk(ss[n].k)
    ensures AllReadable(es, ss) ==> Isolated(ss[n].k) && MapsKernel(ss[n].k) && FramesApart(ss[n].k)
  {
    SystemKeeps(State(v, BootState(FatRuns.AbsOf(v))), es, ss, n);
    if AllReadable(es, ss) { AllApart(ss[n].k); }
  }
}
