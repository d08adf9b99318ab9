/** Creating a process from a program on the disk: where the process table meets the file system. */
module ProcessLoading {
  import opened Words
  import opened FatLayout
  import opened Volumes
  import opened FatOps
  import opened AbsFiles
  import opened FatView
  import opened FatDriver
  import opened Paging
  import opened Processes
  import opened KernelRuns
  import opened KernelMachine

  /** The kernel's tables, the driver and the memory a program is read into do not overlap. */
  ghost predicate Apart(m: Machine, d: Driver, memory: array<Byte>)
    reads m, d
  {
    && m.Heap() !! {d, d.image, d.image.bytes, d.clusterMap, memory}
    && (memory as object) != d && (memory as object) != d.clusterMap && memory != d.image.bytes
  }

  /** What a creation needs of its caller: a directory for the new process and a readable buffer. */
  ghost predicate Creatable(k: Kernel, entry: Word, req: Request, room: nat) {
    && CLUSTER_SIZE * CeilDiv(req.size, CLUSTER_SIZE) <= room
    && (CreateRefusal(k, entry, req.size) == 0 ==> FirstClear(k.live, 0) < PROCS && FirstClear(k.pages.used, 0) < DIRS)
  }

  /** On a consistent kernel a creation is the step that the runs are made of. */
  lemma CreationIsStep(k: Kernel, e: Event)
    requires KernelOk(k) && e.CreateEv? && Legal(k, e)
    ensures Accepted(k, e) ==> FirstClear(k.live, 0) < PROCS
    ensures Create(k, e.entry, e.req, e.files).0 == Apply(k, e)
  {
    CreateKeeps(k, e);
  }

  /**
   Creates a process that runs at `entry`, where `memory` lies, the program that `req` names.
   `KernelExact.CreateExact` says what each outcome depends on.
   */
  method CreateUserProcess(m: Machine, d: Driver, entry: Word, req: Request, memory: array<Byte>,
                           ghost v: Volume, ghost s: Shape)
    returns (code: int)
    requires m.Valid() && Mounted(d, v, s) && Apart(m, d, memory) && req.parent in s.rank
    requires Creatable(m.State(), entry, req, memory.Length)
    modifies m.Heap(), d`dirTableBuf, memory
    ensures m.Valid() && Mounted(d, v, s) && req.parent in View(v, s)
    ensures old(Creatable(m.State(), entry, req, memory.Length))
    ensures (m.State(), code) == Create(old(m.State()), entry, req, View(v, s))
    ensures old(KernelOk(m.State())) ==> var e := CreateEv(entry, req, View(v, s));
      Legal(old(m.State()), e) && m.State() == Apply(old(m.State()), e)
    ensures code == 0 ==> Delivered(View(v, s), req, memory[..])
  {
    ViewKeys(v, s);
    if KernelOk(m.State()) { CreationIsStep(m.State(), CreateEv(entry, req, View(v, s))); }
    code := m.CheckCreation(entry, req.size);
    if code != 0 {
      return;
    }
    var back := m.cr3;
    var p := m.ClaimSlot(entry);
    code := LoadAndStart(m, d, p, entry, back, req, memory, v, s);
  }

  /** Reads the program and starts the process in slot `p`; a failure leaves everything as it is. */
  method LoadAndStart(m: Machine, d: Driver, p: nat, entry: Word, back: DirRef, req: Request, memory: array<Byte>,
                      ghost v: Volume, ghost s: Shape)
    returns (code: int)
    requires m.Valid() && Mounted(d, v, s) && Apart(m, d, memory) && req.parent in s.rank && p < PROCS
    requires CLUSTER_SIZE * CeilDiv(req.size, CLUSTER_SIZE) <= memory.Length
    modifies m.Heap(), d`dirTableBuf, memory
    ensures m.Valid() && Mounted(d, v, s) && req.parent in View(v, s)
    ensures code == if AbsRead(View(v, s), req) == 0 then 0 else 4
    ensures m.State() == if code == 0 then Start(old(m.State()), p, entry, back) else old(m.State())
    ensures code == 0 ==> Delivered(View(v, s), req, memory[..])
  {
    var read := d.Read(req, memory);
    if read != 0 {
      return 4;
    }
    m.StartProcess(p, entry, back);
    return 0;
  }

  /** Boot from a disk whose shell can be read: it is created, and the scheduler takes it over and runs it. */
  method Boot(m: Machine, d: Driver, memory: array<Byte>, ghost v: Volume, ghost s: Shape)
    requires m.Valid() && m.State() == BootKernel() && Mounted(d, v, s) && Apart(m, d, memory)
    requires ROOT in View(v, s) && AbsRead(View(v, s), SHELL_REQUEST) == 0
    requires memory.Length >= CLUSTER_SIZE * CeilDiv(SHELL_REQUEST.size, CLUSTER_SIZE)
    modifies m.Heap(), d`dirTableBuf, memory
    ensures m.Valid() && Mounted(d, v, s) && m.State() == BootState(View(v, s))
  {
    m.queue.Init();
    assert m.State() == BootKernel();
    CreateShell(m, d, memory, v, s);
    m.StartScheduling();
  }

  /** The first process. */
  method CreateShell(m: Machine, d: Driver, memory: array<Byte>, ghost v: Volume, ghost s: Shape)
    requires m.Valid() && m.State() == BootKernel() && Mounted(d, v, s) && Apart(m, d, memory)
    requires ROOT in View(v, s) && AbsRead(View(v, s), SHELL_REQUEST) == 0
    requires memory.Length >= CLUSTER_SIZE * CeilDiv(SHELL_REQUEST.size, CLUSTER_SIZE)
    modifies m.Heap(), d`dirTableBuf, memory
    ensures m.Valid() && Mounted(d, v, s)
    ensures OneProcess(m.State()) && BootState(View(v, s)) == Booted(m.State())
  {
    BootExact(m.State(), SHELL_REQUEST, View(v, s));
    ViewKeys(v, s);
    var code := CreateUserProcess(m, d, 0, SHELL_REQUEST, memory, v, s);
  }
}
