/** The supply of page directories: it is spent by creations and never refilled by kills. */
module KernelSupply {
  import opened FatLayout
  import opened AbsFiles
  import opened Paging
  import opened Processes
  import opened KernelSteps
  import opened KernelRuns
  import opened KernelExact

  lemma ClearMeansFound(flags: seq<bool>)
    ensures CountClear(flags) > 0 <==> FirstClear(flags, 0) < |flags|
  {
    var f := FirstClear(flags, 0);
    if f < |flags| { CountPositive(flags, f); } else { CountNone(flags); }
  }

  /** After boot a creation finds a directory if and only if fewer than 31 were accepted before it. */
  lemma SupplyExact(files: AbsFs, es: seq<Event>, ks: seq<Kernel>, n: nat)
    requires ROOT in files && AbsRead(files, SHELL_REQUEST) == 0
    requires IsRun(BootState(files), es, ks) && n <= |es|
    ensures FirstClear(ks[n].pages.used, 0) < 32 <==> Creations(es, ks, n) < 31
  {
    CreationsBounded(BootState(files), es, ks, n);
    ClearMeansFound(ks[n].pages.used);
  }

  // ----- a run that spends it

  /** A process created from the shell's program, and killed at once. */
  function LoadShell(files: AbsFs): Event {
    CreateEv(0, SHELL_REQUEST, files)
  }

  /** Everything but the page directories is as in `k`. */
  ghost predicate SameTables(k: Kernel, k': Kernel) {
    && k'.procs == k.procs && k'.live == k.live && k'.active == k.active && k'.queue == k.queue && k'.cr3 == k.cr3
    && k'.pages.frames == k.pages.frames
  }

  /** A kernel that creates the shell's program, as far as its tables go. */
  predicate Roomy(k: Kernel) {
    k.active < PROCS && CreateRefusal(k, 0, SHELL_REQUEST.size) == 0
  }

  lemma SameRoom(k: Kernel, k': Kernel)
    requires KernelOk(k) && KernelOk(k') && SameTables(k, k') && Roomy(k)
    ensures Roomy(k')
  {
  }

  /** One such creation and kill cost one directory and leave all else as it was. */
  lemma SpendOne(k: Kernel, files: AbsFs)
    requires KernelOk(k) && Roomy(k) && ROOT in files && AbsRead(files, SHELL_REQUEST) == 0
    requires FirstClear(k.pages.used, 0) < DIRS
    ensures Accepted(k, LoadShell(files)) && Legal(k, LoadShell(files))
    ensures var k1, p := Apply(k, LoadShell(files)), FirstClear(k.live, 0);
      && p < PROCS && Killable(k1, p + 1) && SameTables(k, Apply(k1, DestroyEv(p + 1)))
  {
    CreateThenDestroy(k, LoadShell(files));
  }

  /** What comes after does not change how many creations there were. */
  lemma {:induction false} CreationsBefore(es: seq<Event>, ks: seq<Kernel>, es': seq<Event>, ks': seq<Kernel>, n: nat)
    requires n <= |es| < |ks| && |es'| < |ks'| && es <= es' && ks <= ks'
    ensures Creations(es', ks', n) == Creations(es, ks, n)
  {
    if n > 0 { CreationsBefore(es, ks, es', ks', n - 1); }
  }

  lemma {:induction false} CreationsNext(es: seq<Event>, ks: seq<Kernel>, n: nat)
    requires n < |es| < |ks|
    ensures Creations(es, ks, n + 1) == Creations(es, ks, n) + if Accepted(ks[n], es[n]) then 1 else 0
  {
  }

  /** A run that goes on with an accepted creation and a kill has one creation more. */
  lemma {:induction false} OneMoreCreation(es: seq<Event>, ks: seq<Kernel>, es': seq<Event>, ks': seq<Kernel>)
    requires |ks| == |es| + 1 && es <= es' && ks <= ks' && |es'| == |es| + 2 && |ks'| == |ks| + 2
    requires Accepted(ks'[|es|], es'[|es|]) && !Accepted(ks'[|es| + 1], es'[|es| + 1])
    ensures Creations(es', ks', |es'|) == Creations(es, ks, |es|) + 1
  {
    var n := |es|;
    CreationsBefore(es, ks, es', ks', n);
    CreationsNext(es', ks', n);
    CreationsNext(es', ks', n + 1);
  }

  /** A run goes on with any two events, the second legal after the first. */
  lemma RunExtendsTwice(k: Kernel, es: seq<Event>, ks: seq<Kernel>, e1: Event, e2: Event)
    requires KernelOk(k) && IsRun(k, es, ks) && KernelOk(ks[|es|]) && Legal(ks[|es|], e1)
    requires Legal(Apply(ks[|es|], e1), e2)
    ensures var k1 := Apply(ks[|es|], e1); IsRun(k, es + [e1] + [e2], ks + [k1] + [Apply(k1, e2)])
  {
    RunExtends(k, es, ks, e1);
    RunExtends(k, es + [e1], ks + [Apply(ks[|es|], e1)], e2);
  }

  lemma TwoOnTop<T>(s: seq<T>, x: T, y: T)
    ensures s <= s + [x] + [y] && |s + [x] + [y]| == |s| + 2
    ensures (s + [x] + [y])[|s|] == x && (s + [x] + [y])[|s| + 1] == y
  {
  }

  /** A run goes on with one more creation and kill. */
  lemma SpendInRun(k: Kernel, es: seq<Event>, ks: seq<Kernel>, files: AbsFs)
    returns (es': seq<Event>, ks': seq<Kernel>)
    requires KernelOk(k) && IsRun(k, es, ks) && KernelOk(ks[|es|]) && Roomy(ks[|es|])
    requires ROOT in files && AbsRead(files, SHELL_REQUEST) == 0 && FirstClear(ks[|es|].pages.used, 0) < DIRS
    ensures IsRun(k, es', ks') && SameTables(ks[|es|], ks'[|es'|]) && KernelOk(ks'[|es'|])
    ensures Creations(es', ks', |es'|) == Creations(es, ks, |es|) + 1
  {
    var k1, k2, kill := SpendTwo(ks[|es|], files);
    var e := LoadShell(files);
    RunExtendsTwice(k, es, ks, e, kill);
    es', ks' := es + [e] + [kill], ks + [k1] + [k2];
    TwoOnTop(es, e, kill);
    TwoOnTop(ks, k1, k2);
    OneMoreCreation(es, ks, es', ks');
  }

  /** The two states that such a creation and kill lead to. */
  lemma SpendTwo(k: Kernel, files: AbsFs) returns (k1: Kernel, k2: Kernel, kill: Event)
    requires KernelOk(k) && Roomy(k) && ROOT in files && AbsRead(files, SHELL_REQUEST) == 0
    requires FirstClear(k.pages.used, 0) < DIRS
    ensures Accepted(k, LoadShell(files)) && Legal(k, LoadShell(files)) && k1 == Apply(k, LoadShell(files))
    ensures kill.DestroyEv? && Legal(k1, kill) && k2 == Apply(k1, kill) && SameTables(k, k2)
  {
    SpendOne(k, files);
    k1, kill := Apply(k, LoadShell(files)), DestroyEv(FirstClear(k.live, 0) + 1);
    k2 := Apply(k1, kill);
  }

  /** After boot there is room for the shell's program once more. */
  lemma BootIsRoomy(files: AbsFs)
    requires ROOT in files && AbsRead(files, SHELL_REQUEST) == 0
    ensures Roomy(BootState(files)) && BootState(files).active == 1
  {
  }

  /** Any number of such pairs up to 31 can follow each other. */
  lemma {:induction false} SpendMany(files: AbsFs, j: nat) returns (es: seq<Event>, ks: seq<Kernel>)
    requires ROOT in files && AbsRead(files, SHELL_REQUEST) == 0 && j <= DIRS - 1
    ensures IsRun(BootState(files), es, ks) && KernelOk(ks[|es|]) && Creations(es, ks, |es|) == j
    ensures SameTables(BootState(files), ks[|es|])
  {
    if j == 0 {
      es, ks := [], [BootState(files)];
    } else {
      var es1, ks1 := SpendMany(files, j - 1);
      es, ks := SpendNext(files, es1, ks1);
    }
  }

  lemma SpendNext(files: AbsFs, es: seq<Event>, ks: seq<Kernel>) returns (es': seq<Event>, ks': seq<Kernel>)
    requires ROOT in files && AbsRead(files, SHELL_REQUEST) == 0
    requires IsRun(BootState(files), es, ks) && KernelOk(ks[|es|]) && Creations(es, ks, |es|) < DIRS - 1
    requires SameTables(BootState(files), ks[|es|])
    ensures IsRun(BootState(files), es', ks') && KernelOk(ks'[|es'|]) && SameTables(BootState(files), ks'[|es'|])
    ensures Creations(es', ks', |es'|) == Creations(es, ks, |es|) + 1
  {
    BootIsRoomy(files);
    SameRoom(BootState(files), ks[|es|]);
    SupplyExact(files, es, ks, |es|);
    es', ks' := SpendInRun(BootState(files), es, ks, files);
  }

  /**
   So there is a legal run after which only the shell is left, nothing refuses another creation of
   its program, and no directory can be found for it.
   */
  lemma SupplyRunsOut(files: AbsFs) returns (es: seq<Event>, ks: seq<Kernel>)
    requires ROOT in files && AbsRead(files, SHELL_REQUEST) == 0
    ensures IsRun(BootState(files), es, ks) && ks[|es|].active == 1 && Accepted(ks[|es|], LoadShell(files))
    ensures FirstClear(ks[|es|].pages.used, 0) == 32 && !Legal(ks[|es|], LoadShell(files))
  {
    es, ks := SpendMany(files, DIRS - 1);
    BootIsRoomy(files);
    SameRoom(BootState(files), ks[|es|]);
    SupplyExact(files, es, ks, |es|);
  }
}
