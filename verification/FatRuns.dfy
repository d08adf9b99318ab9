/** Formatting, remounting, undoing a write, and whole runs of the driver. */
module FatRuns {
  import opened Words
  import opened FatLayout
  import opened Volumes
  import opened Floats
  import opened FatOps
  import opened AbsFiles
  import opened FatTree
  import opened FatView
  import opened FatWrite
  import opened FatDelete
  import opened FatExact

  // ----- formatting and mounting

  ghost const FORMAT_SHAPE: Shape :=
    Shape(map[ROOT := 0], 1, map[], map[ROOT := [ROOT]], map[ROOT := Pos(ROOT, 0)])

  lemma FormatSteps(v: Volume)
    ensures var v' := Format(v);
      && v'.fat == FormattedFat() && v'.disk[FAT_CLUSTER] == EncodeFat(v'.fat)
      && v'.disk[0][..BLOCK_SIZE] == Signature()
      && Tabs(v')[ROOT] == RootTable()
  {
    TableRoundTrip(RootTable());
  }

  /** A formatted disk is a consistent volume holding one empty root directory. */
  lemma FormatConsistent(v: Volume)
    ensures Consistent(Format(v), FORMAT_SHAPE)
    ensures View(Format(v), FORMAT_SHAPE) == map[ROOT := map[]]
  {
    var v', s := Format(v), FORMAT_SHAPE;
    FormatSteps(v);
    FatRoundTrip(v'.fat);
    RootTableFresh();
    RootChain();
    LoneRoot(Tabs(v'));
    FreshView(v', s, Tabs(v')[ROOT], ROOT_NAME, ROOT, RootTable()[1]);
    ViewIs(v', s, map[ROOT := map[]]);
  }

  lemma RootChain()
    ensures ChainsOk(FormattedFat(), FORMAT_SHAPE.chains, FORMAT_SHAPE.own)
  {
    assert OwnerOk(FORMAT_SHAPE.chains, FORMAT_SHAPE.own, ROOT);
  }

  lemma LoneRoot(t: Tables)
    requires t[ROOT] == RootTable()
    ensures TreeOk(t, FORMAT_SHAPE) && NamesOk(t, FORMAT_SHAPE)
  {
    RootTableFresh();
    assert DirOk(t, FORMAT_SHAPE, ROOT);
    assert forall i: nat :: 2 <= i < SLOTS ==> SlotOk(t, FORMAT_SHAPE, ROOT, i);
  }

  /** Mounting a consistent volume again changes neither the disk nor the cached table. */
  lemma RemountTransparent(v: Volume)
    requires WellFormed(v)
    ensures Mount(v) == v
  {
  }

  /** Mounting the disk of a consistent volume restores its table, whatever the memory held. */
  lemma RebootRestores(v: Volume, memory: Fat)
    requires WellFormed(v)
    ensures Mount(RawVolume(memory, v.disk)) == v && DiskVolume(v.disk) == v
  {
  }

  // ----- undoing a write

  /** The slot a write used is the one a delete of the same name finds. */
  lemma UndoFindsSlot(v: Volume, v': Volume, s: Shape, p: nat, slot: nat, e: Entry, req: Request)
    requires OnlySlot(Tabs(v), Tabs(v'), s, p, slot, e) && Vacant(v, s, p, slot, e.key)
    requires slot == FreeSlot(Tab(v, p)) && req.parent == p && req.key == e.key
    requires forall i :: 2 <= i < SLOTS && Tab(v, p)[i].Live() ==> Tab(v, p)[i].key != e.key
    ensures TargetSlot(v', req) == slot && TargetHead(v', req) == e.ClusterNo()
  {
    assert Tab(v', p) == Tab(v, p)[slot := e];
    FreshSlotFound(Tab(v, p), slot, e);
  }

  lemma FreshSlotFound(t: Table, slot: nat, e: Entry)
    requires 2 <= slot == FreeSlot(t) < SLOTS
    requires forall i :: 2 <= i < SLOTS && t[i].Live() ==> t[i].key != e.key
    ensures Search(t[slot := e], e.key) == slot && Lookup(t[slot := e], e.key) == e
  {
    assert t[slot := e][slot].key == e.key;
    assert forall j :: 2 <= j < slot ==> t[j].Live() && t[slot := e][j] == t[j];
  }

  lemma UndoTargets(v: Volume, v': Volume, s: Shape, p: nat, slot: nat, e: Entry, ch: seq<nat>, req: Request)
    requires Consistent(v, s) && Vacant(v, s, p, slot, e.key) && LaidOut(v, v', p, slot, e, ch)
    requires slot == FreeSlot(Tab(v, p)) && req.parent == p && req.key == e.key
    ensures Tab(v, p)[slot] == ZERO_ENTRY
    ensures TargetSlot(v', req) == slot && TargetHead(v', req) == e.ClusterNo()
  {
    TableShape(Tabs(v), s, p);
    LookupLive(Tabs(v)[p], e.key);
    LayoutTables(v, v', s, p, slot, e, ch);
    UndoFindsSlot(v, v', s, p, slot, e, req);
  }

  lemma UndoAny(v: Volume, v': Volume, s: Shape, s': Shape, p: nat, slot: nat, e: Entry, ch: seq<nat>, req: Request)
    requires Consistent(v, s) && p in s.rank && LaidOut(v, v', p, slot, e, ch) && Tab(v, p)[slot] == ZERO_ENTRY
    requires req.parent == p && TargetSlot(v', req) == slot && TargetHead(v', req) == ch[0]
    requires Consistent(v', s') && ch[0] in s'.chains && s'.chains[ch[0]] == ch
    requires DeleteCode(v', s', req) == 0
    ensures Delete(v', s', req).fat == v.fat
    ensures forall c: nat :: c < DISK_CLUSTERS && c !in ch ==> Delete(v', s', req).disk[c] == v.disk[c]
  {
    DeleteTarget(v', s', req);
    RemoveLayout(v', p, slot, ch);
    TakenRestores(v, v', Delete(v', s', req), s, p, slot, e, ch);
  }

  /**
   Writing a file and deleting it again restores the allocation table, the parent directory and
   every other cluster; only the clusters the file had held keep its bytes.
   */
  lemma WriteFileThenDelete(v: Volume, s: Shape, req: Request, needed: nat, buf: seq<Byte>)
    returns (s': Shape, ch: seq<nat>)
    requires Consistent(v, s) && WriteCode(v, s, req) == 0 && req.size > 0 && FileFits(v, req)
    requires needed == CeilDiv(req.size, CLUSTER_SIZE) && CLUSTER_SIZE * needed <= |buf|
    ensures req.parent < DISK_CLUSTERS && Consistent(MakeFile(v, req, needed, buf), s')
    ensures |ch| == needed && forall i :: 0 <= i < |ch| ==> IsFree(v.fat, ch[i])
    ensures var v' := MakeFile(v, req, needed, buf);
      && DeleteCode(v', s', req) == 0
      && Delete(v', s', req).fat == v.fat
      && forall c: nat :: c < DISK_CLUSTERS && c !in ch ==> Delete(v', s', req).disk[c] == v.disk[c]
  {
    s', ch := MakeFileRefines(v, s, req, needed, buf);
    var v', p, slot := MakeFile(v, req, needed, buf), req.parent, FreeSlot(Tab(v, req.parent));
    WriteVacant(v, s, req);
    NewEntryFacts(req, ch[0]);
    DeleteCodeIsAbstract(v', s', req);
    UndoTargets(v, v', s, p, slot, NewEntry(req, ch[0]), ch, req);
    UndoAny(v, v', s, s', p, slot, NewEntry(req, ch[0]), ch, req);
  }

  /** The same for a directory. */
  lemma WriteDirThenDelete(v: Volume, s: Shape, req: Request) returns (s': Shape)
    requires Consistent(v, s) && WriteCode(v, s, req) == 0 && req.size == 0 && DirFits(v, req)
    ensures req.parent < DISK_CLUSTERS && Consistent(MakeDir(v, req), s')
    ensures var v' := MakeDir(v, req);
      && DeleteCode(v', s', req) == 0
      && Delete(v', s', req).fat == v.fat
      && forall c: nat :: c < DISK_CLUSTERS && c != FirstFree(v.fat) ==> Delete(v', s', req).disk[c] == v.disk[c]
  {
    var c;
    s', c := MakeDirRefines(v, s, req);
    var v', p, slot := MakeDir(v, req), req.parent, FreeSlot(Tab(v, req.parent));
    WriteVacant(v, s, req);
    NewEntryFacts(req, c);
    NewDirDeletable(v', s', req, View(v, s), c);
    DirShapeParts(s, p, slot, c);
    UndoTargets(v, v', s, p, slot, NewEntry(req, c), [c], req);
    UndoAny(v, v', s, s', p, slot, NewEntry(req, c), [c], req);
  }

  lemma NewDirDeletable(v: Volume, s: Shape, req: Request, a: AbsFs, c: Word)
    requires Consistent(v, s) && req.parent in a && c !in a && req.parent < DISK_CLUSTERS
    requires View(v, s) == Insert(a, req.parent, req.key, DirItem(c))[c := map[]]
    ensures DeleteCode(v, s, req) == 0
  {
    ViewKeys(v, s);
    DeleteCodeIsAbstract(v, s, req);
  }

  // ----- runs

  datatype Command =
    | WriteCmd(req: Request, buf: seq<Byte>)
    | DeleteCmd(req: Request)
    | RemountCmd
    /** The machine restarts: the cached table is lost, and `memory` is what is there instead. */
    | RebootCmd(memory: Fat)

  ghost function ShapeOf(v: Volume): (s: Shape)
    requires WellFormed(v)
    ensures Consistent(v, s)
  {
    var s :| Consistent(v, s);
    s
  }

  ghost function AbsOf(v: Volume): AbsFs
    requires WellFormed(v)
  {
    View(v, ShapeOf(v))
  }

  lemma AbsIs(v: Volume, s: Shape)
    requires Consistent(v, s)
    ensures AbsOf(v) == View(v, s)
  {
    ShapeUnique(v, s, ShapeOf(v));
  }

  /** What a caller must see to: buffers of whole clusters, a parent on the disk, and a write that fits. */
  ghost predicate Legal(v: Volume, c: Command)
    requires WellFormed(v)
  {
    match c
    case WriteCmd(req, buf) =>
      && CLUSTER_SIZE * NeededClusters(req.size) <= |buf|
      && (WriteCode(v, ShapeOf(v), req) == 0 ==> if req.size > 0 then FileFits(v, req) else DirFits(v, req))
    case DeleteCmd(req) => req.parent < DISK_CLUSTERS
    case RemountCmd => true
    case RebootCmd(_) => true
  }

  ghost function Step(v: Volume, c: Command): Volume
    requires WellFormed(v) && Legal(v, c)
  {
    match c
    case WriteCmd(req, buf) => Write(v, ShapeOf(v), req, NeededClusters(req.size), buf)
    case DeleteCmd(req) => Delete(v, ShapeOf(v), req)
    case RemountCmd => Mount(v)
    case RebootCmd(memory) => Mount(RawVolume(memory, v.disk))
  }

  /** The abstract file system before and after one command. */
  ghost predicate AbsStep(a: AbsFs, c: Command, a': AbsFs) {
    match c
    case RemountCmd => a' == a
    case RebootCmd(_) => a' == a
    case WriteCmd(req, buf) =>
      if req.parent !in a || req.key in a[req.parent] || |a[req.parent]| == SLOTS - 2 then a' == a
      else if req.size > 0 then
        req.size <= |buf| && a' == Insert(a, req.parent, req.key, FileItem(buf[..req.size]))
      else
        exists id :: id !in a && a' == Insert(a, req.parent, req.key, DirItem(id))[id := map[]]
    case DeleteCmd(req) =>
      if req.parent !in a || req.key !in a[req.parent] then a' == a
      else
        match a[req.parent][req.key]
        case FileItem(_) => a' == Erase(a, req.parent, req.key)
        case DirItem(id) =>
          if id !in a || a[id] != map[] then a' == a
          else a' == Erase(a, req.parent, req.key) - {id}
  }

  lemma StepWriteFile(v: Volume, req: Request, buf: seq<Byte>)
    requires WellFormed(v) && Legal(v, WriteCmd(req, buf)) && WriteCode(v, ShapeOf(v), req) == 0 && req.size > 0
    ensures WellFormed(Step(v, WriteCmd(req, buf)))
    ensures req.size <= |buf| && req.parent in AbsOf(v)
    ensures AbsOf(Step(v, WriteCmd(req, buf))) == Insert(AbsOf(v), req.parent, req.key, FileItem(buf[..req.size]))
  {
    NeededWhenFits(v, req);
    var s', ch := MakeFileRefines(v, ShapeOf(v), req, NeededClusters(req.size), buf);
    AbsIs(Step(v, WriteCmd(req, buf)), s');
  }

  lemma StepWriteDir(v: Volume, req: Request, buf: seq<Byte>)
    requires WellFormed(v) && Legal(v, WriteCmd(req, buf)) && WriteCode(v, ShapeOf(v), req) == 0 && req.size == 0
    ensures WellFormed(Step(v, WriteCmd(req, buf)))
    ensures req.parent in AbsOf(v)
    ensures exists id ::
      && id !in AbsOf(v)
      && AbsOf(Step(v, WriteCmd(req, buf))) == Insert(AbsOf(v), req.parent, req.key, DirItem(id))[id := map[]]
  {
    var s', c := MakeDirRefines(v, ShapeOf(v), req);
    AbsIs(Step(v, WriteCmd(req, buf)), s');
  }

  /** A file write that reports success inserts the file if and only if it fits. */
  lemma WriteFileInserts(v: Volume, s: Shape, req: Request, buf: seq<Byte>)
    requires Consistent(v, s) && WriteCode(v, s, req) == 0 && req.size > 0
    requires CLUSTER_SIZE * NeededClusters(req.size) <= |buf|
    ensures (exists s' :: Inserts(v, s, MakeFile(v, req, NeededClusters(req.size), buf), s', req, buf))
      <==> FileFits(v, req)
  {
    var v' := MakeFile(v, req, NeededClusters(req.size), buf);
    WriteFileExact(v, s, req, NeededClusters(req.size), buf);
    if FileFits(v, req) {
      NeededWhenFits(v, req);
      WriteCodeIsAbstract(v, s, req);
      var s', ch := MakeFileRefines(v, s, req, NeededClusters(req.size), buf);
      assert Inserts(v, s, v', s', req, buf);
    }
  }

  /** A directory creation that reports success inserts the directory if and only if it fits. */
  lemma WriteDirInserts(v: Volume, s: Shape, req: Request, buf: seq<Byte>)
    requires Consistent(v, s) && WriteCode(v, s, req) == 0 && req.size == 0
    ensures (exists s' :: Inserts(v, s, MakeDir(v, req), s', req, buf)) <==> DirFits(v, req)
  {
    if DirFits(v, req) {
      var s' := FittingDirInserts(v, s, req, buf);
    }
    if s' :| Inserts(v, s, MakeDir(v, req), s', req, buf) {
      InsertedDirFits(v, s, s', req, buf);
    }
  }

  lemma FittingDirInserts(v: Volume, s: Shape, req: Request, buf: seq<Byte>) returns (s': Shape)
    requires Consistent(v, s) && WriteCode(v, s, req) == 0 && req.size == 0 && DirFits(v, req)
    ensures Inserts(v, s, MakeDir(v, req), s', req, buf)
  {
    var c;
    WriteCodeIsAbstract(v, s, req);
    s', c := MakeDirRefines(v, s, req);
  }

  lemma InsertedDirFits(v: Volume, s: Shape, s': Shape, req: Request, buf: seq<Byte>)
    requires Consistent(v, s) && WriteCode(v, s, req) == 0 && req.size == 0
    requires Inserts(v, s, MakeDir(v, req), s', req, buf)
    ensures DirFits(v, req)
  {
    WriteDirExact(v, s, req);
    if ClashesWithRoot(req) {
      ClashInsertsNothing(v, s, s', req);
      WriteCodeIsAbstract(v, s, req);
      InsertedIsThere(View(v, s), req, buf, View(MakeDir(v, req), s'));
    }
  }

  /** A directory that is accepted and inserted is found in its parent afterwards. */
  lemma InsertedIsThere(a: AbsFs, req: Request, buf: seq<Byte>, a': AbsFs)
    requires AbsStep(a, WriteCmd(req, buf), a') && req.size == 0
    requires req.parent in a && req.key !in a[req.parent] && |a[req.parent]| != SLOTS - 2
    ensures req.parent in a' && req.key in a'[req.parent]
  {
  }

  /** The volume after a write is consistent, and the abstract file system has gained what was written. */
  ghost predicate Inserts(v: Volume, s: Shape, v': Volume, s': Shape, req: Request, buf: seq<Byte>) {
    Consistent(v', s') && AbsStep(View(v, s), WriteCmd(req, buf), View(v', s'))
  }

  /** Creating "root" in the root leaves a root in which that name does not occur. */
  lemma ClashInsertsNothing(v: Volume, s: Shape, s': Shape, req: Request)
    requires Consistent(v, s) && WriteCode(v, s, req) == 0 && ClashesWithRoot(req)
    requires Consistent(MakeDir(v, req), s')
    ensures ROOT in View(MakeDir(v, req), s') && View(MakeDir(v, req), s')[ROOT] == map[]
  {
    ClashSteps(v, s, req);
    RootTableFresh();
    ViewKeys(MakeDir(v, req), s');
    FreshView(MakeDir(v, req), s', RootTable(), ROOT_NAME, ROOT, RootTable()[1]);
  }

  lemma StepDeleteDone(v: Volume, req: Request)
    requires WellFormed(v) && req.parent < DISK_CLUSTERS && DeleteCode(v, ShapeOf(v), req) == 0
    ensures WellFormed(Step(v, DeleteCmd(req)))
    ensures req.parent in AbsOf(v) && req.key in AbsOf(v)[req.parent]
    ensures var x := AbsOf(v)[req.parent][req.key];
      AbsOf(Step(v, DeleteCmd(req))) == Erase(AbsOf(v), req.parent, req.key) - if x.DirItem? then {x.id} else {}
  {
    var s := ShapeOf(v);
    DeleteRefines(v, s, req);
    AbsIs(Step(v, DeleteCmd(req)), DropShape(s, TargetHead(v, req)));
  }

  /** A delete that reports an error is one the abstract file system refuses. */
  lemma StepDeleteRefused(v: Volume, req: Request)
    requires WellFormed(v) && req.parent < DISK_CLUSTERS && DeleteCode(v, ShapeOf(v), req) != 0
    ensures AbsStep(AbsOf(v), DeleteCmd(req), AbsOf(v))
  {
    ViewKeys(v, ShapeOf(v));
    if req.parent in AbsOf(v) { DeleteCodeIsAbstract(v, ShapeOf(v), req); }
  }

  lemma StepDelete(v: Volume, req: Request)
    requires WellFormed(v) && Legal(v, DeleteCmd(req))
    ensures WellFormed(Step(v, DeleteCmd(req)))
    ensures AbsStep(AbsOf(v), DeleteCmd(req), AbsOf(Step(v, DeleteCmd(req))))
  {
    if DeleteCode(v, ShapeOf(v), req) != 0 {
      StepDeleteRefused(v, req);
    } else {
      StepDeleteDone(v, req);
      DeleteTarget(v, ShapeOf(v), req);
      DeleteCodeIsAbstract(v, ShapeOf(v), req);
      EraseMeans(AbsOf(v), req);
    }
  }

  lemma EraseMeans(a: AbsFs, req: Request)
    requires req.parent in a && req.key in a[req.parent]
    requires a[req.parent][req.key].DirItem? ==> a[req.parent][req.key].id in a && a[a[req.parent][req.key].id] == map[]
    ensures var x := a[req.parent][req.key];
      AbsStep(a, DeleteCmd(req), Erase(a, req.parent, req.key) - if x.DirItem? then {x.id} else {})
  {
    assert Erase(a, req.parent, req.key) - {} == Erase(a, req.parent, req.key);
  }

  /** Every legal command keeps the volume well-formed and does to it what the abstract step says. */
  lemma StepRefines(v: Volume, c: Command)
    requires WellFormed(v) && Legal(v, c)
    ensures WellFormed(Step(v, c)) && AbsStep(AbsOf(v), c, AbsOf(Step(v, c)))
  {
    match c
    case RemountCmd => RemountTransparent(v);
    case RebootCmd(memory) => RebootRestores(v, memory);
    case DeleteCmd(req) => StepDelete(v, req);
    case WriteCmd(req, buf) =>
      WriteCodeIsAbstract(v, ShapeOf(v), req);
      if WriteCode(v, ShapeOf(v), req) == 0 {
        if req.size > 0 { StepWriteFile(v, req, buf); } else { StepWriteDir(v, req, buf); }
      }
  }

  /** A sequence of commands, each legal where it is issued. */
  ghost predicate LegalRun(v: Volume, cs: seq<Command>)
    requires WellFormed(v)
    decreases |cs|
  {
    cs == [] || (Legal(v, cs[0]) && (StepRefines(v, cs[0]); LegalRun(Step(v, cs[0]), cs[1..])))
  }

  ghost function Run(v: Volume, cs: seq<Command>): Volume
    requires WellFormed(v) && LegalRun(v, cs)
    decreases |cs|
  {
    if cs == [] then v
    else
      StepRefines(v, cs[0]);
      Run(Step(v, cs[0]), cs[1..])
  }

  ghost predicate AbsRun(a: AbsFs, cs: seq<Command>, a': AbsFs)
    decreases |cs|
  {
    if cs == [] then a' == a
    else exists b :: AbsStep(a, cs[0], b) && AbsRun(b, cs[1..], a')
  }

  /** From any well-formed volume, every legal run stays well-formed and refines the abstract run. */
  lemma {:induction false} RunRefines(v: Volume, cs: seq<Command>)
    requires WellFormed(v) && LegalRun(v, cs)
    ensures WellFormed(Run(v, cs)) && AbsRun(AbsOf(v), cs, AbsOf(Run(v, cs)))
    ensures Mount(Run(v, cs)) == Run(v, cs)
    ensures forall memory :: Mount(RawVolume(memory, Run(v, cs).disk)) == Run(v, cs)
    decreases |cs|
  {
    if cs == [] {
      forall memory
        ensures Mount(RawVolume(memory, v.disk)) == v
      {
        RebootRestores(v, memory);
      }
    } else {
      StepRefines(v, cs[0]);
      RunRefines(Step(v, cs[0]), cs[1..]);
    }
  }

  /** In particular every legal run from a freshly formatted disk. */
  lemma FormattedRun(v: Volume, f: Volume, cs: seq<Command>)
    requires f == Format(v)
    ensures WellFormed(f)
    ensures LegalRun(f, cs) ==> WellFormed(Run(f, cs)) && AbsRun(map[ROOT := map[]], cs, AbsOf(Run(f, cs)))
  {
    FormatConsistent(v);
    AbsIs(f, FORMAT_SHAPE);
    if LegalRun(f, cs) { RunRefines(f, cs); }
  }
}
