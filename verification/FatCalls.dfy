/** The driver's calls in terms of whole runs: what the driver itself relies on. */
module FatCalls {
  import opened Words
  import opened FatLayout
  import opened Volumes
  import opened Floats
  import opened FatOps
  import opened AbsFiles
  import opened FatView
  import opened FatWrite
  import opened FatDelete
  import opened FatExact
  import opened FatRuns
  import opened FatPaths

  lemma SameCode(v: Volume, s: Shape, req: Request)
    requires Consistent(v, s)
    ensures WriteCode(v, ShapeOf(v), req) == WriteCode(v, s, req)
  {
    ShapeUnique(v, s, ShapeOf(v));
  }

  /** Exactly which successful writes leave a consistent volume. */
  ghost predicate WriteSound(v: Volume, req: Request) {
    if req.size > 0 then FileFits(v, req)
    else if ClashesWithRoot(req) then forall i :: 2 <= i < SLOTS ==> !Tab(v, ROOT)[i].Live()
    else DirFits(v, req)
  }

  lemma WriteOutcome(v: Volume, s: Shape, req: Request, needed: nat, buf: seq<Byte>)
    requires Consistent(v, s) && WriteCode(v, s, req) == 0
    requires needed == NeededClusters(req.size) && CLUSTER_SIZE * needed <= |buf|
    ensures WellFormed(FatOps.Write(v, s, req, needed, buf)) <==> WriteSound(v, req)
  {
    if req.size > 0 {
      WriteFileExact(v, s, req, needed, buf);
    } else {
      WriteDirExact(v, s, req);
    }
  }

  /** A write returns unless it is an accepted file write whose count the loop counter cannot exceed. */
  ghost predicate Returns(v: Volume, s: Shape, req: Request) {
    req.size > 0 && WriteCode(v, s, req) == 0 ==> NeededClusters(req.size) != 0xFFFF
  }

  /** That is exactly when the write loop, if it is entered, ends. */
  lemma ReturnsExact(v: Volume, s: Shape, req: Request)
    ensures Returns(v, s, req) <==>
      (req.size > 0 && WriteCode(v, s, req) == 0 ==> exists t :: Counter(t) > NeededClusters(req.size))
  {
    LoopEnds(NeededClusters(req.size));
  }

  /** Any accepted write of 0x7FF_F800 bytes stays in the loop for ever. */
  lemma EndlessWrite(v: Volume, s: Shape, req: Request)
    requires Consistent(v, s) && WriteCode(v, s, req) == 0 && req.size == 0x7FF_F800
    ensures NeededClusters(req.size) == 0xFFFF && !Returns(v, s, req)
    ensures forall t :: Counter(t) <= NeededClusters(req.size)
  {
    CountOfEndless();
  }

  /** What a write that fits does to the abstract file system. */
  lemma LegalWrite(v: Volume, s: Shape, s': Shape, req: Request, needed: nat, buf: seq<Byte>)
    requires Consistent(v, s) && Legal(v, WriteCmd(req, buf))
    requires needed == NeededClusters(req.size) && CLUSTER_SIZE * needed <= |buf|
    requires Consistent(FatOps.Write(v, s, req, needed, buf), s')
    ensures AbsStep(View(v, s), WriteCmd(req, buf), View(FatOps.Write(v, s, req, needed, buf), s'))
  {
    SameCode(v, s, req);
    StepRefines(v, WriteCmd(req, buf));
    AbsIs(v, s);
    AbsIs(FatOps.Write(v, s, req, needed, buf), s');
  }

  lemma LegalIsSound(v: Volume, s: Shape, req: Request, buf: seq<Byte>)
    requires Consistent(v, s) && Legal(v, WriteCmd(req, buf)) && WriteCode(v, s, req) == 0
    ensures WriteSound(v, req)
  {
    SameCode(v, s, req);
  }

  /** A legal write leaves a consistent volume, and whatever its layout is, it is an abstract step. */
  lemma LegalOutcome(v: Volume, s: Shape, s': Shape, req: Request, buf: seq<Byte>)
    requires Consistent(v, s) && Legal(v, WriteCmd(req, buf)) && CLUSTER_SIZE * NeededClusters(req.size) <= |buf|
    requires WriteCode(v, s, req) != 0 ==> s' == s
    requires WriteCode(v, s, req) == 0 && WriteSound(v, req) ==>
      Consistent(FatOps.Write(v, s, req, NeededClusters(req.size), buf), s')
    ensures Consistent(FatOps.Write(v, s, req, NeededClusters(req.size), buf), s')
    ensures AbsStep(View(v, s), WriteCmd(req, buf), View(FatOps.Write(v, s, req, NeededClusters(req.size), buf), s'))
  {
    if WriteCode(v, s, req) == 0 { LegalIsSound(v, s, req, buf); }
    LegalWrite(v, s, s', req, NeededClusters(req.size), buf);
  }

  /** The layout of the volume that a write leaves; if it leaves none, the old one. */
  lemma WrittenShape(v: Volume, s: Shape, req: Request, buf: seq<Byte>) returns (s': Shape)
    requires Consistent(v, s) && CLUSTER_SIZE * NeededClusters(req.size) <= |buf|
    ensures WriteCode(v, s, req) != 0 ==> s' == s
    ensures var v' := FatOps.Write(v, s, req, NeededClusters(req.size), buf);
      && (Consistent(v', s') <==> WriteCode(v, s, req) != 0 || WriteSound(v, req))
      && (Legal(v, WriteCmd(req, buf)) ==>
            Consistent(v', s') && AbsStep(View(v, s), WriteCmd(req, buf), View(v', s')))
  {
    var v' := FatOps.Write(v, s, req, NeededClusters(req.size), buf);
    s' := s;
    if WriteCode(v, s, req) == 0 {
      WriteOutcome(v, s, req, NeededClusters(req.size), buf);
      s' := if WellFormed(v') then ShapeOf(v') else s;
    }
    if Legal(v, WriteCmd(req, buf)) { LegalOutcome(v, s, s', req, buf); }
  }

  lemma SameDeleteCode(v: Volume, s: Shape, s': Shape, req: Request)
    requires req.parent < DISK_CLUSTERS && s'.rank.Keys == s.rank.Keys
    ensures DeleteCode(v, s', req) == DeleteCode(v, s, req)
  {
  }

  lemma SameDelete(v: Volume, s: Shape, req: Request)
    requires req.parent < DISK_CLUSTERS && Consistent(v, s)
    ensures FatDelete.Delete(v, ShapeOf(v), req) == FatDelete.Delete(v, s, req)
  {
    var s' := ShapeOf(v);
    ShapeUnique(v, s, s');
    SameDeleteCode(v, s, s', req);
    if DeleteCode(v, s, req) == 0 { DeleteTarget(v, s, req); }
  }

  lemma LegalDelete(v: Volume, s: Shape, s': Shape, req: Request)
    requires req.parent < DISK_CLUSTERS && Consistent(v, s)
    requires Consistent(FatDelete.Delete(v, s, req), s')
    ensures AbsStep(View(v, s), DeleteCmd(req), View(FatDelete.Delete(v, s, req), s'))
  {
    AbsIs(v, s);
    SameDelete(v, s, req);
    StepDelete(v, req);
    AbsIs(FatDelete.Delete(v, s, req), s');
  }

  /** What a delete answers in a directory, in terms of the files. */
  lemma DeleteAnswers(v: Volume, s: Shape, req: Request)
    requires Consistent(v, s) && req.parent < DISK_CLUSTERS && req.parent in View(v, s)
    ensures DeleteCode(v, s, req) == var a := View(v, s); var dir := a[req.parent];
      if req.key !in dir then 1
      else if dir[req.key].DirItem? && dir[req.key].id in a && a[dir[req.key].id] != map[] then 2
      else 0
    ensures DeleteCode(v, s, req) == 0 ==> Erasable(View(v, s), req)
  {
    ViewKeys(v, s);
    DeleteCodeIsAbstract(v, s, req);
  }

  lemma DeleteHasParent(v: Volume, s: Shape, req: Request)
    requires Consistent(v, s) && req.parent < DISK_CLUSTERS && DeleteCode(v, s, req) == 0
    ensures req.parent in View(v, s)
  {
    ViewKeys(v, s);
  }

  /** The name is a file's, or that of an empty directory. */
  predicate Erasable(a: AbsFs, req: Request) {
    && req.parent in a && req.key in a[req.parent]
    && (a[req.parent][req.key].DirItem? ==>
          a[req.parent][req.key].id in a && a[a[req.parent][req.key].id] == map[])
  }

  /** A name that was erased is in its directory no more. */
  lemma ErasedIsGone(a: AbsFs, a': AbsFs, req: Request)
    requires Erasable(a, req) && AbsStep(a, DeleteCmd(req), a')
    ensures req.parent in a' && req.key !in a'[req.parent]
  {
  }

  lemma DeleteWellFormed(v: Volume, s: Shape, req: Request)
    requires req.parent < DISK_CLUSTERS && Consistent(v, s)
    ensures WellFormed(FatDelete.Delete(v, s, req))
  {
    if DeleteCode(v, s, req) == 0 { DeleteRefines(v, s, req); }
  }

  lemma ChainDistinct(v: Volume, s: Shape, h: nat)
    requires Consistent(v, s) && h in s.chains
    ensures IsChain(v.fat, s.chains[h]) && s.chains[h][0] == h
    ensures forall i, j :: 0 <= i < j < |s.chains[h]| ==> s.chains[h][i] != s.chains[h][j]
  {
    forall i, j | 0 <= i < j < |s.chains[h]|
      ensures s.chains[h][i] != s.chains[h][j]
    {
      assert s.own[s.chains[h][i]] == Pos(h, i) && s.own[s.chains[h][j]] == Pos(h, j);
    }
  }

  /** The chain that a delete frees, and the volume it leaves. */
  lemma TargetChain(v: Volume, s: Shape, req: Request)
    requires Consistent(v, s) && req.parent < DISK_CLUSTERS && DeleteCode(v, s, req) == 0
    ensures 2 <= TargetSlot(v, req) < SLOTS && TargetHead(v, req) in s.chains
    ensures var ch := s.chains[TargetHead(v, req)];
      && IsChain(v.fat, ch) && ch[0] == TargetHead(v, req)
      && (forall i, j :: 0 <= i < j < |ch| ==> ch[i] != ch[j])
  {
    DeleteTarget(v, s, req);
    ChainDistinct(v, s, TargetHead(v, req));
  }

  lemma DeleteIs(v: Volume, s: Shape, req: Request)
    requires Consistent(v, s) && req.parent < DISK_CLUSTERS && DeleteCode(v, s, req) == 0
    requires 2 <= TargetSlot(v, req) < SLOTS && TargetHead(v, req) in s.chains
    requires IsChain(v.fat, s.chains[TargetHead(v, req)])
    ensures FatDelete.Delete(v, s, req) ==
      PutFat(PutTable(v, req.parent, Tab(v, req.parent)[TargetSlot(v, req) := ZERO_ENTRY]),
             ClearChain(v.fat, s.chains[TargetHead(v, req)]))
  {
  }

  /** What a buffer that begins with `data` begins with. */
  lemma PrefixOf(buf: seq<Byte>, data: seq<Byte>, n: nat)
    requires n <= |data| <= |buf| && buf[..|data|] == data
    ensures buf[..n] == data[..n]
  {
    assert buf[..n] == buf[..|data|][..n];
  }

  /** What a directory entry met by `is_directory` leads to. */
  lemma VisitChild(t: Tables, s: Shape, q: nat, i: nat, target: nat)
    requires TreeOk(t, s) && q in s.rank && q < DISK_CLUSTERS && 2 <= i < SLOTS && t[q][i].IsDir()
    ensures var c := t[q][i].ClusterNo();
      && c in s.rank && s.rank[q] < s.rank[c] < s.clock && Up(s, c) == q && Under(t, s, c, c)
      && (Under(t, s, c, target) ==> Under(t, s, q, target))
  {
    ChildSlot(t, s, q, i);
    ReservedSlots(t, s, t[q][i].ClusterNo());
    if Under(t, s, t[q][i].ClusterNo(), target) { ChildUnder(t, s, q, i, target); }
  }
}
