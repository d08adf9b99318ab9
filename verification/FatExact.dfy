/**
 Exactly when a write that reports success leaves a file system behind: never when the disk is
 too full, the size overflows the 16-bit cluster count, the name is all zeroes, or a directory
 "root" is put into a root that is not empty.
 */
module FatExact {
  import opened Words
  import opened FatLayout
  import opened Volumes
  import opened Floats
  import opened FatOps
  import opened FatChains
  import opened FatTree
  import opened FatView
  import opened FatWrite

  // ----- the layout of a volume is determined by the volume

  lemma {:induction false} SameDirectory(v: Volume, s: Shape, s': Shape, d: nat)
    requires Consistent(v, s) && Consistent(v, s') && d in s.rank
    ensures d in s'.rank
    decreases s.rank[d]
  {
    if d != ROOT {
      assert DirOk(Tabs(v), s, d) && HeadOk(Tabs(v), s, d);
      var l := s.loc[d];
      SameDirectory(v, s, s', l.parent);
      assert SlotOk(Tabs(v), s', l.parent, l.slot) && HeadOk(Tabs(v), s', d);
    }
  }

  lemma SameHead(v: Volume, s: Shape, s': Shape, h: nat)
    requires Consistent(v, s) && Consistent(v, s') && h in s.loc
    ensures h in s'.loc && s'.loc[h] == s.loc[h]
  {
    assert HeadOk(Tabs(v), s, h);
    var l := s.loc[h];
    SameDirectory(v, s, s', l.parent);
    assert SlotOk(Tabs(v), s', l.parent, l.slot);
  }

  lemma SameChain(v: Volume, s: Shape, s': Shape, h: nat)
    requires Consistent(v, s) && Consistent(v, s') && h in s.chains && h in s'.chains
    ensures s'.chains[h] == s.chains[h]
  {
    ChainUnique(v.fat, s.chains[h], s'.chains[h]);
  }

  lemma SubShape(v: Volume, s: Shape, s': Shape)
    requires Consistent(v, s) && Consistent(v, s')
    ensures s.rank.Keys <= s'.rank.Keys
    ensures forall h :: h in s.loc ==> h in s'.loc && s'.loc[h] == s.loc[h]
  {
    forall d | d in s.rank ensures d in s'.rank { SameDirectory(v, s, s', d); }
    forall h | h in s.loc ensures h in s'.loc && s'.loc[h] == s.loc[h] { SameHead(v, s, s', h); }
  }

  lemma SameLocs(v: Volume, s: Shape, s': Shape)
    requires Consistent(v, s) && Consistent(v, s')
    ensures s'.rank.Keys == s.rank.Keys && s'.loc == s.loc && s'.chains.Keys == s.chains.Keys
  {
    SubShape(v, s, s');
    SubShape(v, s', s);
    ChainHeads(v, s);
    ChainHeads(v, s');
    SameShapes(s, s');
  }

  /** Two shapes that contain each other. */
  lemma SameShapes(s: Shape, s': Shape)
    requires s.rank.Keys <= s'.rank.Keys <= s.rank.Keys
    requires forall h :: h in s.loc ==> h in s'.loc && s'.loc[h] == s.loc[h]
    requires forall h :: h in s'.loc ==> h in s.loc
    requires s.chains.Keys == s.loc.Keys + {ROOT} && s'.chains.Keys == s'.loc.Keys + {ROOT}
    ensures s'.rank.Keys == s.rank.Keys && s'.loc == s.loc && s'.chains.Keys == s.chains.Keys
  {
    SameMaps(s.loc, s'.loc);
  }

  lemma ChainHeads(v: Volume, s: Shape)
    requires Consistent(v, s)
    ensures s.chains.Keys == s.loc.Keys + {ROOT}
  {
  }

  lemma SameMaps(m: map<nat, Loc>, m': map<nat, Loc>)
    requires forall h :: h in m ==> h in m' && m'[h] == m[h]
    requires forall h :: h in m' ==> h in m
    ensures m' == m
  {
  }

  lemma SameChains(v: Volume, s: Shape, s': Shape)
    requires Consistent(v, s) && Consistent(v, s') && s'.chains.Keys == s.chains.Keys
    ensures s'.chains == s.chains
  {
    forall h | h in s.chains ensures s'.chains[h] == s.chains[h] { SameChain(v, s, s', h); }
  }

  /** Two layouts of one volume have the same directories, entries and chains, and so the same view. */
  lemma ShapeUnique(v: Volume, s: Shape, s': Shape)
    requires Consistent(v, s) && Consistent(v, s')
    ensures s'.rank.Keys == s.rank.Keys && s'.loc == s.loc && s'.chains == s.chains
    ensures View(v, s') == View(v, s)
  {
    SameLocs(v, s, s');
    SameChains(v, s, s');
    ViewKeys(v, s);
    SameViews(v, s, s');
  }

  lemma SameDirViews(v: Volume, s: Shape, s': Shape, t: Table)
    requires s'.chains == s.chains
    ensures DirView(v, s', t) == DirView(v, s, t)
  {
    forall e: Entry
      ensures ItemOf(v, s', e) == ItemOf(v, s, e)
    {
    }
  }

  lemma SameViews(v: Volume, s: Shape, s': Shape)
    requires s'.rank.Keys == s.rank.Keys && s'.chains == s.chains
    requires View(v, s).Keys == s.rank.Keys && forall d :: d in s.rank ==> d < DISK_CLUSTERS
    ensures View(v, s') == View(v, s)
  {
    forall d: nat | d in s'.rank && d < DISK_CLUSTERS
      ensures DirView(v, s', Tabs(v)[d]) == View(v, s)[d]
    {
      SameDirViews(v, s, s', Tabs(v)[d]);
    }
    ViewIs(v, s', View(v, s));
  }

  // ----- files

  /** Every layout of the new volume still has the old directories. */
  lemma {:induction false} OldDirsRemain(t: Tables, t': Tables, s: Shape, s': Shape, p: nat, slot: nat, e: Entry,
                                         d: nat)
    requires TreeOk(t, s) && OnlySlot(t, t', s, p, slot, e) && !t[p][slot].Live()
    requires TreeOk(t', s') && d in s.rank
    ensures d in s'.rank
    decreases s.rank[d]
  {
    if d != ROOT {
      assert DirOk(t, s, d) && HeadOk(t, s, d);
      var l := s.loc[d];
      OldDirsRemain(t, t', s, s', p, slot, e, l.parent);
      assert SlotOk(t', s', l.parent, l.slot) && HeadOk(t', s', d);
    }
  }

  /** ... so the new entry must satisfy the invariant: a usable name and a chain as long as its size says. */
  lemma NewEntryMustFit(t: Tables, t': Tables, s: Shape, s': Shape, p: nat, slot: nat, e: Entry)
    requires TreeOk(t, s) && OnlySlot(t, t', s, p, slot, e) && !t[p][slot].Live()
    requires TreeOk(t', s') && e.Live()
    ensures e.key != ZERO_KEY && e.ClusterNo() in s'.chains
    ensures !e.IsDir() ==> |s'.chains[e.ClusterNo()]| == CeilDiv(e.filesize, CLUSTER_SIZE)
  {
    OldDirsRemain(t, t', s, s', p, slot, e, p);
    assert SlotOk(t', s', p, slot) && HeadOk(t', s', e.ClusterNo());
  }

  lemma Overrun(v: Volume, s: Shape, req: Request, needed: nat, buf: seq<Byte>)
    requires WriteCode(v, s, req) == 0 && |FreeClusters(v.fat)| < needed && CLUSTER_SIZE * needed <= |buf|
    ensures MakeFile(v, req, needed, buf).fat[0] != CLUSTER_0_VALUE
  {
    var c := FirstFree(v.fat);
    FillLinks(AddEntry(v, req, c), c, 0, needed, buf);
    LinkOverruns(v.fat, c, 0, needed);
  }

  lemma ShortWrite(v: Volume, s: Shape, s': Shape, req: Request, needed: nat, buf: seq<Byte>)
    requires Consistent(v, s) && WriteCode(v, s, req) == 0 && req.size > 0
    requires needed <= |FreeClusters(v.fat)| && CLUSTER_SIZE * needed <= |buf|
    requires Consistent(MakeFile(v, req, needed, buf), s')
    ensures req.key != ZERO_KEY && CeilDiv(req.size, CLUSTER_SIZE) == needed
  {
    var v', p, slot, c := MakeFile(v, req, needed, buf), req.parent, FreeSlot(Tab(v, req.parent)), FirstFree(v.fat);
    NewEntryFacts(req, c);
    if needed == 0 {
      EntryOnly(v, s, req, c);
      NewEntryMustFit(Tabs(v), Tabs(v'), s, s', p, slot, NewEntry(req, c));
      HeadInUse(v', s', c);
      assert false;
    } else {
      var ch := FileLayout(v, s, req, needed, buf);
      LayoutTables(v, v', s, p, slot, NewEntry(req, c), ch);
      NewEntryMustFit(Tabs(v), Tabs(v'), s, s', p, slot, NewEntry(req, c));
      ChainUnique(v'.fat, ch, s'.chains[c]);
    }
  }

  lemma HeadInUse(v: Volume, s: Shape, h: nat)
    requires Consistent(v, s) && h in s.chains
    ensures 2 <= h < CLUSTER_MAP_SIZE && v.fat[h] != EMPTY
  {
    assert s.chains[h][0] in s.own && IsChain(v.fat, s.chains[h]);
  }

  lemma EntryOnly(v: Volume, s: Shape, req: Request, c: nat)
    requires Consistent(v, s) && WriteCode(v, s, req) == 0
    ensures OnlySlot(Tabs(v), Tabs(AddEntry(v, req, c)), s, req.parent, FreeSlot(Tab(v, req.parent)), NewEntry(req, c))
  {
    var t := Tab(v, req.parent);
    TableRoundTrip(t[FreeSlot(t) := NewEntry(req, c)]);
  }

  /**
   A file write that reports success leaves a consistent volume if and only if its name is not
   all zeroes and there was room for the whole file.
   */
  lemma WriteFileExact(v: Volume, s: Shape, req: Request, needed: nat, buf: seq<Byte>)
    requires Consistent(v, s) && WriteCode(v, s, req) == 0 && req.size > 0
    requires needed == NeededClusters(req.size) && CLUSTER_SIZE * needed <= |buf|
    ensures WellFormed(MakeFile(v, req, needed, buf)) <==> FileFits(v, req)
  {
    var v' := MakeFile(v, req, needed, buf);
    if FileFits(v, req) {
      NeededWhenFits(v, req);
      var s', ch := MakeFileRefines(v, s, req, needed, buf);
      assert Consistent(v', s');
    } else if needed > |FreeClusters(v.fat)| {
      Overrun(v, s, req, needed, buf);
    } else if s' :| Consistent(v', s') {
      ShortWrite(v, s, s', req, needed, buf);
    }
  }

  // ----- directories

  /** If a volume has any entry at all, its root directory has one. */
  lemma {:induction false} RootHasEntry(t: Tables, s: Shape, x: nat)
    requires TreeOk(t, s) && x in s.loc
    ensures exists i :: 2 <= i < SLOTS && t[ROOT][i].Live()
    decreases if s.loc[x].parent in s.rank then s.rank[s.loc[x].parent] else 0
  {
    assert HeadOk(t, s, x);
    var q := s.loc[x].parent;
    assert DirOk(t, s, q);
    if q != ROOT {
      assert HeadOk(t, s, q);
      RootHasEntry(t, s, q);
    }
  }

  /** Creating "root" in the root replaces the root directory by an empty one and changes nothing else. */
  lemma ClashSteps(v: Volume, s: Shape, req: Request)
    requires Consistent(v, s) && WriteCode(v, s, req) == 0 && ClashesWithRoot(req)
    ensures MakeDir(v, req) == PutTable(v, ROOT, RootTable())
    ensures Tabs(MakeDir(v, req)) == Tabs(v)[ROOT := RootTable()]
  {
    assert v.fat[ROOT] == END_OF_FILE by {
      assert DirOk(Tabs(v), s, ROOT) && IsChain(v.fat, s.chains[ROOT]);
    }
    ClashVolume(v, req);
    TableRoundTrip(RootTable());
  }

  lemma ClashVolume(v: Volume, req: Request)
    requires ClashesWithRoot(req) && FreeSlot(Tab(v, ROOT)) < SLOTS
    requires v.fat == DecodeFat(v.disk[FAT_CLUSTER]) && v.fat[ROOT] == END_OF_FILE
    ensures MakeDir(v, req) == PutTable(v, ROOT, RootTable())
  {
    NewTableCluster(v, req.key.name, req.parent);
    FatBytesOnto(v.disk[FAT_CLUSTER]);
    var v1 := AddEntry(v, req, ROOT);
    assert v1.disk[FAT_CLUSTER] == v.disk[FAT_CLUSTER];
    assert v.fat[ROOT := END_OF_FILE] == v.fat;
    assert v1.disk[FAT_CLUSTER := v.disk[FAT_CLUSTER]] == v1.disk;
    assert v1.disk[ROOT := EncodeTable(RootTable())] == v.disk[ROOT := EncodeTable(RootTable())];
  }

  lemma RootTableFresh()
    ensures FreshTable(RootTable(), ROOT_NAME, ROOT, RootTable()[1])
    ensures RootTable()[1].Live() && RootTable()[1].IsDir() && RootTable()[1].ClusterNo() == ROOT
  {
  }

  lemma ClearedRootTree(t: Tables, t': Tables, s: Shape)
    requires TreeOk(t, s) && NamesOk(t, s) && s.loc == map[]
    requires t' == t[ROOT := RootTable()]
    ensures TreeOk(t', s) && NamesOk(t', s)
  {
    RootTableFresh();
    forall d | d in s.rank
      ensures DirOk(t', s, d)
    {
      assert DirOk(t, s, d);
    }
    forall p: nat, i: nat | p in s.rank && 2 <= i < SLOTS && p < DISK_CLUSTERS
      ensures SlotOk(t', s, p, i)
    {
      assert SlotOk(t, s, p, i);
    }
    forall p: nat | p in s.rank && p < DISK_CLUSTERS
      ensures UniqueKeys(t'[p])
    {
      assert UniqueKeys(t[p]);
    }
  }

  lemma ClashKeeps(v: Volume, s: Shape, req: Request)
    requires Consistent(v, s) && WriteCode(v, s, req) == 0 && ClashesWithRoot(req)
    requires forall i :: 2 <= i < SLOTS ==> !Tab(v, ROOT)[i].Live()
    ensures Consistent(MakeDir(v, req), s)
  {
    ClashSteps(v, s, req);
    assert s.loc == map[] by {
      if x :| x in s.loc { RootHasEntry(Tabs(v), s, x); }
    }
    ClearedRootTree(Tabs(v), Tabs(MakeDir(v, req)), s);
  }

  /** A used cluster other than the root's belongs to some entry. */
  lemma UsedHasHead(v: Volume, s: Shape, c: nat)
    requires Consistent(v, s) && 2 < c < CLUSTER_MAP_SIZE && v.fat[c] != EMPTY
    ensures exists x :: x in s.loc
  {
    assert OwnerOk(s.chains, s.own, c);
    assert DirOk(Tabs(v), s, ROOT);
    assert s.own[c].head in s.loc;
  }

  lemma RootEntryUses(v: Volume, s: Shape, i: nat) returns (h: nat)
    requires Consistent(v, s) && 2 <= i < SLOTS && Tab(v, ROOT)[i].Live()
    ensures 2 < h < CLUSTER_MAP_SIZE && v.fat[h] != EMPTY
  {
    h := Tabs(v)[ROOT][i].ClusterNo();
    assert h in s.loc by { assert SlotOk(Tabs(v), s, ROOT, i); }
    assert h in s.chains && h != ROOT;
    HeadInUse(v, s, h);
  }

  /** The clusters of the entries that the new root forgets stay used, so there must have been none. */
  lemma ClashMustBeEmpty(v: Volume, s: Shape, s': Shape, req: Request, i: nat)
    requires Consistent(v, s) && WriteCode(v, s, req) == 0 && ClashesWithRoot(req)
    requires Consistent(MakeDir(v, req), s') && 2 <= i < SLOTS
    ensures !Tab(v, ROOT)[i].Live()
  {
    if Tab(v, ROOT)[i].Live() {
      ClashSteps(v, s, req);
      RootTableFresh();
      var h := RootEntryUses(v, s, i);
      UsedHasHead(MakeDir(v, req), s', h);
      var x :| x in s'.loc;
      RootHasEntry(Tabs(MakeDir(v, req)), s', x);
    }
  }

  /**
   A directory creation that reports success leaves a consistent volume if and only if a cluster
   was free, the name is not all zeroes, and it is not "root" in a root that has entries.
   */
  lemma WriteDirExact(v: Volume, s: Shape, req: Request)
    requires Consistent(v, s) && WriteCode(v, s, req) == 0 && req.size == 0
    ensures WellFormed(MakeDir(v, req)) <==>
      if ClashesWithRoot(req) then forall i :: 2 <= i < SLOTS ==> !Tab(v, ROOT)[i].Live()
      else DirFits(v, req)
  {
    var v' := MakeDir(v, req);
    if s' :| Consistent(v', s') {
      if ClashesWithRoot(req) {
        forall i: nat | 2 <= i < SLOTS { ClashMustBeEmpty(v, s, s', req, i); }
      } else {
        DirMustFit(v, s, s', req);
      }
    } else if ClashesWithRoot(req) {
      if forall i :: 2 <= i < SLOTS ==> !Tab(v, ROOT)[i].Live() { ClashKeeps(v, s, req); }
    } else if DirFits(v, req) {
      var s', c := MakeDirRefines(v, s, req);
    }
  }

  lemma DirMustFit(v: Volume, s: Shape, s': Shape, req: Request)
    requires Consistent(v, s) && WriteCode(v, s, req) == 0 && req.size == 0 && !ClashesWithRoot(req)
    requires Consistent(MakeDir(v, req), s')
    ensures DirFits(v, req)
  {
    var c := FirstFree(v.fat);
    FirstFreeIff(v.fat);
    if c == 0 {
      DirsUsed(v, s, req.parent);
      MakeDirSteps(v, req);
      assert false;
    }
    DirNameMustFit(v, s, s', req, c);
  }

  lemma DirNameMustFit(v: Volume, s: Shape, s': Shape, req: Request, c: nat)
    requires Consistent(v, s) && WriteCode(v, s, req) == 0 && req.size == 0 && !ClashesWithRoot(req)
    requires Consistent(MakeDir(v, req), s') && c == FirstFree(v.fat) != 0
    ensures req.key != ZERO_KEY
  {
    MadeDirTables(v, s, req, c);
    NewEntryFacts(req, c);
    NewEntryMustFit(Tabs(v), Tabs(MakeDir(v, req)), s, s', req.parent, FreeSlot(Tab(v, req.parent)), NewEntry(req, c));
  }

  lemma MadeDirTables(v: Volume, s: Shape, req: Request, c: nat)
    requires Consistent(v, s) && WriteCode(v, s, req) == 0 && req.size == 0 && !ClashesWithRoot(req)
    requires c == FirstFree(v.fat) != 0
    ensures OnlySlot(Tabs(v), Tabs(MakeDir(v, req)), s, req.parent, FreeSlot(Tab(v, req.parent)), NewEntry(req, c))
  {
    DirLayout(v, s, req, c);
    LayoutTables(v, MakeDir(v, req), s, req.parent, FreeSlot(Tab(v, req.parent)), NewEntry(req, c), [c]);
  }
}
