/** Writing files and directories: consistency, the exact conditions for it, and refinement. */
module FatWrite {
  import opened Words
  import opened FatLayout
  import opened Volumes
  import opened Floats
  import opened FatOps
  import opened AbsFiles
  import opened FatChains
  import opened FatTree
  import opened FatView

  // ----- result codes, as the abstract failure cases

  function KeysBelow(t: Table, i: nat): (r: set<Key>)
    requires 2 <= i <= SLOTS
  {
    if i == 2 then {}
    else if t[i - 1].Live() then KeysBelow(t, i - 1) + {t[i - 1].key}
    else KeysBelow(t, i - 1)
  }

  lemma {:induction false} KeysBelowAre(t: Table, i: nat, k: Key)
    requires 2 <= i <= SLOTS
    ensures k in KeysBelow(t, i) <==> exists j :: 2 <= j < i && t[j].Live() && t[j].key == k
  {
    if i > 2 { KeysBelowAre(t, i - 1, k); }
  }

  predicate LiveBelow(t: Table, i: nat)
    requires i <= SLOTS
  {
    forall j :: 2 <= j < i ==> t[j].Live()
  }

  lemma {:induction false} KeyCount(t: Table, i: nat)
    requires UniqueKeys(t) && 2 <= i <= SLOTS
    ensures |KeysBelow(t, i)| <= i - 2
    ensures |KeysBelow(t, i)| == i - 2 <==> LiveBelow(t, i)
  {
    if i > 2 {
      KeyCount(t, i - 1);
      KeysBelowAre(t, i - 1, t[i - 1].key);
      assert LiveBelow(t, i) <==> LiveBelow(t, i - 1) && t[i - 1].Live();
    }
  }

  lemma LiveKeysBelow(t: Table)
    ensures LiveKeys(t) == KeysBelow(t, SLOTS)
  {
    forall k: Key
      ensures k in LiveKeys(t) <==> k in KeysBelow(t, SLOTS)
    {
      KeysBelowAre(t, SLOTS, k);
    }
  }

  /** A directory table is full exactly when it names 62 entries. */
  lemma FullTable(t: Table)
    requires UniqueKeys(t)
    ensures FreeSlot(t) == SLOTS <==> |LiveKeys(t)| == SLOTS - 2
    ensures |LiveKeys(t)| <= SLOTS - 2
  {
    KeyCount(t, SLOTS);
    LiveKeysBelow(t);
    assert FreeSlot(t) == SLOTS <==> LiveBelow(t, SLOTS);
  }

  /** `write` refuses exactly an unknown parent, a name already present and a full directory. */
  lemma WriteCodeIsAbstract(v: Volume, s: Shape, req: Request)
    requires Consistent(v, s)
    ensures var a := View(v, s);
      WriteCode(v, s, req) ==
        if req.parent !in a then 2
        else if req.key in a[req.parent] then 1
        else if |a[req.parent]| == SLOTS - 2 then -1
        else 0
  {
    ViewKeys(v, s);
    if req.parent in s.rank {
      KeyLookup(v, s, req.parent, req.key);
      FullDirectory(v, s, req.parent);
    }
  }

  /** A directory's table is full exactly when the directory has 62 entries. */
  lemma FullDirectory(v: Volume, s: Shape, p: nat)
    requires Consistent(v, s) && p in s.rank && p < DISK_CLUSTERS
    ensures p in View(v, s) && (FreeSlot(Tab(v, p)) == SLOTS <==> |View(v, s)[p]| == SLOTS - 2)
    ensures |View(v, s)[p]| <= SLOTS - 2
  {
    assert UniqueKeys(Tabs(v)[p]);
    FullTable(Tabs(v)[p]);
    assert View(v, s)[p].Keys == LiveKeys(Tabs(v)[p]);
  }

  // ----- laying out a new chain and its entry

  lemma LayoutBoot(v: Volume, v': Volume, s: Shape, p: nat, slot: nat, e: Entry, ch: seq<nat>)
    requires Consistent(v, s) && p in s.rank && LaidOut(v, v', p, slot, e, ch)
    ensures BootOk(v')
  {
    DirsUsed(v, s, p);
    FatRoundTrip(v'.fat);
  }

  lemma LayoutTables(v: Volume, v': Volume, s: Shape, p: nat, slot: nat, e: Entry, ch: seq<nat>)
    requires Consistent(v, s) && p in s.rank && LaidOut(v, v', p, slot, e, ch)
    ensures OnlySlot(Tabs(v), Tabs(v'), s, p, slot, e)
  {
    DirsUsed(v, s, p);
    TableRoundTrip(Tab(v, p)[slot := e]);
    forall d: nat | d in s.rank && d < DISK_CLUSTERS && d != p
      ensures Tabs(v')[d] == Tabs(v)[d]
    {
      LayoutOther(v, v', s, p, slot, e, ch, d);
    }
  }

  /** The table of another directory stays. */
  lemma LayoutOther(v: Volume, v': Volume, s: Shape, p: nat, slot: nat, e: Entry, ch: seq<nat>, d: nat)
    requires Consistent(v, s) && LaidOut(v, v', p, slot, e, ch) && d in s.rank && d < DISK_CLUSTERS && d != p
    ensures v'.disk[d] == v.disk[d]
  {
    DirsUsed(v, s, d);
  }

  lemma LayoutKeeps(v: Volume, v': Volume, s: Shape, s': Shape, p: nat, slot: nat, e: Entry, ch: seq<nat>, h: nat)
    requires Consistent(v, s) && p in s.rank && LaidOut(v, v', p, slot, e, ch)
    requires s'.chains == s.chains[ch[0] := ch]
    requires h in s.chains && h !in s.rank
    ensures SameFile(v, v', s, s', h)
  {
    forall i | 0 <= i < |s.chains[h]|
      ensures s.chains[h][i] < DISK_CLUSTERS && v'.disk[s.chains[h][i]] == v.disk[s.chains[h][i]]
      ensures s.chains[h][i] !in ch
    {
      ChainAvoidsDirs(v, s, h, i);
    }
    assert s.chains[h][0] == h;
  }

  lemma LayoutKeepsAll(v: Volume, v': Volume, s: Shape, s': Shape, p: nat, slot: nat, e: Entry, ch: seq<nat>, d: nat)
    requires Consistent(v, s) && p in s.rank && LaidOut(v, v', p, slot, e, ch)
    requires s'.chains == s.chains[ch[0] := ch]
    requires d in s.rank && d < DISK_CLUSTERS
    ensures SameFilesIn(v, v', s, s', Tabs(v)[d])
  {
    var t := Tabs(v)[d];
    forall i | 2 <= i < SLOTS && t[i].Live() && !t[i].IsDir()
      ensures SameFile(v, v', s, s', t[i].ClusterNo())
    {
      assert SlotOk(Tabs(v), s, d, i) && HeadOk(Tabs(v), s, t[i].ClusterNo());
      LayoutKeeps(v, v', s, s', p, slot, e, ch, t[i].ClusterNo());
    }
  }

  ghost function DirWith(v: Volume, s: Shape, p: nat, k: Key, x: Item, d: nat): Dir
    requires d < DISK_CLUSTERS
  {
    var before := DirView(v, s, Tabs(v)[d]);
    if d == p then before[k := x] else before
  }

  lemma WriteVacant(v: Volume, s: Shape, req: Request)
    requires WriteCode(v, s, req) == 0
    ensures Vacant(v, s, req.parent, FreeSlot(Tab(v, req.parent)), req.key)
  {
  }

  lemma LayoutDirView(v: Volume, v': Volume, s: Shape, s': Shape, p: nat, slot: nat, e: Entry, ch: seq<nat>, d: nat)
    requires Consistent(v, s) && Vacant(v, s, p, slot, e.key) && LaidOut(v, v', p, slot, e, ch)
    requires s'.chains == s.chains[ch[0] := ch] && e.Live() && e.key != ZERO_KEY
    requires d in s.rank && d < DISK_CLUSTERS
    ensures DirView(v', s', Tabs(v')[d]) == DirWith(v, s, p, e.key, ItemOf(v', s', e), d)
  {
    LayoutTables(v, v', s, p, slot, e, ch);
    TableShape(Tabs(v), s, d);
    LayoutKeepsAll(v, v', s, s', p, slot, e, ch, d);
    if d == p {
      DirViewAdd(v, v', s, s', Tabs(v)[d], slot, e);
    } else {
      DirViewSame(v, v', s, s', Tabs(v)[d]);
    }
  }

  /** Directory by directory, the view is the old one with `e` inserted. */
  lemma LayoutInsert(v: Volume, v': Volume, s: Shape, s': Shape, p: nat, slot: nat, e: Entry, ch: seq<nat>)
    returns (a: AbsFs)
    requires Consistent(v, s) && Vacant(v, s, p, slot, e.key) && LaidOut(v, v', p, slot, e, ch)
    requires s'.chains == s.chains[ch[0] := ch] && e.Live() && e.key != ZERO_KEY
    ensures p in View(v, s) && a == Insert(View(v, s), p, e.key, ItemOf(v', s', e))
    ensures a.Keys == s.rank.Keys && forall d :: d in s.rank ==> d < DISK_CLUSTERS
    ensures forall d: nat :: d in s.rank && d < DISK_CLUSTERS ==> DirView(v', s', Tabs(v')[d]) == a[d]
  {
    InsertKeys(v, s, p, e.key, ItemOf(v', s', e));
    a := Insert(View(v, s), p, e.key, ItemOf(v', s', e));
    forall d: nat | d in s.rank && d < DISK_CLUSTERS
      ensures DirView(v', s', Tabs(v')[d]) == a[d]
    {
      InsertedDirView(v, v', s, s', p, slot, e, ch, d);
    }
  }

  lemma InsertKeys(v: Volume, s: Shape, p: nat, k: Key, x: Item)
    requires Consistent(v, s) && p in s.rank
    ensures p in View(v, s) && Insert(View(v, s), p, k, x).Keys == s.rank.Keys
    ensures forall d :: d in s.rank ==> d < DISK_CLUSTERS
  {
    ViewKeys(v, s);
  }

  lemma InsertedDirView(v: Volume, v': Volume, s: Shape, s': Shape, p: nat, slot: nat, e: Entry, ch: seq<nat>, d: nat)
    requires Consistent(v, s) && Vacant(v, s, p, slot, e.key) && LaidOut(v, v', p, slot, e, ch)
    requires s'.chains == s.chains[ch[0] := ch] && e.Live() && e.key != ZERO_KEY
    requires d in s.rank && d < DISK_CLUSTERS
    ensures p in View(v, s) && d in Insert(View(v, s), p, e.key, ItemOf(v', s', e))
    ensures DirView(v', s', Tabs(v')[d]) == Insert(View(v, s), p, e.key, ItemOf(v', s', e))[d]
  {
    LayoutDirView(v, v', s, s', p, slot, e, ch, d);
    InsertAt(v, s, p, e.key, ItemOf(v', s', e), d);
  }

  lemma InsertAt(v: Volume, s: Shape, p: nat, k: Key, x: Item, d: nat)
    requires p in s.rank && p < DISK_CLUSTERS && d in s.rank && d < DISK_CLUSTERS
    ensures Insert(View(v, s), p, k, x)[d] == DirWith(v, s, p, k, x, d)
  {
  }

  // ----- files

  /** What the caller has to see to: a usable name and room for the whole file. */
  predicate FileFits(v: Volume, req: Request) {
    req.key != ZERO_KEY && CeilDiv(req.size, CLUSTER_SIZE) <= |FreeClusters(v.fat)|
  }

  lemma NeededWhenFits(v: Volume, req: Request)
    requires req.size > 0 && FileFits(v, req)
    ensures NeededClusters(req.size) == CeilDiv(req.size, CLUSTER_SIZE)
  {
    FreeBound(v.fat);
    NeededExact(req.size);
  }

  ghost predicate Holds(v: Volume, ch: seq<nat>, buf: seq<Byte>)
    requires CLUSTER_SIZE * |ch| <= |buf|
  {
    forall i :: 0 <= i < |ch| ==> ch[i] < DISK_CLUSTERS && v.disk[ch[i]] == Chunk(buf, i)
  }

  lemma FileLayout(v: Volume, s: Shape, req: Request, needed: nat, buf: seq<Byte>) returns (ch: seq<nat>)
    requires WriteCode(v, s, req) == 0
    requires 0 < needed <= |FreeClusters(v.fat)| && CLUSTER_SIZE * needed <= |buf|
    ensures |ch| == needed && ch[0] == FirstFree(v.fat)
    ensures LaidOut(v, MakeFile(v, req, needed, buf), req.parent, FreeSlot(Tab(v, req.parent)),
                    NewEntry(req, ch[0]), ch)
    ensures Holds(MakeFile(v, req, needed, buf), ch, buf)
  {
    var c := FirstFree(v.fat);
    FirstFreeIff(v.fat);
    ch := FillClaims(AddEntry(v, req, c), c, 0, needed, buf);
    StoredFromZero(AddEntry(v, req, c), MakeFile(v, req, needed, buf), ch, buf);
  }

  lemma StoredFromZero(v: Volume, v': Volume, ch: seq<nat>, buf: seq<Byte>)
    requires CLUSTER_SIZE * |ch| <= |buf| && Stored(v, v', ch, buf, 0)
    ensures Holds(v', ch, buf)
  {
    forall i | 0 <= i < |ch|
      ensures v'.disk[ch[i]] == Chunk(buf, i)
    {
      assert v'.disk[ch[i]] == Chunk(buf, 0 + i);
    }
  }

  lemma NewFileItem(v': Volume, s': Shape, req: Request, ch: seq<nat>, buf: seq<Byte>)
    requires |ch| == CeilDiv(req.size, CLUSTER_SIZE) && |ch| > 0 && CLUSTER_SIZE * |ch| <= |buf|
    requires ch[0] in s'.chains && s'.chains[ch[0]] == ch && ch[0] < CLUSTER_MAP_SIZE
    requires Holds(v', ch, buf) && req.size > 0
    ensures req.size <= |buf|
    ensures ItemOf(v', s', NewEntry(req, ch[0])) == FileItem(buf[..req.size])
  {
    forall i | 0 <= i < |ch|
      ensures v'.disk[ch[i]] == Chunk(buf, 0 + i)
    {
    }
    DataStored(v'.disk, ch, buf, 0);
    JoinSplit(ch[0]);
    var data := buf[0..CLUSTER_SIZE * |ch|];
    assert data[..req.size] == buf[..req.size];
  }

  lemma NewEntryFacts(req: Request, c: nat)
    requires c < 0x1_0000_0000
    ensures var e := NewEntry(req, c);
      && e.Live() && e.key == req.key && e.ClusterNo() == c && e.filesize == req.size
      && (e.IsDir() <==> req.size == 0) && (req.size > 0 ==> e.attribute == 0)
  {
    JoinSplit(c);
  }

  lemma FileConsistent(v: Volume, v': Volume, s: Shape, p: nat, slot: nat, e: Entry, ch: seq<nat>)
    requires Consistent(v, s) && Vacant(v, s, p, slot, e.key) && Ascending(ch)
    requires LaidOut(v, v', p, slot, e, ch)
    requires e.Live() && e.attribute == 0 && e.key != ZERO_KEY && e.ClusterNo() == ch[0]
    requires e.filesize > 0 && |ch| == CeilDiv(e.filesize, CLUSTER_SIZE)
    ensures Consistent(v', FileShape(s, p, slot, ch))
  {
    LayoutBoot(v, v', s, p, slot, e, ch);
    LayoutTables(v, v', s, p, slot, e, ch);
    ChainsAdd(v.fat, v'.fat, s.chains, s.own, ch);
    TreeAddFile(Tabs(v), Tabs(v'), s, p, slot, e, ch);
    NamesAdd(Tabs(v), Tabs(v'), s, FileShape(s, p, slot, ch), p, slot, e);
  }

  /** The view gains name `e.key`, and nothing else, in directory `p`. */
  lemma EntryView(v: Volume, v': Volume, s: Shape, s': Shape, p: nat, slot: nat, e: Entry, ch: seq<nat>)
    requires Consistent(v, s) && Vacant(v, s, p, slot, e.key) && LaidOut(v, v', p, slot, e, ch)
    requires s'.chains == s.chains[ch[0] := ch] && s'.rank == s.rank
    requires e.Live() && e.key != ZERO_KEY
    ensures p in View(v, s) && View(v', s') == Insert(View(v, s), p, e.key, ItemOf(v', s', e))
  {
    var a := LayoutInsert(v, v', s, s', p, slot, e, ch);
    ViewIs(v', s', a);
  }

  /** A file that fits is written consistently, and the abstract file system gains exactly that file. */
  lemma MakeFileRefines(v: Volume, s: Shape, req: Request, needed: nat, buf: seq<Byte>)
    returns (s': Shape, ch: seq<nat>)
    requires Consistent(v, s) && WriteCode(v, s, req) == 0 && req.size > 0 && FileFits(v, req)
    requires needed == CeilDiv(req.size, CLUSTER_SIZE) && CLUSTER_SIZE * needed <= |buf|
    ensures |ch| == needed > 0 && Ascending(ch)
    ensures LaidOut(v, MakeFile(v, req, needed, buf), req.parent, FreeSlot(Tab(v, req.parent)),
                    NewEntry(req, ch[0]), ch)
    ensures Holds(MakeFile(v, req, needed, buf), ch, buf)
    ensures s' == FileShape(s, req.parent, FreeSlot(Tab(v, req.parent)), ch)
    ensures Consistent(MakeFile(v, req, needed, buf), s')
    ensures req.size <= |buf| && req.parent in View(v, s)
    ensures View(MakeFile(v, req, needed, buf), s') ==
      Insert(View(v, s), req.parent, req.key, FileItem(buf[..req.size]))
  {
    var v', slot := MakeFile(v, req, needed, buf), FreeSlot(Tab(v, req.parent));
    ch := FileLayout(v, s, req, needed, buf);
    var e := NewEntry(req, ch[0]);
    s' := FileShape(s, req.parent, slot, ch);
    WriteVacant(v, s, req);
    NewEntryFacts(req, ch[0]);
    FileConsistent(v, v', s, req.parent, slot, e, ch);
    EntryView(v, v', s, s', req.parent, slot, e, ch);
    NewFileItem(v', s', req, ch, buf);
  }

  // ----- directories

  /** Creating a directory called "root" in the root takes the path meant for formatting. */
  predicate ClashesWithRoot(req: Request) {
    req.parent == ROOT && req.key.name == ROOT_NAME
  }

  predicate DirFits(v: Volume, req: Request) {
    req.key != ZERO_KEY && !ClashesWithRoot(req) && |FreeClusters(v.fat)| > 0
  }

  lemma DirLayout(v: Volume, s: Shape, req: Request, c: nat)
    requires Consistent(v, s) && WriteCode(v, s, req) == 0 && req.size == 0
    requires !ClashesWithRoot(req) && c == FirstFree(v.fat) != 0
    ensures LaidOut(v, MakeDir(v, req), req.parent, FreeSlot(Tab(v, req.parent)), NewEntry(req, c), [c])
  {
    var p := req.parent;
    DirsUsed(v, s, p);
    ClaimOne(v.fat, c);
    MakeDirSteps(v, req);
    var self := EncodeTable(DirTable(req.key.name, c, Tab(v, p)[0]));
    OneClusterLaidOut(v, MakeDir(v, req), p, FreeSlot(Tab(v, p)), NewEntry(req, c), c, self);
  }

  /** Three clusters written: the parent's table, the allocation table and the new cluster. */
  lemma OneClusterLaidOut(v: Volume, v': Volume, p: nat, slot: nat, e: Entry, c: nat, self: Cluster)
    requires p < DISK_CLUSTERS && 2 <= slot < SLOTS && c < CLUSTER_MAP_SIZE && c != FAT_CLUSTER
    requires Claimed(v.fat, v.fat[c := END_OF_FILE], [c])
    requires v' == RawVolume(v.fat[c := END_OF_FILE], v.disk
      [p := EncodeTable(Tab(v, p)[slot := e])][FAT_CLUSTER := EncodeFat(v.fat[c := END_OF_FILE])][c := self])
    ensures LaidOut(v, v', p, slot, e, [c])
  {
  }

  lemma ClaimOne(fat: Fat, c: nat)
    requires c == FirstFree(fat) != 0
    ensures Claimed(fat, fat[c := END_OF_FILE], [c])
  {
  }

  lemma MakeDirSteps(v: Volume, req: Request)
    requires req.parent < DISK_CLUSTERS && FreeSlot(Tab(v, req.parent)) < SLOTS
    requires !ClashesWithRoot(req) && req.parent != FAT_CLUSTER && v.fat == DecodeFat(v.disk[FAT_CLUSTER])
    ensures var p, c := req.parent, FirstFree(v.fat);
      var t, fat := Tab(v, p), v.fat[c := END_OF_FILE];
      MakeDir(v, req) == RawVolume(fat, v.disk
        [p := EncodeTable(t[FreeSlot(t) := NewEntry(req, c)])]
        [FAT_CLUSTER := EncodeFat(fat)]
        [c := EncodeTable(DirTable(req.key.name, c, t[0]))])
  {
    NewTableCluster(v, req.key.name, req.parent);
  }

  lemma DirConsistent(v: Volume, v': Volume, s: Shape, p: nat, slot: nat, e: Entry, c: nat)
    requires Consistent(v, s) && Vacant(v, s, p, slot, e.key) && LaidOut(v, v', p, slot, e, [c])
    requires e.Live() && e.IsDir() && e.key != ZERO_KEY && e.ClusterNo() == c && e.filesize == 0
    requires 2 <= c < CLUSTER_MAP_SIZE && !(p == ROOT && e.key.name == ROOT_NAME)
    requires FreshTable(Tabs(v')[c], e.key.name, c, Tab(v, p)[0])
    ensures Consistent(v', DirShape(s, p, slot, c))
  {
    LayoutBoot(v, v', s, p, slot, e, [c]);
    LayoutTables(v, v', s, p, slot, e, [c]);
    ChainsAdd(v.fat, v'.fat, s.chains, s.own, [c]);
    TreeAddDir(Tabs(v), Tabs(v'), s, p, slot, e, c);
    NamesAdd(Tabs(v), Tabs(v'), s, DirShape(s, p, slot, c), p, slot, e);
  }

  /** The view gains name `e.key` in directory `p` and an empty directory `c`. */
  lemma DirEntryView(v: Volume, v': Volume, s: Shape, s': Shape, p: nat, slot: nat, e: Entry, ch: seq<nat>, c: nat)
    requires Consistent(v, s) && Vacant(v, s, p, slot, e.key) && LaidOut(v, v', p, slot, e, ch)
    requires s'.chains == s.chains[ch[0] := ch] && s'.rank.Keys == s.rank.Keys + {c} && c !in s.rank
    requires e.Live() && e.IsDir() && e.key != ZERO_KEY && e.ClusterNo() == c < DISK_CLUSTERS
    requires FreshTable(Tabs(v')[c], e.key.name, c, Tab(v, p)[0])
    ensures p in View(v, s) && View(v', s') == Insert(View(v, s), p, e.key, DirItem(c))[c := map[]]
  {
    var a := LayoutInsert(v, v', s, s', p, slot, e, ch);
    FreshView(v', s', Tabs(v')[c], e.key.name, c, Tab(v, p)[0]);
    ViewGrows(v', s, s', a, c);
  }

  lemma FreshView(v: Volume, s: Shape, t: Table, name: seq<Byte>, c: nat, up: Entry)
    requires FreshTable(t, name, c, up)
    ensures DirView(v, s, t) == map[]
  {
    assert LiveKeys(t) == {};
  }

  lemma ViewGrows(v': Volume, s: Shape, s': Shape, a: AbsFs, c: nat)
    requires c < DISK_CLUSTERS && s'.rank.Keys == s.rank.Keys + {c} && c !in s.rank
    requires a.Keys == s.rank.Keys && forall d :: d in s.rank ==> d < DISK_CLUSTERS
    requires forall d: nat :: d in s.rank && d < DISK_CLUSTERS ==> DirView(v', s', Tabs(v')[d]) == a[d]
    requires DirView(v', s', Tabs(v')[c]) == map[]
    ensures View(v', s') == a[c := map[]]
  {
    ViewIs(v', s', a[c := map[]]);
  }

  /** A directory is created consistently, and the abstract file system gains an empty directory. */
  lemma MakeDirRefines(v: Volume, s: Shape, req: Request) returns (s': Shape, c: nat)
    requires Consistent(v, s) && WriteCode(v, s, req) == 0 && req.size == 0 && DirFits(v, req)
    ensures LaidOut(v, MakeDir(v, req), req.parent, FreeSlot(Tab(v, req.parent)), NewEntry(req, c), [c])
    ensures c == FirstFree(v.fat) && c !in View(v, s) && req.parent in View(v, s)
    ensures s' == DirShape(s, req.parent, FreeSlot(Tab(v, req.parent)), c)
    ensures Consistent(MakeDir(v, req), s')
    ensures View(MakeDir(v, req), s') == Insert(View(v, s), req.parent, req.key, DirItem(c))[c := map[]]
  {
    c := FirstFree(v.fat);
    FirstFreeIff(v.fat);
    var v', p, slot, e := MakeDir(v, req), req.parent, FreeSlot(Tab(v, req.parent)), NewEntry(req, c);
    s' := DirShape(s, p, slot, c);
    NewDirFacts(v, s, req, c);
    DirConsistent(v, v', s, p, slot, e, c);
    DirShapeParts(s, p, slot, c);
    DirEntryView(v, v', s, s', p, slot, e, [c], c);
  }

  lemma NewDirFacts(v: Volume, s: Shape, req: Request, c: nat)
    requires Consistent(v, s) && WriteCode(v, s, req) == 0 && req.size == 0
    requires !ClashesWithRoot(req) && c == FirstFree(v.fat) != 0
    ensures var v', p, slot, e := MakeDir(v, req), req.parent, FreeSlot(Tab(v, req.parent)), NewEntry(req, c);
      && LaidOut(v, v', p, slot, e, [c]) && Vacant(v, s, p, slot, e.key)
      && e.Live() && e.IsDir() && e.key == req.key && e.ClusterNo() == c && e.filesize == 0
      && c !in s.rank && c !in View(v, s)
      && FreshTable(Tabs(v')[c], e.key.name, c, Tab(v, p)[0])
  {
    DirLayout(v, s, req, c);
    WriteVacant(v, s, req);
    NewEntryFacts(req, c);
    NewDirTable(v, s, req, c);
    FirstFreeIff(v.fat);
    FreeIsNoDir(v, s, c);
  }

  /** The new cluster holds the new directory's own table. */
  lemma NewDirTable(v: Volume, s: Shape, req: Request, c: nat)
    requires Consistent(v, s) && WriteCode(v, s, req) == 0 && req.size == 0
    requires !ClashesWithRoot(req) && c == FirstFree(v.fat) != 0
    ensures c < DISK_CLUSTERS && FreshTable(Tabs(MakeDir(v, req))[c], req.key.name, c, Tab(v, req.parent)[0])
  {
    var t := DirTable(req.key.name, c, Tab(v, req.parent)[0]);
    DirsUsed(v, s, req.parent);
    MakeDirSteps(v, req);
    TableRoundTrip(t);
    DirTableFresh(req.key.name, c, Tab(v, req.parent)[0]);
  }

  lemma DirShapeParts(s: Shape, p: nat, slot: nat, c: nat)
    ensures var s' := DirShape(s, p, slot, c);
      s'.chains == s.chains[c := [c]] && s'.rank.Keys == s.rank.Keys + {c}
  {
  }

  lemma FreeIsNoDir(v: Volume, s: Shape, c: nat)
    requires Consistent(v, s) && IsFree(v.fat, c)
    ensures c !in s.rank && c !in View(v, s)
  {
    ViewKeys(v, s);
    if c in s.rank { DirsUsed(v, s, c); }
  }
}
