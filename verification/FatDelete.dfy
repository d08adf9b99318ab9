/** Deleting: consistency, refinement, and the exact undoing of a write. */
module FatDelete {
  import opened FatLayout
  import opened Volumes
  import opened FatOps
  import opened AbsFiles
  import opened FatChains
  import opened FatTree
  import opened FatView
  import opened FatWrite

  /** The slot a delete empties, and the first cluster of the chain it frees. */
  function TargetSlot(v: Volume, req: Request): nat
    requires req.parent < DISK_CLUSTERS
  {
    Search(Tab(v, req.parent), req.key)
  }

  function TargetHead(v: Volume, req: Request): nat
    requires req.parent < DISK_CLUSTERS
  {
    Lookup(Tab(v, req.parent), req.key).ClusterNo()
  }

  lemma DeleteTarget(v: Volume, s: Shape, req: Request)
    requires req.parent < DISK_CLUSTERS && Consistent(v, s) && DeleteCode(v, s, req) == 0
    ensures req.parent in s.rank && req.parent in View(v, s) && req.key in View(v, s)[req.parent]
    ensures var slot, h := TargetSlot(v, req), TargetHead(v, req);
      && 2 <= slot < SLOTS && h in s.loc && s.loc[h] == Loc(req.parent, slot) && OnDisk(s, h)
      && var e := Tab(v, req.parent)[slot];
      && e.Live() && e.key == req.key && e.ClusterNo() == h && (e.IsDir() <==> h in s.rank)
      && (forall i :: 0 <= i < |s.chains[h]| ==> 2 <= s.chains[h][i] < CLUSTER_MAP_SIZE)
      && (h in s.rank ==> h < DISK_CLUSTERS && forall i :: 2 <= i < SLOTS ==> !Tab(v, h)[i].Live())
  {
    var p, h := req.parent, TargetHead(v, req);
    ViewKeys(v, s);
    KeyLookup(v, s, p, req.key);
    assert SlotOk(Tabs(v), s, p, TargetSlot(v, req)) && HeadOk(Tabs(v), s, h);
    HeadOnDisk(v, s, h);
    assert IsChain(v.fat, s.chains[h]);
  }

  /** The volume after `delete`. */
  ghost function Delete(v: Volume, s: Shape, req: Request): Volume
    requires req.parent < DISK_CLUSTERS && Consistent(v, s)
  {
    if DeleteCode(v, s, req) != 0 then v
    else
      DeleteTarget(v, s, req);
      Remove(v, req.parent, TargetSlot(v, req), s.chains[TargetHead(v, req)])
  }

  /** On a directory, `delete` refuses exactly a name that is not there and a directory with entries. */
  lemma DeleteCodeIsAbstract(v: Volume, s: Shape, req: Request)
    requires req.parent < DISK_CLUSTERS && Consistent(v, s) && req.parent in s.rank
    ensures req.parent in View(v, s)
    ensures var a := View(v, s); var dir := a[req.parent];
      && (req.key in dir && dir[req.key].DirItem? ==> dir[req.key].id in a)
      && DeleteCode(v, s, req) ==
        if req.key !in dir then 1
        else if dir[req.key].DirItem? && a[dir[req.key].id] != map[] then 2
        else 0
  {
    var p := req.parent;
    ViewKeys(v, s);
    KeyLookup(v, s, p, req.key);
    if req.key in View(v, s)[p] {
      var slot := Search(Tab(v, p), req.key);
      var h := Tab(v, p)[slot].ClusterNo();
      assert SlotOk(Tabs(v), s, p, slot) && HeadOk(Tabs(v), s, h);
      if h in s.rank { EmptyView(v, s, Tabs(v)[h]); }
    }
  }

  lemma EmptyView(v: Volume, s: Shape, t: Table)
    ensures DirView(v, s, t) == map[] <==> forall i :: 2 <= i < SLOTS ==> !t[i].Live()
  {
    if i :| 2 <= i < SLOTS && t[i].Live() {
      assert t[i].key in LiveKeys(t);
      assert t[i].key in DirView(v, s, t);
    } else {
      assert LiveKeys(t) == {};
    }
  }

  // ----- the disk after a delete

  ghost predicate TakenOut(v: Volume, v': Volume, p: nat, slot: nat, ch: seq<nat>) {
    && p < DISK_CLUSTERS && 2 <= slot < SLOTS
    && (forall c: nat :: c < CLUSTER_MAP_SIZE ==> v'.fat[c] == if c in ch then EMPTY else v.fat[c])
    && v'.disk[FAT_CLUSTER] == EncodeFat(v'.fat)
    && (forall c: nat :: c < DISK_CLUSTERS && c != FAT_CLUSTER && c != p ==> v'.disk[c] == v.disk[c])
    && (p != FAT_CLUSTER ==> v'.disk[p] == EncodeTable(Tab(v, p)[slot := ZERO_ENTRY]))
  }

  lemma RemoveLayout(v: Volume, p: nat, slot: nat, ch: seq<nat>)
    requires p < DISK_CLUSTERS && 2 <= slot < SLOTS
    requires forall i :: 0 <= i < |ch| ==> ch[i] < CLUSTER_MAP_SIZE
    ensures TakenOut(v, Remove(v, p, slot, ch), p, slot, ch)
  {
    ClearChainAt(v.fat, ch);
  }

  lemma TakenTables(v: Volume, v': Volume, s: Shape, p: nat, slot: nat, ch: seq<nat>)
    requires Consistent(v, s) && p in s.rank && TakenOut(v, v', p, slot, ch)
    ensures OnlySlot(Tabs(v), Tabs(v'), s, p, slot, ZERO_ENTRY)
  {
    DirsUsed(v, s, p);
    TableRoundTrip(Tab(v, p)[slot := ZERO_ENTRY]);
    forall d: nat | d in s.rank && d < DISK_CLUSTERS && d != p
      ensures Tabs(v')[d] == Tabs(v)[d]
    {
      DirsUsed(v, s, d);
    }
  }

  lemma TakenConsistent(v: Volume, v': Volume, s: Shape, h: nat, p: nat, slot: nat)
    requires Consistent(v, s) && h in s.loc && h in s.chains && s.loc[h] == Loc(p, slot)
    requires TakenOut(v, v', p, slot, s.chains[h])
    requires h in s.rank && h < DISK_CLUSTERS ==> forall i :: 2 <= i < SLOTS ==> !Tab(v, h)[i].Live()
    ensures Consistent(v', DropShape(s, h))
  {
    assert HeadOk(Tabs(v), s, h);
    TakenBoot(v, v', s, h, p, slot);
    TakenTables(v, v', s, p, slot, s.chains[h]);
    ChainsDrop(v.fat, v'.fat, s.chains, s.own, h);
    TreeDrop(Tabs(v), Tabs(v'), s, h);
    NamesDrop(Tabs(v), Tabs(v'), s, DropShape(s, h), p, slot);
  }

  lemma TakenBoot(v: Volume, v': Volume, s: Shape, h: nat, p: nat, slot: nat)
    requires Consistent(v, s) && h in s.chains && p in s.rank
    requires TakenOut(v, v', p, slot, s.chains[h])
    ensures BootOk(v')
  {
    DirsUsed(v, s, p);
    assert IsChain(v.fat, s.chains[h]);
    FatRoundTrip(v'.fat);
  }

  lemma TakenKeeps(v: Volume, v': Volume, s: Shape, s': Shape, h: nat, p: nat, slot: nat, d: nat)
    requires Consistent(v, s) && h in s.loc && h in s.chains && s.loc[h] == Loc(p, slot) && p in s.rank
    requires TakenOut(v, v', p, slot, s.chains[h]) && s'.chains == s.chains - {h}
    requires d in s.rank && d < DISK_CLUSTERS
    ensures SameFilesIn(v, v', s, s', if d == p then Tabs(v)[d][slot := ZERO_ENTRY] else Tabs(v)[d])
  {
    var t := Tabs(v)[d];
    forall i | 2 <= i < SLOTS && (d != p || i != slot) && t[i].Live() && !t[i].IsDir()
      ensures SameFile(v, v', s, s', t[i].ClusterNo())
    {
      TakenSameFile(v, v', s, s', h, p, slot, d, i);
    }
  }

  /** A file in another slot is the same as before. */
  lemma TakenSameFile(v: Volume, v': Volume, s: Shape, s': Shape, h: nat, p: nat, slot: nat, d: nat, i: nat)
    requires Consistent(v, s) && h in s.loc && h in s.chains && s.loc[h] == Loc(p, slot) && p in s.rank
    requires TakenOut(v, v', p, slot, s.chains[h]) && s'.chains == s.chains - {h}
    requires d in s.rank && d < DISK_CLUSTERS && 2 <= i < SLOTS && (d != p || i != slot)
    requires Tabs(v)[d][i].Live() && !Tabs(v)[d][i].IsDir()
    ensures SameFile(v, v', s, s', Tabs(v)[d][i].ClusterNo())
  {
    var x := Tabs(v)[d][i].ClusterNo();
    assert SlotOk(Tabs(v), s, d, i) && HeadOk(Tabs(v), s, x);
    forall j | 0 <= j < |s.chains[x]|
      ensures s.chains[x][j] < DISK_CLUSTERS && v'.disk[s.chains[x][j]] == v.disk[s.chains[x][j]]
    {
      TakenSameCluster(v, v', s, h, p, slot, x, j);
    }
  }

  lemma TakenSameCluster(v: Volume, v': Volume, s: Shape, h: nat, p: nat, slot: nat, x: nat, j: nat)
    requires Consistent(v, s) && h in s.chains && p in s.rank && TakenOut(v, v', p, slot, s.chains[h])
    requires x in s.chains && x !in s.rank && j < |s.chains[x]|
    ensures s.chains[x][j] < DISK_CLUSTERS && v'.disk[s.chains[x][j]] == v.disk[s.chains[x][j]]
  {
    ChainAvoidsDirs(v, s, x, j);
  }

  lemma TakenDirView(v: Volume, v': Volume, s: Shape, s': Shape, h: nat, p: nat, slot: nat, d: nat)
    requires Consistent(v, s) && h in s.loc && h in s.chains && s.loc[h] == Loc(p, slot) && p in s.rank
    requires TakenOut(v, v', p, slot, s.chains[h]) && s'.chains == s.chains - {h}
    requires d in s.rank && d < DISK_CLUSTERS && Tab(v, p)[slot].Live()
    ensures DirView(v', s', Tabs(v')[d]) ==
      if d == p then DirView(v, s, Tabs(v)[d]) - {Tab(v, p)[slot].key} else DirView(v, s, Tabs(v)[d])
  {
    TakenTables(v, v', s, p, slot, s.chains[h]);
    TableShape(Tabs(v), s, d);
    TakenKeeps(v, v', s, s', h, p, slot, d);
    if d == p {
      assert UniqueKeys(Tabs(v)[d]);
      DirViewDrop(v, v', s, s', Tabs(v)[d], slot);
    } else {
      DirViewSame(v, v', s, s', Tabs(v)[d]);
    }
  }

  lemma TakenView(v: Volume, v': Volume, s: Shape, h: nat, p: nat, slot: nat)
    requires Consistent(v, s) && h in s.loc && h in s.chains && s.loc[h] == Loc(p, slot) && p in s.rank
    requires TakenOut(v, v', p, slot, s.chains[h])
    requires p < DISK_CLUSTERS && Tab(v, p)[slot].Live()
    ensures p in View(v, s)
    ensures View(v', DropShape(s, h)) == Erase(View(v, s), p, Tab(v, p)[slot].key) - {h}
  {
    var a := TakenDirViews(v, v', s, h, p, slot);
    ViewIs(v', DropShape(s, h), a);
  }

  lemma TakenDirViews(v: Volume, v': Volume, s: Shape, h: nat, p: nat, slot: nat) returns (a: AbsFs)
    requires Consistent(v, s) && h in s.loc && h in s.chains && s.loc[h] == Loc(p, slot) && p in s.rank
    requires TakenOut(v, v', p, slot, s.chains[h])
    requires p < DISK_CLUSTERS && Tab(v, p)[slot].Live()
    ensures p in View(v, s) && a == Erase(View(v, s), p, Tab(v, p)[slot].key) - {h}
    ensures a.Keys == DropShape(s, h).rank.Keys && forall d :: d in DropShape(s, h).rank ==> d < DISK_CLUSTERS
    ensures forall d: nat :: d in DropShape(s, h).rank && d < DISK_CLUSTERS ==>
      DirView(v', DropShape(s, h), Tabs(v')[d]) == a[d]
  {
    var s' := DropShape(s, h);
    ViewKeys(v, s);
    TakenKeys(View(v, s), s, h, p, Tab(v, p)[slot].key);
    a := Erase(View(v, s), p, Tab(v, p)[slot].key) - {h};
    forall d: nat | d in s'.rank && d < DISK_CLUSTERS
      ensures DirView(v', s', Tabs(v')[d]) == a[d]
    {
      TakenAt(v, v', s, h, p, slot, d);
    }
  }

  lemma TakenKeys(a: AbsFs, s: Shape, h: nat, p: nat, k: Key)
    requires p in a && a.Keys == s.rank.Keys && h in s.chains
    ensures (Erase(a, p, k) - {h}).Keys == DropShape(s, h).rank.Keys
    ensures forall d :: d in DropShape(s, h).rank ==> d in s.rank
  {
  }

  /** What a directory that is left shows. */
  lemma TakenAt(v: Volume, v': Volume, s: Shape, h: nat, p: nat, slot: nat, d: nat)
    requires Consistent(v, s) && h in s.loc && h in s.chains && s.loc[h] == Loc(p, slot) && p in s.rank
    requires TakenOut(v, v', p, slot, s.chains[h])
    requires p < DISK_CLUSTERS && Tab(v, p)[slot].Live()
    requires d in DropShape(s, h).rank && d < DISK_CLUSTERS && p in View(v, s)
    ensures d in Erase(View(v, s), p, Tab(v, p)[slot].key) && d != h
    ensures DirView(v', DropShape(s, h), Tabs(v')[d]) == Erase(View(v, s), p, Tab(v, p)[slot].key)[d]
  {
    TakenDirView(v, v', s, DropShape(s, h), h, p, slot, d);
    EraseAt(v, s, p, Tab(v, p)[slot].key, d);
  }

  lemma EraseAt(v: Volume, s: Shape, p: nat, k: Key, d: nat)
    requires p in s.rank && p < DISK_CLUSTERS && d in s.rank && d < DISK_CLUSTERS
    ensures p in View(v, s) && d in Erase(View(v, s), p, k)
    ensures Erase(View(v, s), p, k)[d] ==
      if d == p then DirView(v, s, Tabs(v)[d]) - {k} else DirView(v, s, Tabs(v)[d])
  {
  }

  /** A successful delete keeps the volume consistent and takes out exactly that file or empty directory. */
  lemma DeleteRefines(v: Volume, s: Shape, req: Request)
    requires req.parent < DISK_CLUSTERS && Consistent(v, s) && DeleteCode(v, s, req) == 0
    ensures TargetHead(v, req) in s.chains
    ensures Consistent(Delete(v, s, req), DropShape(s, TargetHead(v, req)))
    ensures req.parent in View(v, s) && req.key in View(v, s)[req.parent]
    ensures var x := View(v, s)[req.parent][req.key];
      View(Delete(v, s, req), DropShape(s, TargetHead(v, req))) ==
        Erase(View(v, s), req.parent, req.key) - if x.DirItem? then {x.id} else {}
  {
    DeleteTarget(v, s, req);
    var p, slot, h, v' := req.parent, TargetSlot(v, req), TargetHead(v, req), Delete(v, s, req);
    RemoveLayout(v, p, slot, s.chains[h]);
    TakenConsistent(v, v', s, h, p, slot);
    TakenView(v, v', s, h, p, slot);
    TargetItem(v, s, req);
    if h !in s.rank { WithoutAbsent(Erase(View(v, s), p, req.key), h); }
  }

  lemma WithoutAbsent(a: AbsFs, h: nat)
    requires h !in a
    ensures a - {h} == a && a - {} == a
  {
  }

  lemma TargetItem(v: Volume, s: Shape, req: Request)
    requires req.parent < DISK_CLUSTERS && Consistent(v, s) && DeleteCode(v, s, req) == 0
    ensures req.parent in View(v, s) && req.key in View(v, s)[req.parent]
    ensures View(v, s).Keys == s.rank.Keys
    ensures var x, h := View(v, s)[req.parent][req.key], TargetHead(v, req);
      if h in s.rank then x == DirItem(h) else x.FileItem?
  {
    DeleteTarget(v, s, req);
    ViewKeys(v, s);
    KeyLookup(v, s, req.parent, req.key);
  }

  // ----- undoing a write

  /** Taking an entry out again restores every cluster outside the chain it had been given. */
  lemma TakenRestores(v: Volume, v': Volume, v'': Volume, s: Shape, p: nat, slot: nat, e: Entry, ch: seq<nat>)
    requires Consistent(v, s) && p in s.rank && LaidOut(v, v', p, slot, e, ch)
    requires TakenOut(v', v'', p, slot, ch) && Tab(v, p)[slot] == ZERO_ENTRY
    ensures v''.fat == v.fat
    ensures forall c: nat :: c < DISK_CLUSTERS && c !in ch ==> v''.disk[c] == v.disk[c]
  {
    DirsUsed(v, s, p);
    LayoutTables(v, v', s, p, slot, e, ch);
    assert Tabs(v')[p][slot := ZERO_ENTRY] == Tabs(v)[p];
    TableBytesOnto(v.disk[p]);
    FatBytesOnto(v.disk[FAT_CLUSTER]);
    assert p !in ch;
    assert v''.fat == v.fat;
  }
}
