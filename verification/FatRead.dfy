/** Reading: what the two read calls return on a consistent volume. */
module FatRead {
  import opened Words
  import opened FatLayout
  import opened Volumes
  import opened FatOps
  import opened AbsFiles
  import opened FatTree
  import opened FatView
  import opened FatWrite

  /** Result code of `read`: 1 not a file, 2 buffer too small, 3 not found. */
  function ReadCode(v: Volume, req: Request): int
    requires req.parent < DISK_CLUSTERS
  {
    var e := Lookup(Tab(v, req.parent), req.key);
    if e.IsDir() then 1
    else if req.size < e.filesize then 2
    else if !e.Live() then 3
    else if e.ClusterNo() != 0 then 0
    else -1
  }

  /** Result code of `read_directory`, and the table it copies out on success. */
  function ReadDirCode(v: Volume, req: Request): int
    requires req.parent < DISK_CLUSTERS
  {
    var t := Tab(v, req.parent);
    if req.size != CLUSTER_SIZE then -1
    else if req.parent == ROOT && req.key == ROOT_KEY then 0
    else if Search(t, req.key) == SLOTS then 2
    else if t[Search(t, req.key)].IsDir() then 0
    else 1
  }

  function ReadDirCluster(v: Volume, req: Request): nat
    requires req.parent < DISK_CLUSTERS
  {
    if req.parent == ROOT && req.key == ROOT_KEY then ROOT
    else Lookup(Tab(v, req.parent), req.key).ClusterNo()
  }

  lemma {:induction false} DataLength(disk: seq<Cluster>, ch: seq<nat>)
    requires forall i :: 0 <= i < |ch| ==> ch[i] < |disk|
    ensures |ChainData(disk, ch)| == CLUSTER_SIZE * |ch|
  {
    if ch != [] { DataLength(disk, ch[1..]); }
  }

  lemma {:induction false} DataSnoc(disk: seq<Cluster>, ch: seq<nat>, c: nat)
    requires forall i :: 0 <= i < |ch| ==> ch[i] < |disk|
    requires c < |disk|
    ensures ChainData(disk, ch + [c]) == ChainData(disk, ch) + disk[c]
  {
    if ch == [] {
      assert ChainData(disk, [c][1..]) == [];
    } else {
      DataSnoc(disk, ch[1..], c);
      assert (ch + [c])[1..] == ch[1..] + [c];
    }
  }

  lemma CeilMonotone(a: nat, b: nat)
    requires a <= b
    ensures CeilDiv(a, CLUSTER_SIZE) <= CeilDiv(b, CLUSTER_SIZE)
  {
  }

  /** A live entry is what its own key finds. */
  lemma SearchSelf(tab: Table, i: nat)
    requires 2 <= i < SLOTS && tab[i].Live() && UniqueKeys(tab)
    requires forall j :: 2 <= j < SLOTS && tab[j].Live() ==> tab[j].key != ZERO_KEY
    requires forall j :: 2 <= j < SLOTS ==> tab[j].Live() || tab[j] == ZERO_ENTRY
    ensures Search(tab, tab[i].key) == i && Lookup(tab, tab[i].key) == tab[i]
  {
    var j := Search(tab, tab[i].key);
    assert j <= i && tab[j].Live();
  }

  lemma LiveAt(v: Volume, s: Shape, p: nat, i: nat)
    requires Consistent(v, s) && p in s.rank && p < DISK_CLUSTERS && 2 <= i < SLOTS && Tabs(v)[p][i].Live()
    ensures Lookup(Tabs(v)[p], Tabs(v)[p][i].key) == Tabs(v)[p][i] && Search(Tabs(v)[p], Tabs(v)[p][i].key) == i
    ensures p in View(v, s) && Tabs(v)[p][i].key in View(v, s)[p]
    ensures View(v, s)[p][Tabs(v)[p][i].key] == ItemOf(v, s, Tabs(v)[p][i])
  {
    TableShape(Tabs(v), s, p);
    assert UniqueKeys(Tabs(v)[p]);
    SearchSelf(Tabs(v)[p], i);
    ViewKeys(v, s);
    KeyLookup(v, s, p, Tabs(v)[p][i].key);
  }

  /** A file's bytes are the first `filesize` bytes of its chain. */
  ghost predicate FileDataOk(v: Volume, s: Shape, e: Entry) {
    var h := e.ClusterNo();
    && 2 <= h && OnDisk(s, h) && |s.chains[h]| == CeilDiv(e.filesize, CLUSTER_SIZE)
    && IsChain(v.fat, s.chains[h]) && s.chains[h][0] == h
    && var data := ChainData(v.disk, s.chains[h]);
    && e.filesize <= |data| == CLUSTER_SIZE * |s.chains[h]|
    && ItemOf(v, s, e) == FileItem(data[..e.filesize])
  }

  lemma FileData(v: Volume, s: Shape, p: nat, slot: nat)
    requires Consistent(v, s) && p in s.rank && p < DISK_CLUSTERS && 2 <= slot < SLOTS
    requires Tab(v, p)[slot].Live() && !Tab(v, p)[slot].IsDir()
    ensures FileDataOk(v, s, Tab(v, p)[slot])
  {
    var h := Tabs(v)[p][slot].ClusterNo();
    assert SlotOk(Tabs(v), s, p, slot) && HeadOk(Tabs(v), s, h);
    HeadOnDisk(v, s, h);
    assert IsChain(v.fat, s.chains[h]) && s.chains[h][0] == h;
    DataLength(v.disk, s.chains[h]);
  }

  /** `read` looks the name up in the abstract directory; a found file's bytes head its chain's data. */
  lemma ReadIsAbstract(v: Volume, s: Shape, req: Request)
    requires Consistent(v, s) && req.parent in s.rank && req.parent < DISK_CLUSTERS
    ensures req.parent in View(v, s) && ReadCode(v, req) == AbsRead(View(v, s), req)
    ensures ReadCode(v, req) == 0 ==> var e := Lookup(Tab(v, req.parent), req.key);
      FileDataOk(v, s, e) && req.key in View(v, s)[req.parent] && View(v, s)[req.parent][req.key] == ItemOf(v, s, e)
  {
    var p := req.parent;
    ViewKeys(v, s);
    KeyLookup(v, s, p, req.key);
    if req.key in View(v, s)[p] {
      if !Lookup(Tab(v, p), req.key).IsDir() { FileData(v, s, p, Search(Tab(v, p), req.key)); }
    } else {
      AbsentLookup(v, s, p, req.key);
    }
    ReadCases(v, View(v, s), req);
  }

  lemma ReadCases(v: Volume, a: AbsFs, req: Request)
    requires req.parent < DISK_CLUSTERS && req.parent in a
    requires var e := Lookup(Tab(v, req.parent), req.key);
      if req.key !in a[req.parent] then e == ZERO_ENTRY
      else e.Live() && if e.IsDir() then a[req.parent][req.key].DirItem?
        else e.ClusterNo() != 0 && a[req.parent][req.key].FileItem? && |a[req.parent][req.key].bytes| == e.filesize
    ensures ReadCode(v, req) == AbsRead(a, req)
  {
  }

  /** The chain a successful read follows fits a buffer padded to whole clusters. */
  lemma ReadChain(v: Volume, s: Shape, req: Request)
    requires Consistent(v, s) && req.parent in s.rank && req.parent < DISK_CLUSTERS && ReadCode(v, req) == 0
    ensures var e := Lookup(Tab(v, req.parent), req.key);
      && FileDataOk(v, s, e) && |s.chains[e.ClusterNo()]| <= CeilDiv(req.size, CLUSTER_SIZE)
      && req.parent in View(v, s) && req.key in View(v, s)[req.parent]
      && View(v, s)[req.parent][req.key] == ItemOf(v, s, e)
  {
    ReadIsAbstract(v, s, req);
    CeilMonotone(Lookup(Tab(v, req.parent), req.key).filesize, req.size);
  }

  lemma AbsentLookup(v: Volume, s: Shape, p: nat, k: Key)
    requires Consistent(v, s) && p in s.rank && p < DISK_CLUSTERS && k !in View(v, s)[p]
    ensures Lookup(Tab(v, p), k) == ZERO_ENTRY
    ensures Search(Tab(v, p), k) < SLOTS <==> k == ZERO_KEY && FreeSlot(Tab(v, p)) < SLOTS
  {
    TableShape(Tabs(v), s, p);
    KeyLookup(v, s, p, k);
    var t := Tab(v, p);
    if k == ZERO_KEY && FreeSlot(t) < SLOTS {
      assert t[FreeSlot(t)] == ZERO_ENTRY;
    }
  }

  /**
   `read_directory` succeeds exactly on the root's own name and on names of directories; a file's
   name gives 1, an absent name 2, except that the all-zero name matches a free slot and gives 1.
   */
  lemma ReadDirIsAbstract(v: Volume, s: Shape, req: Request)
    requires Consistent(v, s) && req.parent in s.rank && req.parent < DISK_CLUSTERS
    ensures req.parent in View(v, s) && ReadDirCode(v, req) == AbsReadDir(View(v, s), req)
    ensures ReadDirCode(v, req) == 0 ==> ReadDirCluster(v, req) in View(v, s)
    ensures ReadDirCode(v, req) == 0 && !(req.parent == ROOT && req.key == ROOT_KEY) ==>
      var dir := View(v, s)[req.parent];
      req.key in dir && dir[req.key] == DirItem(ReadDirCluster(v, req))
  {
    ViewKeys(v, s);
    if req.key in View(v, s)[req.parent] {
      PresentDir(v, s, req.parent, req.key);
      PresentCode(v, View(v, s), req);
    } else {
      AbsentLookup(v, s, req.parent, req.key);
      FullDirectory(v, s, req.parent);
      AbsentDir(v, View(v, s), req);
    }
  }

  lemma PresentCode(v: Volume, a: AbsFs, req: Request)
    requires req.parent < DISK_CLUSTERS && req.parent in a && req.key in a[req.parent] && ROOT in a
    requires var t := Tab(v, req.parent);
      var slot := Search(t, req.key);
      && slot < SLOTS && t[slot] == Lookup(t, req.key)
      && (t[slot].IsDir() <==> a[req.parent][req.key].DirItem?)
      && (t[slot].IsDir() ==> a[req.parent][req.key] == DirItem(t[slot].ClusterNo()) && t[slot].ClusterNo() in a)
    ensures ReadDirCode(v, req) == AbsReadDir(a, req)
    ensures ReadDirCode(v, req) == 0 ==> ReadDirCluster(v, req) in a
    ensures ReadDirCode(v, req) == 0 && !(req.parent == ROOT && req.key == ROOT_KEY) ==>
      a[req.parent][req.key] == DirItem(ReadDirCluster(v, req))
  {
  }

  lemma AbsentDir(v: Volume, a: AbsFs, req: Request)
    requires req.parent < DISK_CLUSTERS && req.parent in a && req.key !in a[req.parent]
    requires Lookup(Tab(v, req.parent), req.key) == ZERO_ENTRY
    requires Search(Tab(v, req.parent), req.key) < SLOTS <==> req.key == ZERO_KEY && |a[req.parent]| < SLOTS - 2
    ensures ReadDirCode(v, req) == AbsReadDir(a, req)
    ensures ReadDirCode(v, req) == 0 ==> req.parent == ROOT && req.key == ROOT_KEY
  {
  }

  lemma PresentDir(v: Volume, s: Shape, p: nat, k: Key)
    requires Consistent(v, s) && p in s.rank && p < DISK_CLUSTERS && p in View(v, s) && k in View(v, s)[p]
    ensures var t := Tab(v, p); var slot := Search(t, k);
      && slot < SLOTS && t[slot] == Lookup(t, k)
      && (t[slot].IsDir() <==> View(v, s)[p][k].DirItem?)
      && (t[slot].IsDir() ==> View(v, s)[p][k] == DirItem(t[slot].ClusterNo()) && t[slot].ClusterNo() in s.rank)
  {
    KeyLookup(v, s, p, k);
    var slot := Search(Tab(v, p), k);
    assert SlotOk(Tabs(v), s, p, slot) && HeadOk(Tabs(v), s, Tab(v, p)[slot].ClusterNo());
  }

  /** Reading back a file just written returns the bytes written. */
  lemma WriteThenRead(v: Volume, s: Shape, req: Request, needed: nat, buf: seq<Byte>) returns (s': Shape)
    requires Consistent(v, s) && WriteCode(v, s, req) == 0 && req.size > 0 && FileFits(v, req)
    requires needed == CeilDiv(req.size, CLUSTER_SIZE) && CLUSTER_SIZE * needed <= |buf|
    ensures req.parent < DISK_CLUSTERS && Consistent(MakeFile(v, req, needed, buf), s')
    ensures var v' := MakeFile(v, req, needed, buf);
      var e := Lookup(Tab(v', req.parent), req.key);
      && ReadCode(v', req) == 0 && FileDataOk(v', s', e) && e.filesize == req.size <= |buf|
      && ChainData(v'.disk, s'.chains[e.ClusterNo()])[..req.size] == buf[..req.size]
  {
    var ch;
    s', ch := MakeFileRefines(v, s, req, needed, buf);
    ViewKeys(v, s);
    ReadIsAbstract(MakeFile(v, req, needed, buf), s', req);
  }
}
