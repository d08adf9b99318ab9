/**
 What each driver call does to a volume, step by step as the driver does it, including the
 steps it takes when the disk is full or a directory named "root" is created in the root.
 */
module FatOps {
  import opened Words
  import opened FatLayout
  import opened Volumes

  /** A driver request; `size` is `buffer_size`, and the buffer is passed beside it. */
  datatype Request = Request(key: Key, parent: Word, size: Word)

  // ----- entries and tables the driver builds

  function MakeEntry(k: Key, isDir: bool, c: nat, size: Word): Entry {
    RawEntry.Entry(k, if isDir then ATTR_SUBDIRECTORY else 0, UATTR_NOT_EMPTY, [0, 0, 0, 0, 0, 0, 0],
                   (c / 0x1_0000) % 0x1_0000, [0, 0, 0, 0], c % 0x1_0000, size)
  }

  /** The entry that a write request puts into its parent: a directory if no size is given. */
  function NewEntry(req: Request, c: nat): Entry {
    MakeEntry(req.key, req.size == 0, c, req.size)
  }

  function DirTable(name: seq<Byte>, c: nat, up: Entry): Table
    requires |name| == 8
  {
    BlankTable()[0 := MakeEntry(RawKey.Key(name, NO_EXT), true, c, 0)][1 := up]
  }

  function RootTable(): Table {
    DirTable(ROOT_NAME, ROOT, MakeEntry(RawKey.Key(ROOT_NAME, NO_EXT), true, ROOT, 0))
  }

  /** The table of a new directory: the root's when it is called "root" below the root. */
  function NewTable(v: Volume, name: seq<Byte>, parent: nat): Table
    requires |name| == 8 && parent < DISK_CLUSTERS
  {
    if parent == ROOT && name == ROOT_NAME then RootTable()
    else DirTable(name, FirstFree(v.fat), Tab(v, parent)[0])
  }

  function PutTable(v: Volume, c: nat, t: Table): Volume
    requires c < DISK_CLUSTERS
  {
    v.(disk := v.disk[c := EncodeTable(t)])
  }

  function PutFat(v: Volume, fat: Fat): Volume {
    RawVolume(fat, v.disk[FAT_CLUSTER := EncodeFat(fat)])
  }

  // ----- formatting and mounting

  function FormattedFat(): Fat {
    seq<Word>(CLUSTER_MAP_SIZE, _ => EMPTY)[0 := CLUSTER_0_VALUE][1 := CLUSTER_1_VALUE][ROOT := END_OF_FILE]
  }

  function Format(v: Volume): Volume {
    var boot := v.disk[0 := Signature() + v.disk[0][BLOCK_SIZE..]];
    PutFat(PutTable(RawVolume(v.fat, boot), ROOT, RootTable()), FormattedFat())
  }

  /** The volume that a disk is by itself: its allocation table is the one stored in cluster 1. */
  function DiskVolume(disk: seq<Cluster>): Volume
    requires |disk| == DISK_CLUSTERS
  {
    RawVolume(DecodeFat(disk[FAT_CLUSTER]), disk)
  }

  function Mount(v: Volume): Volume {
    if v.disk[0][..BLOCK_SIZE] != Signature() then Format(v)
    else v.(fat := DecodeFat(v.disk[FAT_CLUSTER]))
  }

  // ----- writing

  /** Result code of `write`: 2 invalid parent, 1 already present, -1 no free slot. */
  ghost function WriteCode(v: Volume, s: Shape, req: Request): int {
    if req.parent !in s.rank || req.parent >= DISK_CLUSTERS then 2
    else if Lookup(Tab(v, req.parent), req.key).Live() then 1
    else if FreeSlot(Tab(v, req.parent)) == SLOTS then -1
    else 0
  }

  function AddEntry(v: Volume, req: Request, c: nat): Volume
    requires req.parent < DISK_CLUSTERS && FreeSlot(Tab(v, req.parent)) < SLOTS
  {
    var t := Tab(v, req.parent);
    PutTable(v, req.parent, t[FreeSlot(t) := NewEntry(req, c)])
  }

  function MakeDir(v: Volume, req: Request): Volume
    requires req.parent < DISK_CLUSTERS && FreeSlot(Tab(v, req.parent)) < SLOTS
  {
    var self := NewTable(v, req.key.name, req.parent);
    var c := self[0].ClusterNo();
    NewTableCluster(v, req.key.name, req.parent);
    var v1 := AddEntry(v, req, c);
    var v2 := PutFat(v1, DecodeFat(v1.disk[FAT_CLUSTER])[c := END_OF_FILE]);
    PutTable(v2, c, self)
  }

  lemma NewTableCluster(v: Volume, name: seq<Byte>, parent: nat)
    requires |name| == 8 && parent < DISK_CLUSTERS
    ensures NewTable(v, name, parent)[0].ClusterNo() ==
      if parent == ROOT && name == ROOT_NAME then ROOT else FirstFree(v.fat)
  {
  }

  function Chunk(buf: seq<Byte>, k: nat): Cluster
    requires CLUSTER_SIZE * (k + 1) <= |buf|
  {
    buf[CLUSTER_SIZE * k..CLUSTER_SIZE * (k + 1)]
  }

  /** What one turn of the write loop does to the table: mark `cluster`, link it to the next free one. */
  function LinkStep(fat: Fat, cluster: nat, last: bool): (Fat, nat)
    requires cluster < CLUSTER_MAP_SIZE
  {
    var marked := fat[cluster := END_OF_FILE];
    var next := FirstFree(marked);
    (if last then marked else marked[cluster := next], next)
  }

  function FillChain(v: Volume, cluster: nat, k: nat, needed: nat, buf: seq<Byte>): Volume
    requires cluster < CLUSTER_MAP_SIZE && CLUSTER_SIZE * needed <= |buf|
    decreases needed - k
  {
    if k >= needed then v
    else
      var (fat, next) := LinkStep(v.fat, cluster, k + 1 == needed);
      var v1 := PutFat(v.(disk := v.disk[cluster := Chunk(buf, k)]), fat);
      FillChain(v1, next, k + 1, needed, buf)
  }

  // ----- the counter of the write loop

  /** The loop counter after `t` turns: it starts at 1 and has 16 bits. */
  function Counter(t: nat): Half {
    if t == 0 then 1 else (Counter(t - 1) + 1) % 0x1_0000
  }

  lemma {:induction false} CounterIs(t: nat)
    ensures t < 0xFFFF ==> Counter(t) == t + 1
  {
    if t > 0 { CounterIs(t - 1); }
  }

  /** Below 65535 a turn counts up without wrapping. */
  lemma NextTurn(count: Half, turns: nat)
    requires count == Counter(turns) == turns + 1 && count < 0xFFFF
    ensures (count + 1) % 0x1_0000 == Counter(turns + 1) == turns + 2
  {
    CounterIs(turns + 1);
  }

  /** The loop runs while the counter is at most `needed`; it ends, after `needed` turns, unless that is 65535. */
  lemma LoopEnds(needed: Half)
    ensures (exists t :: Counter(t) > needed) <==> needed != 0xFFFF
    ensures needed != 0xFFFF ==> Counter(needed) > needed
    ensures forall t: nat :: t < needed ==> Counter(t) <= needed
  {
    forall t: nat | t < needed
      ensures Counter(t) <= needed
    {
      CounterIs(t);
    }
    if needed != 0xFFFF {
      CounterIs(needed);
      assert Counter(needed) > needed;
    }
  }

  function MakeFile(v: Volume, req: Request, needed: nat, buf: seq<Byte>): Volume
    requires req.parent < DISK_CLUSTERS && FreeSlot(Tab(v, req.parent)) < SLOTS
    requires CLUSTER_SIZE * needed <= |buf|
  {
    var c := FirstFree(v.fat);
    FillChain(AddEntry(v, req, c), c, 0, needed, buf)
  }

  /** The volume after `write`, where `needed` is the cluster count computed from the size. */
  ghost function Write(v: Volume, s: Shape, req: Request, needed: nat, buf: seq<Byte>): Volume
    requires CLUSTER_SIZE * needed <= |buf|
  {
    if WriteCode(v, s, req) != 0 then v
    else if req.size == 0 then MakeDir(v, req)
    else MakeFile(v, req, needed, buf)
  }

  // ----- deleting

  /** Result code of `delete`: 1 not found, 2 directory not empty, -1 the parent is no directory. */
  ghost function DeleteCode(v: Volume, s: Shape, req: Request): int
    requires req.parent < DISK_CLUSTERS
  {
    var e := Lookup(Tab(v, req.parent), req.key);
    var c := e.ClusterNo();
    if !e.Live() then 1
    else if c in s.rank && c < DISK_CLUSTERS && (exists i :: 2 <= i < SLOTS && Tab(v, c)[i].Live()) then 2
    else if req.parent in s.rank then 0
    else -1
  }

  function ClearChain(fat: Fat, ch: seq<nat>): Fat
    requires forall i :: 0 <= i < |ch| ==> ch[i] < CLUSTER_MAP_SIZE
    decreases |ch|
  {
    if ch == [] then fat else ClearChain(fat[ch[0] := EMPTY], ch[1..])
  }

  function Remove(v: Volume, p: nat, slot: nat, ch: seq<nat>): Volume
    requires p < DISK_CLUSTERS && 2 <= slot < SLOTS
    requires forall i :: 0 <= i < |ch| ==> ch[i] < CLUSTER_MAP_SIZE
  {
    var v1 := PutTable(v, p, Tab(v, p)[slot := ZERO_ENTRY]);
    PutFat(v1, ClearChain(v1.fat, ch))
  }
}
