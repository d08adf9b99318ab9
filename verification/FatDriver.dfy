/** The driver itself: its cached table, its directory buffer and the disk, updated step by step. */
module FatDriver {
  import opened Words
  import opened FatLayout
  import opened Volumes
  import opened Floats
  import opened FatOps
  import opened AbsFiles
  import opened FatChains
  import opened FatView
  import opened FatWrite
  import opened FatDelete
  import opened FatExact
  import opened FatRuns
  import opened FatPaths
  import opened FatRead
  import opened FatBytes
  import opened DiskImage
  import opened FatCalls

  class Driver {
    const image: Image
    const clusterMap: array<Word>
    var dirTableBuf: Table
    /** How the volume is laid out, when it is consistent. */
    ghost var shape: Shape

    ghost predicate Ready()
      reads this, image, image.bytes, clusterMap
    {
      image.Valid() && clusterMap.Length == CLUSTER_MAP_SIZE && (clusterMap as object) != (image.bytes as object)
    }

    ghost function Vol(): Volume
      reads this, image, image.bytes, clusterMap
      requires Ready()
    {
      RawVolume(clusterMap[..], image.clusters)
    }

    ghost predicate Valid()
      reads this, image, image.bytes, clusterMap
    {
      Ready() && Consistent(Vol(), shape)
    }

    /** The abstract file system on the disk. */
    ghost function Files(): AbsFs
      reads this, image, image.bytes, clusterMap
      requires Ready()
    {
      View(Vol(), shape)
    }

    constructor ()
      ensures Ready() && fresh(image) && fresh(image.bytes) && fresh(clusterMap)
    {
      image := new Image();
      clusterMap := new Word[CLUSTER_MAP_SIZE](_ => EMPTY);
      dirTableBuf := BlankTable();
      shape := FORMAT_SHAPE;
    }

    // ----- helpers

    method ReadTable(c: nat) returns (t: Table)
      requires Ready() && c < DISK_CLUSTERS
      ensures t == Tab(Vol(), c)
    {
      var data := image.ReadCluster(c);
      t := DecodeTable(data);
    }

    method WriteTable(t: Table, c: nat)
      requires Ready() && c < DISK_CLUSTERS
      modifies image, image.bytes
      ensures Ready() && Vol() == PutTable(old(Vol()), c, t)
    {
      image.WriteCluster(EncodeTable(t), c);
    }

    method WriteFat()
      requires Ready()
      modifies image, image.bytes
      ensures Ready() && Vol() == PutFat(old(Vol()), clusterMap[..])
    {
      image.WriteCluster(EncodeFat(clusterMap[..]), FAT_CLUSTER);
    }

    method ReadFat()
      requires Ready()
      modifies clusterMap
      ensures Ready() && Vol() == old(Vol()).(fat := DecodeFat(image.clusters[FAT_CLUSTER]))
    {
      var data := image.ReadCluster(FAT_CLUSTER);
      var fat := DecodeFat(data);
      forall i | 0 <= i < CLUSTER_MAP_SIZE {
        clusterMap[i] := fat[i];
      }
      assert clusterMap[..] == fat;
    }

    method SetFat(c: nat, w: Word)
      requires Ready() && c < CLUSTER_MAP_SIZE
      modifies clusterMap
      ensures Ready() && Vol() == old(Vol()).(fat := old(Vol()).fat[c := w])
    {
      clusterMap[c] := w;
      assert clusterMap[..] == old(clusterMap[..])[c := w];
    }

    /** The lowest free cluster, or 0. */
    method GetEmptyCluster() returns (idx: nat)
      requires Ready()
      ensures idx == FirstFree(Vol().fat)
    {
      var found, i := false, 2;
      idx := 0;
      while !found && i < CLUSTER_MAP_SIZE
        invariant 2 <= i <= CLUSTER_MAP_SIZE
        invariant FirstFree(Vol().fat) == if found then idx else FirstFreeFrom(Vol().fat, i)
        invariant !found ==> idx == 0
      {
        if clusterMap[i] == EMPTY {
          found, idx := true, i;
        }
        i := i + 1;
      }
    }

    /** A new directory's table; `dirty` is what its memory held before. */
    method InitDirectoryTable(dirty: Table, name: seq<Byte>, parent: nat) returns (t: Table)
      requires Ready() && |name| == 8 && parent < DISK_CLUSTERS
      ensures t == NewTable(Vol(), name, parent)
    {
      t := dirty;
      for i := 0 to SLOTS
        invariant forall j :: 0 <= j < i ==> t[j] == ZERO_ENTRY
      {
        t := t[i := ZERO_ENTRY];
      }
      var isRoot := parent == ROOT && name == ROOT_NAME;
      var self: Entry := t[0].(key := RawKey.Key(name, t[0].key.ext), attribute := ATTR_SUBDIRECTORY,
                               userAttribute := UATTR_NOT_EMPTY);
      if isRoot {
        self := self.(clusterLow := ROOT, clusterHigh := 0);
      } else {
        var res := GetEmptyCluster();
        if res != 0 {
          self := self.(clusterLow := res % 0x1_0000, clusterHigh := (res / 0x1_0000) % 0x1_0000);
        }
      }
      t := t[0 := self];
      if isRoot {
        var up: Entry := t[1].(clusterHigh := 0, clusterLow := ROOT, attribute := ATTR_SUBDIRECTORY,
                               userAttribute := UATTR_NOT_EMPTY, key := RawKey.Key(name, t[1].key.ext));
        t := t[1 := up];
      } else {
        var parentTable := ReadTable(parent);
        t := t[1 := parentTable[0]];
      }
      assert t == NewTable(Vol(), name, parent);
    }

    /** Leaves in `entry` the first entry whose key bytes match, or what it held before. */
    method DirTableSearch(before: Entry, k: Key, parent: nat) returns (entry: Entry)
      requires Ready() && parent < DISK_CLUSTERS
      modifies `dirTableBuf
      ensures dirTableBuf == Tab(Vol(), parent)
      ensures entry == if Search(dirTableBuf, k) < SLOTS then dirTableBuf[Search(dirTableBuf, k)] else before
    {
      dirTableBuf := ReadTable(parent);
      entry := before;
      for i := 2 to SLOTS
        invariant entry == before && Search(dirTableBuf, k) == SearchFrom(dirTableBuf, k, i)
      {
        if dirTableBuf[i].key == k {
          entry := dirTableBuf[i];
          return;
        }
      }
    }

    /** Puts a request's entry into the buffered parent table; 64 when the table is full. */
    method AddEntry(req: Request, c: nat) returns (code: nat)
      requires Ready() && req.parent < DISK_CLUSTERS
      modifies `dirTableBuf
      ensures var t := Tab(Vol(), req.parent); var slot := FreeSlot(t);
        if slot < SLOTS then code == 0 && dirTableBuf == t[slot := NewEntry(req, c)]
        else code == 64 && dirTableBuf == t
    {
      dirTableBuf := ReadTable(req.parent);
      var i, found := 2, false;
      while i < SLOTS && !found
        invariant 2 <= i <= SLOTS
        invariant found ==> i < SLOTS && FreeSlot(dirTableBuf) == i
        invariant !found ==> FreeSlot(dirTableBuf) == FreeSlotFrom(dirTableBuf, i)
        decreases SLOTS - i, !found
      {
        if dirTableBuf[i].Live() {
          i := i + 1;
        } else {
          found := true;
        }
      }
      if !found {
        return 64;
      }
      var e: Entry := ZERO_ENTRY;
      e := e.(key := RawKey.Key(req.key.name, e.key.ext));
      if req.size == 0 {
        e := e.(attribute := ATTR_SUBDIRECTORY);
      } else {
        e := e.(filesize := req.size);
      }
      e := e.(userAttribute := UATTR_NOT_EMPTY, key := RawKey.Key(e.key.name, req.key.ext),
              clusterHigh := (c / 0x1_0000) % 0x1_0000, clusterLow := c % 0x1_0000);
      dirTableBuf := dirTableBuf[i := e];
      return 0;
    }

    /** Whether `target` is a directory at or below `q`, or the parent of `q`. */
    method IsDirectory(q: nat, target: nat) returns (b: bool)
      requires Valid() && q in shape.rank
      ensures b <==> Under(Tabs(Vol()), shape, q, target) || target == Up(shape, q)
      decreases shape.clock - shape.rank[q]
    {
      ghost var t, s := Tabs(Vol()), shape;
      ReservedSlots(t, s, q);
      var table := ReadTable(q);
      for i := 0 to SLOTS
        invariant i > 0 ==> target != q
        invariant i > 1 ==> target != Up(s, q)
        invariant NoneUnder(t, s, q, i, target)
      {
        if table[i].IsDir() {
          var current := table[i].ClusterNo();
          if i >= 2 { VisitChild(t, s, q, i, target); }
          if current == target {
            return true;
          }
          if i != 0 && i != 1 {
            var flag := IsDirectory(current, target);
            if flag {
              return true;
            }
            assert !Under(t, s, current, target);
          }
        }
        NoneUnderNext(t, s, q, i, target);
      }
      NotUnder(t, s, q, target);
      return false;
    }

    /** The question every caller asks: is `target` a directory of the file system? */
    method IsDirectoryFromRoot(target: nat) returns (b: bool)
      requires Valid()
      ensures b <==> target in shape.rank
    {
      ghost var t, s := Tabs(Vol()), shape;
      b := IsDirectory(ROOT, target);
      if target in s.rank { AllUnderRoot(t, s, target); }
    }

    method IsDirectoryEmpty(c: nat) returns (b: bool)
      requires Ready() && c < DISK_CLUSTERS
      modifies `dirTableBuf
      ensures b <==> forall i :: 2 <= i < SLOTS ==> !Tab(Vol(), c)[i].Live()
    {
      dirTableBuf := ReadTable(c);
      for i := 2 to SLOTS
        invariant dirTableBuf == Tab(Vol(), c)
        invariant forall j :: 2 <= j < i ==> !dirTableBuf[j].Live()
      {
        if dirTableBuf[i].Live() {
          assert Tab(Vol(), c)[i].Live();
          return false;
        }
      }
      return true;
    }

    /** Follows the chain from `head` in the cached table and frees it: it terminates and frees just that chain. */
    method ClearCluster(head: nat, ghost ch: seq<nat>)
      requires Ready() && IsChain(Vol().fat, ch) && ch[0] == head
      requires forall i, j :: 0 <= i < j < |ch| ==> ch[i] != ch[j]
      modifies clusterMap
      ensures Ready() && Vol() == old(Vol()).(fat := ClearChain(old(Vol()).fat, ch))
    {
      var cluster: Word := head;
      ghost var k := 0;
      while cluster != END_OF_FILE
        invariant k <= |ch| && cluster == if k < |ch| then ch[k] else END_OF_FILE
        invariant forall c: nat :: c < CLUSTER_MAP_SIZE ==>
          clusterMap[c] == if c in ch[..k] then EMPTY else old(clusterMap[c])
        decreases |ch| - k
      {
        assert cluster !in ch[..k];
        var next := clusterMap[cluster];
        clusterMap[cluster] := EMPTY;
        cluster := next;
        assert ch[..k + 1] == ch[..k] + [ch[k]];
        k := k + 1;
      }
      assert ch[..k] == ch;
      ClearChainAt(old(clusterMap[..]), ch);
    }

    // ----- formatting and mounting

    method ClearFat()
      requires Ready()
      modifies clusterMap
      ensures Ready() && Vol() == old(Vol()).(fat := FormattedFat())
    {
      clusterMap[0], clusterMap[1], clusterMap[2] := CLUSTER_0_VALUE, CLUSTER_1_VALUE, END_OF_FILE;
      for i := 3 to CLUSTER_MAP_SIZE
        invariant clusterMap[0] == CLUSTER_0_VALUE && clusterMap[1] == CLUSTER_1_VALUE && clusterMap[2] == END_OF_FILE
        invariant forall j :: 3 <= j < i ==> clusterMap[j] == EMPTY
      {
        clusterMap[i] := EMPTY;
      }
      assert clusterMap[..] == FormattedFat();
    }

    method CreateFat32()
      requires Ready()
      modifies this, clusterMap, image, image.bytes
      ensures Valid() && Vol() == Format(old(Vol())) && Files() == map[2 := map[]]
      ensures FreshImage(image.bytes[..])
    {
      ghost var v := Vol();
      FormatDisk();
      shape := FORMAT_SHAPE;
      FormatConsistent(v);
      ImageOf(image);
      FormatOnDisk(image.bytes[..], v);
    }

    /** The steps of `create_fat32` on the disk and the cached table. */
    method FormatDisk()
      requires Ready()
      modifies this, clusterMap, image, image.bytes
      ensures Ready() && Vol() == Format(old(Vol()))
    {
      ghost var v := Vol();
      image.WriteBoot(Signature());
      ClearFat();
      assert Vol() == RawVolume(FormattedFat(), v.disk[0 := Signature() + v.disk[0][BLOCK_SIZE..]]);
      dirTableBuf := InitDirectoryTable(dirTableBuf, ROOT_NAME, ROOT);
      assert dirTableBuf == RootTable();
      WriteTable(dirTableBuf, ROOT);
      RootTableFresh();
      SetFat(dirTableBuf[0].ClusterNo(), END_OF_FILE);
      assert Vol().fat == FormattedFat();
      WriteFat();
    }

    /**
     Formats a disk without the signature; otherwise only loads its table.  Whatever the cached
     table held before, a disk that is consistent by itself is then mounted as it is.
     */
    method Initialize()
      requires Ready()
      modifies this, clusterMap, image, image.bytes
      ensures Ready() && Vol() == Mount(old(Vol()))
      ensures WellFormed(Vol()) ==> Valid()
      ensures old(Valid()) ==> Valid() && Vol() == old(Vol()) && Files() == old(Files())
      ensures forall s :: Consistent(DiskVolume(old(image.clusters)), s) ==>
        && Valid() && image.clusters == old(image.clusters) && Vol() == DiskVolume(old(image.clusters))
        && Files() == View(DiskVolume(old(image.clusters)), s)
      ensures old(image.bytes[..512]) != Signature() ==>
        Valid() && Files() == map[2 := map[]] && FreshImage(image.bytes[..])
      ensures old(image.bytes[..512]) == Signature() ==>
        && image.clusters == old(image.clusters)
        && forall i :: 0 <= i < 512 ==> clusterMap[i] == WordAt(image.bytes[..], 2048 + 4 * i)
      ensures Signed(image.bytes[..])
    {
      ghost var v, s := Vol(), shape;
      var boot := image.ReadBoot();
      BootBytes(image);
      if boot != Signature() {
        CreateFat32();
      } else {
        ReadFat();
        NoteMounted(v, s);
        ImageOf(image);
        SignedWhen(image.bytes[..], image.clusters);
        TableWords(image.bytes[..], Vol());
      }
    }

    /** Finds the layout of a volume that has been loaded. */
    ghost method NoteMounted(v: Volume, s: Shape)
      requires Ready() && shape == s && Vol() == DiskVolume(v.disk) && v.disk[0][..BLOCK_SIZE] == Signature()
      modifies `shape
      ensures Ready() && Vol() == old(Vol())
      ensures WellFormed(Vol()) ==> Valid()
      ensures Consistent(v, s) ==> Valid() && Vol() == v && shape == s
      ensures forall x :: Consistent(DiskVolume(v.disk), x) ==> Valid() && Files() == View(DiskVolume(v.disk), x)
    {
      if Consistent(v, s) {
      } else if WellFormed(Vol()) {
        shape := ShapeOf(Vol());
      }
      forall x | Consistent(Vol(), x)
        ensures Valid() && Files() == View(Vol(), x)
      {
        ShapeUnique(Vol(), shape, x);
      }
    }

    // ----- writing

    /** The directory branch of `write`. */
    method MakeDirectory(req: Request) returns (code: int)
      requires Ready() && req.parent < DISK_CLUSTERS && req.size == 0
      modifies `dirTableBuf, clusterMap, image, image.bytes
      ensures Ready()
      ensures if FreeSlot(Tab(old(Vol()), req.parent)) < SLOTS then code == 0 && Vol() == MakeDir(old(Vol()), req)
        else code == -1 && Vol() == old(Vol())
    {
      ghost var v := Vol();
      var self := InitDirectoryTable(BlankTable(), req.key.name, req.parent);
      NewTableCluster(v, req.key.name, req.parent);
      var c := self[0].ClusterNo();
      var isSuccess := AddEntry(req, c);
      if isSuccess != 0 {
        return -1;
      }
      StoreDirectory(req.parent, c, self);
      return 0;
    }

    /** Writes the parent's table, the allocation table with the new cluster, and the new table. */
    method StoreDirectory(parent: nat, c: nat, self: Table)
      requires Ready() && parent < DISK_CLUSTERS && c < CLUSTER_MAP_SIZE
      modifies clusterMap, image, image.bytes
      ensures Ready()
      ensures var put := PutTable(old(Vol()), parent, dirTableBuf);
        Vol() == PutTable(PutFat(put, DecodeFat(put.disk[FAT_CLUSTER])[c := END_OF_FILE]), c, self)
    {
      WriteTable(dirTableBuf, parent);
      ReadFat();
      SetFat(c, END_OF_FILE);
      WriteFat();
      WriteTable(self, c);
    }

    /** The file branch of `write`. */
    method StoreFile(req: Request, needed: Half, buf: seq<Byte>) returns (code: int)
      requires Valid() && req.parent in shape.rank && req.parent < DISK_CLUSTERS && req.size > 0
      requires FreeSlot(Tab(Vol(), req.parent)) < SLOTS ==> needed != 0xFFFF
      requires CLUSTER_SIZE * needed <= |buf|
      modifies `dirTableBuf, clusterMap, image, image.bytes
      ensures Ready()
      ensures if FreeSlot(Tab(old(Vol()), req.parent)) < SLOTS then
          code == 0 && Vol() == MakeFile(old(Vol()), req, needed, buf)
        else code == -1 && Vol() == old(Vol())
    {
      var cluster := GetEmptyCluster();
      var isSuccess := AddEntry(req, cluster);
      if isSuccess != 0 {
        return -1;
      }
      WriteTable(dirTableBuf, req.parent);
      FillAll(cluster, needed, buf);
      return 0;
    }

    /** The write loop with its 16-bit counter; `LoopEnds` says when it ends. */
    method FillAll(head: nat, needed: Half, buf: seq<Byte>)
      requires Ready() && head < CLUSTER_MAP_SIZE
      requires needed != 0xFFFF && CLUSTER_SIZE * needed <= |buf|
      modifies clusterMap, image, image.bytes
      ensures Ready() && Vol() == FillChain(old(Vol()), head, 0, needed, buf)
    {
      var cluster: nat, next: nat, count: Half := head, 0, 1;
      ghost var turns: nat := 0;
      CounterIs(0);
      while count <= needed
        invariant Ready() && count == Counter(turns) == turns + 1 && turns <= needed
        invariant cluster < CLUSTER_MAP_SIZE && next < CLUSTER_MAP_SIZE
        invariant FillChain(Vol(), cluster, turns, needed, buf) == FillChain(old(Vol()), head, 0, needed, buf)
        decreases needed - turns
      {
        next := FillTurn(cluster, next, count == needed, Chunk(buf, count - 1));
        NextTurn(count, turns);
        cluster, count := next, (count + 1) % 0x1_0000;
        turns := turns + 1;
      }
    }

    /** One turn of the write loop; `stale` is what `next` holds from the turn before. */
    method FillTurn(cluster: nat, stale: nat, last: bool, data: Cluster) returns (next: nat)
      requires Ready() && cluster < CLUSTER_MAP_SIZE && stale < CLUSTER_MAP_SIZE
      modifies clusterMap, image, image.bytes
      ensures Ready() && next < CLUSTER_MAP_SIZE
      ensures var (fat, n) := LinkStep(old(Vol()).fat, cluster, last);
        && Vol() == PutFat(old(Vol()).(disk := old(Vol()).disk[cluster := data]), fat)
        && (!last ==> next == n)
    {
      next := stale;
      SetFat(cluster, END_OF_FILE);
      if !last {
        next := GetEmptyCluster();
        SetFat(cluster, next);
      }
      image.WriteCluster(data, cluster);
      WriteFat();
    }

    /** The body of `write`, once the clusters are counted. */
    method WriteChecked(req: Request, needed: Half, buf: seq<Byte>) returns (code: int)
      requires Valid() && CLUSTER_SIZE * needed <= |buf|
      requires req.size > 0 && WriteCode(Vol(), shape, req) == 0 ==> needed != 0xFFFF
      modifies `dirTableBuf, clusterMap, image, image.bytes
      ensures Ready() && code == old(WriteCode(Vol(), shape, req))
      ensures Vol() == FatOps.Write(old(Vol()), shape, req, needed, buf)
    {
      code := CheckWrite(req);
      if code != 0 {
        return;
      }
      if req.size == 0 {
        code := MakeDirectory(req);
      } else {
        code := StoreFile(req, needed, buf);
      }
    }

    /** The refusals of a write that come before the parent's table is looked at for a slot. */
    method CheckWrite(req: Request) returns (code: int)
      requires Valid()
      modifies `dirTableBuf
      ensures Valid() && code in {0, 1, 2}
      ensures if code != 0 then code == WriteCode(Vol(), shape, req)
        else && req.parent in shape.rank && req.parent < DISK_CLUSTERS
             && WriteCode(Vol(), shape, req) == if FreeSlot(Tab(Vol(), req.parent)) < SLOTS then 0 else -1
    {
      var parentOk := IsDirectoryFromRoot(req.parent);
      if !parentOk {
        return 2;
      }
      DirsUsed(Vol(), shape, req.parent);
      var entry := DirTableSearch(ZERO_ENTRY, req.key, req.parent);
      return if entry.Live() then 1 else 0;
    }

    /**
     Creates a file, or a directory when no size is given.  The volume stays consistent exactly
     when the write was refused or is sound, and then changes as the abstract file system does.
     An accepted write whose cluster count is 65535 does not return (see `FatCalls.EndlessWrite`).
     */
    method Write(req: Request, buf: seq<Byte>) returns (code: int)
      requires Valid() && Returns(Vol(), shape, req)
      requires CLUSTER_SIZE * NeededClusters(req.size) <= |buf|
      modifies this, clusterMap, image, image.bytes
      ensures Ready() && code == old(WriteCode(Vol(), shape, req))
      ensures Vol() == FatOps.Write(old(Vol()), old(shape), req, NeededClusters(req.size), buf)
      ensures Valid() <==> code != 0 || WriteSound(old(Vol()), req)
      ensures code != 0 ==> Vol() == old(Vol()) && Files() == old(Files())
      ensures old(Legal(Vol(), WriteCmd(req, buf))) ==>
        Valid() && AbsStep(old(Files()), WriteCmd(req, buf), Files())
      ensures code == var a := old(Files());
        if req.parent !in a then 2 else if req.key in a[req.parent] then 1
        else if |a[req.parent]| == 62 then -1 else 0
      ensures code == 0 && old(Legal(Vol(), WriteCmd(req, buf))) ==>
        exists i :: 2 <= i < 64 && WrittenAt(image.bytes[..], 2048 * req.parent + 32 * i, req, buf)
    {
      var needed := NeededClusters(req.size);
      ghost var v, s := Vol(), shape;
      WriteCodeIsAbstract(v, s, req);
      code := WriteChecked(req, needed, buf);
      NoteWrite(v, s, req, buf);
      if code == 0 && Legal(v, WriteCmd(req, buf)) { NoteBytes(View(v, s), req, buf); }
    }

    /** The bytes that a legal write leaves on the disk. */
    ghost method NoteBytes(a: AbsFs, req: Request, buf: seq<Byte>)
      requires Valid() && AbsStep(a, WriteCmd(req, buf), Files())
      requires req.parent in a && req.key !in a[req.parent] && |a[req.parent]| != 62
      ensures exists i :: 2 <= i < 64 && WrittenAt(image.bytes[..], 2048 * req.parent + 32 * i, req, buf)
    {
      ImageOf(image);
      WrittenOnDisk(image.bytes[..], Vol(), shape, a, req, buf);
    }

    /** Brings the layout up to date with a write that has been carried out. */
    ghost method NoteWrite(v: Volume, s: Shape, req: Request, buf: seq<Byte>)
      requires Ready() && Consistent(v, s) && shape == s && CLUSTER_SIZE * NeededClusters(req.size) <= |buf|
      requires Vol() == FatOps.Write(v, s, req, NeededClusters(req.size), buf)
      modifies `shape
      ensures Ready() && Vol() == old(Vol())
      ensures Valid() <==> WriteCode(v, s, req) != 0 || WriteSound(v, req)
      ensures WriteCode(v, s, req) != 0 ==> Vol() == v && shape == s
      ensures Legal(v, WriteCmd(req, buf)) ==> Valid() && AbsStep(View(v, s), WriteCmd(req, buf), Files())
    {
      var s' := WrittenShape(v, s, req, buf);
      shape := s';
    }

    // ----- deleting

    method Delete(req: Request) returns (code: int)
      requires Valid() && req.parent < DISK_CLUSTERS
      modifies this, clusterMap, image, image.bytes
      ensures Valid() && code == old(DeleteCode(Vol(), shape, req))
      ensures Vol() == FatDelete.Delete(old(Vol()), old(shape), req)
      ensures AbsStep(old(Files()), DeleteCmd(req), Files())
      ensures req.parent in old(Files()) ==>
        code == var a := old(Files()); var dir := a[req.parent];
          if req.key !in dir then 1
          else if dir[req.key].DirItem? && dir[req.key].id in a && a[dir[req.key].id] != map[] then 2
          else 0
      ensures code == 0 ==>
        forall i :: 2 <= i < 64 ==> !NamedAt(image.bytes[..], 2048 * req.parent + 32 * i, req.key)
    {
      ghost var v, s := Vol(), shape;
      code := DeleteChecked(req);
      DeleteWellFormed(v, s, req);
      shape := ShapeOf(Vol());
      LegalDelete(v, s, shape, req);
      NoteDeleted(v, s, req);
    }

    /** What a delete answers in terms of the files, and that the name is gone from the disk. */
    ghost method NoteDeleted(v: Volume, s: Shape, req: Request)
      requires Valid() && Consistent(v, s) && req.parent < DISK_CLUSTERS
      requires AbsStep(View(v, s), DeleteCmd(req), Files())
      ensures req.parent in View(v, s) ==>
        DeleteCode(v, s, req) == var a := View(v, s); var dir := a[req.parent];
          if req.key !in dir then 1
          else if dir[req.key].DirItem? && dir[req.key].id in a && a[dir[req.key].id] != map[] then 2
          else 0
      ensures DeleteCode(v, s, req) == 0 ==>
        forall i :: 2 <= i < 64 ==> !NamedAt(image.bytes[..], 2048 * req.parent + 32 * i, req.key)
    {
      if req.parent in View(v, s) { DeleteAnswers(v, s, req); }
      if DeleteCode(v, s, req) == 0 {
        DeleteHasParent(v, s, req);
        DeleteAnswers(v, s, req);
        ErasedIsGone(View(v, s), Files(), req);
        ImageOf(image);
        GoneFromDisk(image.bytes[..], Vol(), shape, req.parent, req.key);
      }
    }

    /** The body of `delete`. */
    method DeleteChecked(req: Request) returns (code: int)
      requires Valid() && req.parent < DISK_CLUSTERS
      modifies `dirTableBuf, clusterMap, image, image.bytes
      ensures Ready() && code == old(DeleteCode(Vol(), shape, req))
      ensures Vol() == FatDelete.Delete(old(Vol()), shape, req)
    {
      var actual;
      code, actual := CheckDelete(req);
      if code == 0 { TakeOut(req, actual); }
    }

    /** The refusals of a delete; without one, the cluster of the entry that goes. */
    method CheckDelete(req: Request) returns (code: int, actual: nat)
      requires Valid() && req.parent < DISK_CLUSTERS
      modifies `dirTableBuf
      ensures Valid() && code == DeleteCode(Vol(), shape, req)
      ensures code == 0 ==> actual == TargetHead(Vol(), req)
    {
      var entry := DirTableSearch(ZERO_ENTRY, req.key, req.parent);
      actual := entry.ClusterNo();
      if !entry.Live() {
        return 1, actual;
      }
      var occupied := IsOccupiedDirectory(actual);
      if occupied {
        return 2, actual;
      }
      var parentOk := IsDirectoryFromRoot(req.parent);
      code := if parentOk then 0 else -1;
    }

    method IsOccupiedDirectory(c: nat) returns (b: bool)
      requires Valid()
      modifies `dirTableBuf
      ensures b <==> c in shape.rank && c < DISK_CLUSTERS && exists i :: 2 <= i < SLOTS && Tab(Vol(), c)[i].Live()
    {
      b := IsDirectoryFromRoot(c);
      if b {
        DirsUsed(Vol(), shape, c);
        var empty := IsDirectoryEmpty(c);
        b := !empty;
      }
    }

    /** Empties the entry's slot, frees its chain and writes both back. */
    method TakeOut(req: Request, actual: nat)
      requires Valid() && req.parent < DISK_CLUSTERS && DeleteCode(Vol(), shape, req) == 0
      requires actual == TargetHead(Vol(), req)
      modifies `dirTableBuf, clusterMap, image, image.bytes
      ensures Ready() && Vol() == FatDelete.Delete(old(Vol()), shape, req)
    {
      ghost var v, s := Vol(), shape;
      TargetChain(v, s, req);
      RemoveChain(req, actual, s.chains[actual]);
      DeleteIs(v, s, req);
    }

    /** Zeroes the entry, frees its chain and writes the allocation table back. */
    method RemoveChain(req: Request, head: nat, ghost ch: seq<nat>)
      requires Ready() && req.parent < DISK_CLUSTERS && 2 <= TargetSlot(Vol(), req) < SLOTS
      requires IsChain(Vol().fat, ch) && ch[0] == head && forall i, j :: 0 <= i < j < |ch| ==> ch[i] != ch[j]
      modifies `dirTableBuf, clusterMap, image, image.bytes
      ensures Ready()
      ensures var v, p, slot := old(Vol()), req.parent, TargetSlot(old(Vol()), req);
        Vol() == PutFat(PutTable(v, p, Tab(v, p)[slot := ZERO_ENTRY]), ClearChain(v.fat, ch))
    {
      RemoveEntry(req);
      ClearCluster(head, ch);
      WriteFat();
    }

    /** Empties the entry's slot on the disk. */
    method RemoveEntry(req: Request)
      requires Ready() && req.parent < DISK_CLUSTERS && 2 <= TargetSlot(Vol(), req) < SLOTS
      modifies `dirTableBuf, image, image.bytes
      ensures Ready()
      ensures Vol() == PutTable(old(Vol()), req.parent,
                                Tab(old(Vol()), req.parent)[TargetSlot(old(Vol()), req) := ZERO_ENTRY])
    {
      ClearSlot(req);
      WriteTable(dirTableBuf, req.parent);
    }

    method ClearSlot(req: Request)
      requires Ready() && req.parent < DISK_CLUSTERS && 2 <= TargetSlot(Vol(), req) < SLOTS
      modifies `dirTableBuf
      ensures dirTableBuf == Tab(Vol(), req.parent)[TargetSlot(Vol(), req) := ZERO_ENTRY]
    {
      dirTableBuf := ReadTable(req.parent);
      for i := 2 to SLOTS
        invariant dirTableBuf == Tab(Vol(), req.parent)
        invariant TargetSlot(Vol(), req) == SearchFrom(dirTableBuf, req.key, i)
      {
        if dirTableBuf[i].key == req.key {
          dirTableBuf := dirTableBuf[i := ZERO_ENTRY];
          return;
        }
      }
    }

    // ----- reading

    /** Copies a file's chain into `buf`, which must hold whole clusters. */
    method Read(req: Request, buf: array<Byte>) returns (code: int)
      requires Valid() && req.parent in shape.rank
      requires (buf as object) != this && (buf as object) != clusterMap && buf != image.bytes
      requires buf.Length >= CLUSTER_SIZE * CeilDiv(req.size, CLUSTER_SIZE)
      modifies `dirTableBuf, buf
      ensures Valid() && Vol() == old(Vol())
      ensures req.parent in Files() && code == AbsRead(Files(), req)
      ensures code == var dir := Files()[req.parent];
        if req.key !in dir then 3 else if dir[req.key].DirItem? then 1
        else if req.size < |dir[req.key].bytes| then 2 else 0
      ensures code == 0 ==> Delivered(Files(), req, buf[..])
      ensures code != 0 ==> buf[..] == old(buf[..])
    {
      DirsUsed(Vol(), shape, req.parent);
      var entry;
      code, entry := CheckRead(req);
      if code == 0 { CopyFile(req, entry, buf); }
      ReadIsAbstract(Vol(), shape, req);
    }

    /** The refusals of a read; without one, the entry of the file. */
    method CheckRead(req: Request) returns (code: int, entry: Entry)
      requires Ready() && req.parent < DISK_CLUSTERS
      modifies `dirTableBuf
      ensures code == ReadCode(Vol(), req)
      ensures code == 0 ==> entry == Lookup(Tab(Vol(), req.parent), req.key)
    {
      entry := DirTableSearch(ZERO_ENTRY, req.key, req.parent);
      if entry.IsDir() {
        return 1, entry;
      }
      if req.size < entry.filesize {
        return 2, entry;
      }
      if !entry.Live() {
        return 3, entry;
      }
      return if entry.ClusterNo() != 0 then 0 else -1, entry;
    }

    /** Copies the file that `entry` describes. */
    method CopyFile(req: Request, entry: Entry, buf: array<Byte>)
      requires Valid() && req.parent in shape.rank && req.parent < DISK_CLUSTERS && ReadCode(Vol(), req) == 0
      requires entry == Lookup(Tab(Vol(), req.parent), req.key)
      requires (buf as object) != this && (buf as object) != clusterMap && buf != image.bytes
      requires buf.Length >= CLUSTER_SIZE * CeilDiv(req.size, CLUSTER_SIZE)
      modifies buf
      ensures Ready() && Vol() == old(Vol())
      ensures Delivered(Files(), req, buf[..])
    {
      ghost var v, s := Vol(), shape;
      ReadChain(v, s, req);
      var cluster := entry.ClusterNo();
      CopyChain(cluster, buf, s.chains[cluster]);
      PrefixOf(buf[..], ChainData(v.disk, s.chains[cluster]), entry.filesize);
    }

    /** Copies a directory's table into the caller's, `out`. */
    method ReadDirectory(req: Request, before: Table) returns (code: int, out: Table)
      requires Valid() && req.parent in shape.rank
      ensures req.parent in Files() && code == AbsReadDir(Files(), req)
      ensures code == var dir := Files()[req.parent];
        if req.size != 2048 then -1
        else if req.parent == 2 && req.key == RawKey.Key([0x72, 0x6F, 0x6F, 0x74, 0, 0, 0, 0], [0, 0, 0]) then 0
        else if req.key in dir then (if dir[req.key].DirItem? then 0 else 1)
        else if req.key == RawKey.Key([0, 0, 0, 0, 0, 0, 0, 0], [0, 0, 0]) && |dir| < 62 then 1
        else 2
      ensures code == 0 ==> req.parent < DISK_CLUSTERS && ReadDirCluster(Vol(), req) in Files()
      ensures code == 0 ==>
          ReadDirCluster(Vol(), req) < DISK_CLUSTERS && out == Tab(Vol(), ReadDirCluster(Vol(), req))
      ensures code != 0 ==> out == before
    {
      DirsUsed(Vol(), shape, req.parent);
      ReadDirIsAbstract(Vol(), shape, req);
      ViewKeys(Vol(), shape);
      code, out := FindDirectory(req, before);
    }

    /** The body of `read_directory`. */
    method FindDirectory(req: Request, before: Table) returns (code: int, out: Table)
      requires Ready() && req.parent < DISK_CLUSTERS
      requires ReadDirCode(Vol(), req) == 0 ==> ReadDirCluster(Vol(), req) < DISK_CLUSTERS
      ensures code == ReadDirCode(Vol(), req)
      ensures out == if code == 0 then Tab(Vol(), ReadDirCluster(Vol(), req)) else before
    {
      out := before;
      if req.size != CLUSTER_SIZE {
        return -1, out;
      }
      var table := ReadTable(req.parent);
      if req.parent == ROOT && req.key.name == ROOT_NAME && req.key.ext == NO_EXT {
        out := ReadTable(ROOT);
        return 0, out;
      }
      for i := 2 to SLOTS
        invariant Search(table, req.key) == SearchFrom(table, req.key, i)
      {
        if table[i].key == req.key {
          if !table[i].IsDir() {
            return 1, out;
          }
          out := ReadTable(table[i].ClusterNo());
          return 0, out;
        }
      }
      return 2, out;
    }

    method CopyCluster(data: Cluster, buf: array<Byte>, at: nat)
      requires at + CLUSTER_SIZE <= buf.Length
      modifies buf
      ensures buf[..at + CLUSTER_SIZE] == old(buf[..at]) + data
    {
      forall k | 0 <= k < CLUSTER_SIZE {
        buf[at + k] := data[k];
      }
    }

    method CopyChain(head: nat, buf: array<Byte>, ghost ch: seq<nat>)
      requires Ready() && IsChain(Vol().fat, ch) && ch[0] == head
      requires (buf as object) != this && (buf as object) != clusterMap && buf != image.bytes
      requires buf.Length >= CLUSTER_SIZE * |ch|
      modifies buf
      ensures Ready() && Vol() == old(Vol())
      ensures buf[..CLUSTER_SIZE * |ch|] == ChainData(Vol().disk, ch)
    {
      var cluster: Word, itr := head, 0;
      while cluster != END_OF_FILE
        invariant Ready() && Vol() == old(Vol())
        invariant itr <= |ch| && cluster == if itr < |ch| then ch[itr] else END_OF_FILE
        invariant buf[..CLUSTER_SIZE * itr] == ChainData(Vol().disk, ch[..itr])
        decreases |ch| - itr
      {
        var data := image.ReadCluster(cluster);
        CopyCluster(data, buf, CLUSTER_SIZE * itr);
        DataSnoc(Vol().disk, ch[..itr], ch[itr]);
        assert ch[..itr + 1] == ch[..itr] + [ch[itr]];
        cluster := clusterMap[cluster];
        itr := itr + 1;
      }
      assert ch[..itr] == ch;
    }
  }

  /** The bytes of the image are the clusters. */
  lemma ImageOf(im: Image)
    requires im.Valid()
    ensures IsImage(im.bytes[..], im.clusters)
  {
    forall c | 0 <= c < 2048
      ensures im.bytes[..][2048 * c..2048 * c + 2048] == im.clusters[c]
    {
      assert im.bytes[2048 * c..2048 * c + 2048] == im.clusters[c];
    }
  }

  lemma BootBytes(im: Image)
    requires im.Valid()
    ensures im.bytes[..512] == im.clusters[0][..BLOCK_SIZE]
  {
    assert im.bytes[2048 * 0..2048 * 0 + 2048] == im.clusters[0];
    assert im.bytes[..512] == im.bytes[2048 * 0..2048 * 0 + 2048][..512];
  }

  /** The disk is mounted and holds volume `v`, laid out as `s`. */
  ghost predicate Mounted(d: Driver, v: Volume, s: Shape)
    reads d, d.image, d.image.bytes, d.clusterMap
  {
    d.Valid() && d.Vol() == v && d.shape == s
  }
}
