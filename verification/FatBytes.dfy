/** The bytes of the disk format, field by field, at the offsets of the packed structures. */
module FatBytes {
  import opened Words
  import opened FatLayout
  import opened Volumes
  import opened FatOps
  import opened AbsFiles
  import opened FatView
  import opened FatRead
  import opened FatRuns

  /** The bytes from `at` on are a live entry with these fields. */
  ghost predicate HoldsEntry(b: seq<Byte>, at: nat, k: Key, attribute: int, head: int, size: int) {
    && at + 32 <= |b|
    && b[at..at + 8] == k.name && b[at + 8..at + 11] == k.ext
    && b[at + 11] == attribute && b[at + 12] == 0xAA
    && head == (b[at + 26] as int) + 0x100 * (b[at + 27] as int)
               + 0x1_0000 * (b[at + 20] as int) + 0x100_0000 * (b[at + 21] as int)
    && size == (b[at + 28] as int) + 0x100 * (b[at + 29] as int)
               + 0x1_0000 * (b[at + 30] as int) + 0x100_0000 * (b[at + 31] as int)
  }

  lemma EncodedEntry(e: Entry)
    ensures var b := EncodeEntry(e);
      && b[0..8] == e.key.name && b[8..11] == e.key.ext
      && b[11] == e.attribute && b[12] == e.userAttribute && b[13..20] == e.meta && b[22..26] == e.stamp
      && e.clusterHigh == (b[20] as int) + 0x100 * (b[21] as int)
      && e.clusterLow == (b[26] as int) + 0x100 * (b[27] as int)
      && e.filesize == (b[28] as int) + 0x100 * (b[29] as int) + 0x1_0000 * (b[30] as int) + 0x100_0000 * (b[31] as int)
  {
    var b := EncodeEntry(e);
    var high, low, size := HalfBytes(e.clusterHigh), HalfBytes(e.clusterLow), WordBytes(e.filesize);
    var head := e.key.name + e.key.ext + [e.attribute, e.userAttribute] + e.meta;
    assert head[0..8] == e.key.name && head[8..11] == e.key.ext && head[13..20] == e.meta;
    assert |head| == 20 && b == head + (high + e.stamp + low + size);
    assert b[20..22] == high && b[22..26] == e.stamp && b[26..28] == low && b[28..32] == size;
    assert b[0..8] == head[0..8] && b[8..11] == head[8..11] && b[13..20] == head[13..20];
    assert b[20] == high[0] && b[21] == high[1] && b[26] == low[0] && b[27] == low[1];
    assert b[28] == size[0] && b[29] == size[1] && b[30] == size[2] && b[31] == size[3];
    WordSum(e.filesize);
  }

  lemma WordSum(w: Word)
    ensures var b := WordBytes(w);
      w == (b[0] as int) + 0x100 * (b[1] as int) + 0x1_0000 * (b[2] as int) + 0x100_0000 * (b[3] as int)
  {
    WordRoundTrip(w);
  }

  /** Where every field of every slot of a directory table lies in its cluster. */
  lemma TableBytes(t: Table, i: nat)
    requires i < 64
    ensures var c, at, e := EncodeTable(t), 32 * i, t[i];
      && c[at..at + 8] == e.key.name && c[at + 8..at + 11] == e.key.ext
      && c[at + 11] == e.attribute && c[at + 12] == e.userAttribute
      && c[at + 13..at + 20] == e.meta && c[at + 22..at + 26] == e.stamp
      && e.clusterHigh == (c[at + 20] as int) + 0x100 * (c[at + 21] as int)
      && e.clusterLow == (c[at + 26] as int) + 0x100 * (c[at + 27] as int)
      && e.filesize == (c[at + 28] as int) + 0x100 * (c[at + 29] as int)
                       + 0x1_0000 * (c[at + 30] as int) + 0x100_0000 * (c[at + 31] as int)
  {
    EntryBytesAt(t, i);
    EncodedEntry(t[i]);
    SliceAt(EncodeTable(t), 32 * i, EncodeEntry(t[i]));
  }

  /** A piece of a sequence, byte by byte and piece by piece. */
  lemma SliceAt(c: seq<Byte>, at: nat, b: seq<Byte>)
    requires at + |b| <= |c| && c[at..at + |b|] == b
    ensures forall k {:trigger b[k]} :: 0 <= k < |b| ==> c[at + k] == b[k]
    ensures forall j, k {:trigger b[j..k]} :: 0 <= j <= k <= |b| ==> c[at + j..at + k] == b[j..k]
  {
    forall k | 0 <= k < |b|
      ensures c[at + k] == b[k]
    {
      assert c[at..at + |b|][k] == b[k];
    }
    forall j, k | 0 <= j <= k <= |b|
      ensures c[at + j..at + k] == b[j..k]
    {
      assert c[at..at + |b|][j..k] == c[at + j..at + k];
    }
  }

  /** Conversely, what a cluster is read as: which slots are live, which are directories, and where they lead. */
  lemma SlotBytes(c: Cluster, i: nat)
    requires i < 64
    ensures var at, e := 32 * i, DecodeTable(c)[i];
      && (e.Live() <==> c[at + 12] == 0xAA) && (e.IsDir() <==> c[at + 11] == 0x10)
      && e.key == RawKey.Key(c[at..at + 8], c[at + 8..at + 11])
      && e.ClusterNo() == (c[at + 26] as int) + 0x100 * (c[at + 27] as int)
                          + 0x1_0000 * (c[at + 20] as int) + 0x100_0000 * (c[at + 21] as int)
      && e.filesize == (c[at + 28] as int) + 0x100 * (c[at + 29] as int)
                       + 0x1_0000 * (c[at + 30] as int) + 0x100_0000 * (c[at + 31] as int)
  {
    TableBytes(DecodeTable(c), i);
    TableBytesOnto(c);
  }

  /** Word `i` of the allocation table lies at byte `4 * i`, lowest byte first. */
  lemma FatBytes(f: Fat, i: nat)
    requires i < 512
    ensures var c, at := EncodeFat(f), 4 * i;
      f[i] == (c[at] as int) + 0x100 * (c[at + 1] as int)
              + 0x1_0000 * (c[at + 2] as int) + 0x100_0000 * (c[at + 3] as int)
  {
    var c := EncodeFat(f);
    forall k: nat | k < 4
      ensures c[4 * i + k] == WordBytes(f[i])[k]
    {
      assert (4 * i + k) / 4 == i && (4 * i + k) % 4 == k;
    }
    assert c[4 * i + 0] == WordBytes(f[i])[0];
    WordSum(f[i]);
  }

  lemma FatWords(c: Cluster, i: nat)
    requires i < 512
    ensures var at := 4 * i;
      DecodeFat(c)[i] == (c[at] as int) + 0x100 * (c[at + 1] as int)
                         + 0x1_0000 * (c[at + 2] as int) + 0x100_0000 * (c[at + 3] as int)
  {
    FatBytes(DecodeFat(c), i);
    FatBytesOnto(c);
  }

  // ----- a place on the disk

  lemma StoredEntry(t: Table, i: nat)
    requires i < 64 && t[i].Live()
    ensures HoldsEntry(EncodeTable(t), 32 * i, t[i].key, t[i].attribute, t[i].ClusterNo(), t[i].filesize)
  {
    TableBytes(t, i);
  }

  /** A live entry of a directory, in the bytes of the directory's cluster. */
  lemma LiveEntryBytes(c: Cluster, i: nat)
    requires i < 64 && DecodeTable(c)[i].Live()
    ensures var e := DecodeTable(c)[i]; HoldsEntry(c, 32 * i, e.key, e.attribute, e.ClusterNo(), e.filesize)
  {
    StoredEntry(DecodeTable(c), i);
    TableBytesOnto(c);
  }

  /** A cluster's bytes lie in the image from `base` on. */
  lemma EntryInImage(b: seq<Byte>, c: Cluster, base: nat, at: nat, k: Key, attribute: int, head: int, size: int)
    requires base + 2048 <= |b| && b[base..base + 2048] == c && at + 32 <= 2048
    requires HoldsEntry(c, at, k, attribute, head, size)
    ensures HoldsEntry(b, base + at, k, attribute, head, size)
  {
    SliceAt(b, base, c);
    assert c[at..at + 8] == b[base + at..base + (at + 8)];
    assert c[at + 8..at + 11] == b[base + (at + 8)..base + (at + 11)];
    assert c[at + 11] == b[base + (at + 11)] && c[at + 12] == b[base + (at + 12)];
    assert c[at + 20] == b[base + (at + 20)] && c[at + 21] == b[base + (at + 21)];
    assert c[at + 26] == b[base + (at + 26)] && c[at + 27] == b[base + (at + 27)];
    assert c[at + 28] == b[base + (at + 28)] && c[at + 29] == b[base + (at + 29)];
    assert c[at + 30] == b[base + (at + 30)] && c[at + 31] == b[base + (at + 31)];
  }

  // ----- the whole disk

  /** The 32-bit number in the bytes from `at` on. */
  function WordAt(b: seq<Byte>, at: nat): int
    requires at + 4 <= |b|
  {
    (b[at] as int) + 0x100 * (b[at + 1] as int) + 0x1_0000 * (b[at + 2] as int) + 0x100_0000 * (b[at + 3] as int)
  }

  /** The image of a disk: cluster `c` lies at byte `2048 * c`. */
  ghost predicate IsImage(b: seq<Byte>, disk: seq<Cluster>) {
    && |b| == 0x40_0000 && |disk| == 2048
    && forall c :: 0 <= c < 2048 ==> b[2048 * c..2048 * c + 2048] == disk[c]
  }

  /** The file whose first cluster is `c`: a cluster of data, then what the allocation table says comes next. */
  ghost predicate HoldsFile(b: seq<Byte>, c: nat, data: seq<Byte>)
    requires |b| == 0x40_0000
    decreases |data|
  {
    && 2 <= c < 512
    && if |data| <= 2048 then b[2048 * c..2048 * c + |data|] == data && WordAt(b, 2048 + 4 * c) == 0x0FFF_FFFF
       else b[2048 * c..2048 * c + 2048] == data[..2048]
            && var next := WordAt(b, 2048 + 4 * c); next >= 0 && HoldsFile(b, next, data[2048..])
  }

  /** The bytes from `at` on are the entry of `x` under name `k`. */
  ghost predicate HoldsItem(b: seq<Byte>, at: nat, k: Key, x: Item)
    requires |b| == 0x40_0000
  {
    match x
    case DirItem(id) => HoldsEntry(b, at, k, 0x10, id, 0)
    case FileItem(data) => exists head: nat :: HoldsEntry(b, at, k, 0, head, |data|) && HoldsFile(b, head, data)
  }

  lemma TableWord(b: seq<Byte>, v: Volume, c: nat)
    requires IsImage(b, v.disk) && v.fat == DecodeFat(v.disk[1]) && c < 512
    ensures WordAt(b, 2048 + 4 * c) == v.fat[c]
  {
    var fat := v.disk[1];
    assert b[2048 * 1..2048 * 1 + 2048] == fat;
    SliceAt(b, 2048, fat);
    FatWords(fat, c);
    assert b[2048 + 4 * c] == fat[4 * c] && b[2048 + (4 * c + 1)] == fat[4 * c + 1];
    assert b[2048 + (4 * c + 2)] == fat[4 * c + 2] && b[2048 + (4 * c + 3)] == fat[4 * c + 3];
  }

  lemma TableWords(b: seq<Byte>, v: Volume)
    requires IsImage(b, v.disk) && v.fat == DecodeFat(v.disk[1])
    ensures forall i :: 0 <= i < 512 ==> v.fat[i] == WordAt(b, 2048 + 4 * i)
  {
    forall i | 0 <= i < 512
      ensures v.fat[i] == WordAt(b, 2048 + 4 * i)
    {
      TableWord(b, v, i);
    }
  }

  /** A chain of the table is a file on the disk. */
  lemma {:induction false} ChainIsFile(b: seq<Byte>, v: Volume, ch: seq<nat>, n: nat)
    requires IsImage(b, v.disk) && v.fat == DecodeFat(v.disk[1]) && IsChain(v.fat, ch)
    requires 2048 * (|ch| - 1) < n <= 2048 * |ch| == |ChainData(v.disk, ch)|
    ensures HoldsFile(b, ch[0], ChainData(v.disk, ch)[..n])
    decreases |ch|
  {
    var c, data := ch[0], ChainData(v.disk, ch)[..n];
    TableWord(b, v, c);
    assert b[2048 * c..2048 * c + 2048] == v.disk[c];
    if |ch| == 1 {
      assert ChainData(v.disk, ch[1..]) == [];
      assert data == v.disk[c][..n];
      SliceAt(b, 2048 * c, v.disk[c]);
      assert b[2048 * c + 0..2048 * c + n] == v.disk[c][0..n];
    } else {
      DataLength(v.disk, ch[1..]);
      assert data[..2048] == v.disk[c] && data[2048..] == ChainData(v.disk, ch[1..])[..n - 2048];
      TailChain(v.fat, ch);
      ChainIsFile(b, v, ch[1..], n - 2048);
    }
  }

  lemma TailChain(fat: Fat, ch: seq<nat>)
    requires IsChain(fat, ch) && |ch| > 1
    ensures IsChain(fat, ch[1..]) && fat[ch[0]] == ch[1..][0]
  {
    forall i | 0 <= i < |ch[1..]| - 1
      ensures fat[ch[1..][i]] == ch[1..][i + 1]
    {
      assert ch[1..][i] == ch[i + 1] && ch[1..][i + 1] == ch[i + 2];
    }
  }

  lemma CeilBounds(n: nat, m: nat)
    requires n > 0 && m == CeilDiv(n, CLUSTER_SIZE)
    ensures 2048 * (m - 1) < n <= 2048 * m
  {
  }

  /** A live slot of a directory, in bytes: a subdirectory's entry, or a file's with its data. */
  lemma SlotOnDisk(b: seq<Byte>, v: Volume, s: Shape, d: nat, i: nat)
    requires Consistent(v, s) && IsImage(b, v.disk) && d in s.rank && d < DISK_CLUSTERS
    requires 2 <= i < 64 && Tab(v, d)[i].Live()
    ensures HoldsItem(b, 2048 * d + 32 * i, Tab(v, d)[i].key, ItemOf(v, s, Tab(v, d)[i]))
  {
    var e := Tab(v, d)[i];
    LiveEntryBytes(v.disk[d], i);
    EntryInImage(b, v.disk[d], 2048 * d, 32 * i, e.key, e.attribute, e.ClusterNo(), e.filesize);
    if e.IsDir() {
      DirEntrySize(v, s, d, i);
    } else {
      FileOnDisk(b, v, s, d, i);
    }
  }

  lemma DirEntrySize(v: Volume, s: Shape, d: nat, i: nat)
    requires Consistent(v, s) && d in s.rank && d < DISK_CLUSTERS && 2 <= i < 64
    requires Tab(v, d)[i].Live() && Tab(v, d)[i].IsDir()
    ensures Tab(v, d)[i].filesize == 0 && ItemOf(v, s, Tab(v, d)[i]) == DirItem(Tab(v, d)[i].ClusterNo())
  {
    assert SlotOk(Tabs(v), s, d, i) && HeadOk(Tabs(v), s, Tab(v, d)[i].ClusterNo());
  }

  lemma FileOnDisk(b: seq<Byte>, v: Volume, s: Shape, d: nat, i: nat)
    requires Consistent(v, s) && IsImage(b, v.disk) && d in s.rank && d < DISK_CLUSTERS
    requires 2 <= i < 64 && Tab(v, d)[i].Live() && !Tab(v, d)[i].IsDir()
    ensures Tab(v, d)[i].attribute == 0 && ItemOf(v, s, Tab(v, d)[i]).FileItem?
    ensures |ItemOf(v, s, Tab(v, d)[i]).bytes| == Tab(v, d)[i].filesize
    ensures HoldsFile(b, Tab(v, d)[i].ClusterNo(), ItemOf(v, s, Tab(v, d)[i]).bytes)
  {
    var e := Tab(v, d)[i];
    var h := e.ClusterNo();
    FileData(v, s, d, i);
    assert SlotOk(Tabs(v), s, d, i) && HeadOk(Tabs(v), s, h);
    CeilBounds(e.filesize, |s.chains[h]|);
    ChainIsFile(b, v, s.chains[h], e.filesize);
  }

  /**
   The meaning of a consistent disk is in its bytes: a directory holds a name exactly when one of
   its slots from the third on is live with that name, and that slot's bytes, with the allocation
   table and the clusters they lead to, are the item.
   */
  lemma DiskMeans(b: seq<Byte>, v: Volume, s: Shape, d: nat, k: Key)
    requires Consistent(v, s) && IsImage(b, v.disk) && d in View(v, s)
    ensures d < 512 && ROOT == 2
    ensures k in View(v, s)[d] <==> exists i :: 2 <= i < 64 && NamedAt(b, 2048 * d + 32 * i, k)
    ensures k in View(v, s)[d] ==>
      exists i :: 2 <= i < 64 &&
        NamedAt(b, 2048 * d + 32 * i, k) && HoldsItem(b, 2048 * d + 32 * i, k, View(v, s)[d][k])
  {
    ViewKeys(v, s);
    DirsUsed(v, s, d);
    if k in View(v, s)[d] {
      var i := NameHasSlot(b, v, s, d, k);
    }
    if i :| 2 <= i < 64 && NamedAt(b, 2048 * d + 32 * i, k) {
      SlotHasName(b, v, s, d, k, i);
    }
  }

  lemma NameHasSlot(b: seq<Byte>, v: Volume, s: Shape, d: nat, k: Key) returns (i: nat)
    requires Consistent(v, s) && IsImage(b, v.disk) && d in View(v, s) && k in View(v, s)[d]
    ensures 2 <= i < 64 && NamedAt(b, 2048 * d + 32 * i, k) && HoldsItem(b, 2048 * d + 32 * i, k, View(v, s)[d][k])
  {
    ViewKeys(v, s);
    KeyLookup(v, s, d, k);
    i := Search(Tab(v, d), k);
    SlotOnDisk(b, v, s, d, i);
    NamedSlot(b, v, d, i, k);
  }

  lemma SlotHasName(b: seq<Byte>, v: Volume, s: Shape, d: nat, k: Key, i: nat)
    requires Consistent(v, s) && IsImage(b, v.disk) && d in View(v, s) && 2 <= i < 64
    requires NamedAt(b, 2048 * d + 32 * i, k)
    ensures k in View(v, s)[d]
  {
    ViewKeys(v, s);
    NamedSlot(b, v, d, i, k);
    LiveAt(v, s, d, i);
  }

  /** The bytes of a slot say that it is live and holds the name. */
  ghost predicate NamedAt(b: seq<Byte>, at: nat, k: Key) {
    at + 32 <= |b| && b[at + 12] == 0xAA && b[at..at + 8] == k.name && b[at + 8..at + 11] == k.ext
  }

  lemma NamedSlot(b: seq<Byte>, v: Volume, d: nat, i: nat, k: Key)
    requires IsImage(b, v.disk) && d < DISK_CLUSTERS && i < 64
    ensures NamedAt(b, 2048 * d + 32 * i, k) <==> Tab(v, d)[i].Live() && Tab(v, d)[i].key == k
  {
    var c, at := v.disk[d], 32 * i;
    SlotBytes(c, i);
    assert b[2048 * d..2048 * d + 2048] == c;
    SliceAt(b, 2048 * d, c);
    assert b[2048 * d + at..2048 * d + (at + 8)] == c[at..at + 8];
    assert b[2048 * d + (at + 8)..2048 * d + (at + 11)] == c[at + 8..at + 11];
    assert b[2048 * d + (at + 12)] == c[at + 12];
  }

  /** The bytes from `at` on are what a write stores: its entry, and for a file the data behind it. */
  ghost predicate WrittenAt(b: seq<Byte>, at: nat, req: Request, buf: seq<Byte>)
    requires |b| == 0x40_0000
  {
    if req.size == 0 then exists head: nat :: HoldsEntry(b, at, req.key, 0x10, head, 0)
    else
      req.size <= |buf| &&
      exists head: nat :: HoldsEntry(b, at, req.key, 0, head, req.size) && HoldsFile(b, head, buf[..req.size])
  }

  lemma InsertedItem(a: AbsFs, a': AbsFs, req: Request, buf: seq<Byte>)
    requires AbsStep(a, WriteCmd(req, buf), a')
    requires req.parent in a && req.key !in a[req.parent] && |a[req.parent]| != 62
    ensures req.parent in a' && req.key in a'[req.parent]
    ensures var x := a'[req.parent][req.key];
      if req.size == 0 then x.DirItem? else req.size <= |buf| && x == FileItem(buf[..req.size])
  {
  }

  lemma ParentUsed(v: Volume, s: Shape, d: nat)
    requires Consistent(v, s) && d in View(v, s)
    ensures d < 512
  {
    ViewKeys(v, s);
    DirsUsed(v, s, d);
  }

  /** A legal write that is not refused is on the disk, in a slot of its directory. */
  lemma WrittenOnDisk(b: seq<Byte>, v: Volume, s: Shape, a: AbsFs, req: Request, buf: seq<Byte>)
    requires Consistent(v, s) && IsImage(b, v.disk) && AbsStep(a, WriteCmd(req, buf), View(v, s))
    requires req.parent in a && req.key !in a[req.parent] && |a[req.parent]| != 62
    ensures req.parent < 512
    ensures exists i :: 2 <= i < 64 && WrittenAt(b, 2048 * req.parent + 32 * i, req, buf)
  {
    InsertedItem(a, View(v, s), req, buf);
    var i := HeldOnDisk(b, v, s, req, buf);
  }

  lemma HeldOnDisk(b: seq<Byte>, v: Volume, s: Shape, req: Request, buf: seq<Byte>) returns (i: nat)
    requires Consistent(v, s) && IsImage(b, v.disk) && req.parent in View(v, s) && req.key in View(v, s)[req.parent]
    requires var x := View(v, s)[req.parent][req.key];
      if req.size == 0 then x.DirItem? else req.size <= |buf| && x == FileItem(buf[..req.size])
    ensures req.parent < 512 && 2 <= i < 64 && WrittenAt(b, 2048 * req.parent + 32 * i, req, buf)
  {
    ParentUsed(v, s, req.parent);
    i := NameHasSlot(b, v, s, req.parent, req.key);
    ItemWritten(b, 2048 * req.parent + 32 * i, req, buf, View(v, s)[req.parent][req.key]);
  }

  lemma ItemWritten(b: seq<Byte>, at: nat, req: Request, buf: seq<Byte>, x: Item)
    requires |b| == 0x40_0000 && HoldsItem(b, at, req.key, x)
    requires if req.size == 0 then x.DirItem? else req.size <= |buf| && x == FileItem(buf[..req.size])
    ensures WrittenAt(b, at, req, buf)
  {
    if x.DirItem? {
      var id: nat := x.id;
      assert HoldsEntry(b, at, req.key, 0x10, id, 0);
    }
  }

  /** After a name is gone no slot of the directory holds it. */
  lemma GoneFromDisk(b: seq<Byte>, v: Volume, s: Shape, d: nat, k: Key)
    requires Consistent(v, s) && IsImage(b, v.disk) && d in View(v, s) && k !in View(v, s)[d]
    ensures forall i :: 2 <= i < 64 ==> !NamedAt(b, 2048 * d + 32 * i, k)
  {
    DiskMeans(b, v, s, d, k);
  }

  // ----- a formatted disk

  /** The signature, in the boot block. */
  ghost predicate Signed(b: seq<Byte>) {
    && |b| == 0x40_0000
    && b[..16] == [0x4F, 0x70, 0x65, 0x72, 0x61, 0x74, 0x69, 0x6E, 0x67, 0x20, 0x53, 0x79, 0x73, 0x74, 0x65, 0x6D]
    && b[144..510] == seq(366, _ => 0) && b[510] == 0x4F && b[511] == 0x6B
  }

  /** What formatting leaves: the signature, three words of the allocation table, and the root's first two slots. */
  ghost predicate FreshImage(b: seq<Byte>) {
    var root: Key := RawKey.Key([0x72, 0x6F, 0x6F, 0x74, 0, 0, 0, 0], [0, 0, 0]);
    && Signed(b)
    && b[2048..2060] == [0xF0, 0xFF, 0xFF, 0x0F, 0xFF, 0xFF, 0xFF, 0x0F, 0xFF, 0xFF, 0xFF, 0x0F]
    && (forall k :: 2060 <= k < 4096 ==> b[k] == 0)
    && HoldsEntry(b, 4096, root, 0x10, 2, 0) && HoldsEntry(b, 4128, root, 0x10, 2, 0)
    && (forall k :: 4160 <= k < 6144 ==> b[k] == 0)
  }

  lemma SignatureBytes()
    ensures Signature()[..16]
      == [0x4F, 0x70, 0x65, 0x72, 0x61, 0x74, 0x69, 0x6E, 0x67, 0x20, 0x53, 0x79, 0x73, 0x74, 0x65, 0x6D]
    ensures Signature()[144..510] == seq(366, _ => 0)
    ensures Signature()[510] == 0x4F && Signature()[511] == 0x6B
  {
    assert Signature()[..16] == SIGNATURE_TITLE;
  }

  lemma SignedWhen(b: seq<Byte>, disk: seq<Cluster>)
    requires IsImage(b, disk) && disk[0][..BLOCK_SIZE] == Signature()
    ensures Signed(b)
  {
    SignatureBytes();
    assert b[2048 * 0..2048 * 0 + 2048] == disk[0];
    assert b[..512] == Signature() by { assert b[..2048][..512] == b[..512]; }
    assert b[..16] == b[..512][..16] && b[144..510] == b[..512][144..510];
    assert b[510] == b[..512][510] && b[511] == b[..512][511];
  }

  lemma WordBytesOf(f: Fat, j: nat)
    requires j < 2048
    ensures EncodeFat(f)[j] == WordBytes(f[j / 4])[j % 4]
  {
  }

  lemma FreshFatBytes()
    ensures EncodeFat(FormattedFat())[0..12]
      == [0xF0, 0xFF, 0xFF, 0x0F, 0xFF, 0xFF, 0xFF, 0x0F, 0xFF, 0xFF, 0xFF, 0x0F]
    ensures forall j :: 12 <= j < 2048 ==> EncodeFat(FormattedFat())[j] == 0
  {
    forall j | 12 <= j < 2048
      ensures EncodeFat(FormattedFat())[j] == 0
    {
      WordBytesOf(FormattedFat(), j);
      assert FormattedFat()[j / 4] == 0 && WordBytes(0) == [0, 0, 0, 0];
    }
    assert WordBytes(0x0FFF_FFF0) == [0xF0, 0xFF, 0xFF, 0x0F] && WordBytes(0x0FFF_FFFF) == [0xFF, 0xFF, 0xFF, 0x0F];
  }

  lemma EmptySlotBytes(t: Table, i: nat)
    requires i < 64 && t[i] == ZERO_ENTRY
    ensures forall k :: 32 * i <= k < 32 * i + 32 ==> EncodeTable(t)[k] == 0
  {
    EntryBytesAt(t, i);
    var c, at := EncodeTable(t), 32 * i;
    assert EncodeEntry(ZERO_ENTRY) == Zeros(32) by { assert HalfBytes(0) == [0, 0] && WordBytes(0) == [0, 0, 0, 0]; }
    forall k | at <= k < at + 32
      ensures c[k] == 0
    {
      assert c[k] == c[at..at + 32][k - at];
    }
  }

  lemma FreshRootBytes()
    ensures var root: Key, c := RawKey.Key([0x72, 0x6F, 0x6F, 0x74, 0, 0, 0, 0], [0, 0, 0]), EncodeTable(RootTable());
      && HoldsEntry(c, 0, root, 0x10, 2, 0) && HoldsEntry(c, 32, root, 0x10, 2, 0)
      && forall k :: 64 <= k < 2048 ==> c[k] == 0
  {
    RootSlots();
    StoredEntry(RootTable(), 0);
    StoredEntry(RootTable(), 1);
    forall k | 64 <= k < 2048
      ensures EncodeTable(RootTable())[k] == 0
    {
      EmptySlotBytes(RootTable(), k / 32);
    }
  }

  lemma RootSlots()
    ensures var t := RootTable();
      && (forall i :: 0 <= i < 2 ==>
            && t[i].Live() && t[i].IsDir() && t[i].ClusterNo() == 2 && t[i].filesize == 0 && t[i].attribute == 0x10
            && t[i].key == RawKey.Key([0x72, 0x6F, 0x6F, 0x74, 0, 0, 0, 0], [0, 0, 0]))
      && (forall i :: 2 <= i < 64 ==> t[i] == ZERO_ENTRY)
  {
    var e := MakeEntry(RawKey.Key(ROOT_NAME, NO_EXT), true, ROOT, 0);
    RootIs(RootTable(), e);
    RootEntry(e);
  }

  lemma RootIs(t: Table, e: Entry)
    requires t == RootTable() && e == MakeEntry(RawKey.Key(ROOT_NAME, NO_EXT), true, ROOT, 0)
    ensures t[0] == e && t[1] == e && forall i :: 2 <= i < 64 ==> t[i] == ZERO_ENTRY
  {
    assert t == BlankTable()[0 := e][1 := e];
  }

  lemma RootEntry(e: Entry)
    requires e == MakeEntry(RawKey.Key(ROOT_NAME, NO_EXT), true, ROOT, 0)
    ensures e.Live() && e.IsDir() && e.ClusterNo() == 2 && e.filesize == 0 && e.attribute == 0x10
    ensures e.key == RawKey.Key([0x72, 0x6F, 0x6F, 0x74, 0, 0, 0, 0], [0, 0, 0])
  {
  }

  lemma ZeroPart(b: seq<Byte>, base: nat, c: Cluster, lo: nat)
    requires base + 2048 <= |b| && b[base..base + 2048] == c && lo <= 2048 && forall k :: lo <= k < 2048 ==> c[k] == 0
    ensures forall k :: base + lo <= k < base + 2048 ==> b[k] == 0
  {
    SliceAt(b, base, c);
    forall k | base + lo <= k < base + 2048
      ensures b[k] == 0
    {
      assert b[base + (k - base)] == c[k - base];
    }
  }

  lemma FormatClusters(v: Volume)
    ensures var disk := Format(v).disk;
      && disk[0][..BLOCK_SIZE] == Signature()
      && disk[1] == EncodeFat(FormattedFat()) && disk[2] == EncodeTable(RootTable())
  {
  }

  /** The bytes of a freshly formatted disk. */
  lemma FormatOnDisk(b: seq<Byte>, v: Volume)
    requires IsImage(b, Format(v).disk)
    ensures FreshImage(b)
  {
    FormatClusters(v);
    FreshFromClusters(b, Format(v).disk);
  }

  lemma FreshFromClusters(b: seq<Byte>, disk: seq<Cluster>)
    requires IsImage(b, disk) && disk[0][..BLOCK_SIZE] == Signature()
    requires disk[1] == EncodeFat(FormattedFat()) && disk[2] == EncodeTable(RootTable())
    ensures FreshImage(b)
  {
    SignedWhen(b, disk);
    assert b[2048 * 1..2048 * 1 + 2048] == disk[1] && b[2048 * 2..2048 * 2 + 2048] == disk[2];
    FreshFatBytes();
    FreshFatPart(b, disk[1]);
    FreshRootBytes();
    FreshRootPart(b, disk[2]);
  }

  lemma FreshFatPart(b: seq<Byte>, fat: Cluster)
    requires |b| == 0x40_0000 && b[2048..4096] == fat && forall k :: 12 <= k < 2048 ==> fat[k] == 0
    ensures b[2048..2060] == fat[0..12] && forall k :: 2060 <= k < 4096 ==> b[k] == 0
  {
    SliceAt(b, 2048, fat);
    assert b[2048 + 0..2048 + 12] == fat[0..12];
    ZeroPart(b, 2048, fat, 12);
  }

  lemma FreshRootPart(b: seq<Byte>, table: Cluster)
    requires |b| == 0x40_0000 && b[4096..6144] == table && forall k :: 64 <= k < 2048 ==> table[k] == 0
    requires var root: Key := RawKey.Key([0x72, 0x6F, 0x6F, 0x74, 0, 0, 0, 0], [0, 0, 0]);
      HoldsEntry(table, 0, root, 0x10, 2, 0) && HoldsEntry(table, 32, root, 0x10, 2, 0)
    ensures var root: Key := RawKey.Key([0x72, 0x6F, 0x6F, 0x74, 0, 0, 0, 0], [0, 0, 0]);
      HoldsEntry(b, 4096, root, 0x10, 2, 0) && HoldsEntry(b, 4128, root, 0x10, 2, 0)
    ensures forall k :: 4160 <= k < 6144 ==> b[k] == 0
  {
    var root: Key := RawKey.Key([0x72, 0x6F, 0x6F, 0x74, 0, 0, 0, 0], [0, 0, 0]);
    EntryInImage(b, table, 4096, 0, root, 0x10, 2, 0);
    EntryInImage(b, table, 4096, 32, root, 0x10, 2, 0);
    ZeroPart(b, 4096, table, 64);
  }
}
