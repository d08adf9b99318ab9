/**
 The abstract file system a consistent volume stands for: directories, named by their cluster,
 mapping keys to files with their bytes or to other directories.
 */
module FatView {
  import opened Words
  import opened FatLayout
  import opened Volumes
  import opened FatOps
  import opened AbsFiles
  import opened FatChains
  import opened FatTree

  /** The clusters of a chain one after the other. */
  function ChainData(disk: seq<Cluster>, ch: seq<nat>): seq<Byte>
    requires forall i :: 0 <= i < |ch| ==> ch[i] < |disk|
  {
    if ch == [] then [] else disk[ch[0]] + ChainData(disk, ch[1..])
  }

  function Take(b: seq<Byte>, n: nat): seq<Byte> {
    if n <= |b| then b[..n] else b
  }

  ghost predicate OnDisk(s: Shape, h: nat) {
    h in s.chains && forall i :: 0 <= i < |s.chains[h]| ==> s.chains[h][i] < DISK_CLUSTERS
  }

  ghost function ItemOf(v: Volume, s: Shape, e: Entry): Item {
    if e.IsDir() then DirItem(e.ClusterNo())
    else if OnDisk(s, e.ClusterNo()) then FileItem(Take(ChainData(v.disk, s.chains[e.ClusterNo()]), e.filesize))
    else FileItem([])
  }

  function LiveKeys(t: Table): set<Key> {
    set i | 2 <= i < SLOTS && t[i].Live() :: t[i].key
  }

  ghost function DirView(v: Volume, s: Shape, t: Table): Dir {
    map k | k in LiveKeys(t) :: ItemOf(v, s, Lookup(t, k))
  }

  ghost function View(v: Volume, s: Shape): AbsFs {
    map d | d in s.rank && d < DISK_CLUSTERS :: DirView(v, s, Tabs(v)[d])
  }

  // ----- basic facts

  lemma DirsUsed(v: Volume, s: Shape, d: nat)
    requires Consistent(v, s) && d in s.rank
    ensures 2 <= d < CLUSTER_MAP_SIZE && d in s.chains && s.chains[d] == [d]
    ensures d in s.own && s.own[d] == Pos(d, 0) && !IsFree(v.fat, d)
  {
    assert DirOk(Tabs(v), s, d);
    assert s.chains[d][0] in s.own;
  }

  /** A file's chain avoids every directory. */
  lemma ChainAvoidsDirs(v: Volume, s: Shape, h: nat, i: nat)
    requires Consistent(v, s) && h in s.chains && h !in s.rank && i < |s.chains[h]|
    ensures s.chains[h][i] !in s.rank && !IsFree(v.fat, s.chains[h][i])
    ensures 2 <= s.chains[h][i] < CLUSTER_MAP_SIZE
  {
    var c := s.chains[h][i];
    assert s.own[c] == Pos(h, i);
    if c in s.rank { DirsUsed(v, s, c); }
  }

  lemma HeadOnDisk(v: Volume, s: Shape, h: nat)
    requires Consistent(v, s) && h in s.chains
    ensures OnDisk(s, h)
  {
    assert IsChain(v.fat, s.chains[h]);
  }

  lemma ViewKeys(v: Volume, s: Shape)
    requires Consistent(v, s)
    ensures View(v, s).Keys == s.rank.Keys
    ensures forall d :: d in s.rank ==> d < DISK_CLUSTERS
  {
    forall d | d in s.rank
      ensures d < DISK_CLUSTERS
    {
      DirsUsed(v, s, d);
    }
  }

  /** The live entry of a name, seen as a slot and as an abstract item. */
  lemma KeyLookup(v: Volume, s: Shape, p: nat, k: Key)
    requires Consistent(v, s) && p in s.rank && p < DISK_CLUSTERS
    ensures k in View(v, s)[p] <==> Lookup(Tabs(v)[p], k).Live()
    ensures k in View(v, s)[p] ==> View(v, s)[p][k] == ItemOf(v, s, Lookup(Tabs(v)[p], k))
    ensures k in View(v, s)[p] ==>
      Search(Tabs(v)[p], k) < SLOTS && Tabs(v)[p][Search(Tabs(v)[p], k)] == Lookup(Tabs(v)[p], k)
  {
    TableShape(Tabs(v), s, p);
    LookupLive(Tabs(v)[p], k);
  }

  /** A view is known once each directory's part of it is. */
  lemma ViewIs(v: Volume, s: Shape, a: AbsFs)
    requires a.Keys == s.rank.Keys && forall d :: d in s.rank ==> d < DISK_CLUSTERS
    requires forall d: nat :: d in s.rank && d < DISK_CLUSTERS ==> DirView(v, s, Tabs(v)[d]) == a[d]
    ensures View(v, s) == a
  {
    forall d | d in a
      ensures View(v, s)[d] == a[d]
    {
    }
  }

  // ----- the data of a chain

  lemma {:induction false} DataSame(disk: seq<Cluster>, disk': seq<Cluster>, ch: seq<nat>)
    requires |disk| == |disk'|
    requires forall i :: 0 <= i < |ch| ==> ch[i] < |disk| && disk'[ch[i]] == disk[ch[i]]
    ensures ChainData(disk', ch) == ChainData(disk, ch)
  {
    if ch != [] {
      DataSame(disk, disk', ch[1..]);
    }
  }

  lemma {:induction false} DataStored(disk: seq<Cluster>, ch: seq<nat>, buf: seq<Byte>, k: nat)
    requires CLUSTER_SIZE * (k + |ch|) <= |buf|
    requires forall i :: 0 <= i < |ch| ==> ch[i] < |disk| && disk[ch[i]] == Chunk(buf, k + i)
    ensures ChainData(disk, ch) == buf[CLUSTER_SIZE * k..CLUSTER_SIZE * (k + |ch|)]
  {
    if ch != [] {
      forall i | 0 <= i < |ch[1..]|
        ensures ch[1..][i] < |disk| && disk[ch[1..][i]] == Chunk(buf, k + 1 + i)
      {
        assert ch[1..][i] == ch[i + 1] && k + 1 + i == k + (i + 1);
      }
      DataStored(disk, ch[1..], buf, k + 1);
    }
  }

  // ----- how the view changes with the volume

  /** File `h` has the same clusters with the same data in both volumes. */
  ghost predicate SameFile(v: Volume, v': Volume, s: Shape, s': Shape, h: nat) {
    && h in s.chains && h in s'.chains && s'.chains[h] == s.chains[h]
    && forall i :: 0 <= i < |s.chains[h]| ==>
         s.chains[h][i] < DISK_CLUSTERS && v'.disk[s.chains[h][i]] == v.disk[s.chains[h][i]]
  }

  lemma ItemSame(v: Volume, v': Volume, s: Shape, s': Shape, e: Entry)
    requires !e.IsDir() ==> SameFile(v, v', s, s', e.ClusterNo())
    ensures ItemOf(v', s', e) == ItemOf(v, s, e)
  {
    if !e.IsDir() {
      DataSame(v.disk, v'.disk, s.chains[e.ClusterNo()]);
    }
  }

  /** Every file named by a live entry of `t` is untouched. */
  ghost predicate SameFilesIn(v: Volume, v': Volume, s: Shape, s': Shape, t: Table) {
    forall i :: 2 <= i < SLOTS && t[i].Live() && !t[i].IsDir() ==> SameFile(v, v', s, s', t[i].ClusterNo())
  }

  lemma DirViewSame(v: Volume, v': Volume, s: Shape, s': Shape, t: Table)
    requires SameFilesIn(v, v', s, s', t)
    requires forall i :: 2 <= i < SLOTS ==> t[i].Live() || t[i] == ZERO_ENTRY
    requires forall i :: 2 <= i < SLOTS && t[i].Live() ==> t[i].key != ZERO_KEY
    ensures DirView(v', s', t) == DirView(v, s, t)
  {
    forall k | k in LiveKeys(t)
      ensures ItemOf(v', s', Lookup(t, k)) == ItemOf(v, s, Lookup(t, k))
    {
      LookupLive(t, k);
      ItemSame(v, v', s, s', Lookup(t, k));
    }
  }

  /** Storing a live entry under a fresh name adds that name to the directory's view. */
  lemma DirViewAdd(v: Volume, v': Volume, s: Shape, s': Shape, t: Table, slot: nat, e: Entry)
    requires SameFilesIn(v, v', s, s', t)
    requires forall i :: 2 <= i < SLOTS ==> t[i].Live() || t[i] == ZERO_ENTRY
    requires forall i :: 2 <= i < SLOTS && t[i].Live() ==> t[i].key != ZERO_KEY
    requires 2 <= slot < SLOTS && !t[slot].Live() && e.Live() && e.key != ZERO_KEY
    requires !Lookup(t, e.key).Live()
    ensures DirView(v', s', t[slot := e]) == DirView(v, s, t)[e.key := ItemOf(v', s', e)]
  {
    LiveKeysAdd(t, slot, e);
    AddedLookup(t, slot, e);
    forall k | k in LiveKeys(t) && k != e.key
      ensures ItemOf(v', s', Lookup(t[slot := e], k)) == ItemOf(v, s, Lookup(t, k))
    {
      KeptItem(v, v', s, s', t, slot, e, k);
    }
    ViewWith(v, v', s, s', t, t[slot := e], e.key, ItemOf(v', s', e));
  }

  /** A view with one more name that stands for `x`. */
  lemma ViewWith(v: Volume, v': Volume, s: Shape, s': Shape, t: Table, t': Table, key: Key, x: Item)
    requires LiveKeys(t') == LiveKeys(t) + {key} && ItemOf(v', s', Lookup(t', key)) == x
    requires forall k :: k in LiveKeys(t) && k != key ==> ItemOf(v', s', Lookup(t', k)) == ItemOf(v, s, Lookup(t, k))
    ensures DirView(v', s', t') == DirView(v, s, t)[key := x]
  {
  }

  /** The other names stand for what they stood for. */
  lemma KeptItem(v: Volume, v': Volume, s: Shape, s': Shape, t: Table, slot: nat, e: Entry, k: Key)
    requires SameFilesIn(v, v', s, s', t) && 2 <= slot < SLOTS && !t[slot].Live()
    requires forall i :: 2 <= i < SLOTS ==> t[i].Live() || t[i] == ZERO_ENTRY
    requires forall i :: 2 <= i < SLOTS && t[i].Live() ==> t[i].key != ZERO_KEY
    requires k in LiveKeys(t) && k != e.key
    ensures ItemOf(v', s', Lookup(t[slot := e], k)) == ItemOf(v, s, Lookup(t, k))
  {
    LookupLive(t, k);
    SearchSame(t, slot, e, k);
    ItemSame(v, v', s, s', Lookup(t, k));
  }

  lemma AddedLookup(t: Table, slot: nat, e: Entry)
    requires 2 <= slot < SLOTS && !t[slot].Live() && e.Live() && e.key != ZERO_KEY && !Lookup(t, e.key).Live()
    requires forall i :: 2 <= i < SLOTS ==> t[i].Live() || t[i] == ZERO_ENTRY
    requires forall i :: 2 <= i < SLOTS && t[i].Live() ==> t[i].key != ZERO_KEY
    ensures Lookup(t[slot := e], e.key) == e
  {
    var t' := t[slot := e];
    LookupLive(t, e.key);
    assert t'[slot].key == e.key && Search(t', e.key) <= slot;
    assert t'[Search(t', e.key)].key == e.key;
  }

  lemma LiveKeysAdd(t: Table, slot: nat, e: Entry)
    requires 2 <= slot < SLOTS && !t[slot].Live() && e.Live()
    ensures LiveKeys(t[slot := e]) == LiveKeys(t) + {e.key}
  {
    var t' := t[slot := e];
    assert t'[slot].key in LiveKeys(t');
    forall k | k in LiveKeys(t)
      ensures k in LiveKeys(t')
    {
      var i :| 2 <= i < SLOTS && t[i].Live() && t[i].key == k;
      assert t'[i].key == k;
    }
  }

  lemma SearchSame(t: Table, slot: nat, e: Entry, k: Key)
    requires 2 <= slot < SLOTS && t[slot].key != k && e.key != k
    ensures Search(t[slot := e], k) == Search(t, k) && Lookup(t[slot := e], k) == Lookup(t, k)
  {
    var a, b := Search(t, k), Search(t[slot := e], k);
    assert a < SLOTS ==> t[slot := e][a].key == k;
    assert b < SLOTS ==> t[b].key == k;
  }

  /** Zeroing the entry of a name takes that name out of the directory's view. */
  lemma DirViewDrop(v: Volume, v': Volume, s: Shape, s': Shape, t: Table, slot: nat)
    requires 2 <= slot < SLOTS && t[slot].Live()
    requires SameFilesIn(v, v', s, s', t[slot := ZERO_ENTRY])
    requires forall i :: 2 <= i < SLOTS ==> t[i].Live() || t[i] == ZERO_ENTRY
    requires forall i :: 2 <= i < SLOTS && t[i].Live() ==> t[i].key != ZERO_KEY
    requires UniqueKeys(t)
    ensures DirView(v', s', t[slot := ZERO_ENTRY]) == DirView(v, s, t) - {t[slot].key}
  {
    var t' := t[slot := ZERO_ENTRY];
    LiveKeysDrop(t, slot);
    forall k | k in LiveKeys(t')
      ensures ItemOf(v', s', Lookup(t', k)) == ItemOf(v, s, Lookup(t, k))
    {
      LookupLive(t', k);
      SearchSame(t, slot, ZERO_ENTRY, k);
      ItemSame(v, v', s, s', Lookup(t', k));
    }
  }

  lemma LiveKeysDrop(t: Table, slot: nat)
    requires UniqueKeys(t)
    requires forall i :: 2 <= i < SLOTS && t[i].Live() ==> t[i].key != ZERO_KEY
    requires 2 <= slot < SLOTS && t[slot].Live()
    ensures LiveKeys(t[slot := ZERO_ENTRY]) == LiveKeys(t) - {t[slot].key}
    ensures ZERO_KEY !in LiveKeys(t)
  {
    var t' := t[slot := ZERO_ENTRY];
    forall k | k in LiveKeys(t) && k != t[slot].key
      ensures k in LiveKeys(t')
    {
      var i :| 2 <= i < SLOTS && t[i].Live() && t[i].key == k;
      assert t'[i].key == k;
    }
  }

  // ----- new entries

  /**
   The disk differs from before only in the parent's table, which gained `e` in `slot`, in the
   allocation table, which gained `ch`, and in the clusters of `ch`.
   */
  ghost predicate LaidOut(v: Volume, v': Volume, p: nat, slot: nat, e: Entry, ch: seq<nat>) {
    && p < DISK_CLUSTERS && 2 <= slot < SLOTS
    && |ch| > 0 && Claimed(v.fat, v'.fat, ch)
    && v'.disk[FAT_CLUSTER] == EncodeFat(v'.fat)
    && (forall c: nat :: c < DISK_CLUSTERS && c != FAT_CLUSTER && c !in ch && c != p ==> v'.disk[c] == v.disk[c])
    && (p !in ch && p != FAT_CLUSTER ==> v'.disk[p] == EncodeTable(Tab(v, p)[slot := e]))
  }

  /** The slot the driver picks for a new entry, and the name it makes sure is new. */
  ghost predicate Vacant(v: Volume, s: Shape, p: nat, slot: nat, k: Key) {
    && p in s.rank && p < DISK_CLUSTERS && 2 <= slot < SLOTS
    && !Tab(v, p)[slot].Live() && !Lookup(Tab(v, p), k).Live()
  }
}
