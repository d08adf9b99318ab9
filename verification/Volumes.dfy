/**
 The state of a mounted volume, the invariant that makes it a file system, and the abstract
 directory map it stands for.
 */
module Volumes {
  import opened Words
  import opened FatLayout

  /** A 4 MiB image holds 2048 clusters, of which the allocation table manages the first 512. */
  const DISK_CLUSTERS := 2048

  const SIGNATURE_TITLE: seq<Byte> :=
    [0x4F, 0x70, 0x65, 0x72, 0x61, 0x74, 0x69, 0x6E, 0x67, 0x20, 0x53, 0x79, 0x73, 0x74, 0x65, 0x6D]

  const SIGNATURE_TEXT: seq<Byte> := SIGNATURE_TITLE + [
    0x43, 0x72, 0x65, 0x61, 0x74, 0x65, 0x64, 0x20, 0x62, 0x79, 0x20, 0x20, 0x20, 0x20, 0x20, 0x20,
    0x4D, 0x65, 0x6F, 0x6E, 0x67, 0x6D, 0x65, 0x6F, 0x6E, 0x67, 0x20, 0x2D, 0x20, 0x4B, 0x4F, 0x32,
    0x41, 0x6D, 0x65, 0x6C, 0x20, 0x20, 0x2D, 0x20, 0x31, 0x33, 0x35, 0x32, 0x32, 0x30, 0x34, 0x32,
    0x41, 0x6E, 0x67, 0x69, 0x65, 0x20, 0x2D, 0x20, 0x31, 0x33, 0x35, 0x32, 0x32, 0x30, 0x34, 0x38,
    0x4E, 0x75, 0x65, 0x6C, 0x20, 0x20, 0x2D, 0x20, 0x31, 0x33, 0x35, 0x32, 0x32, 0x30, 0x35, 0x38,
    0x49, 0x61, 0x6E, 0x20, 0x20, 0x20, 0x2D, 0x20, 0x31, 0x33, 0x35, 0x32, 0x32, 0x30, 0x38, 0x30,
    0x4D, 0x61, 0x64, 0x65, 0x20, 0x77, 0x69, 0x74, 0x68, 0x20, 0x3C, 0x33, 0x33, 0x33, 0x20, 0x20,
    0x2D, 0x2D, 0x2D, 0x2D, 0x2D, 0x2D, 0x2D, 0x2D, 0x2D, 0x2D, 0x2D, 0x2D, 0x32, 0x30, 0x32, 0x34
  ]

  function SignatureByte(i: nat): Byte {
    if i < |SIGNATURE_TEXT| then SIGNATURE_TEXT[i]
    else if i == BLOCK_SIZE - 2 then 0x4F
    else if i == BLOCK_SIZE - 1 then 0x6B
    else 0
  }

  /** Contents of the boot block: the text, zero padding and the closing "Ok". */
  function Signature(): (b: seq<Byte>)
    ensures |b| == BLOCK_SIZE
  {
    seq(BLOCK_SIZE, i requires 0 <= i => SignatureByte(i))
  }

  /** The allocation table cached by the driver, and every cluster of the disk. */
  datatype RawVolume = RawVolume(fat: Fat, disk: seq<Cluster>)
  type Volume = v: RawVolume | |v.disk| == DISK_CLUSTERS
    witness RawVolume(seq(CLUSTER_MAP_SIZE, _ => 0), seq(DISK_CLUSTERS, _ => Zeros(CLUSTER_SIZE)))

  function BlankTable(): Table {
    seq(SLOTS, _ => ZERO_ENTRY)
  }

  function Tab(v: Volume, c: nat): Table
    requires c < DISK_CLUSTERS
  {
    DecodeTable(v.disk[c])
  }

  type Tables = t: seq<Table> | |t| == DISK_CLUSTERS
    witness seq<Table>(DISK_CLUSTERS, _ => BlankTable())

  /** Every cluster read as a directory table. */
  function Tabs(v: Volume): Tables {
    seq(DISK_CLUSTERS, c requires 0 <= c < DISK_CLUSTERS => Tab(v, c))
  }

  // ----- searches

  /** Lowest free cluster from `i` on; 0 when there is none. */
  function FirstFreeFrom(fat: Fat, i: nat): (r: nat)
    requires 2 <= i <= CLUSTER_MAP_SIZE
    ensures r == 0 || i <= r < CLUSTER_MAP_SIZE
    ensures r != 0 ==> fat[r] == EMPTY && forall c :: i <= c < r ==> fat[c] != EMPTY
    ensures r == 0 ==> forall c :: i <= c < CLUSTER_MAP_SIZE ==> fat[c] != EMPTY
    decreases CLUSTER_MAP_SIZE - i
  {
    if i == CLUSTER_MAP_SIZE then 0
    else if fat[i] == EMPTY then i
    else FirstFreeFrom(fat, i + 1)
  }

  function FirstFree(fat: Fat): nat {
    FirstFreeFrom(fat, 2)
  }

  predicate IsFree(fat: Fat, c: nat) {
    2 <= c < CLUSTER_MAP_SIZE && fat[c] == EMPTY
  }

  function FreeClusters(fat: Fat): set<nat> {
    set c: nat | 2 <= c < CLUSTER_MAP_SIZE && IsFree(fat, c)
  }

  /** First slot from `i` on whose key bytes equal `k`, live or not; SLOTS when there is none. */
  function SearchFrom(t: Table, k: Key, i: nat): (r: nat)
    requires 2 <= i <= SLOTS
    ensures i <= r <= SLOTS
    ensures r < SLOTS ==> t[r].key == k
    ensures forall j :: i <= j < r ==> t[j].key != k
    decreases SLOTS - i
  {
    if i == SLOTS then SLOTS
    else if t[i].key == k then i
    else SearchFrom(t, k, i + 1)
  }

  function Search(t: Table, k: Key): nat {
    SearchFrom(t, k, 2)
  }

  /** First slot from `i` on that is not live; SLOTS when the table is full. */
  function FreeSlotFrom(t: Table, i: nat): (r: nat)
    requires 2 <= i <= SLOTS
    ensures i <= r <= SLOTS
    ensures r < SLOTS ==> !t[r].Live()
    ensures forall j :: i <= j < r ==> t[j].Live()
    decreases SLOTS - i
  {
    if i == SLOTS then SLOTS
    else if t[i].Live() then FreeSlotFrom(t, i + 1)
    else i
  }

  function FreeSlot(t: Table): nat {
    FreeSlotFrom(t, 2)
  }

  /** The entry a directory search leaves in a zero-initialised result. */
  function Lookup(t: Table, k: Key): Entry {
    if Search(t, k) < SLOTS then t[Search(t, k)] else ZERO_ENTRY
  }

  // ----- the invariant

  datatype Loc = Loc(parent: nat, slot: nat)
  datatype Pos = Pos(head: nat, index: nat)

  /**
   How a consistent volume is laid out:
   `rank` orders the directories so that every parent is below its children, `loc` says which
   directory slot names each chain, `chains` lists each chain's clusters in order, and `own`
   says where in which chain every used cluster lies.
   */
  datatype Shape = Shape(
    rank: map<nat, nat>,
    clock: nat,
    loc: map<nat, Loc>,
    chains: map<nat, seq<nat>>,
    own: map<nat, Pos>)

  ghost predicate IsChain(fat: Fat, ch: seq<nat>) {
    && |ch| > 0
    && (forall i :: 0 <= i < |ch| ==> 2 <= ch[i] < CLUSTER_MAP_SIZE)
    && (forall i :: 0 <= i < |ch| - 1 ==> fat[ch[i]] == ch[i + 1])
    && fat[ch[|ch| - 1]] == END_OF_FILE
  }

  ghost predicate OwnerOk(chains: map<nat, seq<nat>>, own: map<nat, Pos>, c: nat)
    requires c in own
  {
    && own[c].head in chains
    && own[c].index < |chains[own[c].head]|
    && chains[own[c].head][own[c].index] == c
  }

  ghost predicate OwnersOk(chains: map<nat, seq<nat>>, own: map<nat, Pos>) {
    && (forall h, i :: h in chains && 0 <= i < |chains[h]| ==>
          chains[h][i] in own && own[chains[h][i]] == Pos(h, i))
    && (forall c {:trigger OwnerOk(chains, own, c)} :: c in own ==> OwnerOk(chains, own, c))
  }

  ghost predicate LinksOk(fat: Fat, chains: map<nat, seq<nat>>) {
    forall h :: h in chains ==> IsChain(fat, chains[h]) && chains[h][0] == h
  }

  ghost predicate UsedOk(fat: Fat, own: map<nat, Pos>) {
    forall c: nat :: 2 <= c < CLUSTER_MAP_SIZE ==> (fat[c] != EMPTY <==> c in own)
  }

  /** The chains are disjoint and end, and together they are exactly the used clusters. */
  ghost predicate ChainsOk(fat: Fat, chains: map<nat, seq<nat>>, own: map<nat, Pos>) {
    LinksOk(fat, chains) && OwnersOk(chains, own) && UsedOk(fat, own)
  }

  ghost predicate BootOk(v: Volume) {
    && v.fat[0] == CLUSTER_0_VALUE
    && v.fat[1] == CLUSTER_1_VALUE
    && v.fat == DecodeFat(v.disk[FAT_CLUSTER])
    && v.disk[0][..BLOCK_SIZE] == Signature()
  }

  ghost predicate DirOk(t: Tables, s: Shape, d: nat)
    requires d in s.rank
  {
    && 2 <= d < CLUSTER_MAP_SIZE
    && s.rank[d] < s.clock
    && d in s.chains && s.chains[d] == [d]
    && (d != ROOT ==> d in s.loc)
    && var self, up := t[d][0], t[d][1];
    && self.Live() && self.IsDir() && self.ClusterNo() == d
    && up.Live() && up.IsDir() && up.ClusterNo() == if d == ROOT then ROOT else s.loc[d].parent
  }

  ghost predicate HeadOk(t: Tables, s: Shape, h: nat)
    requires h in s.loc
  {
    var l := s.loc[h];
    && h in s.chains
    && l.parent in s.rank && l.parent < DISK_CLUSTERS && 2 <= l.slot < SLOTS
    && var e := t[l.parent][l.slot];
    && e.Live() && e.ClusterNo() == h && e.key != ZERO_KEY
    && (e.IsDir() <==> h in s.rank)
    && (if e.IsDir() then
          && h < DISK_CLUSTERS
          && s.rank[l.parent] < s.rank[h]
          && e.filesize == 0
          && e.key.name == t[h][0].key.name
          && (l.parent == ROOT ==> e.key.name != ROOT_NAME)
        else
          && e.attribute == 0
          && e.filesize > 0
          && |s.chains[h]| == CeilDiv(e.filesize, CLUSTER_SIZE))
  }

  ghost predicate SlotOk(t: Tables, s: Shape, p: nat, i: nat)
    requires p < DISK_CLUSTERS && i < SLOTS
  {
    var e := t[p][i];
    if e.Live() then e.ClusterNo() in s.loc && s.loc[e.ClusterNo()] == Loc(p, i)
    else e == ZERO_ENTRY
  }

  ghost predicate TreeOk(t: Tables, s: Shape) {
    && ROOT in s.rank && ROOT !in s.loc
    && s.chains.Keys == s.loc.Keys + {ROOT}
    && t[ROOT][0].key.name == ROOT_NAME
    && (forall d {:trigger DirOk(t, s, d)} :: d in s.rank ==> DirOk(t, s, d))
    && (forall h {:trigger HeadOk(t, s, h)} :: h in s.loc ==> HeadOk(t, s, h))
    && (forall p: nat, i: nat {:trigger SlotOk(t, s, p, i)} ::
          p in s.rank && 2 <= i < SLOTS && p < DISK_CLUSTERS ==> SlotOk(t, s, p, i))
  }

  ghost predicate UniqueKeys(t: Table) {
    forall i, j :: 2 <= i < j < SLOTS && t[i].Live() && t[j].Live() ==> t[i].key != t[j].key
  }

  ghost predicate NamesOk(t: Tables, s: Shape) {
    forall p: nat {:trigger UniqueKeys(t[p])} :: p in s.rank && p < DISK_CLUSTERS ==> UniqueKeys(t[p])
  }

  ghost predicate Consistent(v: Volume, s: Shape) {
    && BootOk(v)
    && ChainsOk(v.fat, s.chains, s.own)
    && TreeOk(Tabs(v), s)
    && NamesOk(Tabs(v), s)
  }

  ghost predicate WellFormed(v: Volume) {
    exists s :: Consistent(v, s)
  }
}
