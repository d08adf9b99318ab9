/**
 The on-disk formats of the file system: 32-byte directory entries, 64-entry directory
 tables and 512-entry allocation tables, each filling one 2048-byte cluster.  All three
 encodings are bijections, so nothing is lost by reasoning on the decoded values.
 */
module FatLayout {
  import opened Words

  const BLOCK_SIZE := 512
  const CLUSTER_BLOCK_COUNT := 4
  const CLUSTER_SIZE := 2048
  const ENTRY_SIZE := 32
  const SLOTS := 64
  const CLUSTER_MAP_SIZE := 512

  const CLUSTER_0_VALUE: Word := 0x0FFF_FFF0
  const CLUSTER_1_VALUE: Word := 0x0FFF_FFFF
  const END_OF_FILE: Word := 0x0FFF_FFFF
  const EMPTY: Word := 0

  const FAT_CLUSTER := 1
  const ROOT := 2

  const ATTR_SUBDIRECTORY: Byte := 0x10
  const UATTR_NOT_EMPTY: Byte := 0xAA

  function Zeros(n: nat): (z: seq<Byte>)
    ensures |z| == n
    ensures forall i :: 0 <= i < n ==> z[i] == 0
  {
    seq(n, _ => 0)
  }

  type Cluster = c: seq<Byte> | |c| == CLUSTER_SIZE witness Zeros(CLUSTER_SIZE)

  /** The bytes that two directory entries are compared on. */
  datatype RawKey = Key(name: seq<Byte>, ext: seq<Byte>)
  type Key = k: RawKey | |k.name| == 8 && |k.ext| == 3
    witness RawKey.Key(seq(8, _ => 0), seq(3, _ => 0))

  const ZERO_KEY: Key := RawKey.Key([0, 0, 0, 0, 0, 0, 0, 0], [0, 0, 0])
  const ROOT_NAME: seq<Byte> := [0x72, 0x6F, 0x6F, 0x74, 0, 0, 0, 0]
  const NO_EXT: seq<Byte> := [0, 0, 0]

  /** `meta` and `stamp` are the fields the driver only ever zeroes or copies. */
  datatype RawEntry = Entry(
    key: Key,
    attribute: Byte,
    userAttribute: Byte,
    meta: seq<Byte>,
    clusterHigh: Half,
    stamp: seq<Byte>,
    clusterLow: Half,
    filesize: Word)
  {
    predicate Live() {
      userAttribute == UATTR_NOT_EMPTY
    }

    predicate IsDir() {
      attribute == ATTR_SUBDIRECTORY
    }

    function ClusterNo(): Word {
      JoinHalves(clusterHigh, clusterLow)
    }
  }

  type Entry = e: RawEntry | |e.meta| == 7 && |e.stamp| == 4
    witness RawEntry.Entry(ZERO_KEY, 0, 0, [0, 0, 0, 0, 0, 0, 0], 0, [0, 0, 0, 0], 0, 0)

  const ZERO_ENTRY: Entry :=
    RawEntry.Entry(ZERO_KEY, 0, 0, [0, 0, 0, 0, 0, 0, 0], 0, [0, 0, 0, 0], 0, 0)

  type Table = t: seq<Entry> | |t| == SLOTS witness seq(SLOTS, _ => ZERO_ENTRY)
  type Fat = f: seq<Word> | |f| == CLUSTER_MAP_SIZE witness seq(CLUSTER_MAP_SIZE, _ => 0)

  // ----- directory entries

  function EncodeEntry(e: Entry): (b: seq<Byte>)
    ensures |b| == ENTRY_SIZE
  {
    e.key.name + e.key.ext + [e.attribute, e.userAttribute] + e.meta
    + HalfBytes(e.clusterHigh) + e.stamp + HalfBytes(e.clusterLow) + WordBytes(e.filesize)
  }

  function DecodeEntry(b: seq<Byte>): Entry
    requires |b| == ENTRY_SIZE
  {
    RawEntry.Entry(RawKey.Key(b[0..8], b[8..11]), b[11], b[12], b[13..20], HalfOf(b[20..22]),
                   b[22..26], HalfOf(b[26..28]), WordOf(b[28..32]))
  }

  lemma EntryRoundTrip(e: Entry)
    ensures DecodeEntry(EncodeEntry(e)) == e
  {
    var b := EncodeEntry(e);
    var high, low, size := HalfBytes(e.clusterHigh), HalfBytes(e.clusterLow), WordBytes(e.filesize);
    var head := e.key.name + e.key.ext + [e.attribute, e.userAttribute] + e.meta;
    assert head[0..8] == e.key.name && head[8..11] == e.key.ext && head[13..20] == e.meta;
    assert |head| == 20 && b == head + (high + e.stamp + low + size);
    assert b[20..22] == high && b[22..26] == e.stamp && b[26..28] == low && b[28..32] == size;
    assert b[0..8] == head[0..8] && b[8..11] == head[8..11] && b[13..20] == head[13..20];
    WordRoundTrip(e.filesize);
  }

  lemma EntryBytesOnto(b: seq<Byte>)
    requires |b| == ENTRY_SIZE
    ensures EncodeEntry(DecodeEntry(b)) == b
  {
    HalfBytesOnto(b[20..22]);
    HalfBytesOnto(b[26..28]);
    WordBytesOnto(b[28..32]);
    assert b[0..8] + b[8..11] + [b[11], b[12]] + b[13..20] + b[20..22] + b[22..26] + b[26..28] + b[28..32] == b;
  }

  // ----- directory tables

  function EncodeTable(t: Table): Cluster {
    seq(CLUSTER_SIZE, j requires 0 <= j < CLUSTER_SIZE => EncodeEntry(t[j / ENTRY_SIZE])[j % ENTRY_SIZE])
  }

  function DecodeTable(c: Cluster): Table {
    DecodeEntries(c, SLOTS)
  }

  /** The first `n` entries of a cluster. */
  function DecodeEntries(c: Cluster, n: nat): (t: seq<Entry>)
    requires n <= SLOTS
    ensures |t| == n
  {
    if n == 0 then []
    else DecodeEntries(c, n - 1) + [DecodeEntry(c[ENTRY_SIZE * (n - 1)..ENTRY_SIZE * n])]
  }

  lemma {:induction false} DecodedEntry(c: Cluster, n: nat, i: nat)
    requires i < n <= SLOTS
    ensures DecodeEntries(c, n)[i] == DecodeEntry(c[ENTRY_SIZE * i..ENTRY_SIZE * i + ENTRY_SIZE])
  {
    if i < n - 1 { DecodedEntry(c, n - 1, i); }
  }

  lemma EntryBytesAt(t: Table, i: nat)
    requires i < SLOTS
    ensures EncodeTable(t)[ENTRY_SIZE * i..ENTRY_SIZE * i + ENTRY_SIZE] == EncodeEntry(t[i])
  {
    var c, lo := EncodeTable(t), ENTRY_SIZE * i;
    forall k | 0 <= k < ENTRY_SIZE
      ensures c[lo..lo + ENTRY_SIZE][k] == EncodeEntry(t[i])[k]
    {
      assert (lo + k) / ENTRY_SIZE == i && (lo + k) % ENTRY_SIZE == k;
    }
  }

  lemma TableRoundTrip(t: Table)
    ensures DecodeTable(EncodeTable(t)) == t
  {
    forall i | 0 <= i < SLOTS
      ensures DecodeTable(EncodeTable(t))[i] == t[i]
    {
      EntryBytesAt(t, i);
      EntryRoundTrip(t[i]);
      DecodedEntry(EncodeTable(t), SLOTS, i);
    }
  }

  lemma TableBytesOnto(c: Cluster)
    ensures EncodeTable(DecodeTable(c)) == c
  {
    forall j | 0 <= j < CLUSTER_SIZE
      ensures EncodeTable(DecodeTable(c))[j] == c[j]
    {
      var i, k := j / ENTRY_SIZE, j % ENTRY_SIZE;
      EntryBytesOnto(c[ENTRY_SIZE * i..ENTRY_SIZE * i + ENTRY_SIZE]);
      DecodedEntry(c, SLOTS, i);
    }
  }

  // ----- the file allocation table

  function EncodeFat(f: Fat): Cluster {
    seq(CLUSTER_SIZE, j requires 0 <= j < CLUSTER_SIZE => WordBytes(f[j / 4])[j % 4])
  }

  function DecodeFat(c: Cluster): Fat {
    DecodeWords(c, CLUSTER_MAP_SIZE)
  }

  function DecodeWords(c: Cluster, n: nat): (f: seq<Word>)
    requires n <= CLUSTER_MAP_SIZE
    ensures |f| == n
  {
    if n == 0 then [] else DecodeWords(c, n - 1) + [WordOf(c[4 * (n - 1)..4 * n])]
  }

  lemma {:induction false} DecodedWord(c: Cluster, n: nat, i: nat)
    requires i < n <= CLUSTER_MAP_SIZE
    ensures DecodeWords(c, n)[i] == WordOf(c[4 * i..4 * i + 4])
  {
    if i < n - 1 { DecodedWord(c, n - 1, i); }
  }

  lemma FatRoundTrip(f: Fat)
    ensures DecodeFat(EncodeFat(f)) == f
  {
    var c := EncodeFat(f);
    forall i | 0 <= i < CLUSTER_MAP_SIZE
      ensures DecodeFat(c)[i] == f[i]
    {
      forall k | 0 <= k < 4
        ensures c[4 * i..4 * i + 4][k] == WordBytes(f[i])[k]
      {
        assert (4 * i + k) / 4 == i && (4 * i + k) % 4 == k;
      }
      assert c[4 * i..4 * i + 4] == WordBytes(f[i]);
      WordRoundTrip(f[i]);
      DecodedWord(c, CLUSTER_MAP_SIZE, i);
    }
  }

  lemma FatBytesOnto(c: Cluster)
    ensures EncodeFat(DecodeFat(c)) == c
  {
    forall j | 0 <= j < CLUSTER_SIZE
      ensures EncodeFat(DecodeFat(c))[j] == c[j]
    {
      var i := j / 4;
      WordBytesOnto(c[4 * i..4 * i + 4]);
      DecodedWord(c, CLUSTER_MAP_SIZE, i);
    }
  }
}
