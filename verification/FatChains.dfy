/** The cluster allocator: what the write loop claims and what clearing a chain gives back. */
module FatChains {
  import opened Words
  import opened FatLayout
  import opened Volumes
  import opened FatOps

  // ----- free clusters

  lemma FreeBound(fat: Fat)
    ensures |FreeClusters(fat)| <= CLUSTER_MAP_SIZE - 2
  {
    RangeSize(2, CLUSTER_MAP_SIZE);
    SubsetSize(FreeClusters(fat), Range(2, CLUSTER_MAP_SIZE));
  }

  function Range(lo: nat, hi: nat): (r: set<nat>)
    ensures forall c: nat :: c in r <==> lo <= c < hi
    decreases hi - lo
  {
    if lo >= hi then {} else {lo} + Range(lo + 1, hi)
  }

  lemma {:induction false} RangeSize(lo: nat, hi: nat)
    requires lo <= hi
    ensures |Range(lo, hi)| == hi - lo
    decreases hi - lo
  {
    if lo < hi {
      RangeSize(lo + 1, hi);
    }
  }

  lemma {:induction false} SubsetSize<T>(a: set<T>, b: set<T>)
    requires a <= b
    ensures |a| <= |b|
    decreases a
  {
    if a != {} {
      var x :| x in a;
      SubsetSize(a - {x}, b - {x});
    }
  }

  lemma FirstFreeIff(fat: Fat)
    ensures FirstFree(fat) == 0 ==> |FreeClusters(fat)| == 0
    ensures FirstFree(fat) != 0 ==> IsFree(fat, FirstFree(fat)) && |FreeClusters(fat)| > 0
  {
    var f := FirstFree(fat);
    if f == 0 {
      assert FreeClusters(fat) == {};
    } else {
      assert f in FreeClusters(fat);
    }
  }

  lemma ClaimFree(fat: Fat, c: nat, w: Word)
    requires IsFree(fat, c) && w != EMPTY
    ensures FreeClusters(fat[c := w]) == FreeClusters(fat) - {c}
    ensures |FreeClusters(fat[c := w])| == |FreeClusters(fat)| - 1
  {
    assert FreeClusters(fat[c := w]) == FreeClusters(fat) - {c};
  }

  // ----- the write loop

  ghost predicate Ascending(ch: seq<nat>) {
    forall i, j :: 0 <= i < j < |ch| ==> ch[i] < ch[j]
  }

  /** `ch` was free in `fat`, was claimed lowest cluster first, and is linked in order in `fat'`. */
  ghost predicate Claimed(fat: Fat, fat': Fat, ch: seq<nat>) {
    && Ascending(ch)
    && IsChain(fat', ch)
    && (forall i :: 0 <= i < |ch| ==> IsFree(fat, ch[i]))
    && (forall c: nat :: c < CLUSTER_MAP_SIZE && c !in ch ==> fat'[c] == fat[c])
    && (forall c: nat :: IsFree(fat, c) && c < ch[|ch| - 1] ==> c in ch)
  }

  ghost predicate Stored(v: Volume, v': Volume, ch: seq<nat>, buf: seq<Byte>, k: nat)
    requires CLUSTER_SIZE * (k + |ch|) <= |buf|
  {
    && (forall i :: 0 <= i < |ch| ==> ch[i] < DISK_CLUSTERS && v'.disk[ch[i]] == Chunk(buf, k + i))
    && (forall c: nat :: c < DISK_CLUSTERS && c != FAT_CLUSTER && c !in ch ==> v'.disk[c] == v.disk[c])
    && v'.disk[FAT_CLUSTER] == EncodeFat(v'.fat)
  }

  /** The allocation table after the loop, which does not depend on the data. */
  function LinkAll(fat: Fat, cluster: nat, k: nat, needed: nat): Fat
    requires cluster < CLUSTER_MAP_SIZE
    decreases needed - k
  {
    if k >= needed then fat
    else
      var (fat1, next) := LinkStep(fat, cluster, k + 1 == needed);
      LinkAll(fat1, next, k + 1, needed)
  }

  lemma {:induction false} FillLinks(v: Volume, cluster: nat, k: nat, needed: nat, buf: seq<Byte>)
    requires cluster < CLUSTER_MAP_SIZE && CLUSTER_SIZE * needed <= |buf|
    ensures FillChain(v, cluster, k, needed, buf).fat == LinkAll(v.fat, cluster, k, needed)
    decreases needed - k
  {
    if k < needed {
      var (fat, next) := LinkStep(v.fat, cluster, k + 1 == needed);
      var v1 := PutFat(v.(disk := v.disk[cluster := Chunk(buf, k)]), fat);
      FillLinks(v1, next, k + 1, needed, buf);
    }
  }

  lemma StepClaims(fat: Fat, cluster: nat)
    requires cluster == FirstFree(fat) && cluster != 0
    ensures var (fat1, next) := LinkStep(fat, cluster, false);
      && (next == 0 ==> fat1 == fat && |FreeClusters(fat)| == 1)
      && (next != 0 ==>
            && fat1 == fat[cluster := next] && next == FirstFree(fat1)
            && |FreeClusters(fat1)| == |FreeClusters(fat)| - 1)
  {
    var marked := fat[cluster := END_OF_FILE];
    var next := FirstFree(marked);
    ClaimFree(fat, cluster, END_OF_FILE);
    FirstFreeIff(marked);
    if next != 0 {
      ClaimFree(fat, cluster, next);
      assert marked[cluster := next] == fat[cluster := next];
      SameFirstFree(marked, fat[cluster := next]);
    } else {
      assert marked[cluster := next] == fat;
    }
  }

  /** The last turn of the loop claims one cluster and stores one chunk. */
  lemma LastClaim(v: Volume, v': Volume, cluster: nat, data: Cluster, buf: seq<Byte>, k: nat)
    requires CLUSTER_SIZE * (k + 1) <= |buf| && data == Chunk(buf, k) && 2 <= cluster < CLUSTER_MAP_SIZE
    requires cluster == FirstFree(v.fat) && v.fat[cluster] == EMPTY
    requires v' == PutFat(v.(disk := v.disk[cluster := data]), v.fat[cluster := END_OF_FILE])
    ensures Claimed(v.fat, v'.fat, [cluster]) && Stored(v, v', [cluster], buf, k)
  {
    assert Chunk(buf, k + 0) == data;
  }

  /** With enough free clusters the loop claims exactly `needed` of them and stores the buffer there. */
  lemma {:induction false} FillClaims(v: Volume, cluster: nat, k: nat, needed: nat, buf: seq<Byte>)
    returns (ch: seq<nat>)
    requires k < needed <= k + |FreeClusters(v.fat)| && CLUSTER_SIZE * needed <= |buf|
    requires cluster == FirstFree(v.fat) && cluster < CLUSTER_MAP_SIZE
    ensures |ch| == needed - k && ch[0] == cluster
    ensures Claimed(v.fat, FillChain(v, cluster, k, needed, buf).fat, ch)
    ensures Stored(v, FillChain(v, cluster, k, needed, buf), ch, buf, k)
    decreases needed - k
  {
    FirstFreeIff(v.fat);
    var (fat, next) := LinkStep(v.fat, cluster, k + 1 == needed);
    var v1 := PutFat(v.(disk := v.disk[cluster := Chunk(buf, k)]), fat);
    var v' := FillChain(v1, next, k + 1, needed, buf);
    if k + 1 == needed {
      ch := [cluster];
      LastClaim(v, v', cluster, Chunk(buf, k), buf, k);
    } else {
      StepClaims(v.fat, cluster);
      var rest := FillClaims(v1, next, k + 1, needed, buf);
      ch := [cluster] + rest;
      ClaimOneMore(v.fat, fat, v'.fat, cluster, rest);
      StoreOneMore(v, v1, v', cluster, rest, buf, k);
    }
  }

  lemma ClaimOneMore(fat: Fat, fat1: Fat, fat': Fat, cluster: nat, rest: seq<nat>)
    requires cluster != 0 && cluster == FirstFree(fat)
    requires 0 < |rest| && 0 < rest[0] < CLUSTER_MAP_SIZE && fat1 == fat[cluster := rest[0]]
    requires Claimed(fat1, fat', rest)
    ensures Claimed(fat, fat', [cluster] + rest)
  {
    var ch := [cluster] + rest;
    assert forall i :: 0 <= i < |rest| ==> IsFree(fat1, rest[i]) && cluster < rest[i];
    assert fat'[cluster] == rest[0];
    LinkOneMore(fat', cluster, rest);
    assert forall c: nat :: IsFree(fat, c) && c != cluster ==> IsFree(fat1, c);
    forall c: nat | IsFree(fat, c) && c < ch[|ch| - 1]
      ensures c in ch
    {
      assert c == cluster || c in rest;
    }
  }

  lemma LinkOneMore(fat: Fat, cluster: nat, rest: seq<nat>)
    requires IsChain(fat, rest) && 2 <= cluster < CLUSTER_MAP_SIZE && fat[cluster] == rest[0]
    ensures IsChain(fat, [cluster] + rest)
  {
    var ch := [cluster] + rest;
    forall i | 0 <= i < |ch| - 1
      ensures fat[ch[i]] == ch[i + 1]
    {
      if i > 0 { assert fat[rest[i - 1]] == rest[i]; }
    }
  }

  lemma StoreOneMore(v: Volume, v1: Volume, v': Volume, cluster: nat, rest: seq<nat>, buf: seq<Byte>, k: nat)
    requires CLUSTER_SIZE * (k + 1 + |rest|) <= |buf|
    requires 2 <= cluster < CLUSTER_MAP_SIZE && cluster !in rest
    requires v1.disk == v.disk[cluster := Chunk(buf, k)][FAT_CLUSTER := EncodeFat(v1.fat)]
    requires Stored(v1, v', rest, buf, k + 1)
    ensures Stored(v, v', [cluster] + rest, buf, k)
  {
    var ch := [cluster] + rest;
    forall i | 0 <= i < |ch|
      ensures ch[i] < DISK_CLUSTERS && v'.disk[ch[i]] == Chunk(buf, k + i)
    {
      if i > 0 { assert ch[i] == rest[i - 1] && k + 1 + (i - 1) == k + i; }
    }
  }

  lemma SameFirstFree(f: Fat, g: Fat)
    requires forall c :: 2 <= c < CLUSTER_MAP_SIZE ==> (f[c] == EMPTY <==> g[c] == EMPTY)
    ensures FirstFree(f) == FirstFree(g)
  {
  }

  /** Once the loop has run out of clusters it has overwritten entry 0 for good. */
  lemma {:induction false} LinkKeepsDamage(fat: Fat, cluster: nat, k: nat, needed: nat)
    requires cluster < CLUSTER_MAP_SIZE && fat[0] != CLUSTER_0_VALUE
    ensures LinkAll(fat, cluster, k, needed)[0] != CLUSTER_0_VALUE
    decreases needed - k
  {
    if k < needed {
      var (fat1, next) := LinkStep(fat, cluster, k + 1 == needed);
      LinkKeepsDamage(fat1, next, k + 1, needed);
    }
  }

  /** With too few free clusters the loop does run out. */
  lemma {:induction false} LinkOverruns(fat: Fat, cluster: nat, k: nat, needed: nat)
    requires k + |FreeClusters(fat)| < needed
    requires cluster == FirstFree(fat) && cluster < CLUSTER_MAP_SIZE
    ensures LinkAll(fat, cluster, k, needed)[0] != CLUSTER_0_VALUE
    decreases needed - k
  {
    FirstFreeIff(fat);
    var (fat1, next) := LinkStep(fat, cluster, k + 1 == needed);
    if cluster == 0 {
      LinkKeepsDamage(fat1, next, k + 1, needed);
    } else {
      StepClaims(fat, cluster);
      if next != 0 {
        LinkOverruns(fat1, next, k + 1, needed);
      } else {
        var (fat2, next2) := LinkStep(fat1, 0, k + 2 == needed);
        LinkKeepsDamage(fat2, next2, k + 2, needed);
      }
    }
  }

  // ----- clearing a chain

  lemma {:induction false} ClearChainAt(fat: Fat, ch: seq<nat>)
    requires forall i :: 0 <= i < |ch| ==> ch[i] < CLUSTER_MAP_SIZE
    ensures forall c: nat :: c < CLUSTER_MAP_SIZE ==>
      ClearChain(fat, ch)[c] == if c in ch then EMPTY else fat[c]
    decreases |ch|
  {
    if ch != [] {
      ClearChainAt(fat[ch[0] := EMPTY], ch[1..]);
      assert ch == [ch[0]] + ch[1..];
    }
  }

  /** Clearing the chain that a file was given restores the table it was taken from. */
  lemma ClearUndoesClaim(fat: Fat, fat': Fat, ch: seq<nat>)
    requires Claimed(fat, fat', ch)
    ensures ClearChain(fat', ch) == fat
  {
    ClearChainAt(fat', ch);
  }

  lemma ChainEnd(fat: Fat, ch: seq<nat>)
    requires IsChain(fat, ch)
    ensures |ch| == 1 <==> fat[ch[0]] == END_OF_FILE
  {
    if |ch| > 1 { assert fat[ch[0]] == ch[1]; }
  }

  /** A chain is determined by its first cluster. */
  lemma {:induction false} ChainUnique(fat: Fat, a: seq<nat>, b: seq<nat>)
    requires IsChain(fat, a) && IsChain(fat, b) && a[0] == b[0]
    ensures a == b
  {
    ChainEnd(fat, a);
    ChainEnd(fat, b);
    if |a| > 1 {
      ChainUnique(fat, a[1..], b[1..]);
      assert a == [a[0]] + a[1..] && b == [b[0]] + b[1..];
    }
  }

  // ----- the partition of the used clusters

  function OwnOf(ch: seq<nat>): map<nat, Pos>
    requires |ch| > 0 && forall i, j :: 0 <= i < j < |ch| ==> ch[i] != ch[j]
  {
    map i | 0 <= i < |ch| :: ch[i] := Pos(ch[0], i)
  }

  lemma OwnOfAt(ch: seq<nat>)
    requires |ch| > 0 && forall i, j :: 0 <= i < j < |ch| ==> ch[i] != ch[j]
    ensures forall c :: c in OwnOf(ch) <==> c in ch
    ensures forall i :: 0 <= i < |ch| ==> ch[i] in OwnOf(ch) && OwnOf(ch)[ch[i]] == Pos(ch[0], i)
  {
  }

  lemma ChainsAdd(fat: Fat, fat': Fat, chains: map<nat, seq<nat>>, own: map<nat, Pos>, ch: seq<nat>)
    requires ChainsOk(fat, chains, own)
    requires Ascending(ch) && IsChain(fat', ch)
    requires forall i :: 0 <= i < |ch| ==> IsFree(fat, ch[i])
    requires forall c: nat :: 2 <= c < CLUSTER_MAP_SIZE && c !in ch ==> fat'[c] == fat[c]
    ensures ch[0] !in chains
    ensures ChainsOk(fat', chains[ch[0] := ch], own + OwnOf(ch))
  {
    OwnOfAt(ch);
    FreshHead(fat, chains, own, ch);
    LinksAdd(fat, fat', chains, own, ch);
    OwnersAdd(chains, own, ch, OwnOf(ch));
    UsedAdd(fat, fat', own, ch, OwnOf(ch));
  }

  lemma LinksAdd(fat: Fat, fat': Fat, chains: map<nat, seq<nat>>, own: map<nat, Pos>, ch: seq<nat>)
    requires ChainsOk(fat, chains, own) && IsChain(fat', ch)
    requires forall i :: 0 <= i < |ch| ==> IsFree(fat, ch[i])
    requires forall c: nat :: 2 <= c < CLUSTER_MAP_SIZE && c !in ch ==> fat'[c] == fat[c]
    ensures LinksOk(fat', chains[ch[0] := ch])
  {
    forall h | h in chains
      ensures IsChain(fat', chains[h]) && chains[h][0] == h
    {
      ChainElsewhere(fat, fat', chains, own, h, ch);
    }
  }

  lemma UsedAdd(fat: Fat, fat': Fat, own: map<nat, Pos>, ch: seq<nat>, added: map<nat, Pos>)
    requires UsedOk(fat, own) && IsChain(fat', ch)
    requires forall c :: c in added <==> c in ch
    requires forall c: nat :: 2 <= c < CLUSTER_MAP_SIZE && c !in ch ==> fat'[c] == fat[c]
    ensures UsedOk(fat', own + added)
  {
    forall c: nat | 2 <= c < CLUSTER_MAP_SIZE
      ensures fat'[c] != EMPTY <==> c in own + added
    {
      if c in ch { ChainUsed(fat', ch, c); }
    }
  }

  lemma FreshHead(fat: Fat, chains: map<nat, seq<nat>>, own: map<nat, Pos>, ch: seq<nat>)
    requires ChainsOk(fat, chains, own) && |ch| > 0
    requires forall i :: 0 <= i < |ch| ==> IsFree(fat, ch[i])
    ensures ch[0] !in chains && forall c :: c in ch ==> c !in own
  {
    assert forall c :: c in ch ==> IsFree(fat, c);
    assert forall h :: h in chains ==> chains[h][0] in own;
  }

  lemma OwnersAdd(chains: map<nat, seq<nat>>, own: map<nat, Pos>, ch: seq<nat>, added: map<nat, Pos>)
    requires OwnersOk(chains, own)
    requires |ch| > 0 && ch[0] !in chains && added.Keys !! own.Keys
    requires forall c :: c in added <==> c in ch
    requires forall i :: 0 <= i < |ch| ==> added[ch[i]] == Pos(ch[0], i)
    ensures OwnersOk(chains[ch[0] := ch], own + added)
  {
    var own' := own + added;
    forall c | c in own'
      ensures OwnerOk(chains[ch[0] := ch], own', c)
    {
      if c in added {
        var i :| 0 <= i < |ch| && ch[i] == c;
      } else {
        assert OwnerOk(chains, own, c);
      }
    }
  }

  lemma ChainUsed(fat: Fat, ch: seq<nat>, c: nat)
    requires IsChain(fat, ch) && c in ch
    ensures fat[c] != EMPTY
  {
    var i :| 0 <= i < |ch| && ch[i] == c;
    if i < |ch| - 1 { assert fat[c] == ch[i + 1]; }
  }

  lemma ChainElsewhere(fat: Fat, fat': Fat, chains: map<nat, seq<nat>>, own: map<nat, Pos>, h: nat, ch: seq<nat>)
    requires ChainsOk(fat, chains, own) && h in chains
    requires forall i :: 0 <= i < |ch| ==> IsFree(fat, ch[i])
    requires forall c: nat :: 2 <= c < CLUSTER_MAP_SIZE && c !in ch ==> fat'[c] == fat[c]
    ensures IsChain(fat', chains[h]) && chains[h][0] == h
  {
    forall i | 0 <= i < |chains[h]|
      ensures chains[h][i] !in ch
    {
      assert chains[h][i] in own;
    }
  }

  lemma ChainsDrop(fat: Fat, fat': Fat, chains: map<nat, seq<nat>>, own: map<nat, Pos>, h0: nat)
    requires ChainsOk(fat, chains, own) && h0 in chains
    requires forall c: nat :: 2 <= c < CLUSTER_MAP_SIZE ==>
      fat'[c] == if c in chains[h0] then EMPTY else fat[c]
    ensures ChainsOk(fat', chains - {h0}, own - (set c | c in chains[h0]))
  {
    OwnersDrop(chains, own, h0);
    var own' := own - (set c | c in chains[h0]);
    forall h | h in chains - {h0}
      ensures IsChain(fat', chains[h])
    {
      assert forall i :: 0 <= i < |chains[h]| ==> (chains - {h0})[h][i] in own';
    }
  }

  lemma OwnersDrop(chains: map<nat, seq<nat>>, own: map<nat, Pos>, h0: nat)
    requires OwnersOk(chains, own) && h0 in chains
    ensures OwnersOk(chains - {h0}, own - (set c | c in chains[h0]))
  {
    var chains', own' := chains - {h0}, own - (set c | c in chains[h0]);
    forall h, i | h in chains' && 0 <= i < |chains'[h]|
      ensures chains'[h][i] in own' && own'[chains'[h][i]] == Pos(h, i)
    {
      assert own[chains[h][i]] == Pos(h, i);
    }
    forall c | c in own'
      ensures OwnerOk(chains', own', c)
    {
      assert OwnerOk(chains, own, c);
    }
  }
}
