/** The directory tree: adding an entry to a directory and taking one out keep it a tree. */
module FatTree {
  import opened Words
  import opened FatLayout
  import opened Volumes
  import opened FatOps
  import opened FatChains

  ghost function FileShape(s: Shape, p: nat, slot: nat, ch: seq<nat>): Shape
    requires |ch| > 0 && Ascending(ch)
  {
    s.(loc := s.loc[ch[0] := Loc(p, slot)], chains := s.chains[ch[0] := ch], own := s.own + OwnOf(ch))
  }

  ghost function DirShape(s: Shape, p: nat, slot: nat, c: nat): Shape {
    FileShape(s, p, slot, [c]).(rank := s.rank[c := s.clock], clock := s.clock + 1)
  }

  ghost function DropShape(s: Shape, h: nat): Shape
    requires h in s.chains
  {
    s.(rank := s.rank - {h}, loc := s.loc - {h}, chains := s.chains - {h},
       own := s.own - (set c | c in s.chains[h]))
  }

  /** Outside directory `p`, and in the two reserved slots of `p`, nothing changed. */
  ghost predicate OnlySlot(t: Tables, t': Tables, s: Shape, p: nat, slot: nat, e: Entry) {
    && p in s.rank && p < DISK_CLUSTERS && 2 <= slot < SLOTS
    && t'[p] == t[p][slot := e]
    && (forall d: nat :: d in s.rank && d < DISK_CLUSTERS && d != p ==> t'[d] == t[d])
  }

  /** A table that names itself `name`, with cluster `c`, its parent by `up`, and nothing else. */
  ghost predicate FreshTable(t: Table, name: seq<Byte>, c: nat, up: Entry) {
    && t[0].Live() && t[0].IsDir() && t[0].ClusterNo() == c && t[0].key.name == name
    && t[1] == up
    && forall i :: 2 <= i < SLOTS ==> t[i] == ZERO_ENTRY
  }

  lemma DirTableFresh(name: seq<Byte>, c: nat, up: Entry)
    requires |name| == 8 && c < 0x1_0000_0000
    ensures FreshTable(DirTable(name, c, up), name, c, up)
  {
    JoinSplit(c);
  }

  // ----- names

  /** Searching by key bytes finds the live entry of that name, if there is one. */
  lemma LookupLive(tab: Table, k: Key)
    requires forall i :: 2 <= i < SLOTS ==> tab[i].Live() || tab[i] == ZERO_ENTRY
    requires forall i :: 2 <= i < SLOTS && tab[i].Live() ==> tab[i].key != ZERO_KEY
    ensures Lookup(tab, k).Live() <==> exists i :: 2 <= i < SLOTS && tab[i].Live() && tab[i].key == k
    ensures Lookup(tab, k).Live() ==> Search(tab, k) < SLOTS && tab[Search(tab, k)] == Lookup(tab, k)
  {
    var j := Search(tab, k);
    if i :| 2 <= i < SLOTS && tab[i].Live() && tab[i].key == k {
      assert j <= i;
    }
  }

  lemma TableShape(t: Tables, s: Shape, p: nat)
    requires TreeOk(t, s) && p in s.rank && p < DISK_CLUSTERS
    ensures forall i :: 2 <= i < SLOTS ==> t[p][i].Live() || t[p][i] == ZERO_ENTRY
    ensures forall i :: 2 <= i < SLOTS && t[p][i].Live() ==> t[p][i].key != ZERO_KEY
  {
    forall i | 2 <= i < SLOTS
      ensures t[p][i].Live() || t[p][i] == ZERO_ENTRY
      ensures t[p][i].Live() ==> t[p][i].key != ZERO_KEY
    {
      assert SlotOk(t, s, p, i);
      var e := t[p][i];
      if e.Live() { assert HeadOk(t, s, e.ClusterNo()); }
    }
  }

  lemma NamesAdd(t: Tables, t': Tables, s: Shape, s': Shape, p: nat, slot: nat, e: Entry)
    requires TreeOk(t, s) && NamesOk(t, s) && OnlySlot(t, t', s, p, slot, e)
    requires !Lookup(t[p], e.key).Live()
    requires forall d: nat :: d in s'.rank && d !in s.rank && d < DISK_CLUSTERS ==>
      forall i :: 2 <= i < SLOTS ==> !t'[d][i].Live()
    ensures NamesOk(t', s')
  {
    TableShape(t, s, p);
    LookupLive(t[p], e.key);
    forall d: nat | d in s'.rank && d < DISK_CLUSTERS
      ensures UniqueKeys(t'[d])
    {
      if d in s.rank { assert UniqueKeys(t[d]); }
    }
  }

  // ----- adding

  /** The facts a new entry must satisfy. */
  ghost predicate Addable(t: Tables, s: Shape, p: nat, slot: nat, e: Entry, h: nat) {
    && p in s.rank && p < DISK_CLUSTERS && 2 <= slot < SLOTS
    && !t[p][slot].Live()
    && e.Live() && e.key != ZERO_KEY && e.ClusterNo() == h && h < CLUSTER_MAP_SIZE
    && h !in s.chains
  }

  lemma DirsAreOld(t: Tables, s: Shape, p: nat, slot: nat, e: Entry, h: nat)
    requires TreeOk(t, s) && Addable(t, s, p, slot, e, h)
    ensures h !in s.rank && forall d :: d in s.rank ==> d in s.chains
  {
    forall d | d in s.rank
      ensures d in s.chains
    {
      assert DirOk(t, s, d);
    }
  }

  lemma OldHeads(t: Tables, t': Tables, s: Shape, s': Shape, p: nat, slot: nat, e: Entry, h: nat, x: nat)
    requires TreeOk(t, s) && Addable(t, s, p, slot, e, h) && OnlySlot(t, t', s, p, slot, e)
    requires s'.loc == s.loc[h := Loc(p, slot)]
    requires x in s.loc && x in s'.chains && s'.chains[x] == s.chains[x]
    requires forall d :: d in s.rank ==> d in s'.rank && s'.rank[d] == s.rank[d]
    requires x in s'.rank <==> x in s.rank
    ensures x != h && HeadOk(t', s', x)
  {
    assert HeadOk(t, s, x);
    assert x in s.chains;
    var l := s.loc[x];
    if l.parent == p { assert l.slot != slot; }
    if x in s.rank { assert DirOk(t, s, x); }
  }

  lemma OldDirs(t: Tables, t': Tables, s: Shape, s': Shape, p: nat, slot: nat, e: Entry, h: nat, d: nat)
    requires TreeOk(t, s) && Addable(t, s, p, slot, e, h) && OnlySlot(t, t', s, p, slot, e)
    requires s'.loc == s.loc[h := Loc(p, slot)] && s'.clock >= s.clock
    requires d in s.rank && d in s'.rank && s'.rank[d] == s.rank[d]
    requires d in s'.chains && d in s.chains && s'.chains[d] == s.chains[d]
    ensures DirOk(t', s', d)
  {
    assert DirOk(t, s, d);
  }

  lemma OldSlots(t: Tables, t': Tables, s: Shape, s': Shape, p: nat, slot: nat, e: Entry, h: nat, d: nat, i: nat)
    requires TreeOk(t, s) && Addable(t, s, p, slot, e, h) && OnlySlot(t, t', s, p, slot, e)
    requires s'.loc == s.loc[h := Loc(p, slot)]
    requires d in s.rank && d < DISK_CLUSTERS && 2 <= i < SLOTS
    ensures SlotOk(t', s', d, i)
  {
    if d != p || i != slot {
      assert SlotOk(t, s, d, i);
      var x := t[d][i];
      if x.Live() { assert x.ClusterNo() in s.chains; }
    }
  }

  lemma TreeAddFile(t: Tables, t': Tables, s: Shape, p: nat, slot: nat, e: Entry, ch: seq<nat>)
    requires |ch| > 0 && Ascending(ch)
    requires TreeOk(t, s) && Addable(t, s, p, slot, e, ch[0]) && OnlySlot(t, t', s, p, slot, e)
    requires e.attribute == 0 && e.filesize > 0 && |ch| == CeilDiv(e.filesize, CLUSTER_SIZE)
    ensures TreeOk(t', FileShape(s, p, slot, ch))
  {
    var s' := FileShape(s, p, slot, ch);
    DirsAreOld(t, s, p, slot, e, ch[0]);
    forall x | x in s'.loc
      ensures HeadOk(t', s', x)
    {
      FileHeads(t, t', s, p, slot, e, ch, x);
    }
    FileDirs(t, t', s, p, slot, e, ch);
    FileSlots(t, t', s, p, slot, e, ch);
  }

  lemma FileDirs(t: Tables, t': Tables, s: Shape, p: nat, slot: nat, e: Entry, ch: seq<nat>)
    requires |ch| > 0 && Ascending(ch) && ch[0] !in s.rank
    requires TreeOk(t, s) && Addable(t, s, p, slot, e, ch[0]) && OnlySlot(t, t', s, p, slot, e)
    requires e.attribute == 0
    ensures var s' := FileShape(s, p, slot, ch);
      forall d {:trigger DirOk(t', s', d)} :: d in s'.rank ==> DirOk(t', s', d)
  {
    var s' := FileShape(s, p, slot, ch);
    DirsAreOld(t, s, p, slot, e, ch[0]);
    forall d | d in s'.rank
      ensures DirOk(t', s', d)
    {
      OldDirs(t, t', s, s', p, slot, e, ch[0], d);
    }
  }

  lemma FileSlots(t: Tables, t': Tables, s: Shape, p: nat, slot: nat, e: Entry, ch: seq<nat>)
    requires |ch| > 0 && Ascending(ch) && ch[0] !in s.rank
    requires TreeOk(t, s) && Addable(t, s, p, slot, e, ch[0]) && OnlySlot(t, t', s, p, slot, e)
    requires e.attribute == 0
    ensures var s' := FileShape(s, p, slot, ch);
      forall d: nat, i: nat {:trigger SlotOk(t', s', d, i)} ::
        d in s'.rank && 2 <= i < SLOTS && d < DISK_CLUSTERS ==> SlotOk(t', s', d, i)
  {
    var s' := FileShape(s, p, slot, ch);
    forall d: nat, i: nat | d in s'.rank && 2 <= i < SLOTS && d < DISK_CLUSTERS
      ensures SlotOk(t', s', d, i)
    {
      OldSlots(t, t', s, s', p, slot, e, ch[0], d, i);
    }
  }

  lemma FileHeads(t: Tables, t': Tables, s: Shape, p: nat, slot: nat, e: Entry, ch: seq<nat>, x: nat)
    requires |ch| > 0 && Ascending(ch) && ch[0] !in s.rank
    requires TreeOk(t, s) && Addable(t, s, p, slot, e, ch[0]) && OnlySlot(t, t', s, p, slot, e)
    requires e.attribute == 0 && e.filesize > 0 && |ch| == CeilDiv(e.filesize, CLUSTER_SIZE)
    requires x in FileShape(s, p, slot, ch).loc
    ensures HeadOk(t', FileShape(s, p, slot, ch), x)
  {
    if x != ch[0] { OldHeads(t, t', s, FileShape(s, p, slot, ch), p, slot, e, ch[0], x); }
  }

  lemma TreeAddDir(t: Tables, t': Tables, s: Shape, p: nat, slot: nat, e: Entry, h: nat)
    requires 2 <= h
    requires TreeOk(t, s) && Addable(t, s, p, slot, e, h) && OnlySlot(t, t', s, p, slot, e)
    requires e.IsDir() && e.filesize == 0 && !(p == ROOT && e.key.name == ROOT_NAME)
    requires FreshTable(t'[h], e.key.name, h, t[p][0])
    ensures TreeOk(t', DirShape(s, p, slot, h))
  {
    var s' := DirShape(s, p, slot, h);
    DirsAreOld(t, s, p, slot, e, h);
    NewDirOk(t, t', s, p, slot, e, h);
    forall x | x in s'.loc
      ensures HeadOk(t', s', x)
    {
      if x != h { OldHeads(t, t', s, s', p, slot, e, h, x); }
    }
    forall d | d in s'.rank
      ensures DirOk(t', s', d)
    {
      if d != h { OldDirs(t, t', s, s', p, slot, e, h, d); }
    }
    DirSlots(t, t', s, p, slot, e, h);
  }

  lemma DirSlots(t: Tables, t': Tables, s: Shape, p: nat, slot: nat, e: Entry, h: nat)
    requires 2 <= h && h !in s.rank
    requires TreeOk(t, s) && Addable(t, s, p, slot, e, h) && OnlySlot(t, t', s, p, slot, e)
    requires e.IsDir() && e.filesize == 0 && !(p == ROOT && e.key.name == ROOT_NAME)
    requires FreshTable(t'[h], e.key.name, h, t[p][0])
    ensures var s' := DirShape(s, p, slot, h);
      forall d: nat, i: nat {:trigger SlotOk(t', s', d, i)} ::
        d in s'.rank && 2 <= i < SLOTS && d < DISK_CLUSTERS ==> SlotOk(t', s', d, i)
  {
    var s' := DirShape(s, p, slot, h);
    NewDirOk(t, t', s, p, slot, e, h);
    forall d: nat, i: nat | d in s'.rank && 2 <= i < SLOTS && d < DISK_CLUSTERS
      ensures SlotOk(t', s', d, i)
    {
      if d != h { OldSlots(t, t', s, s', p, slot, e, h, d, i); }
    }
  }

  lemma NewDirOk(t: Tables, t': Tables, s: Shape, p: nat, slot: nat, e: Entry, h: nat)
    requires 2 <= h && h !in s.rank
    requires TreeOk(t, s) && Addable(t, s, p, slot, e, h) && OnlySlot(t, t', s, p, slot, e)
    requires e.IsDir() && e.filesize == 0 && !(p == ROOT && e.key.name == ROOT_NAME)
    requires FreshTable(t'[h], e.key.name, h, t[p][0])
    ensures var s' := DirShape(s, p, slot, h);
      && HeadOk(t', s', h) && DirOk(t', s', h)
      && forall i: nat :: 2 <= i < SLOTS ==> SlotOk(t', s', h, i)
  {
    assert DirOk(t, s, p);
  }

  // ----- removing

  /** A directory whose slots are all free is nobody's parent. */
  lemma EmptyHasNoChildren(t: Tables, s: Shape, h: nat, x: nat)
    requires TreeOk(t, s) && x in s.loc && h < DISK_CLUSTERS
    requires forall i :: 2 <= i < SLOTS ==> !t[h][i].Live()
    ensures s.loc[x].parent != h
  {
    assert HeadOk(t, s, x);
  }

  /** What may be taken out: a file, or a directory without live entries. */
  ghost predicate Droppable(t: Tables, t': Tables, s: Shape, h: nat) {
    && TreeOk(t, s) && h in s.loc && h in s.chains
    && (h in s.rank && h < DISK_CLUSTERS ==> forall i :: 2 <= i < SLOTS ==> !t[h][i].Live())
    && OnlySlot(t, t', s, s.loc[h].parent, s.loc[h].slot, ZERO_ENTRY)
  }

  lemma DropHead(t: Tables, t': Tables, s: Shape, h: nat, x: nat)
    requires Droppable(t, t', s, h) && x in s.loc && x != h
    ensures HeadOk(t', DropShape(s, h), x)
  {
    assert HeadOk(t, s, h) && HeadOk(t, s, x);
    if h in s.rank { EmptyHasNoChildren(t, s, h, x); }
    if x in s.rank { assert DirOk(t, s, x); }
  }

  lemma DropDir(t: Tables, t': Tables, s: Shape, h: nat, d: nat)
    requires Droppable(t, t', s, h) && d in s.rank && d != h
    ensures DirOk(t', DropShape(s, h), d)
  {
    assert DirOk(t, s, d);
  }

  lemma DropSlot(t: Tables, t': Tables, s: Shape, h: nat, d: nat, i: nat)
    requires Droppable(t, t', s, h) && d in s.rank && d < DISK_CLUSTERS && 2 <= i < SLOTS
    ensures SlotOk(t', DropShape(s, h), d, i)
  {
    assert SlotOk(t, s, d, i) && HeadOk(t, s, h);
  }

  lemma TreeDrop(t: Tables, t': Tables, s: Shape, h: nat)
    requires Droppable(t, t', s, h)
    ensures TreeOk(t', DropShape(s, h))
  {
    var s' := DropShape(s, h);
    forall x | x in s'.loc
      ensures HeadOk(t', s', x)
    {
      DropHead(t, t', s, h, x);
    }
    forall d | d in s'.rank
      ensures DirOk(t', s', d)
    {
      DropDir(t, t', s, h, d);
    }
    forall d: nat, i: nat | d in s'.rank && 2 <= i < SLOTS && d < DISK_CLUSTERS
      ensures SlotOk(t', s', d, i)
    {
      DropSlot(t, t', s, h, d, i);
    }
  }

  lemma NamesDrop(t: Tables, t': Tables, s: Shape, s': Shape, p: nat, slot: nat)
    requires NamesOk(t, s) && OnlySlot(t, t', s, p, slot, ZERO_ENTRY)
    requires s'.rank.Keys <= s.rank.Keys
    ensures NamesOk(t', s')
  {
    forall d: nat | d in s'.rank && d < DISK_CLUSTERS
      ensures UniqueKeys(t'[d])
    {
      assert UniqueKeys(t[d]);
    }
  }
}
