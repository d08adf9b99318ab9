/** The shell's stack of open directories, and what looking at its top reads from the disk. */
module ShellPaths {
  import opened Words
  import opened FatLayout
  import opened Volumes
  import opened FatOps
  import opened AbsFiles
  import opened FatView
  import opened FatRead

  const STACK_CAPACITY := 128

  type Name = n: seq<Byte> | |n| == 8 witness [0, 0, 0, 0, 0, 0, 0, 0]

  /** A directory on the stack: its cluster and its name. */
  datatype Elem = Elem(cluster: Word, name: Name)

  const ROOT_ELEM := Elem(ROOT, ROOT_NAME)

  function DirKey(name: Name): Key {
    RawKey.Key(name, NO_EXT)
  }

  function Top(st: seq<Elem>): Elem
    requires |st| > 0
  {
    st[|st| - 1]
  }

  /** What `push` stores of a table: where and what it is according to its own first entry. */
  function SelfElem(t: Table): Elem {
    Elem(t[0].ClusterNo(), t[0].key.name)
  }

  /** The request `peek` makes: the top's name, without extension, in the directory below it. */
  function PeekRequest(st: seq<Elem>): Request
    requires |st| > 0
  {
    Request(DirKey(Top(st).name), if |st| > 1 then st[|st| - 2].cluster else Top(st).cluster, CLUSTER_SIZE)
  }

  /** `y` is a subdirectory of `x` in the abstract file system. */
  predicate ChildOf(a: AbsFs, x: Elem, y: Elem) {
    x.cluster in a && DirKey(y.name) in a[x.cluster] && a[x.cluster][DirKey(y.name)] == DirItem(y.cluster)
  }

  /** A path from the root: every element is a child of the one below it. */
  ghost predicate TruePath(a: AbsFs, st: seq<Elem>) {
    |st| > 0 && st[0] == ROOT_ELEM && forall i :: 0 <= i < |st| - 1 ==> ChildOf(a, st[i], st[i + 1])
  }

  /** The same, except that the root may follow itself. */
  ghost predicate PathOk(a: AbsFs, st: seq<Elem>) {
    |st| > 0 && st[0] == ROOT_ELEM && forall i :: 0 <= i < |st| - 1 ==>
      ChildOf(a, st[i], st[i + 1]) || (st[i].cluster == ROOT && st[i + 1] == ROOT_ELEM)
  }

  // ----- children as entries

  /** A child in the abstract file system is the entry that a directory search finds. */
  lemma ChildEntry(v: Volume, s: Shape, x: Elem, y: Elem)
    requires Consistent(v, s) && ChildOf(View(v, s), x, y)
    ensures x.cluster in s.rank && x.cluster < DISK_CLUSTERS && y.cluster in s.rank && y.cluster in s.loc
    ensures var l := s.loc[y.cluster];
      && l.parent == x.cluster && 2 <= l.slot < SLOTS
      && Tab(v, x.cluster)[l.slot].key == DirKey(y.name) && Tab(v, x.cluster)[l.slot].IsDir()
    ensures y.cluster < DISK_CLUSTERS && SelfElem(Tab(v, y.cluster)) == y
    ensures !(x.cluster == ROOT && y.name == ROOT_NAME)
  {
    var t := Tabs(v);
    ViewKeys(v, s);
    PresentDir(v, s, x.cluster, DirKey(y.name));
    var i := Search(Tab(v, x.cluster), DirKey(y.name));
    assert SlotOk(t, s, x.cluster, i) && HeadOk(t, s, y.cluster) && DirOk(t, s, y.cluster);
  }

  /** Conversely, an entry for a directory without extension is a child. */
  lemma EntryChild(v: Volume, s: Shape, d: nat)
    requires Consistent(v, s) && d in s.rank && d != ROOT
    ensures d in s.loc && s.loc[d].parent in s.rank && s.loc[d].parent < DISK_CLUSTERS && s.loc[d].slot < SLOTS
    ensures d < DISK_CLUSTERS && Tab(v, d)[0].ClusterNo() == d
    ensures var l := s.loc[d]; Tab(v, l.parent)[l.slot].key.ext == NO_EXT ==>
      ChildOf(View(v, s), Elem(l.parent, Tab(v, l.parent)[0].key.name), SelfElem(Tab(v, d)))
  {
    var t := Tabs(v);
    assert DirOk(t, s, d) && HeadOk(t, s, d);
    var l := s.loc[d];
    ViewKeys(v, s);
    DirsUsed(v, s, l.parent);
    if t[l.parent][l.slot].key.ext == NO_EXT {
      var k := t[l.parent][l.slot].key;
      assert k == DirKey(t[d][0].key.name);
      LiveAt(v, s, l.parent, l.slot);
    }
  }

  // ----- stacks and directories

  /** The stack that names a directory from the root. */
  ghost function StackTo(t: Tables, s: Shape, d: nat): (st: seq<Elem>)
    requires TreeOk(t, s) && d in s.rank
    ensures |st| > 0
    decreases s.rank[d]
  {
    assert DirOk(t, s, d);
    if d == ROOT then [ROOT_ELEM]
    else
      assert HeadOk(t, s, d);
      StackTo(t, s, s.loc[d].parent) + [SelfElem(t[d])]
  }

  lemma StackTop(t: Tables, s: Shape, d: nat)
    requires TreeOk(t, s) && d in s.rank
    ensures d < DISK_CLUSTERS && SelfElem(t[d]) == Top(StackTo(t, s, d)) && Top(StackTo(t, s, d)).cluster == d
    ensures d != ROOT ==> d in s.loc && s.loc[d].parent in s.rank
    ensures d != ROOT ==> StackTo(t, s, d) == StackTo(t, s, s.loc[d].parent) + [SelfElem(t[d])]
  {
    assert DirOk(t, s, d);
    if d != ROOT { assert HeadOk(t, s, d); }
  }

  /** No directory on the way to `d` has an extension, so the stack's names are complete. */
  ghost predicate Plain(t: Tables, s: Shape, d: nat)
    requires TreeOk(t, s) && d in s.rank
    decreases s.rank[d]
  {
    d == ROOT || (
      assert DirOk(t, s, d) && HeadOk(t, s, d);
      t[s.loc[d].parent][s.loc[d].slot].key.ext == NO_EXT && Plain(t, s, s.loc[d].parent))
  }

  lemma {:induction false} StackToIsTrue(v: Volume, s: Shape, d: nat)
    requires Consistent(v, s) && d in s.rank && Plain(Tabs(v), s, d)
    ensures TruePath(View(v, s), StackTo(Tabs(v), s, d))
    decreases s.rank[d]
  {
    if d != ROOT {
      var t := Tabs(v);
      assert DirOk(t, s, d) && HeadOk(t, s, d);
      var p := s.loc[d].parent;
      StackToIsTrue(v, s, p);
      StackTop(t, s, p);
      EntryChild(v, s, d);
    }
  }

  /** A true path is the stack of its last directory, and there is one only for plain directories. */
  lemma {:induction false} TruePathIsStack(v: Volume, s: Shape, st: seq<Elem>)
    requires Consistent(v, s) && TruePath(View(v, s), st)
    ensures var d := Top(st).cluster;
      d in s.rank && Plain(Tabs(v), s, d) && st == StackTo(Tabs(v), s, d)
    decreases |st|
  {
    var n := |st| - 1;
    if n > 0 {
      TruePathEnd(View(v, s), st);
      TruePathIsStack(v, s, st[..n]);
      ChildOnTop(v, s, st[n - 1], st[n]);
    } else {
      StackTop(Tabs(v), s, ROOT);
    }
  }

  /** A longer path is a shorter one and a child of its last directory. */
  lemma TruePathEnd(a: AbsFs, st: seq<Elem>)
    requires TruePath(a, st) && |st| > 1
    ensures var n := |st| - 1;
      TruePath(a, st[..n]) && Top(st[..n]) == st[n - 1] && st == st[..n] + [st[n]] && ChildOf(a, st[n - 1], st[n])
  {
    assert ChildOf(a, st[|st| - 2], st[|st| - 1]);
  }

  /** A child's stack is its parent's with the child on top. */
  lemma ChildOnTop(v: Volume, s: Shape, x: Elem, y: Elem)
    requires Consistent(v, s) && ChildOf(View(v, s), x, y) && x.cluster in s.rank && Plain(Tabs(v), s, x.cluster)
    ensures y.cluster in s.rank && Plain(Tabs(v), s, y.cluster)
    ensures StackTo(Tabs(v), s, y.cluster) == StackTo(Tabs(v), s, x.cluster) + [y]
    ensures !(x.cluster == ROOT && y.name == ROOT_NAME)
  {
    ChildEntry(v, s, x, y);
    StackTop(Tabs(v), s, y.cluster);
  }

  // ----- looking at the top

  /** Every element of a path is a directory, and its table says where and what it is. */
  lemma {:induction false} PathTops(v: Volume, s: Shape, st: seq<Elem>)
    requires Consistent(v, s) && PathOk(View(v, s), st)
    ensures var d := Top(st).cluster; d in s.rank && d < DISK_CLUSTERS && SelfElem(Tab(v, d)) == Top(st)
    decreases |st|
  {
    var n := |st| - 1;
    if n == 0 || st[n] == ROOT_ELEM {
      StackTop(Tabs(v), s, ROOT);
    } else {
      assert ChildOf(View(v, s), st[n - 1], st[n]);
      ChildEntry(v, s, st[n - 1], st[n]);
    }
  }

  /** Reading a child by its name finds the child. */
  lemma ChildRead(v: Volume, s: Shape, x: Elem, y: Elem)
    requires Consistent(v, s) && ChildOf(View(v, s), x, y)
    ensures x.cluster in s.rank && x.cluster < DISK_CLUSTERS
    ensures ReadDirCode(v, Request(DirKey(y.name), x.cluster, CLUSTER_SIZE)) == 0
    ensures ReadDirCluster(v, Request(DirKey(y.name), x.cluster, CLUSTER_SIZE)) == y.cluster
  {
    ChildEntry(v, s, x, y);
    PresentDir(v, s, x.cluster, DirKey(y.name));
  }

  /** The last step of a path leads to a child, or is the root's own name in the root. */
  lemma PathEnd(a: AbsFs, st: seq<Elem>)
    requires PathOk(a, st)
    ensures PeekRequest(st).key == DirKey(Top(st).name) && PeekRequest(st).size == CLUSTER_SIZE
    ensures
      || (PeekRequest(st).parent == ROOT && Top(st) == ROOT_ELEM)
      || (|st| > 1 && PeekRequest(st).parent == st[|st| - 2].cluster && ChildOf(a, st[|st| - 2], Top(st)))
  {
    if |st| > 1 {
      var i := |st| - 2;
      assert ChildOf(a, st[i], st[i + 1]) || (st[i].cluster == ROOT && st[i + 1] == ROOT_ELEM);
    }
  }

  /** On a path `peek` reads the table of the directory on top. */
  lemma PeekReads(v: Volume, s: Shape, st: seq<Elem>)
    requires Consistent(v, s) && PathOk(View(v, s), st)
    ensures PeekRequest(st).parent in s.rank && PeekRequest(st).parent < DISK_CLUSTERS
    ensures ReadDirCode(v, PeekRequest(st)) == 0 && ReadDirCluster(v, PeekRequest(st)) == Top(st).cluster
  {
    PathEnd(View(v, s), st);
    if PeekRequest(st).parent == ROOT && Top(st) == ROOT_ELEM {
      RootReads(v, s);
    } else {
      ChildRead(v, s, st[|st| - 2], Top(st));
    }
  }

  /** The root's own name in the root reads the root. */
  lemma RootReads(v: Volume, s: Shape)
    requires Consistent(v, s)
    ensures ROOT in s.rank
    ensures ReadDirCode(v, Request(DirKey(ROOT_NAME), ROOT, CLUSTER_SIZE)) == 0
    ensures ReadDirCluster(v, Request(DirKey(ROOT_NAME), ROOT, CLUSTER_SIZE)) == ROOT
  {
  }

  /**
   The stack of a directory brings its table back exactly when the directory has no extension:
   the stack keeps names only.
   */
  lemma {:induction false} PeekExact(v: Volume, s: Shape, d: nat)
    requires Consistent(v, s) && d in s.rank
    ensures d == ROOT || (d in s.loc && s.loc[d].parent < DISK_CLUSTERS && s.loc[d].slot < SLOTS)
    ensures var req := PeekRequest(StackTo(Tabs(v), s, d));
      && req.parent < DISK_CLUSTERS
      && (ReadDirCode(v, req) == 0 && ReadDirCluster(v, req) == d <==>
            d == ROOT || Tab(v, s.loc[d].parent)[s.loc[d].slot].key.ext == NO_EXT)
  {
    var t := Tabs(v);
    StackTop(t, s, d);
    if d != ROOT {
      EntryChild(v, s, d);
      StackTop(t, s, s.loc[d].parent);
      NameFinds(v, s, d);
    }
  }

  /** Reading a directory's plain name in its parent finds it exactly when it has no extension. */
  lemma NameFinds(v: Volume, s: Shape, d: nat)
    requires Consistent(v, s) && d in s.rank && d != ROOT && d < DISK_CLUSTERS
    requires d in s.loc && s.loc[d].parent in s.rank && s.loc[d].parent < DISK_CLUSTERS && s.loc[d].slot < SLOTS
    ensures var l := s.loc[d];
      var req := Request(DirKey(Tab(v, d)[0].key.name), l.parent, CLUSTER_SIZE);
      ReadDirCode(v, req) == 0 && ReadDirCluster(v, req) == d <==> Tab(v, l.parent)[l.slot].key.ext == NO_EXT
  {
    var t, l := Tabs(v), s.loc[d];
    var req := Request(DirKey(t[d][0].key.name), l.parent, CLUSTER_SIZE);
    var e := t[l.parent][l.slot];
    assert DirOk(t, s, d) && HeadOk(t, s, d);
    assert e.key.name == req.key.name;
    LiveAt(v, s, l.parent, l.slot);
    if e.key.ext != NO_EXT && !(l.parent == ROOT && req.key == ROOT_KEY) { OtherName(v, s, d, req.key); }
  }

  /** What another name of the same directory finds is another entry. */
  lemma OtherName(v: Volume, s: Shape, d: nat, k: Key)
    requires Consistent(v, s) && d in s.loc && s.loc[d].parent in s.rank && s.loc[d].parent < DISK_CLUSTERS
    requires s.loc[d].slot < SLOTS && Tab(v, s.loc[d].parent)[s.loc[d].slot].key != k
    requires !(s.loc[d].parent == ROOT && k == ROOT_KEY)
    ensures var req := Request(k, s.loc[d].parent, CLUSTER_SIZE);
      ReadDirCode(v, req) == 0 ==> ReadDirCluster(v, req) != d
  {
    var p, j := s.loc[d].parent, Search(Tab(v, s.loc[d].parent), k);
    if 2 <= j < SLOTS { assert SlotOk(Tabs(v), s, p, j); }
  }

  // ----- trees that the stack can name

  /** What `find` needs of the tree: its stacks name every directory and hold every path. */
  ghost predicate Searchable(t: Tables, s: Shape)
    requires TreeOk(t, s)
  {
    forall d {:trigger Nameable(t, s, d)} :: d in s.rank ==> Nameable(t, s, d)
  }

  ghost predicate Nameable(t: Tables, s: Shape, d: nat)
    requires TreeOk(t, s) && d in s.rank
  {
    Plain(t, s, d) && |StackTo(t, s, d)| <= STACK_CAPACITY
  }

  /** The stack of a plain directory reads that directory's table. */
  lemma TopReads(v: Volume, s: Shape, q: nat)
    requires Consistent(v, s) && q in s.rank && Searchable(Tabs(v), s)
    ensures q < DISK_CLUSTERS
    ensures var req := PeekRequest(StackTo(Tabs(v), s, q));
      && req.parent in s.rank && req.parent < DISK_CLUSTERS
      && ReadDirCode(v, req) == 0 && ReadDirCluster(v, req) == q
  {
    assert Nameable(Tabs(v), s, q);
    StackToIsTrue(v, s, q);
    StackTop(Tabs(v), s, q);
    PeekReads(v, s, StackTo(Tabs(v), s, q));
  }

  /** Looking at the stack of `d` brings back the table of `d`. */
  ghost predicate PeekFinds(v: Volume, s: Shape, d: nat)
    requires Consistent(v, s) && d in s.rank
  {
    var req := PeekRequest(StackTo(Tabs(v), s, d));
    req.parent < DISK_CLUSTERS && ReadDirCode(v, req) == 0 && ReadDirCluster(v, req) == d
  }

  /** The name of `d` is complete without an extension. */
  ghost predicate Unextended(t: Tables, s: Shape, d: nat)
    requires TreeOk(t, s) && d in s.rank
  {
    d == ROOT || (
      assert DirOk(t, s, d) && HeadOk(t, s, d);
      t[s.loc[d].parent][s.loc[d].slot].key.ext == NO_EXT)
  }

  lemma FindsUnextended(v: Volume, s: Shape, d: nat)
    requires Consistent(v, s) && d in s.rank
    ensures PeekFinds(v, s, d) <==> Unextended(Tabs(v), s, d)
  {
    PeekExact(v, s, d);
  }

  lemma {:induction false} PlainWhenUnextended(t: Tables, s: Shape, d: nat)
    requires TreeOk(t, s) && d in s.rank
    requires forall x {:trigger Unextended(t, s, x)} :: x in s.rank ==> Unextended(t, s, x)
    ensures Plain(t, s, d)
    decreases s.rank[d]
  {
    if d != ROOT {
      assert Unextended(t, s, d);
      assert DirOk(t, s, d) && HeadOk(t, s, d);
      PlainWhenUnextended(t, s, s.loc[d].parent);
    }
  }

  /** Looking at the stack of `d` brings its own table back, and the stack has room. */
  ghost predicate Visible(v: Volume, s: Shape, d: nat)
    requires Consistent(v, s) && d in s.rank
  {
    PeekFinds(v, s, d) && |StackTo(Tabs(v), s, d)| <= STACK_CAPACITY
  }

  /**
   A tree can be searched exactly when every look at a directory's stack brings its own table back
   and no stack needs more than its 128 places.
   */
  lemma SearchableExact(v: Volume, s: Shape)
    requires Consistent(v, s)
    ensures Searchable(Tabs(v), s) <==> forall d {:trigger Visible(v, s, d)} :: d in s.rank ==> Visible(v, s, d)
  {
    if Searchable(Tabs(v), s) {
      forall d | d in s.rank
        ensures Visible(v, s, d)
      {
        SearchableIsVisible(v, s, d);
      }
    } else if forall d {:trigger Visible(v, s, d)} :: d in s.rank ==> Visible(v, s, d) {
      VisibleIsSearchable(v, s);
    }
  }

  lemma SearchableIsVisible(v: Volume, s: Shape, d: nat)
    requires Consistent(v, s) && Searchable(Tabs(v), s) && d in s.rank
    ensures Visible(v, s, d)
  {
    assert Nameable(Tabs(v), s, d);
    TopReads(v, s, d);
  }

  lemma VisibleIsSearchable(v: Volume, s: Shape)
    requires Consistent(v, s) && forall d {:trigger Visible(v, s, d)} :: d in s.rank ==> Visible(v, s, d)
    ensures Searchable(Tabs(v), s)
  {
    forall d | d in s.rank
      ensures Unextended(Tabs(v), s, d) && |StackTo(Tabs(v), s, d)| <= STACK_CAPACITY
    {
      assert Visible(v, s, d);
      FindsUnextended(v, s, d);
    }
    AllNameable(Tabs(v), s);
  }

  /** No directory's name needs an extension, and every stack has room. */
  ghost predicate AllPlain(t: Tables, s: Shape)
    requires TreeOk(t, s)
  {
    forall d {:trigger Unextended(t, s, d)} :: d in s.rank ==>
      Unextended(t, s, d) && |StackTo(t, s, d)| <= STACK_CAPACITY
  }

  /** That is, no directory has an extension, and none lies too deep. */
  lemma SearchableMeans(v: Volume, s: Shape)
    requires Consistent(v, s)
    ensures Searchable(Tabs(v), s) <==> AllPlain(Tabs(v), s)
  {
    if Searchable(Tabs(v), s) {
      forall d | d in s.rank
        ensures Unextended(Tabs(v), s, d) && |StackTo(Tabs(v), s, d)| <= STACK_CAPACITY
      {
        SearchableIsVisible(v, s, d);
        FindsUnextended(v, s, d);
      }
    } else if AllPlain(Tabs(v), s) {
      AllNameable(Tabs(v), s);
    }
  }

  lemma AllNameable(t: Tables, s: Shape)
    requires TreeOk(t, s) && AllPlain(t, s)
    ensures Searchable(t, s)
  {
    forall d | d in s.rank
      ensures Nameable(t, s, d)
    {
      assert Unextended(t, s, d);
      PlainWhenUnextended(t, s, d);
    }
  }
}
