/** What `find` reports: the entries of a name in the whole tree, in pre-order and each once. */
module ShellFind {
  import opened FatLayout
  import opened Volumes
  import opened FatOps
  import opened AbsFiles
  import opened FatRead
  import opened FatView
  import opened FatPaths
  import opened ShellPaths

  /** The entries named `k` in slots `i` and up of directory `q` and below them, as `find` comes to them. */
  ghost function FindFrom(t: Tables, s: Shape, q: nat, i: nat, k: Key): seq<Loc>
    requires TreeOk(t, s) && q in s.rank && 2 <= i <= SLOTS
    decreases DirLevel(t, s, q), SLOTS - i
  {
    ReservedSlots(t, s, q);
    if i == SLOTS then []
    else AtSlot(t, s, q, i, k) + BelowSlot(t, s, q, i, k) + FindFrom(t, s, q, i + 1, k)
  }

  ghost function DirLevel(t: Tables, s: Shape, q: nat): nat
    requires TreeOk(t, s) && q in s.rank
  {
    ReservedSlots(t, s, q);
    s.clock - s.rank[q]
  }

  ghost function AtSlot(t: Tables, s: Shape, q: nat, i: nat, k: Key): seq<Loc>
    requires TreeOk(t, s) && q in s.rank && q < DISK_CLUSTERS && 2 <= i < SLOTS
  {
    if t[q][i].Live() && t[q][i].key == k then [Loc(q, i)] else []
  }

  ghost function BelowSlot(t: Tables, s: Shape, q: nat, i: nat, k: Key): seq<Loc>
    requires TreeOk(t, s) && q in s.rank && q < DISK_CLUSTERS && 2 <= i < SLOTS
    decreases DirLevel(t, s, q), 0
  {
    if t[q][i].IsDir() then
      ChildSlot(t, s, q, i);
      FindFrom(t, s, t[q][i].ClusterNo(), 2, k)
    else []
  }

  // ----- where entries are

  /** Slot numbers from the root down to directory `d`. */
  ghost function SlotsTo(t: Tables, s: Shape, d: nat): seq<nat>
    requires TreeOk(t, s) && d in s.rank
    decreases s.rank[d]
  {
    if d == ROOT then []
    else
      assert DirOk(t, s, d) && HeadOk(t, s, d);
      SlotsTo(t, s, s.loc[d].parent) + [s.loc[d].slot]
  }

  /** Slot numbers from the root down to an entry. */
  ghost function Position(t: Tables, s: Shape, l: Loc): seq<nat>
    requires TreeOk(t, s) && l.parent in s.rank
  {
    SlotsTo(t, s, l.parent) + [l.slot]
  }

  /** Pre-order: a directory before what it contains, and otherwise the lower slot first. */
  ghost predicate Before(a: seq<nat>, b: seq<nat>) {
    exists n :: DiffersAt(a, b, n)
  }

  predicate DiffersAt(a: seq<nat>, b: seq<nat>, n: nat) {
    n <= |a| && n < |b| && a[..n] == b[..n] && (n == |a| || a[n] < b[n])
  }

  /** `l` lies in `q` at slot `i` or higher, or below an entry that does. */
  ghost predicate InScope(t: Tables, s: Shape, q: nat, i: nat, l: Loc)
    requires TreeOk(t, s) && q in s.rank && 2 <= i <= SLOTS
  {
    && l.parent in s.rank && 2 <= l.slot < SLOTS
    && ReachesFrom(t, s, q, i, l)
  }

  ghost predicate ReachesFrom(t: Tables, s: Shape, q: nat, i: nat, l: Loc)
    requires TreeOk(t, s) && q in s.rank && 2 <= i <= SLOTS
  {
    ReservedSlots(t, s, q);
    (l.parent == q && i <= l.slot) || exists j :: i <= j < SLOTS && ChildHolds(t, s, q, j, l.parent)
  }

  ghost predicate ChildHolds(t: Tables, s: Shape, q: nat, j: nat, d: nat)
    requires TreeOk(t, s) && q < DISK_CLUSTERS && j < SLOTS
  {
    t[q][j].IsDir() && Under(t, s, t[q][j].ClusterNo(), d)
  }

  ghost predicate Matches(t: Tables, l: Loc, k: Key) {
    l.parent < DISK_CLUSTERS && l.slot < SLOTS && t[l.parent][l.slot].Live() && t[l.parent][l.slot].key == k
  }

  /** Every report is a matching entry in scope. */
  lemma {:induction false} FindSound(t: Tables, s: Shape, q: nat, i: nat, k: Key, l: Loc)
    requires TreeOk(t, s) && q in s.rank && 2 <= i <= SLOTS && l in FindFrom(t, s, q, i, k)
    ensures InScope(t, s, q, i, l) && Matches(t, l, k)
    decreases DirLevel(t, s, q), SLOTS - i
  {
    ReservedSlots(t, s, q);
    if l in BelowSlot(t, s, q, i, k) {
      ChildSlot(t, s, q, i);
      var d := t[q][i].ClusterNo();
      FindSound(t, s, d, 2, k, l);
      ScopeUnder(t, s, d, l);
      assert ChildHolds(t, s, q, i, l.parent);
    } else if l !in AtSlot(t, s, q, i, k) {
      FindSound(t, s, q, i + 1, k, l);
    }
  }

  lemma ScopeUnder(t: Tables, s: Shape, d: nat, l: Loc)
    requires TreeOk(t, s) && d in s.rank && InScope(t, s, d, 2, l)
    ensures Under(t, s, d, l.parent)
  {
    ReservedSlots(t, s, d);
    if l.parent != d {
      var j :| 2 <= j < SLOTS && ChildHolds(t, s, d, j, l.parent);
      ChildUnder(t, s, d, j, l.parent);
    }
  }

  lemma UnderScope(t: Tables, s: Shape, d: nat, l: Loc)
    requires TreeOk(t, s) && d in s.rank && l.parent in s.rank && 2 <= l.slot < SLOTS && Under(t, s, d, l.parent)
    ensures InScope(t, s, d, 2, l)
  {
    ReservedSlots(t, s, d);
    if l.parent != d {
      var j := UnderChild(t, s, d, l.parent);
      assert ChildHolds(t, s, d, j, l.parent);
    }
  }

  /** Every matching entry in scope is reported. */
  lemma {:induction false} FindComplete(t: Tables, s: Shape, q: nat, i: nat, k: Key, l: Loc)
    requires TreeOk(t, s) && q in s.rank && 2 <= i <= SLOTS && InScope(t, s, q, i, l) && Matches(t, l, k)
    ensures l in FindFrom(t, s, q, i, k)
    decreases DirLevel(t, s, q), SLOTS - i
  {
    ReservedSlots(t, s, q);
    if i < SLOTS {
      if l == Loc(q, i) {
        assert l in AtSlot(t, s, q, i, k);
      } else if ChildHolds(t, s, q, i, l.parent) {
        ChildSlot(t, s, q, i);
        UnderScope(t, s, t[q][i].ClusterNo(), l);
        FindComplete(t, s, t[q][i].ClusterNo(), 2, k, l);
        assert l in BelowSlot(t, s, q, i, k);
      } else {
        FindComplete(t, s, q, i + 1, k, l);
      }
    }
  }

  // ----- the order of the reports

  /** The position starts with `p` and goes on with a number from `i` up. */
  ghost predicate Extends(a: seq<nat>, p: seq<nat>, i: nat) {
    |p| < |a| && a[..|p|] == p && a[|p|] >= i
  }

  lemma {:induction false} FindExtends(t: Tables, s: Shape, q: nat, i: nat, k: Key, l: Loc)
    requires TreeOk(t, s) && q in s.rank && 2 <= i <= SLOTS && l in FindFrom(t, s, q, i, k)
    ensures l.parent in s.rank && Extends(Position(t, s, l), SlotsTo(t, s, q), i)
    decreases DirLevel(t, s, q), SLOTS - i
  {
    ReservedSlots(t, s, q);
    if l in BelowSlot(t, s, q, i, k) {
      ChildExtends(t, s, q, i, k, l);
    } else if l !in AtSlot(t, s, q, i, k) {
      FindExtends(t, s, q, i + 1, k, l);
    }
  }

  lemma {:induction false} ChildExtends(t: Tables, s: Shape, q: nat, i: nat, k: Key, l: Loc)
    requires TreeOk(t, s) && q in s.rank && q < DISK_CLUSTERS && 2 <= i < SLOTS && l in BelowSlot(t, s, q, i, k)
    ensures l.parent in s.rank && |Position(t, s, l)| > |SlotsTo(t, s, q)| + 1
    ensures Position(t, s, l)[..|SlotsTo(t, s, q)| + 1] == SlotsTo(t, s, q) + [i]
    decreases DirLevel(t, s, q), 0
  {
    ChildSlot(t, s, q, i);
    var d := t[q][i].ClusterNo();
    ChildLoc(t, s, q, i);
    FindExtends(t, s, d, 2, k, l);
  }

  lemma ChildLoc(t: Tables, s: Shape, q: nat, i: nat)
    requires TreeOk(t, s) && q in s.rank && q < DISK_CLUSTERS && 2 <= i < SLOTS && t[q][i].IsDir()
    ensures t[q][i].ClusterNo() in s.rank && SlotsTo(t, s, t[q][i].ClusterNo()) == SlotsTo(t, s, q) + [i]
  {
    ChildSlot(t, s, q, i);
    assert SlotOk(t, s, q, i);
  }

  ghost predicate Sorted(t: Tables, s: Shape, ls: seq<Loc>)
    requires TreeOk(t, s) && forall l :: l in ls ==> l.parent in s.rank
  {
    forall a, b :: 0 <= a < b < |ls| ==> Before(Position(t, s, ls[a]), Position(t, s, ls[b]))
  }

  lemma FindInTree(t: Tables, s: Shape, q: nat, i: nat, k: Key)
    requires TreeOk(t, s) && q in s.rank && 2 <= i <= SLOTS
    ensures forall l :: l in FindFrom(t, s, q, i, k) ==> l.parent in s.rank
  {
    forall l | l in FindFrom(t, s, q, i, k)
      ensures l.parent in s.rank
    {
      FindExtends(t, s, q, i, k, l);
    }
  }

  /** An entry comes before those below the directory it names. */
  lemma SlotBeforeBelow(t: Tables, s: Shape, q: nat, i: nat, k: Key, a: Loc, b: Loc)
    requires TreeOk(t, s) && q in s.rank && q < DISK_CLUSTERS && 2 <= i < SLOTS
    requires a in AtSlot(t, s, q, i, k) && b in BelowSlot(t, s, q, i, k)
    ensures a.parent in s.rank && b.parent in s.rank && Before(Position(t, s, a), Position(t, s, b))
  {
    ChildExtends(t, s, q, i, k, b);
    assert DiffersAt(Position(t, s, a), Position(t, s, b), |SlotsTo(t, s, q)| + 1);
  }

  /** Reports come in strict pre-order; so each entry is reported once. */
  lemma {:induction false} FindSorted(t: Tables, s: Shape, q: nat, i: nat, k: Key)
    requires TreeOk(t, s) && q in s.rank && 2 <= i <= SLOTS
    ensures forall l :: l in FindFrom(t, s, q, i, k) ==> l.parent in s.rank
    ensures Sorted(t, s, FindFrom(t, s, q, i, k))
    decreases DirLevel(t, s, q), SLOTS - i
  {
    FindInTree(t, s, q, i, k);
    ReservedSlots(t, s, q);
    if i < SLOTS {
      FindSorted(t, s, q, i + 1, k);
      if t[q][i].IsDir() {
        ChildSlot(t, s, q, i);
        FindSorted(t, s, t[q][i].ClusterNo(), 2, k);
      }
      SlotSorted(t, s, q, i, k);
    }
  }

  /** One slot's reports come before those of the later slots, if these and those below the slot are sorted. */
  lemma SlotSorted(t: Tables, s: Shape, q: nat, i: nat, k: Key)
    requires TreeOk(t, s) && q in s.rank && q < DISK_CLUSTERS && 2 <= i < SLOTS
    requires forall l :: l in FindFrom(t, s, q, i + 1, k) + BelowSlot(t, s, q, i, k) ==> l.parent in s.rank
    requires Sorted(t, s, FindFrom(t, s, q, i + 1, k)) && Sorted(t, s, BelowSlot(t, s, q, i, k))
    ensures forall l :: l in FindFrom(t, s, q, i, k) ==> l.parent in s.rank
    ensures Sorted(t, s, FindFrom(t, s, q, i, k))
  {
    var here, below, after := AtSlot(t, s, q, i, k), BelowSlot(t, s, q, i, k), FindFrom(t, s, q, i + 1, k);
    forall a, b | a in here && b in below
      ensures Before(Position(t, s, a), Position(t, s, b))
    {
      SlotBeforeBelow(t, s, q, i, k, a, b);
    }
    forall a, b | a in here + below && b in after
      ensures Before(Position(t, s, a), Position(t, s, b))
    {
      SlotBeforeNext(t, s, q, i, k, a, b);
    }
    SortedJoin(t, s, here, below);
    SortedJoin(t, s, here + below, after);
  }

  lemma SlotBeforeNext(t: Tables, s: Shape, q: nat, i: nat, k: Key, a: Loc, b: Loc)
    requires TreeOk(t, s) && q in s.rank && q < DISK_CLUSTERS && 2 <= i < SLOTS
    requires a in AtSlot(t, s, q, i, k) + BelowSlot(t, s, q, i, k) && b in FindFrom(t, s, q, i + 1, k)
    ensures a.parent in s.rank && b.parent in s.rank && Before(Position(t, s, a), Position(t, s, b))
  {
    SlotPosition(t, s, q, i, k, a);
    FindExtends(t, s, q, i + 1, k, b);
    assert DiffersAt(Position(t, s, a), Position(t, s, b), |SlotsTo(t, s, q)|);
  }

  /** What is reported for slot `i` of `q` has a position that goes on from `q`'s with `i`. */
  lemma SlotPosition(t: Tables, s: Shape, q: nat, i: nat, k: Key, a: Loc)
    requires TreeOk(t, s) && q in s.rank && q < DISK_CLUSTERS && 2 <= i < SLOTS
    requires a in AtSlot(t, s, q, i, k) + BelowSlot(t, s, q, i, k)
    ensures a.parent in s.rank
    ensures var p, x := SlotsTo(t, s, q), Position(t, s, a); |p| < |x| && x[..|p|] == p && x[|p|] == i
  {
    if a in BelowSlot(t, s, q, i, k) {
      ChildExtends(t, s, q, i, k, a);
      PrefixSnoc(Position(t, s, a), SlotsTo(t, s, q), i);
    }
  }

  lemma PrefixSnoc(x: seq<nat>, p: seq<nat>, i: nat)
    requires |p| < |x| && x[..|p| + 1] == p + [i]
    ensures x[..|p|] == p && x[|p|] == i
  {
    assert x[..|p|] == x[..|p| + 1][..|p|];
    assert x[|p|] == x[..|p| + 1][|p|];
  }

  lemma SortedJoin(t: Tables, s: Shape, x: seq<Loc>, y: seq<Loc>)
    requires TreeOk(t, s) && (forall l :: l in x ==> l.parent in s.rank) && (forall l :: l in y ==> l.parent in s.rank)
    requires Sorted(t, s, x) && Sorted(t, s, y)
    requires forall a, b :: a in x && b in y ==> Before(Position(t, s, a), Position(t, s, b))
    ensures forall l :: l in x + y ==> l.parent in s.rank
    ensures Sorted(t, s, x + y)
  {
  }

  // ----- the whole tree

  /** An entry that `find` prints: the path of its directory and its name. */
  datatype Line = EntryLine(path: seq<Elem>, key: Key) | RootLine

  ghost function LinesOf(t: Tables, s: Shape, ls: seq<Loc>, k: Key): seq<Line>
    requires TreeOk(t, s) && forall l :: l in ls ==> l.parent in s.rank
  {
    seq(|ls|, n requires 0 <= n < |ls| => EntryLine(StackTo(t, s, ls[n].parent), k))
  }

  ghost predicate Reported(found: seq<Loc>, d: nat) {
    exists n :: 0 <= n < |found| && found[n].parent == d
  }

  /**
   From the root `find` reports exactly the directories that hold the name, each once, in
   pre-order of the matching entries.
   */
  lemma FindExact(v: Volume, s: Shape, k: Key)
    requires Consistent(v, s)
    ensures var found := FindFrom(Tabs(v), s, ROOT, 2, k);
      && (forall l :: l in found ==> l.parent in s.rank && Matches(Tabs(v), l, k))
      && (forall d :: d in View(v, s) && k in View(v, s)[d] <==> Reported(found, d))
      && (forall m, n :: 0 <= m < n < |found| ==> found[m].parent != found[n].parent)
      && Sorted(Tabs(v), s, found)
  {
    FindSorted(Tabs(v), s, ROOT, 2, k);
    FindOnce(Tabs(v), s, k);
    forall d
      ensures d in View(v, s) && k in View(v, s)[d] <==> Reported(FindFrom(Tabs(v), s, ROOT, 2, k), d)
    {
      FindHolds(v, s, k, d);
    }
  }

  /** All reports match, and no directory is reported twice. */
  lemma FindOnce(t: Tables, s: Shape, k: Key)
    requires TreeOk(t, s) && NamesOk(t, s)
    ensures var found := FindFrom(t, s, ROOT, 2, k);
      && (forall l :: l in found ==> l.parent in s.rank && Matches(t, l, k))
      && (forall m, n :: 0 <= m < n < |found| ==> found[m].parent != found[n].parent)
  {
    var found := FindFrom(t, s, ROOT, 2, k);
    FindSorted(t, s, ROOT, 2, k);
    forall l | l in found
      ensures l.parent in s.rank && Matches(t, l, k) && 2 <= l.slot < SLOTS
    {
      FindSound(t, s, ROOT, 2, k, l);
    }
    forall m, n | 0 <= m < n < |found|
      ensures found[m].parent != found[n].parent
    {
      assert found[m] in found && found[n] in found;
      assert Before(Position(t, s, found[m]), Position(t, s, found[n]));
      ReportsApart(t, s, found[m], found[n], k);
    }
  }

  /** Two different reports are of different directories, because a name is unique in each. */
  lemma ReportsApart(t: Tables, s: Shape, a: Loc, b: Loc, k: Key)
    requires TreeOk(t, s) && NamesOk(t, s) && a.parent in s.rank && b.parent in s.rank
    requires Matches(t, a, k) && Matches(t, b, k) && 2 <= a.slot && 2 <= b.slot
    requires Before(Position(t, s, a), Position(t, s, b))
    ensures a.parent != b.parent
  {
    assert UniqueKeys(t[a.parent]);
    PositionsDiffer(Position(t, s, a), Position(t, s, b));
  }

  lemma PositionsDiffer(a: seq<nat>, b: seq<nat>)
    requires Before(a, b)
    ensures a != b
  {
    var n :| DiffersAt(a, b, n);
  }

  /** A directory that holds the name is reported, and only such a directory. */
  lemma FindHolds(v: Volume, s: Shape, k: Key, d: nat)
    requires Consistent(v, s)
    ensures var found := FindFrom(Tabs(v), s, ROOT, 2, k);
      d in View(v, s) && k in View(v, s)[d] <==> Reported(found, d)
  {
    var t := Tabs(v);
    var found := FindFrom(t, s, ROOT, 2, k);
    ViewKeys(v, s);
    if d in s.rank && k in View(v, s)[d] {
      KeyLookup(v, s, d, k);
      var l := Loc(d, Search(t[d], k));
      AllUnderRoot(t, s, d);
      UnderScope(t, s, ROOT, l);
      FindComplete(t, s, ROOT, 2, k, l);
    }
    if Reported(found, d) {
      var n :| 0 <= n < |found| && found[n].parent == d;
      FindSound(t, s, ROOT, 2, k, found[n]);
      LiveAt(v, s, d, found[n].slot);
    }
  }

  // ----- lines, directory by directory

  lemma LinesJoin(t: Tables, s: Shape, x: seq<Loc>, y: seq<Loc>, k: Key)
    requires TreeOk(t, s) && (forall l :: l in x ==> l.parent in s.rank) && (forall l :: l in y ==> l.parent in s.rank)
    ensures forall l :: l in x + y ==> l.parent in s.rank
    ensures LinesOf(t, s, x + y, k) == LinesOf(t, s, x, k) + LinesOf(t, s, y, k)
  {
  }

  /** The lines for the entries found from slot `i` of `q` on. */
  ghost function LinesFrom(t: Tables, s: Shape, q: nat, i: nat, k: Key): seq<Line>
    requires TreeOk(t, s) && q in s.rank && 2 <= i <= SLOTS
  {
    FindInTree(t, s, q, i, k);
    LinesOf(t, s, FindFrom(t, s, q, i, k), k)
  }

  /**
   What `find` prints below the root: a line with the path of a directory exactly when that
   directory holds the name, no other line, and none twice.
   */
  lemma LinesExact(v: Volume, s: Shape, k: Key)
    requires Consistent(v, s)
    ensures var lines := LinesFrom(Tabs(v), s, ROOT, 2, k);
      && s.rank.Keys == View(v, s).Keys
      && (forall d :: d in s.rank ==> (EntryLine(StackTo(Tabs(v), s, d), k) in lines <==> k in View(v, s)[d]))
      && (forall n :: 0 <= n < |lines| ==> IsLineOf(Tabs(v), s, lines[n], k))
      && (forall m, n :: 0 <= m < n < |lines| ==> lines[m] != lines[n])
  {
    ViewKeys(v, s);
    FindExact(v, s, k);
    FindInTree(Tabs(v), s, ROOT, 2, k);
    var found := FindFrom(Tabs(v), s, ROOT, 2, k);
    forall d | d in s.rank
      ensures EntryLine(StackTo(Tabs(v), s, d), k) in LinesOf(Tabs(v), s, found, k) <==> Reported(found, d)
    {
      LineReported(Tabs(v), s, found, k, d);
    }
    LinesApart(Tabs(v), s, found, k);
  }

  /** The line names a directory of the tree by its path, and the name looked for. */
  ghost predicate IsLineOf(t: Tables, s: Shape, l: Line, k: Key)
    requires TreeOk(t, s)
  {
    l.EntryLine? && l.key == k && exists d :: d in s.rank && l.path == StackTo(t, s, d)
  }

  lemma LineReported(t: Tables, s: Shape, found: seq<Loc>, k: Key, d: nat)
    requires TreeOk(t, s) && (forall l :: l in found ==> l.parent in s.rank) && d in s.rank
    ensures EntryLine(StackTo(t, s, d), k) in LinesOf(t, s, found, k) <==> Reported(found, d)
  {
    var lines, line := LinesOf(t, s, found, k), EntryLine(StackTo(t, s, d), k);
    StackTop(t, s, d);
    if line in lines {
      var n :| 0 <= n < |lines| && lines[n] == line;
      StackTop(t, s, found[n].parent);
      assert found[n].parent == d;
    }
    if Reported(found, d) {
      var n :| 0 <= n < |found| && found[n].parent == d;
      assert lines[n] == line;
    }
  }

  lemma LinesApart(t: Tables, s: Shape, found: seq<Loc>, k: Key)
    requires TreeOk(t, s) && forall l :: l in found ==> l.parent in s.rank
    requires forall m, n :: 0 <= m < n < |found| ==> found[m].parent != found[n].parent
    ensures var lines := LinesOf(t, s, found, k);
      && (forall n :: 0 <= n < |lines| ==> IsLineOf(t, s, lines[n], k))
      && (forall m, n :: 0 <= m < n < |lines| ==> lines[m] != lines[n])
  {
    var lines := LinesOf(t, s, found, k);
    forall m, n | 0 <= m < n < |lines|
      ensures lines[m] != lines[n]
    {
      StackTop(t, s, found[m].parent);
      StackTop(t, s, found[n].parent);
    }
    forall n | 0 <= n < |lines|
      ensures IsLineOf(t, s, lines[n], k)
    {
      assert found[n] in found && lines[n].path == StackTo(t, s, found[n].parent);
    }
  }

  /** The lines for entries are those between what was printed before and the line for the root. */
  lemma LinesAdded(before: seq<Line>, lines: seq<Line>, after: seq<Line>)
    requires after == before + lines || after == before + lines + [RootLine]
    ensures forall path, key :: EntryLine(path, key) in after[|before|..] <==> EntryLine(path, key) in lines
  {
    assert after[|before|..] == lines || after[|before|..] == lines + [RootLine];
  }

  /** So of the lines added, one with the path of a directory is there exactly when it holds the name. */
  lemma PrintedExactly(v: Volume, s: Shape, k: Key, before: seq<Line>, after: seq<Line>)
    requires Consistent(v, s)
    requires after == before + LinesFrom(Tabs(v), s, ROOT, 2, k)
      + if k.name[..4] == [0x72, 0x6F, 0x6F, 0x74] && k.ext == [0, 0, 0] then [RootLine] else []
    ensures |before| <= |after| && s.rank.Keys == View(v, s).Keys
    ensures forall d :: d in s.rank ==>
      (EntryLine(StackTo(Tabs(v), s, d), k) in after[|before|..] <==> k in View(v, s)[d])
  {
    LinesExact(v, s, k);
    LinesAdded(before, LinesFrom(Tabs(v), s, ROOT, 2, k), after);
  }

  ghost function OwnLine(t: Tables, s: Shape, q: nat, i: nat, k: Key): seq<Line>
    requires TreeOk(t, s) && q in s.rank && q < DISK_CLUSTERS && 2 <= i < SLOTS
  {
    if t[q][i].Live() && t[q][i].key == k then [EntryLine(StackTo(t, s, q), k)] else []
  }

  ghost function ChildLines(t: Tables, s: Shape, q: nat, i: nat, k: Key): seq<Line>
    requires TreeOk(t, s) && q in s.rank && q < DISK_CLUSTERS && 2 <= i < SLOTS
  {
    if t[q][i].IsDir() then
      ChildSlot(t, s, q, i);
      LinesFrom(t, s, t[q][i].ClusterNo(), 2, k)
    else []
  }

  lemma LinesRegroup(a: seq<Line>, b: seq<Line>, c: seq<Line>, d: seq<Line>)
    ensures (a + b + c) + d == a + (b + c + d)
  {
  }

  /** One slot adds its own line, if any, and the lines of the directory it names, if any. */
  lemma LinesStep(t: Tables, s: Shape, q: nat, i: nat, k: Key)
    requires TreeOk(t, s) && q in s.rank && q < DISK_CLUSTERS && 2 <= i < SLOTS
    ensures t[q][i].IsDir() ==> t[q][i].Live() && t[q][i].ClusterNo() in s.rank
    ensures LinesFrom(t, s, q, i, k)
      == OwnLine(t, s, q, i, k) + ChildLines(t, s, q, i, k) + LinesFrom(t, s, q, i + 1, k)
  {
    var here, below, rest := AtSlot(t, s, q, i, k), BelowSlot(t, s, q, i, k), FindFrom(t, s, q, i + 1, k);
    FindInTree(t, s, q, i + 1, k);
    if t[q][i].IsDir() {
      ChildSlot(t, s, q, i);
      FindInTree(t, s, t[q][i].ClusterNo(), 2, k);
    }
    LinesJoin(t, s, here, below, k);
    LinesJoin(t, s, here + below, rest, k);
    assert LinesOf(t, s, here, k) == OwnLine(t, s, q, i, k);
    assert LinesOf(t, s, below, k) == ChildLines(t, s, q, i, k);
    assert FindFrom(t, s, q, i, k) == here + below + rest;
  }

  /** Once the lines of one slot are out, what is left are the lines of the later slots. */
  lemma LinesTurn(t: Tables, s: Shape, q: nat, i: nat, k: Key, before: seq<Line>, after: seq<Line>)
    requires TreeOk(t, s) && q in s.rank && q < DISK_CLUSTERS && 2 <= i < SLOTS
    requires after == before + OwnLine(t, s, q, i, k) + ChildLines(t, s, q, i, k)
    ensures after + LinesFrom(t, s, q, i + 1, k) == before + LinesFrom(t, s, q, i, k)
  {
    LinesStep(t, s, q, i, k);
    LinesRegroup(before, OwnLine(t, s, q, i, k), ChildLines(t, s, q, i, k), LinesFrom(t, s, q, i + 1, k));
  }

  /** Directory `d` is a child of `q`: deeper, and named by one element more. */
  ghost predicate ChildOpened(v: Volume, s: Shape, q: nat, d: nat)
    requires TreeOk(Tabs(v), s) && q in s.rank
  {
    && d in s.rank && s.rank[q] < s.rank[d] < s.clock && d < DISK_CLUSTERS
    && StackTo(Tabs(v), s, d) == StackTo(Tabs(v), s, q) + [SelfElem(Tabs(v)[d])]
  }

  /** Entering a directory entry: what is read, and the stack that then names it. */
  lemma EnterChild(v: Volume, s: Shape, q: nat, i: nat)
    requires Consistent(v, s) && q in s.rank && q < DISK_CLUSTERS && 2 <= i < SLOTS && Tabs(v)[q][i].IsDir()
    ensures var e := Tabs(v)[q][i];
      && ChildOpened(v, s, q, e.ClusterNo()) && Tabs(v)[q][0].ClusterNo() == q
      && ReadDirCode(v, Request(e.key, q, CLUSTER_SIZE)) == 0
      && ReadDirCluster(v, Request(e.key, q, CLUSTER_SIZE)) == e.ClusterNo()
  {
    ChildOpens(v, s, q, i);
    ReservedSlots(Tabs(v), s, q);
    LiveAt(v, s, q, i);
    EntryReads(v, q, i);
  }

  /** Reading the directory of an entry by its key reads the entry's cluster. */
  lemma EntryReads(v: Volume, q: nat, i: nat)
    requires q < DISK_CLUSTERS && 2 <= i < SLOTS && Tab(v, q)[i].IsDir() && Tab(v, q)[i].Live()
    requires Search(Tab(v, q), Tab(v, q)[i].key) == i && !(q == ROOT && Tab(v, q)[i].key == ROOT_KEY)
    ensures var e := Tab(v, q)[i];
      && ReadDirCode(v, Request(e.key, q, CLUSTER_SIZE)) == 0
      && ReadDirCluster(v, Request(e.key, q, CLUSTER_SIZE)) == e.ClusterNo()
  {
  }

  lemma ChildOpens(v: Volume, s: Shape, q: nat, i: nat)
    requires Consistent(v, s) && q in s.rank && q < DISK_CLUSTERS && 2 <= i < SLOTS && Tabs(v)[q][i].IsDir()
    ensures ChildOpened(v, s, q, Tabs(v)[q][i].ClusterNo()) && Tabs(v)[q][i].Live()
    ensures Tabs(v)[q][i].key != ROOT_KEY || q != ROOT
  {
    var t := Tabs(v);
    var d := t[q][i].ClusterNo();
    ChildSlot(t, s, q, i);
    assert SlotOk(t, s, q, i) && HeadOk(t, s, d);
    StackTop(t, s, d);
  }
}
