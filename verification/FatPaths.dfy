/** The directories as a tree: paths from the root, subtrees, and what reading finds. */
module FatPaths {
  import opened FatLayout
  import opened Volumes
  import opened FatView

  /** A path of directory clusters, each named by a live entry of the one before. */
  ghost predicate IsDirPath(t: Tables, path: seq<nat>) {
    && |path| > 0 && path[0] == ROOT
    && forall i :: 0 <= i < |path| - 1 ==> path[i] < DISK_CLUSTERS && Names(t[path[i]], path[i + 1])
  }

  ghost predicate Names(t: Table, d: nat) {
    exists i :: 2 <= i < SLOTS && t[i].Live() && t[i].IsDir() && t[i].ClusterNo() == d
  }

  /** The directories from the root down to `d`. */
  ghost function PathTo(t: Tables, s: Shape, d: nat): (path: seq<nat>)
    requires TreeOk(t, s) && d in s.rank
    ensures |path| > 0 && path[0] == ROOT && path[|path| - 1] == d
    decreases s.rank[d]
  {
    if d == ROOT then [ROOT]
    else
      assert DirOk(t, s, d) && HeadOk(t, s, d);
      PathTo(t, s, s.loc[d].parent) + [d]
  }

  lemma {:induction false} PathToIsPath(t: Tables, s: Shape, d: nat)
    requires TreeOk(t, s) && d in s.rank
    ensures IsDirPath(t, PathTo(t, s, d))
    decreases s.rank[d]
  {
    if d != ROOT {
      assert DirOk(t, s, d) && HeadOk(t, s, d);
      var l := s.loc[d];
      PathToIsPath(t, s, l.parent);
      assert Names(t[l.parent], d);
    }
  }

  /** A live entry of a directory for a directory is the one by which the path to it goes. */
  lemma NamedNext(t: Tables, s: Shape, p: nat, d: nat)
    requires TreeOk(t, s) && p in s.rank && p < DISK_CLUSTERS && Names(t[p], d)
    ensures d in s.rank && PathTo(t, s, d) == PathTo(t, s, p) + [d]
  {
    var i :| 2 <= i < SLOTS && t[p][i].Live() && t[p][i].IsDir() && t[p][i].ClusterNo() == d;
    assert SlotOk(t, s, p, i) && HeadOk(t, s, d);
  }

  lemma PathEnds(t: Tables, path: seq<nat>)
    requires IsDirPath(t, path) && |path| > 1
    ensures var n := |path| - 1;
      && IsDirPath(t, path[..n]) && path[..n][n - 1] == path[n - 1] && path == path[..n] + [path[n]]
      && path[n - 1] < DISK_CLUSTERS && Names(t[path[n - 1]], path[n])
  {
  }

  /** Every directory path ends in a directory and is the only path to it: the directories form a tree. */
  lemma {:induction false} PathsAreUnique(t: Tables, s: Shape, path: seq<nat>)
    requires TreeOk(t, s) && IsDirPath(t, path)
    ensures path[|path| - 1] in s.rank && path == PathTo(t, s, path[|path| - 1])
    decreases |path|
  {
    if |path| > 1 {
      var n := |path| - 1;
      PathEnds(t, path);
      PathsAreUnique(t, s, path[..n]);
      NamedNext(t, s, path[n - 1], path[n]);
    }
  }

  /** The directories of a consistent volume are exactly those reachable from the root. */
  lemma DirectoriesAreReachable(v: Volume, s: Shape, d: nat)
    requires Consistent(v, s)
    ensures d in View(v, s) <==> exists path :: IsDirPath(Tabs(v), path) && path[|path| - 1] == d
  {
    ViewKeys(v, s);
    if d in s.rank {
      PathToIsPath(Tabs(v), s, d);
    }
    if path :| IsDirPath(Tabs(v), path) && path[|path| - 1] == d {
      PathsAreUnique(Tabs(v), s, path);
    }
  }

  // ----- subtrees

  /** `d` is `q` or lies below it. */
  ghost predicate Under(t: Tables, s: Shape, q: nat, d: nat)
    requires TreeOk(t, s)
    decreases if d in s.rank then s.rank[d] else 0
  {
    d in s.rank && (d == q || (d != ROOT &&
      (assert DirOk(t, s, d) && HeadOk(t, s, d); Under(t, s, q, s.loc[d].parent))))
  }

  ghost function Up(s: Shape, q: nat): nat {
    if q == ROOT || q !in s.loc then ROOT else s.loc[q].parent
  }

  /** A proper descendant lies below one of the children. */
  lemma {:induction false} UnderChild(t: Tables, s: Shape, q: nat, d: nat) returns (i: nat)
    requires TreeOk(t, s) && q in s.rank && q < DISK_CLUSTERS && Under(t, s, q, d) && d != q
    ensures 2 <= i < SLOTS && t[q][i].IsDir() && t[q][i].Live() && Under(t, s, t[q][i].ClusterNo(), d)
    decreases if d in s.rank then s.rank[d] else 0
  {
    assert DirOk(t, s, d) && HeadOk(t, s, d);
    var l := s.loc[d];
    if l.parent == q {
      i := l.slot;
    } else {
      i := UnderChild(t, s, q, l.parent);
    }
  }

  /** The two reserved slots name the directory itself and its parent. */
  lemma ReservedSlots(t: Tables, s: Shape, q: nat)
    requires TreeOk(t, s) && q in s.rank
    ensures q < DISK_CLUSTERS && s.rank[q] < s.clock && Under(t, s, q, q)
    ensures t[q][0].IsDir() && t[q][0].ClusterNo() == q
    ensures t[q][1].IsDir() && t[q][1].ClusterNo() == Up(s, q)
  {
    assert DirOk(t, s, q);
  }

  /** A directory entry in any other slot names a child. */
  lemma ChildSlot(t: Tables, s: Shape, q: nat, i: nat)
    requires TreeOk(t, s) && q in s.rank && q < DISK_CLUSTERS && 2 <= i < SLOTS && t[q][i].IsDir()
    ensures var d := t[q][i].ClusterNo();
      d in s.rank && s.rank[q] < s.rank[d] < s.clock && Up(s, d) == q && t[q][i].Live()
  {
    var d := t[q][i].ClusterNo();
    assert SlotOk(t, s, q, i) && HeadOk(t, s, d) && DirOk(t, s, d);
  }

  /** `d` is below no child that is named before slot `n` of `q`. */
  ghost predicate NoneUnder(t: Tables, s: Shape, q: nat, n: nat, d: nat)
    requires TreeOk(t, s) && q < DISK_CLUSTERS && n <= SLOTS
  {
    forall i :: 2 <= i < n && t[q][i].IsDir() ==> !Under(t, s, t[q][i].ClusterNo(), d)
  }

  lemma NoneUnderNext(t: Tables, s: Shape, q: nat, i: nat, d: nat)
    requires TreeOk(t, s) && q < DISK_CLUSTERS && i < SLOTS && NoneUnder(t, s, q, i, d)
    requires i >= 2 && t[q][i].IsDir() ==> !Under(t, s, t[q][i].ClusterNo(), d)
    ensures NoneUnder(t, s, q, i + 1, d)
  {
  }

  /** A directory that is below no child of `q`, nor `q` itself, is not below `q`. */
  lemma NotUnder(t: Tables, s: Shape, q: nat, d: nat)
    requires TreeOk(t, s) && q in s.rank && q < DISK_CLUSTERS && d != q
    requires NoneUnder(t, s, q, SLOTS, d)
    ensures !Under(t, s, q, d)
  {
    if Under(t, s, q, d) {
      var i := UnderChild(t, s, q, d);
    }
  }

  /** A child's subtree lies in its parent's. */
  lemma {:induction false} ChildUnder(t: Tables, s: Shape, q: nat, i: nat, d: nat)
    requires TreeOk(t, s) && q in s.rank && q < DISK_CLUSTERS && 2 <= i < SLOTS
    requires t[q][i].IsDir() && Under(t, s, t[q][i].ClusterNo(), d)
    ensures Under(t, s, q, d)
    decreases if d in s.rank then s.rank[d] else 0
  {
    var x := t[q][i].ClusterNo();
    assert SlotOk(t, s, q, i) && HeadOk(t, s, x);
    if d == x {
      assert DirOk(t, s, d);
    } else {
      assert DirOk(t, s, d) && HeadOk(t, s, d);
      ChildUnder(t, s, q, i, s.loc[d].parent);
    }
  }

  lemma {:induction false} AllUnderRoot(t: Tables, s: Shape, d: nat)
    requires TreeOk(t, s) && d in s.rank
    ensures Under(t, s, ROOT, d)
    decreases s.rank[d]
  {
    if d != ROOT {
      assert DirOk(t, s, d) && HeadOk(t, s, d);
      AllUnderRoot(t, s, s.loc[d].parent);
    }
  }

  /** Subtrees of different children of one directory are disjoint. */
  lemma {:induction false} SiblingsDisjoint(t: Tables, s: Shape, q: nat, i: nat, j: nat, d: nat)
    requires TreeOk(t, s) && q in s.rank && q < DISK_CLUSTERS && 2 <= i < SLOTS && 2 <= j < SLOTS && i != j
    requires t[q][i].IsDir() && t[q][j].IsDir()
    requires Under(t, s, t[q][i].ClusterNo(), d)
    ensures !Under(t, s, t[q][j].ClusterNo(), d)
    decreases if d in s.rank then s.rank[d] else 0
  {
    var x, y := t[q][i].ClusterNo(), t[q][j].ClusterNo();
    assert SlotOk(t, s, q, i) && HeadOk(t, s, x) && SlotOk(t, s, q, j) && HeadOk(t, s, y);
    if d == x {
      if Under(t, s, y, d) { UnderRank(t, s, y, q); }
    } else if d == y {
      UnderRank(t, s, x, q);
    } else {
      assert DirOk(t, s, d) && HeadOk(t, s, d);
      SiblingsDisjoint(t, s, q, i, j, s.loc[d].parent);
    }
  }

  lemma {:induction false} UnderRank(t: Tables, s: Shape, q: nat, d: nat)
    requires TreeOk(t, s) && q in s.rank && Under(t, s, q, d)
    ensures s.rank[q] <= s.rank[d]
    decreases if d in s.rank then s.rank[d] else 0
  {
    if d != q {
      assert DirOk(t, s, d) && HeadOk(t, s, d);
      UnderRank(t, s, q, s.loc[d].parent);
    }
  }
}
