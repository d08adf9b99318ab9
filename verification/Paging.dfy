/**
 Page frames and page directories: a bitmap with a cached count of clear bits, and 32 page
 directories of 4 MiB entries.
 */
module Paging {
  import opened Words

  const FRAMES := 32
  const DIRS := 32
  const ENTRIES := 1024
  const FRAME_SIZE := 0x40_0000
  const KERNEL_BASE := 0xC000_0000
  const KERNEL_ENTRY := 0x300

  /** Page-directory entry for a 4 MiB page (Intel SDM Vol. 3A, section 4.3). */
  datatype Pde = Pde(present: bool, write: bool, user: bool, big: bool, higher: nat, lower: nat) {
    function Frame(): nat {
      1024 * higher + lower
    }

    predicate UserMapped() {
      present && user
    }
  }

  const ZERO_PDE := Pde(false, false, false, false, 0, 0)

  type Directory = d: seq<Pde> | |d| == ENTRIES witness seq(ENTRIES, _ => ZERO_PDE)

  function BlankDirectory(): Directory {
    seq(ENTRIES, _ => ZERO_PDE)
  }

  datatype RawPages = Pages(frames: seq<bool>, free: nat, used: seq<bool>, dirs: seq<Directory>)
  type PageState = p: RawPages | |p.frames| == FRAMES && |p.used| == DIRS && |p.dirs| == DIRS
    witness RawPages.Pages(seq(FRAMES, _ => false), 0, seq(DIRS, _ => false),
                           seq<Directory>(DIRS, _ => BlankDirectory()))

  function PageIndex(va: Word): (i: nat)
    ensures i < ENTRIES
  {
    (va / FRAME_SIZE) % ENTRIES
  }

  /** First index from `i` on whose flag is clear; the length when all are set. */
  function FirstClear(flags: seq<bool>, i: nat): (r: nat)
    requires i <= |flags|
    ensures i <= r <= |flags|
    ensures r < |flags| ==> !flags[r]
    ensures forall j :: i <= j < r ==> flags[j]
    decreases |flags| - i
  {
    if i == |flags| then i
    else if !flags[i] then i
    else FirstClear(flags, i + 1)
  }

  function CountClear(flags: seq<bool>): nat {
    if flags == [] then 0 else CountClear(flags[..|flags| - 1]) + if flags[|flags| - 1] then 0 else 1
  }

  // ----- operations

  function MapEntry(pg: PageState, d: nat, j: nat, frame: nat): PageState
    requires d < DIRS && j < ENTRIES
  {
    var e := pg.dirs[d][j];
    pg.(dirs := pg.dirs[d := pg.dirs[d][j := Pde(true, true, true, true, e.higher, frame % ENTRIES)]])
  }

  /** Gives the first free frame to the page of `va` in directory `d`. */
  function Allocate(pg: PageState, d: nat, va: Word): (PageState, bool)
    requires d < DIRS
  {
    if pg.free == 0 then (pg, false)
    else
      var f := FirstClear(pg.frames, 0);
      if f == FRAMES then (pg, true)
      else (MapEntry(pg.(frames := pg.frames[f := true], free := pg.free - 1), d, PageIndex(va), f), true)
  }

  /** Takes back the frame that the page of `va` maps in directory `d`. */
  function Free(pg: PageState, d: nat, va: Word): (PageState, bool)
    requires d < DIRS
  {
    FreeEntry(pg, d, PageIndex(va))
  }

  function FreeEntry(pg: PageState, d: nat, j: nat): (PageState, bool)
    requires d < DIRS && j < ENTRIES
  {
    var e := pg.dirs[d][j];
    if e.present && e.Frame() < FRAMES then
      var cleared := e.(present := false, user := false, write := false, higher := 0, lower := 0);
      (pg.(frames := pg.frames[e.Frame() := false], free := pg.free + 1,
           dirs := pg.dirs[d := pg.dirs[d][j := cleared]]), true)
    else (pg, false)
  }

  /** Claims the first unused directory and maps the kernel in it; DIRS when none is left. */
  function NewDirectory(pg: PageState): (PageState, nat) {
    var d := FirstClear(pg.used, 0);
    if d == DIRS then (pg, DIRS)
    else
      var e := pg.dirs[d][KERNEL_ENTRY].(present := true, write := true, big := true, lower := 0);
      (pg.(used := pg.used[d := true], dirs := pg.dirs[d := pg.dirs[d][KERNEL_ENTRY := e]]), d)
  }

  /** Clears a directory; it stays marked as used, so it is never handed out again. */
  function FreeDirectory(pg: PageState, d: nat): PageState
    requires d < DIRS
  {
    pg.(used := pg.used[d := true], dirs := pg.dirs[d := BlankDirectory()])
  }

  // ----- the invariant

  ghost predicate EntryOk(pg: PageState, d: nat, j: nat)
    requires d < DIRS && j < ENTRIES
  {
    var e := pg.dirs[d][j];
    && e.higher == 0
    && (e.present && e.user ==> 1 <= e.lower < FRAMES && pg.frames[e.lower])
    && (e.present && !e.user ==> j == KERNEL_ENTRY && e.lower == 0)
  }

  ghost predicate MapsTo(pg: PageState, d: nat, j: nat, f: nat) {
    d < DIRS && j < ENTRIES && pg.dirs[d][j].UserMapped() && pg.dirs[d][j].lower == f
  }

  /** The count is right, mapped frames are marked, and no frame is mapped twice. */
  ghost predicate PagesOk(pg: PageState) {
    && pg.frames[0]
    && pg.free == CountClear(pg.frames)
    && (forall d: nat, j: nat {:trigger EntryOk(pg, d, j)} :: d < DIRS && j < ENTRIES ==> EntryOk(pg, d, j))
    && (forall d, j, d', j', f {:trigger MapsTo(pg, d, j, f), MapsTo(pg, d', j', f)} ::
          MapsTo(pg, d, j, f) && MapsTo(pg, d', j', f) ==> d == d' && j == j')
    && (forall d :: 0 <= d < DIRS && !pg.used[d] ==> pg.dirs[d] == BlankDirectory())
  }

  /** Conversely, every marked frame except the kernel's is mapped. */
  ghost predicate NoLeak(pg: PageState) {
    forall f :: 1 <= f < FRAMES && pg.frames[f] ==> exists d, j :: MapsTo(pg, d, j, f)
  }

  /** No entry but one differs, and the same directories are in use. */
  ghost predicate OnlyEntry(pg: PageState, pg': PageState, d: nat, j: nat) {
    && pg'.used == pg.used
    && forall x, y :: 0 <= x < DIRS && 0 <= y < ENTRIES && (x != d || y != j) ==> pg'.dirs[x][y] == pg.dirs[x][y]
  }

  // ----- counting

  lemma {:induction false} CountFlip(flags: seq<bool>, i: nat, b: bool)
    requires i < |flags| && flags[i] != b
    ensures CountClear(flags[i := b]) == CountClear(flags) + if b then -1 else 1
  {
    var n := |flags| - 1;
    if i < n {
      CountFlip(flags[..n], i, b);
      assert flags[i := b][..n] == flags[..n][i := b];
    } else {
      assert flags[i := b][..n] == flags[..n];
    }
  }

  lemma {:induction false} CountPositive(flags: seq<bool>, i: nat)
    requires i < |flags| && !flags[i]
    ensures CountClear(flags) > 0
  {
    if i < |flags| - 1 { CountPositive(flags[..|flags| - 1], i); }
  }

  lemma {:induction false} CountNone(flags: seq<bool>)
    requires forall i :: 0 <= i < |flags| ==> flags[i]
    ensures CountClear(flags) == 0
  {
    if flags != [] { CountNone(flags[..|flags| - 1]); }
  }

  /** The cached count is positive exactly when the search finds a frame. */
  lemma FreeMeansFound(pg: PageState)
    requires PagesOk(pg)
    ensures pg.free > 0 <==> FirstClear(pg.frames, 0) < FRAMES
  {
    var f := FirstClear(pg.frames, 0);
    if f < FRAMES { CountPositive(pg.frames, f); } else { CountNone(pg.frames); }
  }

  // ----- what the operations keep

  /**
   Allocation succeeds exactly while a frame is free, and then maps a frame nobody had; it leaks
   exactly when the page was mapped already.
   */
  lemma AllocateKeeps(pg: PageState, d: nat, va: Word)
    requires PagesOk(pg) && d < DIRS && pg.used[d]
    ensures PagesOk(Allocate(pg, d, va).0)
    ensures Allocate(pg, d, va).1 <==> pg.free > 0
    ensures pg.free > 0 ==> var f := FirstClear(pg.frames, 0);
      f < FRAMES && !pg.frames[f] && Allocate(pg, d, va).0.frames == pg.frames[f := true]
      && MapsTo(Allocate(pg, d, va).0, d, PageIndex(va), f)
      && Allocate(pg, d, va).0.dirs[d][PageIndex(va)] == Pde(true, true, true, true, 0, f)
    ensures pg.free == 0 ==> Allocate(pg, d, va).0 == pg
    ensures OnlyEntry(pg, Allocate(pg, d, va).0, d, PageIndex(va))
    ensures NoLeak(pg) ==>
      (NoLeak(Allocate(pg, d, va).0) <==> pg.free == 0 || !pg.dirs[d][PageIndex(va)].UserMapped())
  {
    FreeMeansFound(pg);
    if pg.free > 0 {
      AllocateMaps(pg, d, va);
      AllocateEntries(pg, d, va);
      if NoLeak(pg) {
        if pg.dirs[d][PageIndex(va)].UserMapped() { AllocateLeaks(pg, d, va); } else { AllocateNoLeak(pg, d, va); }
      }
    }
  }

  lemma AllocateEntries(pg: PageState, d: nat, va: Word)
    requires PagesOk(pg) && d < DIRS && pg.free > 0 && FirstClear(pg.frames, 0) < FRAMES
    ensures var f, pg' := FirstClear(pg.frames, 0), Allocate(pg, d, va).0;
      && pg'.frames == pg.frames[f := true] && pg'.free == CountClear(pg'.frames)
      && pg'.dirs[d][PageIndex(va)] == Pde(true, true, true, true, 0, f)
      && (forall x: nat, y: nat {:trigger EntryOk(pg', x, y)} :: x < DIRS && y < ENTRIES ==> EntryOk(pg', x, y))
  {
    var f, pg' := FirstClear(pg.frames, 0), Allocate(pg, d, va).0;
    CountFlip(pg.frames, f, true);
    assert EntryOk(pg, d, PageIndex(va));
    forall x: nat, y: nat | x < DIRS && y < ENTRIES
      ensures EntryOk(pg', x, y)
    {
      assert EntryOk(pg, x, y);
    }
  }

  lemma AllocateMaps(pg: PageState, d: nat, va: Word)
    requires PagesOk(pg) && d < DIRS && pg.free > 0 && FirstClear(pg.frames, 0) < FRAMES
    ensures var f, j, pg' := FirstClear(pg.frames, 0), PageIndex(va), Allocate(pg, d, va).0;
      && MapsTo(pg', d, j, f)
      && (forall x, y, g :: MapsTo(pg', x, y, g) ==> (x == d && y == j && g == f) || (g != f && MapsTo(pg, x, y, g)))
      && (forall x, y, g :: MapsTo(pg, x, y, g) && (x != d || y != j) ==> MapsTo(pg', x, y, g))
  {
    var f, j, pg' := FirstClear(pg.frames, 0), PageIndex(va), Allocate(pg, d, va).0;
    forall x, y, g | MapsTo(pg, x, y, g) && (x != d || y != j)
      ensures g != f && MapsTo(pg', x, y, g)
    {
      assert EntryOk(pg, x, y);
    }
  }

  lemma AllocateNoLeak(pg: PageState, d: nat, va: Word)
    requires PagesOk(pg) && NoLeak(pg) && d < DIRS && pg.free > 0 && FirstClear(pg.frames, 0) < FRAMES
    requires !pg.dirs[d][PageIndex(va)].UserMapped()
    ensures NoLeak(Allocate(pg, d, va).0)
  {
    var f, pg' := FirstClear(pg.frames, 0), Allocate(pg, d, va).0;
    AllocateMaps(pg, d, va);
    forall g | 1 <= g < FRAMES && pg'.frames[g]
      ensures exists x, y :: MapsTo(pg', x, y, g)
    {
      if g == f {
        assert MapsTo(pg', d, PageIndex(va), f);
      } else {
        var x, y :| MapsTo(pg, x, y, g);
        assert MapsTo(pg', x, y, g);
      }
    }
  }

  /** The frame that the page mapped before is marked and no longer mapped. */
  lemma AllocateLeaks(pg: PageState, d: nat, va: Word)
    requires PagesOk(pg) && d < DIRS && pg.free > 0 && FirstClear(pg.frames, 0) < FRAMES
    requires pg.dirs[d][PageIndex(va)].UserMapped()
    ensures !NoLeak(Allocate(pg, d, va).0)
  {
    var j, pg' := PageIndex(va), Allocate(pg, d, va).0;
    var g := pg.dirs[d][j].lower;
    AllocateMaps(pg, d, va);
    assert EntryOk(pg, d, j) && MapsTo(pg, d, j, g);
    assert 1 <= g < FRAMES && pg'.frames[g] && forall x, y :: !MapsTo(pg', x, y, g);
  }

  /** Freeing gives back exactly the frame of the page; on the kernel's own page it would give back the kernel's. */
  lemma FreeKeeps(pg: PageState, d: nat, va: Word)
    requires PagesOk(pg) && d < DIRS
    ensures FreesEntry(pg, d, PageIndex(va))
  {
    EntryFreed(pg, d, PageIndex(va));
  }

  /** What freeing entry `j` of directory `d` does. */
  ghost predicate FreesEntry(pg: PageState, d: nat, j: nat)
    requires d < DIRS && j < ENTRIES
  {
    var (pg', ok) := FreeEntry(pg, d, j);
    var e := pg.dirs[d][j];
    && (ok <==> e.present)
    && (PagesOk(pg') <==> !e.present || e.user)
    && (NoLeak(pg) ==> NoLeak(pg'))
    && !pg'.dirs[d][j].present
    && OnlyEntry(pg, pg', d, j)
    && (if e.present then
          && e.lower < FRAMES && pg'.frames == pg.frames[e.lower := false] && pg'.free == pg.free + 1
          && pg'.dirs[d][j] == Pde(false, false, false, e.big, 0, 0)
        else pg' == pg)
  }

  lemma EntryFreed(pg: PageState, d: nat, j: nat)
    requires PagesOk(pg) && d < DIRS && j < ENTRIES
    ensures FreesEntry(pg, d, j)
  {
    var e := pg.dirs[d][j];
    EntryBounds(pg, d, j);
    if e.present {
      if e.user { FreeUser(pg, d, j); } else { FreeKernel(pg, d, j); }
      if NoLeak(pg) { FreeNoLeak(pg, d, j); }
    }
  }

  lemma EntryBounds(pg: PageState, d: nat, j: nat)
    requires PagesOk(pg) && d < DIRS && j < ENTRIES
    ensures var e := pg.dirs[d][j];
      e.higher == 0 && (e.present ==> e.lower < FRAMES) && (e.present && !e.user ==> e.lower == 0)
  {
    assert EntryOk(pg, d, j);
  }

  lemma FreeKernel(pg: PageState, d: nat, j: nat)
    requires d < DIRS && j < ENTRIES && pg.dirs[d][j].present && pg.dirs[d][j].Frame() == 0
    ensures !PagesOk(FreeEntry(pg, d, j).0)
  {
    assert !FreeEntry(pg, d, j).0.frames[0];
  }

  lemma FreeUser(pg: PageState, d: nat, j: nat)
    requires PagesOk(pg) && d < DIRS && j < ENTRIES && pg.dirs[d][j].UserMapped()
    ensures PagesOk(FreeEntry(pg, d, j).0)
  {
    var pg' := FreeEntry(pg, d, j).0;
    var e := pg.dirs[d][j];
    assert EntryOk(pg, d, j);
    CountFlip(pg.frames, e.lower, false);
    assert MapsTo(pg, d, j, e.lower);
    forall x: nat, y: nat | x < DIRS && y < ENTRIES
      ensures EntryOk(pg', x, y)
    {
      assert EntryOk(pg, x, y);
      if pg.dirs[x][y].UserMapped() { assert MapsTo(pg, x, y, pg.dirs[x][y].lower); }
    }
    assert forall x, y, g :: MapsTo(pg', x, y, g) ==> MapsTo(pg, x, y, g);
  }

  lemma FreeNoLeak(pg: PageState, d: nat, j: nat)
    requires NoLeak(pg) && d < DIRS && j < ENTRIES
    requires pg.dirs[d][j].present && pg.dirs[d][j].higher == 0 && pg.dirs[d][j].lower < FRAMES
    ensures NoLeak(FreeEntry(pg, d, j).0)
  {
    var pg' := FreeEntry(pg, d, j).0;
    forall g | 1 <= g < FRAMES && pg'.frames[g]
      ensures exists x, y :: MapsTo(pg', x, y, g)
    {
      var x, y :| MapsTo(pg, x, y, g);
      assert MapsTo(pg', x, y, g);
    }
  }

  lemma NewDirectoryKeeps(pg: PageState)
    requires PagesOk(pg)
    ensures var (pg', d) := NewDirectory(pg);
      && PagesOk(pg') && pg'.frames == pg.frames && pg'.free == pg.free && (NoLeak(pg) ==> NoLeak(pg'))
      && d <= DIRS
      && (d < DIRS ==>
            && !pg.used[d] && pg'.used == pg.used[d := true]
            && (forall x :: 0 <= x < DIRS && x != d ==> pg'.dirs[x] == pg.dirs[x])
            && (forall y :: 0 <= y < ENTRIES && y != KERNEL_ENTRY ==> !pg'.dirs[d][y].present)
            && pg'.dirs[d][KERNEL_ENTRY] == Pde(true, true, false, true, 0, 0))
  {
    var (pg', d) := NewDirectory(pg);
    if d < DIRS {
      assert forall x, y, g :: MapsTo(pg', x, y, g) <==> MapsTo(pg, x, y, g);
      forall x: nat, y: nat | x < DIRS && y < ENTRIES
        ensures EntryOk(pg', x, y)
      {
        assert EntryOk(pg, x, y);
      }
    }
  }

  /** Clearing a directory is always safe; it leaks exactly the frames the directory still maps. */
  lemma FreeDirectoryKeeps(pg: PageState, d: nat)
    requires PagesOk(pg) && d < DIRS
    ensures PagesOk(FreeDirectory(pg, d))
    ensures NoLeak(pg) ==>
      (NoLeak(FreeDirectory(pg, d)) <==> forall j :: 0 <= j < ENTRIES ==> !pg.dirs[d][j].UserMapped())
  {
    var pg' := FreeDirectory(pg, d);
    assert forall x, y, g :: MapsTo(pg', x, y, g) <==> x != d && MapsTo(pg, x, y, g);
    forall x: nat, y: nat | x < DIRS && y < ENTRIES
      ensures EntryOk(pg', x, y)
    {
      assert EntryOk(pg, x, y);
    }
    if NoLeak(pg) {
      if j: nat :| j < ENTRIES && pg.dirs[d][j].UserMapped() {
        assert EntryOk(pg, d, j) && MapsTo(pg, d, j, pg.dirs[d][j].lower);
      }
      if forall j :: 0 <= j < ENTRIES ==> !pg.dirs[d][j].UserMapped() {
        forall g | 1 <= g < FRAMES && pg'.frames[g]
          ensures exists x, y :: MapsTo(pg', x, y, g)
        {
          var x, y :| MapsTo(pg, x, y, g);
          assert MapsTo(pg', x, y, g);
        }
      }
    }
  }
}
