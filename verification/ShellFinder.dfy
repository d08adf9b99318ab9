/** The `find` command. */
module ShellFinder {
  import opened FatLayout
  import opened Volumes
  import opened FatOps
  import opened AbsFiles
  import opened FatView
  import opened FatDriver
  import opened ShellPaths
  import opened ShellFind
  import opened DirStack

  class Finder {
    const driver: Driver
    /** The lines printed so far. */
    var output: seq<Line>

    constructor (d: Driver)
      ensures driver == d && output == []
    {
      driver, output := d, [];
    }

    /** Searches the directory on top of `dts` and everything below it. */
    method FindHelper(k: Key, dts: DirTableStack, ghost q: nat, ghost v: Volume, ghost s: Shape)
      requires dts.Names(driver, v, s, q)
      modifies `output
      ensures output == old(output) + LinesFrom(Tabs(v), s, q, 2, k)
      decreases DirLevel(Tabs(v), s, q), 3
    {
      var copy := Copied(dts);
      var cwd := copy.PeekNamed(driver, BlankTable(), q, v, s);
      SearchSlots(k, cwd, copy, q, v, s);
    }

    /** The loop over the slots of one directory, whose table is `table`. */
    method SearchSlots(k: Key, table: Table, dts: DirTableStack, ghost q: nat, ghost v: Volume, ghost s: Shape)
      requires dts.Names(driver, v, s, q) && table == Tabs(v)[q]
      modifies `output, dts, dts.element
      ensures output == old(output) + LinesFrom(Tabs(v), s, q, 2, k)
      decreases DirLevel(Tabs(v), s, q), 2
    {
      ghost var t := Tabs(v);
      var cwd := table;
      for i := 2 to SLOTS
        invariant dts.Names(driver, v, s, q) && cwd == table
        invariant output + LinesFrom(t, s, q, i, k) == old(output) + LinesFrom(t, s, q, 2, k)
      {
        ghost var before := output;
        cwd := VisitSlot(k, cwd, i, dts, q, v, s);
        LinesTurn(t, s, q, i, k, before, output);
      }
      assert LinesFrom(t, s, q, SLOTS, k) == [];
    }

    /** One turn of the loop: prints the entry of slot `i` if it matches, and searches it if it is a directory. */
    method VisitSlot(k: Key, table: Table, i: nat, dts: DirTableStack,
                     ghost q: nat, ghost v: Volume, ghost s: Shape)
      returns (cwd: Table)
      requires dts.Names(driver, v, s, q) && table == Tabs(v)[q] && 2 <= i < SLOTS
      modifies `output, dts, dts.element
      ensures dts.Names(driver, v, s, q) && cwd == table
      ensures output == old(output) + OwnLine(Tabs(v), s, q, i, k) + ChildLines(Tabs(v), s, q, i, k)
      decreases DirLevel(Tabs(v), s, q), 1
    {
      LinesStep(Tabs(v), s, q, i, k);
      ghost var before := output;
      cwd := table;
      var e := table[i];
      if e.Live() {
        if e.key == k {
          var path := dts.Path();
          output := output + [EntryLine(path, e.key)];
        }
        assert output == before + OwnLine(Tabs(v), s, q, i, k);
        if e.IsDir() {
          cwd := Descend(k, e, cwd, dts, q, i, v, s);
        }
      }
    }

    /** Opens the directory of slot `i`, searches it, and comes back to the table it started from. */
    method Descend(k: Key, e: Entry, table: Table, dts: DirTableStack,
                   ghost q: nat, ghost i: nat, ghost v: Volume, ghost s: Shape)
      returns (cwd: Table)
      requires dts.Names(driver, v, s, q) && table == Tabs(v)[q]
      requires 2 <= i < SLOTS && e == table[i] && e.IsDir() && e.ClusterNo() in s.rank
      modifies `output, dts, dts.element
      ensures dts.Names(driver, v, s, q) && cwd == table
      ensures output == old(output) + LinesFrom(Tabs(v), s, e.ClusterNo(), 2, k)
      decreases DirLevel(Tabs(v), s, q), 0
    {
      var code;
      code, cwd := OpenChild(e, table, dts, q, i, v, s);
      if code != 0 {
        return;
      }
      FindHelper(k, dts, e.ClusterNo(), v, s);
      cwd := BackTo(cwd, dts, q, e.ClusterNo(), v, s);
    }

    /** Leaves directory `d` for the one it was opened from. */
    method BackTo(table: Table, dts: DirTableStack, ghost q: nat, ghost d: nat, ghost v: Volume, ghost s: Shape)
      returns (cwd: Table)
      requires dts.Names(driver, v, s, d) && q in s.rank && q < DISK_CLUSTERS && ChildOpened(v, s, q, d)
      modifies dts
      ensures dts.Names(driver, v, s, q) && cwd == Tabs(v)[q]
    {
      ghost var st := StackTo(Tabs(v), s, q);
      var popped := dts.Pop();
      assert dts.Contents() == st;
      cwd := dts.PeekNamed(driver, table, q, v, s);
    }

    /** Reads the directory that entry `e` names and pushes it. */
    method OpenChild(e: Entry, table: Table, dts: DirTableStack,
                     ghost q: nat, ghost i: nat, ghost v: Volume, ghost s: Shape)
      returns (code: int, cwd: Table)
      requires dts.Names(driver, v, s, q) && table == Tabs(v)[q] && 2 <= i < SLOTS && e == table[i] && e.IsDir()
      modifies dts, dts.element
      ensures code == 0 && dts.Names(driver, v, s, e.ClusterNo()) && ChildOpened(v, s, q, e.ClusterNo())
    {
      EnterChild(v, s, q, i);
      code, cwd := SysReadDir(driver, Request(e.key, table[0].ClusterNo(), CLUSTER_SIZE), table, v, s);
      if code != 0 {
        return;
      }
      PushChild(cwd, dts, q, e.ClusterNo(), v, s);
    }

    /** Puts the table of directory `d` on the stack of the directory it lies in. */
    method PushChild(table: Table, dts: DirTableStack, ghost q: nat, ghost d: nat, ghost v: Volume, ghost s: Shape)
      requires dts.Names(driver, v, s, q) && ChildOpened(v, s, q, d) && table == Tabs(v)[d]
      modifies dts, dts.element
      ensures dts.Names(driver, v, s, d)
    {
      assert Nameable(Tabs(v), s, d);
      dts.Push(table);
    }

    /** A stack that holds the root. */
    method OpenRoot(ghost v: Volume, ghost s: Shape) returns (code: int, dts: DirTableStack)
      requires Mounted(driver, v, s) && Searchable(Tabs(v), s)
      ensures code == 0 && fresh(dts) && fresh(dts.element) && dts.Names(driver, v, s, ROOT)
    {
      StackTop(Tabs(v), s, ROOT);
      dts := new DirTableStack();
      var root;
      code, root := SysReadDir(driver, Request(ROOT_KEY, ROOT, CLUSTER_SIZE), BlankTable(), v, s);
      if code != 0 {
        return;
      }
      dts.Push(root);
    }

    /** Searches the whole tree; any name that begins with "root" also prints a line for the root. */
    method Find(k: Key, ghost v: Volume, ghost s: Shape)
      requires Mounted(driver, v, s) && Searchable(Tabs(v), s)
      modifies `output
      ensures output == old(output) + LinesFrom(Tabs(v), s, ROOT, 2, k)
        + if k.name[..4] == [0x72, 0x6F, 0x6F, 0x74] && k.ext == [0, 0, 0] then [RootLine] else []
      ensures s.rank.Keys == View(v, s).Keys
      ensures forall d :: d in s.rank ==>
        (EntryLine(StackTo(Tabs(v), s, d), k) in output[|old(output)|..] <==> k in View(v, s)[d])
    {
      ghost var before := output;
      SearchRoot(k, v, s);
      PrintedExactly(v, s, k, before, output);
    }

    /** The search from the root, and the line for the root itself. */
    method SearchRoot(k: Key, ghost v: Volume, ghost s: Shape)
      requires Mounted(driver, v, s) && Searchable(Tabs(v), s)
      modifies `output
      ensures output == old(output) + LinesFrom(Tabs(v), s, ROOT, 2, k)
        + if k.name[..4] == ROOT_NAME[..4] && k.ext == NO_EXT then [RootLine] else []
    {
      var code, dts := OpenRoot(v, s);
      if code != 0 {
        return;
      }
      FindHelper(k, dts, ROOT, v, s);
      if k.name[..4] == ROOT_NAME[..4] && k.ext == NO_EXT {
        output := output + [RootLine];
      }
    }
  }
}
