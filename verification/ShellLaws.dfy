/** What the bytes of a path mean to `cd`: slashes, dots and names, and the laws that follow. */
module ShellLaws {
  import opened Words
  import opened FatLayout
  import opened Volumes
  import opened AbsFiles
  import opened FatView
  import opened Tokens
  import opened ShellPaths
  import opened ShellCd

  // ----- one token

  /** Two dots drop the last element, and fail when it is the only one; one dot changes nothing. */
  lemma DotSteps(a: AbsFs, st: seq<Elem>)
    requires |st| > 0 && Top(st).cluster in a
    ensures Fits([0x2E, 0x2E]) && Fits([0x2E])
    ensures CdStep(a, st, [0x2E, 0x2E]) == if |st| > 1 then Some(st[..|st| - 1]) else None
    ensures CdStep(a, st, [0x2E]) == Some(st)
  {
    assert Stop([0x2E, 0x2E], [DOT], 0) == 0 && Stop([0x2E], [DOT], 0) == 0;
  }

  /** A token of at most eight bytes without a dot is a name, padded with zeroes, without extension. */
  lemma PlainName(token: seq<Byte>)
    requires |token| <= 8 && 0x2E !in token
    ensures Fits(token) && TokenKey(token) == RawKey.Key(token + seq(8 - |token|, _ => 0), [0, 0, 0])
  {
    StopIs(token, [DOT], |token|);
    assert token[..|token|] == token;
  }

  /** A name and an extension stand on the two sides of the first dot. */
  lemma DottedName(name: seq<Byte>, ext: seq<Byte>)
    requires |name| <= 8 && 0x2E !in name && |ext| <= 3
    ensures Fits(name + [0x2E] + ext)
    ensures TokenKey(name + [0x2E] + ext)
      == RawKey.Key(name + seq(8 - |name|, _ => 0), ext + seq(3 - |ext|, _ => 0))
  {
    var token := name + [0x2E] + ext;
    StopIs(token, [DOT], |name|);
    assert token[..|name|] == name && token[|name| + 1..] == ext;
  }

  /** So a name with something behind its first dot is never followed, except for the two dots themselves. */
  lemma DottedFails(a: AbsFs, st: seq<Elem>, name: seq<Byte>, ext: seq<Byte>)
    requires |st| > 0 && Top(st).cluster in a && |name| <= 8 && 0x2E !in name && 0 < |ext| <= 3 && ext[0] != 0
    requires name != [] || ext != [0x2E]
    ensures Fits(name + [0x2E] + ext) && CdStep(a, st, name + [0x2E] + ext) == None
  {
    DottedName(name, ext);
    var token := name + [0x2E] + ext;
    assert TokenKey(token).ext[0] == ext[0] && token[|name|] == 0x2E;
  }

  /** Any other name is followed exactly to a directory of that name, which then comes on top. */
  lemma NameFollows(a: AbsFs, st: seq<Elem>, name: seq<Byte>)
    requires |st| > 0 && Top(st).cluster in a && |name| <= 8 && 0x2E !in name
    requires !(Top(st).cluster == 2 && name + seq(8 - |name|, _ => 0) == [0x72, 0x6F, 0x6F, 0x74, 0, 0, 0, 0])
    ensures Fits(name)
    ensures var padded := name + seq(8 - |name|, _ => 0);
      var k: Key, dir := RawKey.Key(padded, [0, 0, 0]), a[Top(st).cluster];
      CdStep(a, st, name) == if k in dir && dir[k].DirItem? then Some(st + [Elem(dir[k].id, padded)]) else None
  {
    PlainName(name);
    NoDots(name);
    NameSteps(a, st, name);
  }

  lemma NoDots(name: seq<Byte>)
    requires 0x2E !in name
    ensures name != UP && name != STAY
  {
  }

  /** The root's own name, in the root, puts the root on top once more. */
  lemma RootFollows(a: AbsFs, st: seq<Elem>)
    requires |st| > 0 && Top(st).cluster == 2 && 2 in a
    ensures Fits([0x72, 0x6F, 0x6F, 0x74])
    ensures CdStep(a, st, [0x72, 0x6F, 0x6F, 0x74]) == Some(st + [Elem(2, [0x72, 0x6F, 0x6F, 0x74, 0, 0, 0, 0])])
  {
    PlainName([0x72, 0x6F, 0x6F, 0x74]);
    NoDots([0x72, 0x6F, 0x6F, 0x74]);
  }

  // ----- slashes

  /** Splitting is at the slashes. */
  lemma {:induction false} SlashSplits(x: seq<Byte>, y: seq<Byte>)
    ensures Split(x + [0x2F] + y, [SLASH]) == Split(x, [SLASH]) + Split(y, [SLASH])
    decreases |x|
  {
    var e := Stop(x, [SLASH], 0);
    if e == |x| {
      SplitOne(x, [SLASH]);
      SplitCons(x, 0x2F, y, [SLASH]);
    } else {
      var head, tail := x[..e], x[e + 1..];
      assert x == head + [0x2F] + tail;
      SlashSplits(tail, y);
      SplitCons(head, 0x2F, tail, [SLASH]);
      SplitCons(head, 0x2F, tail + [0x2F] + y, [SLASH]);
      assert x + [0x2F] + y == head + [0x2F] + (tail + [0x2F] + y);
      ConsAll(head, Split(tail, [SLASH]), Split(y, [SLASH]));
    }
  }

  lemma ConsAll<T>(x: T, s: seq<T>, t: seq<T>)
    ensures [x] + (s + t) == ([x] + s) + t
  {
  }

  /** A path without a slash is one token. */
  lemma OneToken(x: seq<Byte>)
    requires 0x2F !in x
    ensures Split(x, [SLASH]) == [x]
  {
    SplitOne(x, [SLASH]);
  }

  predicate AllFit(tokens: seq<seq<Byte>>) {
    forall i :: 0 <= i < |tokens| ==> Fits(tokens[i])
  }

  /** Following tokens one after the other is following the first ones and then the others. */
  lemma {:induction false} ResolveJoin(a: AbsFs, st: seq<Elem>, ts: seq<seq<Byte>>, us: seq<seq<Byte>>)
    requires AllFit(ts) && AllFit(us)
    ensures AllFit(ts + us)
    ensures Resolve(a, st, ts + us) ==
      if Resolve(a, st, ts).None? then None else Resolve(a, Resolve(a, st, ts).value, us)
    decreases |ts|
  {
    if ts == [] {
      assert ts + us == us;
    } else {
      assert (ts + us)[0] == ts[0] && (ts + us)[1..] == ts[1..] + us;
      if |st| > 0 && Top(st).cluster in a {
        var next := CdStep(a, st, ts[0]);
        if next.Some? { ResolveJoin(a, next.value, ts[1..], us); }
      }
    }
  }

  /** A path `x/y` is the path `x` and then the path `y`. */
  lemma PathInTwo(a: AbsFs, st: seq<Elem>, x: seq<Byte>, y: seq<Byte>)
    requires AllFit(Split(x, [SLASH])) && AllFit(Split(y, [SLASH]))
    ensures AllFit(Split(x + [0x2F] + y, [SLASH]))
    ensures var half := Resolve(a, st, Split(x, [SLASH]));
      Resolve(a, st, Split(x + [0x2F] + y, [SLASH])) ==
        if half.None? then None else Resolve(a, half.value, Split(y, [SLASH]))
  {
    SlashSplits(x, y);
    ResolveJoin(a, st, Split(x, [SLASH]), Split(y, [SLASH]));
  }

  // ----- laws

  /** One token of a path. */
  lemma ResolveOne(a: AbsFs, st: seq<Elem>, token: seq<Byte>)
    requires |st| > 0 && Top(st).cluster in a && Fits(token) && 0x2F !in token
    ensures AllFit(Split(token, [SLASH])) && Resolve(a, st, Split(token, [SLASH])) == CdStep(a, st, token)
  {
    OneToken(token);
    ResolveJoin(a, st, [token], []);
    var next := CdStep(a, st, token);
    assert [token][1..] == [];
  }

  /** The paths ".." and ".": one element less, or none when there is only one; and no change. */
  lemma DotPaths(a: AbsFs, st: seq<Elem>)
    requires |st| > 0 && Top(st).cluster in a
    ensures AllFit(Split([0x2E, 0x2E], [SLASH])) && AllFit(Split([0x2E], [SLASH]))
    ensures Resolve(a, st, Split([0x2E, 0x2E], [SLASH])) == if |st| > 1 then Some(st[..|st| - 1]) else None
    ensures Resolve(a, st, Split([0x2E], [SLASH])) == Some(st)
  {
    DotSteps(a, st);
    ResolveOne(a, st, [0x2E, 0x2E]);
    ResolveOne(a, st, [0x2E]);
  }

  /** Going to a directory by its name and then to ".." leads back to where one was. */
  lemma ThereAndBack(v: Volume, s: Shape, st: seq<Elem>, name: seq<Byte>)
    requires Consistent(v, s) && PathOk(View(v, s), st)
    requires |name| <= 8 && 0x2E !in name && 0x2F !in name
    ensures AllFit(Split(name, [SLASH])) && AllFit(Split(name + [0x2F] + [0x2E, 0x2E], [SLASH]))
    ensures Resolve(View(v, s), st, Split(name, [SLASH])).Some? ==>
      Resolve(View(v, s), st, Split(name + [0x2F] + [0x2E, 0x2E], [SLASH])) == Some(st)
  {
    PlainName(name);
    StepStays(v, s, st, name);
    BackAgain(View(v, s), st, name);
  }

  lemma StepStays(v: Volume, s: Shape, st: seq<Elem>, token: seq<Byte>)
    requires Consistent(v, s) && PathOk(View(v, s), st) && Fits(token)
    ensures Top(st).cluster in View(v, s)
    ensures var next := CdStep(View(v, s), st, token);
      next.Some? ==> |next.value| > 0 && Top(next.value).cluster in View(v, s)
  {
    StepKeepsPath(v, s, st, token);
    var next := CdStep(View(v, s), st, token);
    if next.Some? {
      PathTops(v, s, next.value);
      ViewKeys(v, s);
    }
  }

  lemma BackAgain(a: AbsFs, st: seq<Elem>, name: seq<Byte>)
    requires |st| > 0 && Top(st).cluster in a && |name| <= 8 && 0x2E !in name && 0x2F !in name && Fits(name)
    requires var next := CdStep(a, st, name); next.Some? ==> |next.value| > 0 && Top(next.value).cluster in a
    ensures AllFit(Split(name, [SLASH])) && AllFit(Split(name + [0x2F] + [0x2E, 0x2E], [SLASH]))
    ensures Resolve(a, st, Split(name, [SLASH])).Some? ==>
      Resolve(a, st, Split(name + [0x2F] + [0x2E, 0x2E], [SLASH])) == Some(st)
  {
    NoDots(name);
    ResolveOne(a, st, name);
    DotPaths(a, st);
    PathInTwo(a, st, name, [0x2E, 0x2E]);
    var next := CdStep(a, st, name);
    if next.Some? {
      DotPaths(a, next.value);
      assert next.value[..|next.value| - 1] == st;
    }
  }
}
