/** What `cd` makes of paths that meet the root's own name in the root. */
module ShellPlaces {
  import opened Words
  import opened FatLayout
  import opened Volumes
  import opened AbsFiles
  import opened FatView
  import opened ShellPaths
  import opened ShellCd
  import opened ShellLaws

  /** A directory, and how many extra copies of the root lie below it on the stack. */
  datatype Place = Place(dir: nat, extra: nat)

  ghost predicate Placed(v: Volume, s: Shape, p: Place)
    requires TreeOk(Tabs(v), s)
  {
    p.dir in s.rank && Plain(Tabs(v), s, p.dir)
  }

  function Roots(n: nat): (st: seq<Elem>)
    ensures |st| == n
  {
    if n == 0 then [] else Roots(n - 1) + [ROOT_ELEM]
  }

  ghost function StackAt(v: Volume, s: Shape, p: Place): (st: seq<Elem>)
    requires TreeOk(Tabs(v), s) && Placed(v, s, p)
    ensures |st| > 0
  {
    Roots(p.extra) + StackTo(Tabs(v), s, p.dir)
  }

  /** A step that knows of the extra copies: the root's name in the root adds one, and ".." takes one away. */
  ghost function PlaceStep(v: Volume, s: Shape, p: Place, token: seq<Byte>): Option<Place>
    requires Fits(token)
  {
    if RootAgain(p.dir, token) then Some(Place(ROOT, p.extra + 1))
    else if token == UP && p.dir == ROOT && p.extra > 0 then Some(Place(ROOT, p.extra - 1))
    else
      match WalkStep(v, s, p.dir, token)
      case None => None
      case Some(d) => Some(Place(d, p.extra))
  }

  ghost function PlaceWalk(v: Volume, s: Shape, p: Place, tokens: seq<seq<Byte>>): Option<Place>
    requires forall i :: 0 <= i < |tokens| ==> Fits(tokens[i])
    decreases |tokens|
  {
    if tokens == [] then Some(p)
    else match PlaceStep(v, s, p, tokens[0])
      case None => None
      case Some(p') => PlaceWalk(v, s, p', tokens[1..])
  }

  /** The last element of a place's stack is its directory. */
  lemma PlaceTop(v: Volume, s: Shape, p: Place)
    requires Consistent(v, s) && Placed(v, s, p)
    ensures Top(StackAt(v, s, p)).cluster == p.dir && p.dir in View(v, s)
    ensures p.dir < DISK_CLUSTERS
  {
    StackTop(Tabs(v), s, p.dir);
    ViewKeys(v, s);
  }

  /** In the root there are only copies of the root. */
  lemma RootPlace(v: Volume, s: Shape, n: nat)
    requires Consistent(v, s)
    ensures Placed(v, s, Place(ROOT, n)) && StackAt(v, s, Place(ROOT, n)) == Roots(n + 1)
  {
    StackTop(Tabs(v), s, ROOT);
  }

  /** The stack of a child is its parent's with the child on top. */
  lemma ChildStack(v: Volume, s: Shape, d: nat, y: Elem)
    requires Consistent(v, s) && d in s.rank && Plain(Tabs(v), s, d) && d in View(v, s)
    requires DirKey(y.name) in View(v, s)[d] && View(v, s)[d][DirKey(y.name)] == DirItem(y.cluster)
    ensures y.cluster in s.rank && Plain(Tabs(v), s, y.cluster) && !(d == ROOT && y.name == ROOT_NAME)
    ensures StackTo(Tabs(v), s, y.cluster) == StackTo(Tabs(v), s, d) + [y]
  {
    StackTop(Tabs(v), s, d);
    ChildOnTop(v, s, Top(StackTo(Tabs(v), s, d)), y);
  }

  /** Entering a child adds the child to the stack. */
  lemma PlaceDown(v: Volume, s: Shape, p: Place, y: Elem)
    requires Consistent(v, s) && Placed(v, s, p) && p.dir in View(v, s)
    requires DirKey(y.name) in View(v, s)[p.dir] && View(v, s)[p.dir][DirKey(y.name)] == DirItem(y.cluster)
    ensures Placed(v, s, Place(y.cluster, p.extra)) && !(p.dir == ROOT && y.name == ROOT_NAME)
    ensures StackAt(v, s, Place(y.cluster, p.extra)) == StackAt(v, s, p) + [y]
  {
    ChildStack(v, s, p.dir, y);
    PutOnTop(Roots(p.extra), StackTo(Tabs(v), s, p.dir), y);
  }

  lemma PutOnTop(a: seq<Elem>, b: seq<Elem>, y: Elem)
    ensures a + (b + [y]) == (a + b) + [y]
  {
  }

  /** Going up takes the last element away. */
  lemma UpPlace(v: Volume, s: Shape, p: Place)
    requires Consistent(v, s) && Placed(v, s, p)
    ensures var next := PlaceStep(v, s, p, UP);
      && (next.Some? <==> |StackAt(v, s, p)| > 1)
      && (next.Some? ==> Placed(v, s, next.value))
      && (next.Some? ==> StackAt(v, s, next.value) == StackAt(v, s, p)[..|StackAt(v, s, p)| - 1])
  {
    if p.dir == ROOT { RootUp(v, s, p.extra); } else { InnerUp(v, s, p); }
  }

  lemma RootUp(v: Volume, s: Shape, n: nat)
    requires Consistent(v, s)
    ensures Placed(v, s, Place(ROOT, n)) && StackAt(v, s, Place(ROOT, n)) == Roots(n + 1)
    ensures n > 0 ==> Placed(v, s, Place(ROOT, n - 1)) && StackAt(v, s, Place(ROOT, n - 1)) == Roots(n + 1)[..n]
  {
    RootPlace(v, s, n);
    if n > 0 {
      RootPlace(v, s, n - 1);
      assert Roots(n + 1)[..n] == Roots(n);
    }
  }

  lemma InnerUp(v: Volume, s: Shape, p: Place)
    requires Consistent(v, s) && Placed(v, s, p) && p.dir != ROOT
    ensures p.dir in s.loc && |StackAt(v, s, p)| > 1 && Placed(v, s, Place(s.loc[p.dir].parent, p.extra))
    ensures StackAt(v, s, Place(s.loc[p.dir].parent, p.extra)) == StackAt(v, s, p)[..|StackAt(v, s, p)| - 1]
  {
    ParentStack(v, s, p.dir);
    DropTop(Roots(p.extra), StackTo(Tabs(v), s, p.dir));
  }

  lemma DropTop(a: seq<Elem>, b: seq<Elem>)
    requires |b| > 0
    ensures a + b[..|b| - 1] == (a + b)[..|a + b| - 1]
  {
  }

  lemma ParentStack(v: Volume, s: Shape, d: nat)
    requires Consistent(v, s) && d in s.rank && Plain(Tabs(v), s, d) && d != ROOT
    ensures d in s.loc && s.loc[d].parent in s.rank && Plain(Tabs(v), s, s.loc[d].parent)
    ensures var t := Tabs(v);
      |StackTo(t, s, d)| > 1 && StackTo(t, s, s.loc[d].parent) == StackTo(t, s, d)[..|StackTo(t, s, d)| - 1]
  {
    StackTop(Tabs(v), s, d);
  }

  lemma AgainPlace(v: Volume, s: Shape, p: Place, token: seq<Byte>)
    requires Consistent(v, s) && Placed(v, s, p) && Fits(token) && RootAgain(p.dir, token)
    requires Top(StackAt(v, s, p)).cluster == p.dir && p.dir in View(v, s)
    ensures Placed(v, s, Place(ROOT, p.extra + 1))
    ensures CdStep(View(v, s), StackAt(v, s, p), token) == Some(StackAt(v, s, Place(ROOT, p.extra + 1)))
  {
    RootPlace(v, s, p.extra);
    RootPlace(v, s, p.extra + 1);
  }

  lemma NamePlace(v: Volume, s: Shape, p: Place, token: seq<Byte>)
    requires Consistent(v, s) && Placed(v, s, p)
    requires Fits(token) && !RootAgain(p.dir, token) && token != UP && token != STAY
    requires Top(StackAt(v, s, p)).cluster == p.dir && p.dir in View(v, s)
    ensures Follows(v, s, p, token)
  {
    var k := TokenKey(token);
    NameSteps(View(v, s), StackAt(v, s, p), token);
    if k.ext == NO_EXT && k in View(v, s)[p.dir] && View(v, s)[p.dir][k].DirItem? {
      PlaceDown(v, s, p, Elem(View(v, s)[p.dir][k].id, k.name));
    }
  }

  /** `cd` follows the token exactly when the place has that step, and then leaves the new place's stack. */
  ghost predicate Follows(v: Volume, s: Shape, p: Place, token: seq<Byte>)
    requires Consistent(v, s) && Placed(v, s, p) && Fits(token) && Top(StackAt(v, s, p)).cluster in View(v, s)
  {
    var step, next := CdStep(View(v, s), StackAt(v, s, p), token), PlaceStep(v, s, p, token);
    && (step.Some? <==> next.Some?)
    && (step.Some? ==> Placed(v, s, next.value) && step.value == StackAt(v, s, next.value))
  }

  /** Every token is followed exactly as the place's own step says. */
  lemma StepPlaces(v: Volume, s: Shape, p: Place, token: seq<Byte>)
    requires Consistent(v, s) && Placed(v, s, p) && Fits(token)
    ensures Top(StackAt(v, s, p)).cluster in View(v, s) && Follows(v, s, p, token)
  {
    PlaceTop(v, s, p);
    if token == UP {
      UpPlace(v, s, p);
    } else if RootAgain(p.dir, token) {
      AgainPlace(v, s, p, token);
    } else if token != STAY {
      NamePlace(v, s, p, token);
    }
  }

  lemma ResolveNext(a: AbsFs, st: seq<Elem>, tokens: seq<seq<Byte>>)
    requires tokens != [] && (forall i :: 0 <= i < |tokens| ==> Fits(tokens[i])) && |st| > 0 && Top(st).cluster in a
    ensures var next := CdStep(a, st, tokens[0]);
      Resolve(a, st, tokens) == if next.Some? then Resolve(a, next.value, tokens[1..]) else None
  {
  }

  lemma PlaceWalkNext(v: Volume, s: Shape, p: Place, tokens: seq<seq<Byte>>)
    requires tokens != [] && forall i :: 0 <= i < |tokens| ==> Fits(tokens[i])
    ensures var next := PlaceStep(v, s, p, tokens[0]);
      PlaceWalk(v, s, p, tokens) == if next.Some? then PlaceWalk(v, s, next.value, tokens[1..]) else None
  {
  }

  /**
   Every path, whatever its tokens: `cd` succeeds if and only if the walk that counts the extra
   copies of the root does, and leaves that many copies below the stack of the directory reached.
   */
  lemma {:induction false} ResolvePlaces(v: Volume, s: Shape, p: Place, tokens: seq<seq<Byte>>)
    requires Consistent(v, s) && Placed(v, s, p) && forall i :: 0 <= i < |tokens| ==> Fits(tokens[i])
    ensures var end, q := Resolve(View(v, s), StackAt(v, s, p), tokens), PlaceWalk(v, s, p, tokens);
      && (end.Some? <==> q.Some?)
      && (end.Some? ==> Placed(v, s, q.value) && end.value == StackAt(v, s, q.value))
    decreases |tokens|
  {
    if tokens != [] {
      var next := StepsAlike(v, s, p, tokens);
      if next.Some? { ResolvePlaces(v, s, next.value, tokens[1..]); }
    }
  }

  /** The first step of a path, in both readings. */
  lemma StepsAlike(v: Volume, s: Shape, p: Place, tokens: seq<seq<Byte>>) returns (next: Option<Place>)
    requires Consistent(v, s) && Placed(v, s, p) && tokens != [] && forall i :: 0 <= i < |tokens| ==> Fits(tokens[i])
    ensures next.None? ==>
      Resolve(View(v, s), StackAt(v, s, p), tokens) == None && PlaceWalk(v, s, p, tokens) == None
    ensures next.Some? ==>
      && Placed(v, s, next.value) && PlaceWalk(v, s, p, tokens) == PlaceWalk(v, s, next.value, tokens[1..])
      && Resolve(View(v, s), StackAt(v, s, p), tokens) ==
           Resolve(View(v, s), StackAt(v, s, next.value), tokens[1..])
  {
    next := PlaceStep(v, s, p, tokens[0]);
    StepPlaces(v, s, p, tokens[0]);
    ResolveNext(View(v, s), StackAt(v, s, p), tokens);
    PlaceWalkNext(v, s, p, tokens);
  }

  /** Every stack that `cd` can leave is a place's. */
  lemma {:induction false} PathPlace(v: Volume, s: Shape, st: seq<Elem>) returns (p: Place)
    requires Consistent(v, s) && PathOk(View(v, s), st)
    ensures Placed(v, s, p) && st == StackAt(v, s, p)
    decreases |st|
  {
    var n := |st| - 1;
    if n == 0 {
      RootPlace(v, s, 0);
      p := Place(ROOT, 0);
    } else {
      LastOfPath(View(v, s), st);
      var q := PathPlace(v, s, st[..n]);
      PlaceTop(v, s, q);
      p := NextPlace(v, s, q, st[n - 1], st[n]);
    }
  }

  /** A longer path is a shorter one and one more element that may follow its last. */
  lemma LastOfPath(a: AbsFs, st: seq<Elem>)
    requires PathOk(a, st) && |st| > 1
    ensures var n := |st| - 1;
      && PathOk(a, st[..n]) && Top(st[..n]) == st[n - 1] && st == st[..n] + [st[n]]
      && (ChildOf(a, st[n - 1], st[n]) || (st[n - 1].cluster == ROOT && st[n] == ROOT_ELEM))
  {
  }

  /** A place for one more element: a child of the directory, or the root once more. */
  lemma NextPlace(v: Volume, s: Shape, q: Place, x: Elem, y: Elem) returns (p: Place)
    requires Consistent(v, s) && Placed(v, s, q) && x.cluster == q.dir
    requires ChildOf(View(v, s), x, y) || (x.cluster == ROOT && y == ROOT_ELEM)
    ensures Placed(v, s, p) && StackAt(v, s, p) == StackAt(v, s, q) + [y]
  {
    if ChildOf(View(v, s), x, y) {
      PlaceDown(v, s, q, y);
      p := Place(y.cluster, q.extra);
    } else {
      RootPlace(v, s, q.extra);
      RootPlace(v, s, q.extra + 1);
      p := Place(ROOT, q.extra + 1);
    }
  }

  /** A path that meets the root's name in the root leads nowhere in the tree. */
  lemma {:induction false} RootAgainIsLost(v: Volume, s: Shape, d: nat, tokens: seq<seq<Byte>>)
    requires Consistent(v, s) && forall i :: 0 <= i < |tokens| ==> Fits(tokens[i])
    requires !NeverRootAgain(v, s, d, tokens)
    ensures Walk(v, s, d, tokens) == None
    decreases |tokens|
  {
    if RootAgain(d, tokens[0]) {
      NoRootInRoot(v, s);
    } else {
      RootAgainIsLost(v, s, WalkStep(v, s, d, tokens[0]).value, tokens[1..]);
    }
  }

  lemma NoRootInRoot(v: Volume, s: Shape)
    requires Consistent(v, s)
    ensures ROOT in View(v, s) && (ROOT_KEY in View(v, s)[ROOT] ==> View(v, s)[ROOT][ROOT_KEY].FileItem?)
  {
    ViewKeys(v, s);
    if ROOT_KEY in View(v, s)[ROOT] && View(v, s)[ROOT][ROOT_KEY].DirItem? {
      RootPlace(v, s, 0);
      PlaceDown(v, s, Place(ROOT, 0), Elem(View(v, s)[ROOT][ROOT_KEY].id, ROOT_NAME));
    }
  }

  /** A true path is the stack of a place without extra roots, so `cd` follows it as `PlaceWalk` does. */
  lemma {:induction false} TruePlace(v: Volume, s: Shape, st: seq<Elem>, tokens: seq<seq<Byte>>)
    requires Consistent(v, s) && TruePath(View(v, s), st) && forall i :: 0 <= i < |tokens| ==> Fits(tokens[i])
    ensures Resolve(View(v, s), st, tokens).Some? <==> PlaceWalk(v, s, Place(Top(st).cluster, 0), tokens).Some?
  {
    var p := Place(Top(st).cluster, 0);
    TruePathIsStack(v, s, st);
    assert st == StackAt(v, s, p);
    ResolvePlaces(v, s, p, tokens);
  }

  /** So `cd` and the tree agree on a path exactly when it does not meet that name there, or fails later anyway. */
  lemma {:induction false} ResolveAgrees(v: Volume, s: Shape, st: seq<Elem>, tokens: seq<seq<Byte>>)
    requires Consistent(v, s) && TruePath(View(v, s), st) && forall i :: 0 <= i < |tokens| ==> Fits(tokens[i])
    ensures var end, d := Resolve(View(v, s), st, tokens), Walk(v, s, Top(st).cluster, tokens);
      (end.Some? <==> d.Some?) <==>
        NeverRootAgain(v, s, Top(st).cluster, tokens) || PlaceWalk(v, s, Place(Top(st).cluster, 0), tokens).None?
  {
    TruePlace(v, s, st, tokens);
    if NeverRootAgain(v, s, Top(st).cluster, tokens) {
      ResolveWalks(v, s, st, tokens);
    } else {
      RootAgainIsLost(v, s, Top(st).cluster, tokens);
    }
  }

  // ----- how deep a stack gets

  /** How many steps a directory lies below the root. */
  ghost function Depth(t: Tables, s: Shape, d: nat): nat
    requires TreeOk(t, s) && d in s.rank
    decreases s.rank[d]
  {
    if d == ROOT then 0
    else
      assert DirOk(t, s, d) && HeadOk(t, s, d);
      1 + Depth(t, s, s.loc[d].parent)
  }

  lemma {:induction false} StackDepth(t: Tables, s: Shape, d: nat)
    requires TreeOk(t, s) && d in s.rank
    ensures |StackTo(t, s, d)| == Depth(t, s, d) + 1
    decreases s.rank[d]
  {
    if d != ROOT {
      assert DirOk(t, s, d) && HeadOk(t, s, d);
      StackDepth(t, s, s.loc[d].parent);
    }
  }

  /** The places on the way along a path, the last one included. */
  ghost predicate PlacesShallow(v: Volume, s: Shape, p: Place, tokens: seq<seq<Byte>>)
    requires TreeOk(Tabs(v), s) && forall i :: 0 <= i < |tokens| ==> Fits(tokens[i])
    decreases |tokens|
  {
    tokens != [] ==>
      match PlaceStep(v, s, p, tokens[0])
      case None => true
      case Some(q) => q.dir in s.rank ==>
        q.extra + Depth(Tabs(v), s, q.dir) + 1 <= STACK_CAPACITY && PlacesShallow(v, s, q, tokens[1..])
  }

  /**
   The stack never grows past its places if and only if nowhere on the way the depth of the
   directory and the extra roots below it make more than 127.
   */
  lemma {:induction false} ShallowExact(v: Volume, s: Shape, p: Place, tokens: seq<seq<Byte>>)
    requires Consistent(v, s) && Placed(v, s, p) && forall i :: 0 <= i < |tokens| ==> Fits(tokens[i])
    ensures StaysShallow(View(v, s), StackAt(v, s, p), tokens) <==> PlacesShallow(v, s, p, tokens)
    decreases |tokens|
  {
    if tokens != [] {
      StepPlaces(v, s, p, tokens[0]);
      ShallowNext(View(v, s), StackAt(v, s, p), tokens);
      var next := PlaceStep(v, s, p, tokens[0]);
      if next.Some? {
        PlaceDepth(v, s, next.value);
        ShallowExact(v, s, next.value, tokens[1..]);
      }
    }
  }

  lemma PlaceDepth(v: Volume, s: Shape, p: Place)
    requires Consistent(v, s) && Placed(v, s, p)
    ensures |StackAt(v, s, p)| == p.extra + Depth(Tabs(v), s, p.dir) + 1
  {
    StackDepth(Tabs(v), s, p.dir);
  }

  lemma ShallowNext(a: AbsFs, st: seq<Elem>, tokens: seq<seq<Byte>>)
    requires tokens != [] && (forall i :: 0 <= i < |tokens| ==> Fits(tokens[i])) && |st| > 0 && Top(st).cluster in a
    ensures var next := CdStep(a, st, tokens[0]);
      StaysShallow(a, st, tokens) <==>
        (next.Some? ==> |next.value| <= STACK_CAPACITY && StaysShallow(a, next.value, tokens[1..]))
  {
  }

  lemma RootStep(a: AbsFs, n: nat, token: seq<Byte>)
    requires ROOT in a && Fits(token) && RootAgain(ROOT, token)
    ensures Top(Roots(n + 1)).cluster == ROOT && CdStep(a, Roots(n + 1), token) == Some(Roots(n + 2))
  {
    assert Roots(n + 2) == Roots(n + 1) + [ROOT_ELEM];
  }

  /** Following the name "root" in the root again and again piles up as many roots, and 128 are too many. */
  lemma {:induction false} RootsPileUp(a: AbsFs, n: nat, tokens: seq<seq<Byte>>)
    requires ROOT in a && forall i :: 0 <= i < |tokens| ==> tokens[i] == [0x72, 0x6F, 0x6F, 0x74]
    ensures forall i :: 0 <= i < |tokens| ==> Fits(tokens[i])
    ensures Resolve(a, Roots(n + 1), tokens) == Some(Roots(n + 1 + |tokens|))
    ensures StaysShallow(a, Roots(n + 1), tokens) <==> tokens == [] || n + 1 + |tokens| <= 128
    decreases |tokens|
  {
    PlainName([0x72, 0x6F, 0x6F, 0x74]);
    NoDots([0x72, 0x6F, 0x6F, 0x74]);
    if tokens != [] {
      RootStep(a, n, tokens[0]);
      RootsPileUp(a, n + 1, tokens[1..]);
    }
  }
}
