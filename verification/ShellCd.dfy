/** What `cd` makes of a path, token by token, and how that relates to walking the tree. */
module ShellCd {
  import opened Words
  import opened FatLayout
  import opened Volumes
  import opened FatOps
  import opened AbsFiles
  import opened FatTree
  import opened FatView
  import opened FatRead
  import opened Tokens
  import opened ShellPaths

  const DOT: Byte := 0x2E
  const SLASH: Byte := 0x2F
  const STAY: seq<Byte> := [DOT]
  const UP: seq<Byte> := [DOT, DOT]

  datatype Option<T> = Some(value: T) | None

  // ----- names

  /** What comes before the first dot of a file name. */
  function NamePart(token: seq<Byte>): seq<Byte> {
    token[..Stop(token, [DOT], 0)]
  }

  /** What comes after it. */
  function ExtPart(token: seq<Byte>): seq<Byte> {
    var i := Stop(token, [DOT], 0);
    if i == |token| then [] else token[i + 1..]
  }

  /** Tokens whose parts fit the buffers they are parsed into. */
  predicate Fits(token: seq<Byte>) {
    |NamePart(token)| <= 8 && |ExtPart(token)| <= 3
  }

  function TokenKey(token: seq<Byte>): Key
    requires Fits(token)
  {
    RawKey.Key(Padded(NamePart(token), 8), Padded(ExtPart(token), 3))
  }

  // ----- one step and a whole path

  /** The stack after one token; none when the token cannot be followed. */
  function CdStep(a: AbsFs, st: seq<Elem>, token: seq<Byte>): Option<seq<Elem>>
    requires Fits(token) && |st| > 0 && Top(st).cluster in a
  {
    if token == UP then (if |st| > 1 then Some(st[..|st| - 1]) else None)
    else if token == STAY then Some(st)
    else
      var k, c := TokenKey(token), Top(st).cluster;
      if k.ext != NO_EXT || AbsReadDir(a, Request(k, c, CLUSTER_SIZE)) != 0 then None
      else if c == ROOT && k == ROOT_KEY then Some(st + [ROOT_ELEM])
      else Some(st + [Elem(a[c][k].id, k.name)])
  }

  /** The stack after a path; none as soon as one token cannot be followed. */
  ghost function Resolve(a: AbsFs, st: seq<Elem>, tokens: seq<seq<Byte>>): Option<seq<Elem>>
    requires forall i :: 0 <= i < |tokens| ==> Fits(tokens[i])
    decreases |tokens|
  {
    if tokens == [] then Some(st)
    else if !(|st| > 0 && Top(st).cluster in a) then None
    else match CdStep(a, st, tokens[0])
      case None => None
      case Some(st') => Resolve(a, st', tokens[1..])
  }

  /** Every step leaves a path, so every open directory can be looked at. */
  lemma StepKeepsPath(v: Volume, s: Shape, st: seq<Elem>, token: seq<Byte>)
    requires Consistent(v, s) && PathOk(View(v, s), st) && Fits(token)
    ensures Top(st).cluster in View(v, s)
    ensures var next := CdStep(View(v, s), st, token); next.Some? ==> PathOk(View(v, s), next.value)
  {
    PathTops(v, s, st);
    ViewKeys(v, s);
    StepStaysOnPath(View(v, s), st, token);
  }

  lemma StepStaysOnPath(a: AbsFs, st: seq<Elem>, token: seq<Byte>)
    requires PathOk(a, st) && Top(st).cluster in a && Fits(token)
    ensures var next := CdStep(a, st, token); next.Some? ==> PathOk(a, next.value)
  {
    var next := CdStep(a, st, token);
    if token != UP && token != STAY && next.Some? { PathSnoc(a, st, Top(next.value)); }
  }

  lemma PathSnoc(a: AbsFs, st: seq<Elem>, y: Elem)
    requires PathOk(a, st) && (ChildOf(a, Top(st), y) || (Top(st).cluster == ROOT && y == ROOT_ELEM))
    ensures PathOk(a, st + [y])
  {
    var st' := st + [y];
    forall i | 0 <= i < |st'| - 1
      ensures ChildOf(a, st'[i], st'[i + 1]) || (st'[i].cluster == ROOT && st'[i + 1] == ROOT_ELEM)
    {
      assert i < |st| - 1 ==> st'[i] == st[i] && st'[i + 1] == st[i + 1];
    }
  }

  /** A path that is followed to its end leaves a path. */
  lemma {:induction false} ResolveKeepsPath(v: Volume, s: Shape, st: seq<Elem>, tokens: seq<seq<Byte>>)
    requires Consistent(v, s) && PathOk(View(v, s), st) && forall i :: 0 <= i < |tokens| ==> Fits(tokens[i])
    ensures var end := Resolve(View(v, s), st, tokens); end.Some? ==> PathOk(View(v, s), end.value)
    decreases |tokens|
  {
    if tokens != [] {
      StepKeepsPath(v, s, st, tokens[0]);
      var next := CdStep(View(v, s), st, tokens[0]);
      if next.Some? { ResolveKeepsPath(v, s, next.value, tokens[1..]); }
    }
  }

  // ----- the tree

  /** One step in the tree itself: up to the parent, or down to a directory of that name. */
  ghost function WalkStep(v: Volume, s: Shape, d: nat, token: seq<Byte>): Option<nat>
    requires Fits(token)
  {
    var a := View(v, s);
    if token == UP then (if d != ROOT && d in s.loc then Some(s.loc[d].parent) else None)
    else if token == STAY then Some(d)
    else
      var k := TokenKey(token);
      if k.ext == NO_EXT && d in a && k in a[d] && a[d][k].DirItem? then
        var id: nat := a[d][k].id;
        Some(id)
      else None
  }

  ghost function Walk(v: Volume, s: Shape, d: nat, tokens: seq<seq<Byte>>): Option<nat>
    requires forall i :: 0 <= i < |tokens| ==> Fits(tokens[i])
    decreases |tokens|
  {
    if tokens == [] then Some(d)
    else match WalkStep(v, s, d, tokens[0])
      case None => None
      case Some(d') => Walk(v, s, d', tokens[1..])
  }

  /** The one token on which `cd` and the tree disagree: the root's name, in the root. */
  predicate RootAgain(d: nat, token: seq<Byte>)
    requires Fits(token)
  {
    d == ROOT && token != UP && token != STAY && TokenKey(token) == ROOT_KEY
  }

  /** A name is followed exactly to a directory of that name. */
  lemma NameSteps(a: AbsFs, st: seq<Elem>, token: seq<Byte>)
    requires Fits(token) && token != UP && token != STAY && |st| > 0 && Top(st).cluster in a
    requires !RootAgain(Top(st).cluster, token)
    ensures var k, dir := TokenKey(token), a[Top(st).cluster];
      CdStep(a, st, token) ==
        if k.ext == NO_EXT && k in dir && dir[k].DirItem? then Some(st + [Elem(dir[k].id, k.name)]) else None
  {
  }

  /** Elsewhere a step succeeds exactly when the tree has it, and then the stack is the new directory's. */
  lemma StepWalks(v: Volume, s: Shape, st: seq<Elem>, token: seq<Byte>)
    requires Consistent(v, s) && TruePath(View(v, s), st) && Fits(token) && !RootAgain(Top(st).cluster, token)
    ensures Top(st).cluster in View(v, s)
    ensures var next, d := CdStep(View(v, s), st, token), WalkStep(v, s, Top(st).cluster, token);
      && (next.Some? <==> d.Some?)
      && (next.Some? ==> TruePath(View(v, s), next.value) && Top(next.value).cluster == d.value)
  {
    PathTops(v, s, st);
    ViewKeys(v, s);
    if token == UP {
      StepUp(v, s, st);
    } else if token != STAY {
      NameWalks(v, s, st, token);
    }
  }

  lemma NameWalks(v: Volume, s: Shape, st: seq<Elem>, token: seq<Byte>)
    requires TruePath(View(v, s), st) && Top(st).cluster in View(v, s)
    requires Fits(token) && token != UP && token != STAY && !RootAgain(Top(st).cluster, token)
    ensures var next, d := CdStep(View(v, s), st, token), WalkStep(v, s, Top(st).cluster, token);
      && (next.Some? <==> d.Some?)
      && (next.Some? ==> TruePath(View(v, s), next.value) && Top(next.value).cluster == d.value)
  {
    var a, k, c := View(v, s), TokenKey(token), Top(st).cluster;
    NameSteps(a, st, token);
    if k.ext == NO_EXT && k in a[c] && a[c][k].DirItem? { TrueSnoc(a, st, Elem(a[c][k].id, k.name)); }
  }

  lemma TrueSnoc(a: AbsFs, st: seq<Elem>, y: Elem)
    requires TruePath(a, st) && ChildOf(a, Top(st), y)
    ensures TruePath(a, st + [y])
  {
  }

  lemma StepUp(v: Volume, s: Shape, st: seq<Elem>)
    requires Consistent(v, s) && TruePath(View(v, s), st)
    ensures |st| > 1 <==> Top(st).cluster != ROOT && Top(st).cluster in s.loc
    ensures |st| > 1 ==> st[|st| - 2].cluster == s.loc[Top(st).cluster].parent && TruePath(View(v, s), st[..|st| - 1])
  {
    if |st| > 1 {
      ChildEntry(v, s, st[|st| - 2], st[|st| - 1]);
    }
  }

  /** In the root, its own name is followed to a stack that is not a path in the tree. */
  lemma RootAgainStutters(v: Volume, s: Shape, st: seq<Elem>, token: seq<Byte>)
    requires Consistent(v, s) && TruePath(View(v, s), st) && Fits(token)
    ensures Top(st).cluster in View(v, s)
    ensures RootAgain(Top(st).cluster, token) <==>
      CdStep(View(v, s), st, token).Some? && !TruePath(View(v, s), CdStep(View(v, s), st, token).value)
  {
    PathTops(v, s, st);
    ViewKeys(v, s);
    if RootAgain(Top(st).cluster, token) {
      assert CdStep(View(v, s), st, token) == Some(st + [ROOT_ELEM]);
      StutterIsUntrue(v, s, st);
    } else {
      StepWalks(v, s, st, token);
    }
  }

  lemma StutterIsUntrue(v: Volume, s: Shape, st: seq<Elem>)
    requires Consistent(v, s) && |st| > 0 && Top(st).cluster == ROOT
    ensures !TruePath(View(v, s), st + [ROOT_ELEM])
  {
    var st' := st + [ROOT_ELEM];
    assert st'[|st| - 1] == Top(st) && st'[|st|] == ROOT_ELEM;
    if ChildOf(View(v, s), st'[|st| - 1], st'[|st|]) { ChildEntry(v, s, st'[|st| - 1], st'[|st|]); }
  }

  /** The walk in the tree does not meet the root's own name in the root. */
  ghost predicate NeverRootAgain(v: Volume, s: Shape, d: nat, tokens: seq<seq<Byte>>)
    requires forall i :: 0 <= i < |tokens| ==> Fits(tokens[i])
    decreases |tokens|
  {
    tokens == [] || (
      && !RootAgain(d, tokens[0])
      && var next := WalkStep(v, s, d, tokens[0]);
         next.Some? ==> NeverRootAgain(v, s, next.value, tokens[1..]))
  }

  /**
   A path that does not meet the root's name in the root resolves exactly as in the tree: `cd`
   succeeds if and only if the walk does, and leaves the stack that names the directory the walk
   ends in.
   */
  lemma {:induction false} ResolveWalks(v: Volume, s: Shape, st: seq<Elem>, tokens: seq<seq<Byte>>)
    requires Consistent(v, s) && TruePath(View(v, s), st) && forall i :: 0 <= i < |tokens| ==> Fits(tokens[i])
    requires NeverRootAgain(v, s, Top(st).cluster, tokens)
    ensures var end, d := Resolve(View(v, s), st, tokens), Walk(v, s, Top(st).cluster, tokens);
      && (end.Some? <==> d.Some?)
      && (end.Some? ==> d.value in s.rank && TruePath(View(v, s), end.value))
      && (end.Some? ==> end.value == StackTo(Tabs(v), s, d.value))
    decreases |tokens|
  {
    if tokens == [] {
      TruePathIsStack(v, s, st);
    } else {
      StepWalks(v, s, st, tokens[0]);
      var next := CdStep(View(v, s), st, tokens[0]);
      if next.Some? { ResolveWalks(v, s, next.value, tokens[1..]); }
    }
  }

  lemma NoZeroKey(v: Volume, s: Shape, d: nat)
    requires Consistent(v, s) && d in s.rank && d < DISK_CLUSTERS
    ensures ZERO_KEY !in View(v, s)[d]
  {
    TableShape(Tabs(v), s, d);
    KeyLookup(v, s, d, ZERO_KEY);
    LookupLive(Tabs(v)[d], ZERO_KEY);
  }

  lemma EmptyTokenStep(v: Volume, s: Shape, st: seq<Elem>)
    requires Consistent(v, s) && PathOk(View(v, s), st)
    ensures Top(st).cluster in View(v, s) && CdStep(View(v, s), st, []) == None
  {
    PathTops(v, s, st);
    ViewKeys(v, s);
    NoZeroKey(v, s, Top(st).cluster);
    EmptyNameFails(View(v, s), st);
  }

  lemma EmptyNameFails(a: AbsFs, st: seq<Elem>)
    requires |st| > 0 && Top(st).cluster in a && ZERO_KEY !in a[Top(st).cluster]
    ensures CdStep(a, st, []) == None
  {
    assert TokenKey([]) == ZERO_KEY;
  }

  /** An empty token is never followed, wherever it stands in the path. */
  lemma {:induction false} EmptyTokenFails(v: Volume, s: Shape, st: seq<Elem>, tokens: seq<seq<Byte>>)
    requires Consistent(v, s) && PathOk(View(v, s), st) && forall i :: 0 <= i < |tokens| ==> Fits(tokens[i])
    requires [] in tokens
    ensures Resolve(View(v, s), st, tokens) == None
    decreases |tokens|
  {
    if tokens[0] == [] {
      EmptyTokenStep(v, s, st);
    } else {
      StepKeepsPath(v, s, st, tokens[0]);
      var next := CdStep(View(v, s), st, tokens[0]);
      if next.Some? { EmptyTokenFails(v, s, next.value, tokens[1..]); }
    }
  }

  /** So a path that is empty, begins or ends with a slash, or has two in a row is always refused. */
  lemma SlashFails(v: Volume, s: Shape, st: seq<Elem>, text: seq<Byte>)
    requires Consistent(v, s) && PathOk(View(v, s), st) && HasGap(text, [SLASH], 0)
    requires forall i :: 0 <= i < |Split(text, [SLASH])| ==> Fits(Split(text, [SLASH])[i])
    ensures Resolve(View(v, s), st, Split(text, [SLASH])) == None
  {
    EmptyTokenExact(text, [SLASH], 0);
    EmptyTokenFails(v, s, st, Split(text, [SLASH]));
  }

  /** What entering a directory by name reads is the table of the directory the step leads to. */
  lemma EnterReads(v: Volume, s: Shape, st: seq<Elem>, token: seq<Byte>)
    requires Consistent(v, s) && PathOk(View(v, s), st) && Fits(token) && token != UP && token != STAY
    requires TokenKey(token).ext == NO_EXT
    ensures Top(st).cluster in s.rank && Top(st).cluster < DISK_CLUSTERS && Top(st).cluster in View(v, s)
    ensures var req, next := Request(TokenKey(token), Top(st).cluster, CLUSTER_SIZE), CdStep(View(v, s), st, token);
      && (ReadDirCode(v, req) == 0 <==> next.Some?)
      && (next.Some? ==> ReadDirCluster(v, req) < DISK_CLUSTERS)
      && (next.Some? ==> next.value == st + [SelfElem(Tabs(v)[ReadDirCluster(v, req)])])
  {
    PathTops(v, s, st);
    ViewKeys(v, s);
    var k, c := TokenKey(token), Top(st).cluster;
    ReadDirIsAbstract(v, s, Request(k, c, CLUSTER_SIZE));
    if ReadDirCode(v, Request(k, c, CLUSTER_SIZE)) == 0 {
      if c == ROOT && k == ROOT_KEY {
        StackTop(Tabs(v), s, ROOT);
      } else {
        ChildEntry(v, s, Top(st), Elem(View(v, s)[c][k].id, k.name));
      }
    }
  }

  /** No prefix of the path leads to a stack that is too deep. */
  ghost predicate StaysShallow(a: AbsFs, st: seq<Elem>, tokens: seq<seq<Byte>>)
    requires forall i :: 0 <= i < |tokens| ==> Fits(tokens[i])
    decreases |tokens|
  {
    tokens == [] || !(|st| > 0 && Top(st).cluster in a) ||
    match CdStep(a, st, tokens[0])
    case None => true
    case Some(next) => |next| <= STACK_CAPACITY && StaysShallow(a, next, tokens[1..])
  }

  /** One token of a path, seen in what is left of the path. */
  lemma FollowStep(v: Volume, s: Shape, st: seq<Elem>, tokens: seq<seq<Byte>>, i: nat)
    requires Consistent(v, s) && PathOk(View(v, s), st) && i < |tokens|
    requires forall j :: 0 <= j < |tokens| ==> Fits(tokens[j])
    requires StaysShallow(View(v, s), st, tokens[i..])
    ensures Top(st).cluster in View(v, s)
    ensures var a, next := View(v, s), CdStep(View(v, s), st, tokens[i]);
      match next
      case None => Resolve(a, st, tokens[i..]) == None
      case Some(st') =>
        && |st'| <= STACK_CAPACITY && PathOk(a, st') && StaysShallow(a, st', tokens[i + 1..])
        && Resolve(a, st, tokens[i..]) == Resolve(a, st', tokens[i + 1..])
  {
    StepKeepsPath(v, s, st, tokens[i]);
    assert tokens[i..][0] == tokens[i] && tokens[i..][1..] == tokens[i + 1..];
  }
}
