/** The `cd` command. */
module ShellCommands {
  import opened Words
  import opened FatLayout
  import opened Volumes
  import opened FatOps
  import opened FatView
  import opened FatDriver
  import opened Tokens
  import opened ShellPaths
  import opened ShellCd
  import opened ShellNames
  import opened ShellLaws
  import opened DirStack

  /** Follows one token of a path: one turn of the loop of `cd`. */
  method Follow(d: Driver, command: array2<Byte>, row: nat, dts: DirTableStack,
                ghost token: seq<Byte>, ghost v: Volume, ghost s: Shape)
    returns (ok: bool)
    requires Mounted(d, v, s) && HoldsToken(command, row, token) && Fits(token)
    requires dts.Valid() && PathOk(View(v, s), dts.Contents()) && Top(dts.Contents()).cluster in View(v, s)
    requires var next := CdStep(View(v, s), dts.Contents(), token); next.Some? ==> |next.value| <= STACK_CAPACITY
    modifies dts, dts.element
    ensures dts.Valid() && ok == CdStep(View(v, s), old(dts.Contents()), token).Some?
    ensures ok ==> dts.Contents() == CdStep(View(v, s), old(dts.Contents()), token).value
  {
    ghost var st := dts.Contents();
    PeekReads(v, s, st);
    PathTops(v, s, st);
    var cwd := dts.Peek(d, BlankTable(), v, s);
    var current := cwd[0].ClusterNo();
    var up, stay, key := ParseToken(command, row, token);
    if up {
      ok := dts.Pop();
    } else if stay {
      ok := true;
    } else if key.ext != NO_EXT {
      ok := false;
    } else {
      ok := Enter(d, key, current, cwd, dts, token, v, s);
    }
  }

  /** Reads the directory named by the token and pushes it. */
  method Enter(d: Driver, key: Key, current: Word, table: Table, dts: DirTableStack,
               ghost token: seq<Byte>, ghost v: Volume, ghost s: Shape)
    returns (ok: bool)
    requires Mounted(d, v, s) && Fits(token) && token != UP && token != STAY
    requires key == TokenKey(token) && key.ext == NO_EXT
    requires dts.Valid() && PathOk(View(v, s), dts.Contents()) && Top(dts.Contents()).cluster in View(v, s)
    requires current == Top(dts.Contents()).cluster
    requires var next := CdStep(View(v, s), dts.Contents(), token); next.Some? ==> |next.value| <= STACK_CAPACITY
    modifies dts, dts.element
    ensures dts.Valid() && ok == CdStep(View(v, s), old(dts.Contents()), token).Some?
    ensures ok ==> dts.Contents() == CdStep(View(v, s), old(dts.Contents()), token).value
  {
    EnterReads(v, s, dts.Contents(), token);
    var code, cwd := SysReadDir(d, Request(key, current, CLUSTER_SIZE), table, v, s);
    if code != 0 {
      return false;
    }
    dts.Push(cwd);
    return true;
  }

  /**
   Changes the directory: all tokens of the path are followed on a copy of the stack, which
   replaces the stack only when every one of them can be.
   */
  method Cd(d: Driver, path: array<Byte>, dts: DirTableStack, tokenizer: Tokenizer,
            ghost text: seq<Byte>, ghost v: Volume, ghost s: Shape)
    returns (ok: bool)
    requires Mounted(d, v, s) && dts.Valid() && PathOk(View(v, s), dts.Contents())
    requires IsText(path[..], 0, text) && path != d.image.bytes
    requires |Split(text, [SLASH])| <= 12
    requires forall i :: 0 <= i < |Split(text, [SLASH])| ==>
      |Split(text, [SLASH])[i]| < 128 && Fits(Split(text, [SLASH])[i])
    requires StaysShallow(View(v, s), dts.Contents(), Split(text, [SLASH]))
    modifies dts, dts.element, tokenizer, path
    ensures dts.Valid() && ok == Resolve(View(v, s), old(dts.Contents()), Split(text, [SLASH])).Some?
    ensures ok ==> dts.Contents() == Resolve(View(v, s), old(dts.Contents()), Split(text, [SLASH])).value
    ensures !ok ==> dts.Contents() == old(dts.Contents())
    ensures text == [0x2E, 0x2E] ==>
      && ok == (|old(dts.Contents())| > 1)
      && (ok ==> dts.Contents() == old(dts.Contents())[..|old(dts.Contents())| - 1])
    ensures text == [0x2E] ==> ok && dts.Contents() == old(dts.Contents())
  {
    PathTops(v, s, dts.Contents());
    ViewKeys(v, s);
    DotPaths(View(v, s), dts.Contents());
    var paths, count := ParsePath(path, tokenizer, text);
    ok := FollowOnCopy(d, paths, count, dts, Split(text, [SLASH]), v, s);
  }

  /** Follows the tokens on a copy of the stack, and takes the copy over when all were followed. */
  method FollowOnCopy(d: Driver, paths: array2<Byte>, count: nat, dts: DirTableStack,
                      ghost tokens: seq<seq<Byte>>, ghost v: Volume, ghost s: Shape)
    returns (ok: bool)
    requires Mounted(d, v, s) && dts.Valid() && PathOk(View(v, s), dts.Contents())
    requires count == |tokens| && forall i :: 0 <= i < count ==> HoldsToken(paths, i, tokens[i]) && Fits(tokens[i])
    requires StaysShallow(View(v, s), dts.Contents(), tokens)
    modifies dts, dts.element
    ensures dts.Valid() && ok == Resolve(View(v, s), old(dts.Contents()), tokens).Some?
    ensures dts.Contents() == if ok then Resolve(View(v, s), old(dts.Contents()), tokens).value else old(dts.Contents())
  {
    var copy := Copied(dts);
    ok := FollowAll(d, paths, count, copy, tokens, v, s);
    if ok { dts.DeepCopyFrom(copy); }
  }

  /** The loop of `cd` over the tokens of the path. */
  method FollowAll(d: Driver, paths: array2<Byte>, count: nat, dts: DirTableStack,
                   ghost tokens: seq<seq<Byte>>, ghost v: Volume, ghost s: Shape)
    returns (ok: bool)
    requires Mounted(d, v, s) && dts.Valid() && PathOk(View(v, s), dts.Contents())
    requires count == |tokens| && forall i :: 0 <= i < count ==> HoldsToken(paths, i, tokens[i]) && Fits(tokens[i])
    requires StaysShallow(View(v, s), dts.Contents(), tokens)
    modifies dts, dts.element
    ensures dts.Valid() && ok == Resolve(View(v, s), old(dts.Contents()), tokens).Some?
    ensures ok ==> dts.Contents() == Resolve(View(v, s), old(dts.Contents()), tokens).value
    ensures ok ==> |dts.Contents()| > 0
  {
    ghost var a, st := View(v, s), dts.Contents();
    for i := 0 to count
      invariant dts.Valid() && PathOk(a, dts.Contents())
      invariant Resolve(a, dts.Contents(), tokens[i..]) == Resolve(a, st, tokens)
      invariant StaysShallow(a, dts.Contents(), tokens[i..])
    {
      FollowStep(v, s, dts.Contents(), tokens, i);
      ok := Follow(d, paths, i, dts, tokens[i], v, s);
      if !ok {
        return;
      }
    }
    ok := true;
  }
}
