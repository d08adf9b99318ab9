/** Splitting paths into tokens, and file names into name and extension. */
module ShellNames {
  import opened Words
  import opened FatLayout
  import opened Tokens
  import opened ShellCd

  /** Splits a file name at its first dot into the two zeroed buffers. */
  method ParseFileName(command: array2<Byte>, row: nat, name: array<Byte>, ext: array<Byte>, ghost text: seq<Byte>)
    requires HoldsToken(command, row, text) && Fits(text)
    requires name.Length == 9 && ext.Length == 4 && name != ext
    requires name[..] == Padded([], 9) && ext[..] == Padded([], 4)
    modifies name, ext
    ensures name[..] == Padded(NamePart(text), 9) && ext[..] == Padded(ExtPart(text), 4)
  {
    RowText(command, row, text);
    ghost var dot := Stop(text, [DOT], 0);
    var i := 0;
    while command[row, i] != DOT && command[row, i] != 0
      invariant i <= dot && Stop(text, [DOT], i) == dot
      invariant name[..] == Padded(text[..i], 9) && ext[..] == Padded([], 4)
      decreases dot - i
    {
      name[i] := command[row, i];
      i := i + 1;
      assert text[..i] == text[..i - 1] + [text[i - 1]];
    }
    name[i] := 0;
    if command[row, i] == DOT {
      ParseExtension(command, row, i + 1, ext, text);
    }
  }

  /** The part of `parse_file_name` after the dot. */
  method ParseExtension(command: array2<Byte>, row: nat, from: nat, ext: array<Byte>, ghost text: seq<Byte>)
    requires HoldsToken(command, row, text) && from <= |text| && |text| - from <= 3
    requires ext.Length == 4 && ext[..] == Padded([], 4)
    modifies ext
    ensures ext[..] == Padded(text[from..], 4)
  {
    RowText(command, row, text);
    var i, j: nat := from, 0;
    while command[row, i] != 0
      invariant from <= i <= |text| && j == i - from
      invariant ext[..] == Padded(text[from..i], 4)
      decreases |text| - i
    {
      ext[j] := command[row, i];
      i := i + 1;
      j := j + 1;
      assert text[from..i] == text[from..i - 1] + [text[i - 1]];
    }
    ext[j] := 0;
  }

  /** The row holds the token, zero-terminated. */
  ghost predicate HoldsToken(command: array2<Byte>, row: nat, text: seq<Byte>)
    reads command
  {
    && row < command.Length0 && command.Length1 == ROW_SIZE && |text| < ROW_SIZE
    && Row(command, row) == Padded(text, ROW_SIZE) && forall k :: 0 <= k < |text| ==> text[k] != 0
  }

  lemma RowText(command: array2<Byte>, row: nat, text: seq<Byte>)
    requires HoldsToken(command, row, text)
    ensures command[row, |text|] == 0
    ensures forall k :: 0 <= k < |text| ==> command[row, k] == text[k] && text[k] != 0
  {
    var r := Row(command, row);
    assert r[|text|] == 0;
    forall k | 0 <= k < |text|
      ensures command[row, k] == text[k]
    {
      assert r[k] == text[k];
    }
  }

  method RowLen(command: array2<Byte>, row: nat, ghost text: seq<Byte>) returns (n: nat)
    requires HoldsToken(command, row, text)
    ensures n == |text|
  {
    RowText(command, row, text);
    n := 0;
    while command[row, n] != 0
      invariant n <= |text|
      decreases |text| - n
    {
      n := n + 1;
    }
  }

  /** What kind of token a row holds, and its key otherwise. */
  method ParseToken(command: array2<Byte>, row: nat, ghost text: seq<Byte>) returns (up: bool, stay: bool, key: Key)
    requires HoldsToken(command, row, text) && Fits(text)
    ensures up == (text == UP) && stay == (text == STAY) && key == TokenKey(text)
  {
    RowText(command, row, text);
    var n := RowLen(command, row, text);
    up := n == 2 && command[row, 0] == DOT && command[row, 1] == DOT;
    stay := n == 1 && command[row, 0] == DOT;
    var name := new Byte[9](_ => 0);
    var ext := new Byte[4](_ => 0);
    assert name[..] == Padded([], 9) && ext[..] == Padded([], 4);
    ParseFileName(command, row, name, ext, text);
    key := RawKey.Key(name[..8], ext[..3]);
    assert name[..8] == Padded(NamePart(text), 9)[..8] && ext[..3] == Padded(ExtPart(text), 4)[..3];
  }

  /** Splits the path at its slashes. */
  method ParsePath(path: array<Byte>, tokenizer: Tokenizer, ghost text: seq<Byte>)
    returns (paths: array2<Byte>, count: nat)
    requires IsText(path[..], 0, text) && |Split(text, [SLASH])| <= ROWS
    requires forall i :: 0 <= i < |Split(text, [SLASH])| ==> |Split(text, [SLASH])[i]| < ROW_SIZE
    modifies tokenizer, path
    ensures fresh(paths) && count == |Split(text, [SLASH])|
    ensures forall i :: 0 <= i < count ==> HoldsToken(paths, i, Split(text, [SLASH])[i])
  {
    paths := new Byte[ROWS, ROW_SIZE];
    count := tokenizer.Parse(path, paths, [SLASH], text);
    SplitNonzero(text, [SLASH], 0);
  }

  lemma {:induction false} SplitNonzero(text: seq<Byte>, delim: seq<Byte>, i: nat)
    requires i <= |text| && forall k :: 0 <= k < |text| ==> text[k] != 0
    ensures forall n, k :: 0 <= n < |SplitFrom(text, delim, i)| && 0 <= k < |SplitFrom(text, delim, i)[n]| ==>
      SplitFrom(text, delim, i)[n][k] != 0
    decreases |text| - i
  {
    var e := Stop(text, delim, i);
    if e < |text| { SplitNonzero(text, delim, e + 1); }
  }
}
