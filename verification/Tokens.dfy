/**
 Splitting a string at delimiters.  The tokenizer keeps its place between calls and cuts the
 string it is given by writing zeroes over the delimiters.
 */
module Tokens {
  import opened Words

  const ROWS := 12
  const ROW_SIZE := 128

  // ----- what splitting means

  /** First position from `i` on that holds a delimiter; the length when there is none. */
  function Stop(text: seq<Byte>, delim: seq<Byte>, i: nat): (e: nat)
    requires i <= |text|
    ensures i <= e <= |text|
    ensures e < |text| ==> text[e] in delim
    ensures forall k :: i <= k < e ==> text[k] !in delim
    decreases |text| - i
  {
    if i == |text| || text[i] in delim then i else Stop(text, delim, i + 1)
  }

  /** The tokens of the text from position `i` on, empty ones included. */
  function SplitFrom(text: seq<Byte>, delim: seq<Byte>, i: nat): (ts: seq<seq<Byte>>)
    requires i <= |text|
    ensures |ts| > 0
    decreases |text| - i
  {
    var e := Stop(text, delim, i);
    if e == |text| then [text[i..e]] else [text[i..e]] + SplitFrom(text, delim, e + 1)
  }

  function Split(text: seq<Byte>, delim: seq<Byte>): seq<seq<Byte>> {
    SplitFrom(text, delim, 0)
  }

  /** The delimiters of a text in the order in which they occur. */
  function Delimiters(text: seq<Byte>, delim: seq<Byte>): seq<Byte> {
    if text == [] then []
    else (if text[0] in delim then [text[0]] else []) + Delimiters(text[1..], delim)
  }

  /** Tokens joined by the given delimiters. */
  function Join(ts: seq<seq<Byte>>, ds: seq<Byte>): seq<Byte>
    requires |ts| == |ds| + 1
  {
    if ds == [] then ts[0] else ts[0] + [ds[0]] + Join(ts[1..], ds[1..])
  }

  predicate Undelimited(ts: seq<seq<Byte>>, delim: seq<Byte>) {
    forall i, k :: 0 <= i < |ts| && 0 <= k < |ts[i]| ==> ts[i][k] !in delim
  }

  lemma {:induction false} NoDelimiters(text: seq<Byte>, delim: seq<Byte>)
    requires forall k :: 0 <= k < |text| ==> text[k] !in delim
    ensures Delimiters(text, delim) == []
  {
    if text != [] { NoDelimiters(text[1..], delim); }
  }

  lemma {:induction false} FirstDelimiter(a: seq<Byte>, d: Byte, b: seq<Byte>, delim: seq<Byte>)
    requires d in delim && forall k :: 0 <= k < |a| ==> a[k] !in delim
    ensures Delimiters(a + [d] + b, delim) == [d] + Delimiters(b, delim)
  {
    var text := a + [d] + b;
    if a == [] {
      assert text[1..] == b;
    } else {
      assert text[1..] == a[1..] + [d] + b;
      FirstDelimiter(a[1..], d, b, delim);
    }
  }

  lemma JoinCons(t: seq<Byte>, d: Byte, ts: seq<seq<Byte>>, ds: seq<Byte>)
    requires |ts| == |ds| + 1
    ensures Join([t] + ts, [d] + ds) == t + [d] + Join(ts, ds)
  {
    assert ([t] + ts)[1..] == ts && ([d] + ds)[1..] == ds;
  }

  lemma PrependToken(a: seq<Byte>, d: Byte, b: seq<Byte>, delim: seq<Byte>, ts: seq<seq<Byte>>, ds: seq<Byte>)
    requires d in delim && forall k :: 0 <= k < |a| ==> a[k] !in delim
    requires |ts| == |ds| + 1 && ds == Delimiters(b, delim) && Join(ts, ds) == b
    ensures Delimiters(a + [d] + b, delim) == [d] + ds && Join([a] + ts, [d] + ds) == a + [d] + b
  {
    JoinCons(a, d, ts, ds);
    FirstDelimiter(a, d, b, delim);
  }

  /** No token holds a delimiter. */
  lemma {:induction false} SplitUndelimited(text: seq<Byte>, delim: seq<Byte>, i: nat)
    requires i <= |text|
    ensures Undelimited(SplitFrom(text, delim, i), delim)
    decreases |text| - i
  {
    var e := Stop(text, delim, i);
    if e < |text| { SplitUndelimited(text, delim, e + 1); }
  }

  lemma {:induction false} StopShift(a: seq<Byte>, text: seq<Byte>, delim: seq<Byte>, i: nat)
    requires i <= |text|
    ensures Stop(a + text, delim, |a| + i) == |a| + Stop(text, delim, i)
    decreases |text| - i
  {
    if i < |text| && text[i] !in delim { StopShift(a, text, delim, i + 1); }
  }

  lemma {:induction false} SplitShift(a: seq<Byte>, text: seq<Byte>, delim: seq<Byte>, i: nat)
    requires i <= |text|
    ensures SplitFrom(a + text, delim, |a| + i) == SplitFrom(text, delim, i)
    decreases |text| - i
  {
    StopShift(a, text, delim, i);
    var e := Stop(text, delim, i);
    assert (a + text)[|a| + i..|a| + e] == text[i..e];
    if e < |text| { SplitShift(a, text, delim, e + 1); }
  }

  lemma StopIs(text: seq<Byte>, delim: seq<Byte>, e: nat)
    requires e <= |text| && forall k :: 0 <= k < e ==> text[k] !in delim
    requires e < |text| ==> text[e] in delim
    ensures Stop(text, delim, 0) == e
  {
  }

  /** The first token of a text ends at its first delimiter. */
  lemma SplitCons(a: seq<Byte>, d: Byte, rest: seq<Byte>, delim: seq<Byte>)
    requires d in delim && forall k :: 0 <= k < |a| ==> a[k] !in delim
    ensures Split(a + [d] + rest, delim) == [a] + Split(rest, delim)
  {
    var text := a + [d] + rest;
    StopIs(text, delim, |a|);
    SplitShift(a + [d], rest, delim, 0);
    assert text[0..|a|] == a && text == (a + [d]) + rest;
  }

  lemma SplitOne(text: seq<Byte>, delim: seq<Byte>)
    requires forall k :: 0 <= k < |text| ==> text[k] !in delim
    ensures Split(text, delim) == [text]
  {
    StopIs(text, delim, |text|);
    assert text[0..|text|] == text;
  }

  /** Joining the tokens with the text's own delimiters gives the text back. */
  lemma {:induction false} SplitJoins(text: seq<Byte>, delim: seq<Byte>)
    ensures |Split(text, delim)| == |Delimiters(text, delim)| + 1
    ensures Join(Split(text, delim), Delimiters(text, delim)) == text
    decreases |text|
  {
    var e := Stop(text, delim, 0);
    if e == |text| {
      SplitOne(text, delim);
      NoDelimiters(text, delim);
    } else {
      var a, b := text[..e], text[e + 1..];
      SplitJoins(b, delim);
      assert text == a + [text[e]] + b;
      SplitCons(a, text[e], b, delim);
      PrependToken(a, text[e], b, delim, Split(b, delim), Delimiters(b, delim));
    }
  }

  /** Conversely, delimiter-free tokens joined by delimiters split into themselves. */
  lemma {:induction false} JoinSplits(ts: seq<seq<Byte>>, ds: seq<Byte>, delim: seq<Byte>)
    requires |ts| == |ds| + 1 && Undelimited(ts, delim) && forall k :: 0 <= k < |ds| ==> ds[k] in delim
    ensures Split(Join(ts, ds), delim) == ts && Delimiters(Join(ts, ds), delim) == ds
  {
    if ds == [] {
      SplitOne(ts[0], delim);
      NoDelimiters(ts[0], delim);
      assert ts == [ts[0]];
    } else {
      var tail := ts[1..];
      assert forall i :: 0 <= i < |tail| ==> tail[i] == ts[i + 1];
      JoinSplits(tail, ds[1..], delim);
      SplitCons(ts[0], ds[0], Join(tail, ds[1..]), delim);
      FirstDelimiter(ts[0], ds[0], Join(tail, ds[1..]), delim);
      assert ts == [ts[0]] + tail && ds == [ds[0]] + ds[1..];
    }
  }

  /** Whether the text from `i` on is empty, begins or ends with a delimiter, or has two in a row. */
  ghost predicate HasGap(text: seq<Byte>, delim: seq<Byte>, i: nat)
    requires i <= |text|
  {
    || i == |text| || text[i] in delim || text[|text| - 1] in delim
    || exists k :: i <= k < |text| - 1 && text[k] in delim && text[k + 1] in delim
  }

  /** Exactly then one of the tokens is empty. */
  lemma {:induction false} EmptyTokenExact(text: seq<Byte>, delim: seq<Byte>, i: nat)
    requires i <= |text|
    ensures [] in SplitFrom(text, delim, i) <==> HasGap(text, delim, i)
    decreases |text| - i
  {
    var e := Stop(text, delim, i);
    if e < |text| {
      EmptyFirst(text[i..e], SplitFrom(text, delim, e + 1));
      EmptyTokenExact(text, delim, e + 1);
      GapAfter(text, delim, i, e);
    } else {
      EmptyFirst(text[i..e], []);
    }
  }

  lemma EmptyFirst(t: seq<Byte>, ts: seq<seq<Byte>>)
    ensures [] in [t] + ts <==> |t| == 0 || [] in ts
  {
    if |t| == 0 {
      assert ([t] + ts)[0] == [];
    } else if [] in ts {
      assert [] in [t] + ts;
    }
  }

  lemma GapAfter(text: seq<Byte>, delim: seq<Byte>, i: nat, e: nat)
    requires i <= |text| && e == Stop(text, delim, i) < |text|
    ensures HasGap(text, delim, i) <==> e == i || HasGap(text, delim, e + 1)
  {
    if e + 1 < |text| && text[e + 1] in delim {
      assert text[e] in delim;
    }
    forall k | i <= k < |text| - 1 && text[k] in delim && text[k + 1] in delim
      ensures k >= e
    {
    }
  }

  // ----- C strings

  /** `text` is the string in `b` from position `i` on. */
  predicate IsText(b: seq<Byte>, i: nat, text: seq<Byte>) {
    && i + |text| < |b| && b[i..i + |text|] == text && b[i + |text|] == 0
    && forall k :: 0 <= k < |text| ==> text[k] != 0
  }

  /** The text with the delimiters before position `m` overwritten. */
  function Cut(text: seq<Byte>, delim: seq<Byte>, m: nat): (c: seq<Byte>)
    ensures |c| == |text|
  {
    seq(|text|, k requires 0 <= k < |text| => if k < m && text[k] in delim then 0 else text[k])
  }

  function Padded(s: seq<Byte>, n: nat): (p: seq<Byte>)
    requires |s| <= n
    ensures |p| == n
  {
    s + seq(n - |s|, _ => 0)
  }

  /** Once the tokenizer has cut a token off, it is a string of its own. */
  lemma TokenIsText(text: seq<Byte>, delim: seq<Byte>, i: nat, b: seq<Byte>)
    requires i <= |text| < |b| && b[..|text|] == Cut(text, delim, Stop(text, delim, i) + 1) && b[|text|] == 0
    requires forall k :: 0 <= k < |text| ==> text[k] != 0
    ensures IsText(b, i, text[i..Stop(text, delim, i)])
  {
    var e := Stop(text, delim, i);
    forall k | i <= k < e
      ensures b[k] == text[k]
    {
      assert b[k] == b[..|text|][k];
    }
    if e < |text| { assert b[e] == b[..|text|][e]; }
  }

  /** The first of the tokens that are left, and the ones after it. */
  lemma TokenSteps(text: seq<Byte>, delim: seq<Byte>, ts: seq<seq<Byte>>, n: nat, i: nat)
    requires i <= |text| && n <= |ts| && ts[n..] == SplitFrom(text, delim, i)
    ensures n < |ts|
    ensures var e := Stop(text, delim, i);
      && ts[n] == text[i..e]
      && (e < |text| ==> n + 1 < |ts| && ts[n + 1..] == SplitFrom(text, delim, e + 1))
      && (e == |text| ==> n + 1 == |ts| && Cut(text, delim, e + 1) == Cut(text, delim, |text|))
  {
    assert ts[n] == ts[n..][0];
    assert ts[n + 1..] == ts[n..][1..];
  }

  /** The next token as the string that the cut leaves, and what is left then. */
  lemma TokenReady(text: seq<Byte>, delim: seq<Byte>, ts: seq<seq<Byte>>, n: nat, i: nat, b: seq<Byte>)
    requires i <= |text| < |b| && n <= |ts| && ts[n..] == SplitFrom(text, delim, i)
    requires b[..|text|] == Cut(text, delim, Stop(text, delim, i) + 1) && b[|text|] == 0
    requires forall k :: 0 <= k < |text| ==> text[k] != 0
    ensures n < |ts| && IsText(b, i, ts[n])
    ensures var e := Stop(text, delim, i);
      && (e < |text| ==> n + 1 < |ts| && ts[n + 1..] == SplitFrom(text, delim, e + 1))
      && (e == |text| ==> n + 1 == |ts| && Cut(text, delim, e + 1) == Cut(text, delim, |text|))
  {
    TokenSteps(text, delim, ts, n, i);
    TokenIsText(text, delim, i, b);
  }

  class Tokenizer {
    /** The string being cut and the place to go on from; no string when `open` is false. */
    var str: array<Byte>
    var next: nat
    var open: bool

    constructor ()
      ensures !open && fresh(str)
    {
      str := new Byte[1](_ => 0);
      next := 0;
      open := false;
    }

    /** The cursor is behind a delimiter at `e`, or gone if the text of length `n` ends there. */
    ghost predicate CursorAfter(e: nat, n: nat)
      reads this
    {
      open == (e < n) && (open ==> next == e + 1)
    }

    /** Starts on a new string: the call of `strtok` that passes one. */
    method First(s: array<Byte>, delim: seq<Byte>, ghost text: seq<Byte>) returns (found: bool, token: nat)
      requires IsText(s[..], 0, text) && 0 !in delim
      modifies this, s
      ensures str == s && found && token == 0
      ensures var e := Stop(text, delim, 0);
        && s[..] == Cut(text, delim, e + 1) + old(s[|text|..])
        && CursorAfter(e, |text|)
    {
      str, next, open := s, 0, true;
      assert s[..] == Cut(text, delim, 0) + s[|text|..];
      found, token := Next(delim, text);
    }

    /** The next token of the string: the call of `strtok` that passes none. */
    method Next(delim: seq<Byte>, ghost text: seq<Byte>) returns (found: bool, token: nat)
      requires 0 !in delim && forall k :: 0 <= k < |text| ==> text[k] != 0
      requires |text| < str.Length && (open ==> next <= |text|)
      requires open ==> str[..] == Cut(text, delim, next) + str[|text|..] && str[|text|] == 0
      modifies this, str
      ensures str == old(str) && found == old(open)
      ensures !found ==> !open && str[..] == old(str[..])
      ensures found ==> token == old(next) <= |text|
      ensures found ==> var e := Stop(text, delim, token);
        && str[..] == Cut(text, delim, e + 1) + old(str[|text|..])
        && CursorAfter(e, |text|)
    {
      if !open {
        return false, 0;
      }
      var p := next;
      token := next;
      while str[p] != 0
        invariant token <= p <= |text| && open && next == token && str == old(str) && str[..] == old(str[..])
        invariant forall k :: token <= k < |text| ==> str[k] == text[k]
        invariant Stop(text, delim, token) == Stop(text, delim, p)
        decreases |text| - p
      {
        for d := 0 to |delim|
          invariant open && next == token && str == old(str) && str[..] == old(str[..])
          invariant text[p] !in delim[..d]
        {
          if str[p] == delim[d] {
            str[p] := 0;
            // The cursor is past the token's start, so a token may be empty.
            next := p + 1;
            assert str[..] == Cut(text, delim, p + 1) + old(str[|text|..]);
            return true, token;
          }
        }
        p := p + 1;
      }
      assert Cut(text, delim, p + 1) == Cut(text, delim, token);
      open := false;
      return true, token;
    }

    /** Splits `s` into the rows of `command`; returns how many rows it filled. */
    method Parse(s: array<Byte>, command: array2<Byte>, delim: seq<Byte>, ghost text: seq<Byte>) returns (count: nat)
      requires IsText(s[..], 0, text) && 0 !in delim
      requires command.Length0 == ROWS && command.Length1 == ROW_SIZE
      requires |Split(text, delim)| <= ROWS
      requires forall i :: 0 <= i < |Split(text, delim)| ==> |Split(text, delim)[i]| < ROW_SIZE
      modifies this, s, command
      ensures count == |Split(text, delim)| == |Delimiters(text, delim)| + 1
      ensures forall i :: 0 <= i < count ==> Row(command, i) == Padded(Split(text, delim)[i], ROW_SIZE)
      ensures forall i :: count <= i < ROWS ==> Row(command, i) == Padded([], ROW_SIZE)
      ensures s[..] == Cut(text, delim, |text|) + old(s[|text|..]) && !open
    {
      ghost var ts := Split(text, delim);
      ClearRows(command);
      count := 0;
      var found: bool, token: nat := First(s, delim, text);
      while found && count < 128
        invariant str == s && Cutting(text, delim, ts, count, found, token, old(s[|text|..]))
        invariant Filled(command, ts, count)
        decreases |ts| - count
      {
        found, token := TakeToken(command, delim, count, token, text, ts, old(s[|text|..]));
        count := count + 1;
      }
      SplitJoins(text, delim);
    }

    /** `count` tokens are done; the next begins at `token`, or there is none and all delimiters are cut. */
    ghost predicate Cutting(text: seq<Byte>, delim: seq<Byte>, ts: seq<seq<Byte>>, count: nat,
                            found: bool, token: nat, rest: seq<Byte>)
      reads this, str
    {
      && count <= |ts| && (found <==> count < |ts|)
      && if found then
           && token <= |text| && ts[count..] == SplitFrom(text, delim, token)
           && str[..] == Cut(text, delim, Stop(text, delim, token) + 1) + rest
           && CursorAfter(Stop(text, delim, token), |text|)
         else !open && str[..] == Cut(text, delim, |text|) + rest
    }

    /** One turn of the loop: copies the token into its row and goes on to the next one. */
    method TakeToken(command: array2<Byte>, delim: seq<Byte>, row: nat, token: nat,
                     ghost text: seq<Byte>, ghost ts: seq<seq<Byte>>, ghost rest: seq<Byte>)
      returns (found: bool, next: nat)
      requires 0 !in delim && (forall k :: 0 <= k < |text| ==> text[k] != 0) && |rest| > 0 && rest[0] == 0
      requires Cutting(text, delim, ts, row, true, token, rest)
      requires |ts| <= ROWS && forall i :: 0 <= i < |ts| ==> |ts[i]| < ROW_SIZE
      requires command.Length0 == ROWS && command.Length1 == ROW_SIZE && Filled(command, ts, row)
      modifies this, str, command
      ensures str == old(str) && Cutting(text, delim, ts, row + 1, found, next, rest)
      ensures Filled(command, ts, row + 1)
    {
      TokenReady(text, delim, ts, row, token, str[..]);
      FillRow(command, row, str, token, ts[row]);
      found, next := Next(delim, text);
    }
  }

  /** The first `count` rows hold the tokens, and the others are blank. */
  ghost predicate Filled(command: array2<Byte>, ts: seq<seq<Byte>>, count: nat)
    reads command
    requires command.Length0 == ROWS && command.Length1 == ROW_SIZE
    requires forall i :: 0 <= i < |ts| ==> |ts[i]| < ROW_SIZE
  {
    && count <= |ts| <= ROWS
    && (forall i :: 0 <= i < count ==> Row(command, i) == Padded(ts[i], ROW_SIZE))
    && (forall i :: count <= i < ROWS ==> Row(command, i) == Padded([], ROW_SIZE))
  }

  ghost function Row(command: array2<Byte>, i: nat): seq<Byte>
    reads command
    requires i < command.Length0
  {
    seq(command.Length1, j requires 0 <= j < command.Length1 reads command => command[i, j])
  }

  method ClearRows(command: array2<Byte>)
    requires command.Length1 == ROW_SIZE
    modifies command
    ensures forall i :: 0 <= i < command.Length0 ==> Row(command, i) == Padded([], ROW_SIZE)
  {
    for i := 0 to command.Length0
      invariant forall x, y :: 0 <= x < i && 0 <= y < ROW_SIZE ==> command[x, y] == 0
    {
      for j := 0 to command.Length1
        invariant forall x, y :: 0 <= x < i && 0 <= y < ROW_SIZE ==> command[x, y] == 0
        invariant forall y :: 0 <= y < j ==> command[i, y] == 0
      {
        command[i, j] := 0;
      }
    }
  }

  method StrLen(s: array<Byte>, from: nat, ghost text: seq<Byte>) returns (n: nat)
    requires IsText(s[..], from, text)
    ensures n == |text|
  {
    TextAt(s[..], from, text);
    n := 0;
    while s[from + n] != 0
      invariant n <= |text|
      decreases |text| - n
    {
      n := n + 1;
    }
  }

  lemma TextAt(b: seq<Byte>, from: nat, text: seq<Byte>)
    requires IsText(b, from, text)
    ensures b[from + |text|] == 0
    ensures forall k :: 0 <= k < |text| ==> b[from + k] == text[k] && text[k] != 0
  {
    forall k | 0 <= k < |text|
      ensures b[from + k] == text[k]
    {
      assert b[from..from + |text|][k] == text[k];
    }
  }

  /** Copies a whole string into a blank row. */
  method FillRow(command: array2<Byte>, row: nat, s: array<Byte>, from: nat, ghost text: seq<Byte>)
    requires row < command.Length0 && command.Length1 == ROW_SIZE && |text| < ROW_SIZE
    requires IsText(s[..], from, text) && Row(command, row) == Padded([], ROW_SIZE)
    modifies command
    ensures Row(command, row) == Padded(text, ROW_SIZE)
    ensures forall i :: 0 <= i < command.Length0 && i != row ==> Row(command, i) == old(Row(command, i))
  {
    var n := StrLen(s, from, text);
    StrNCopy(command, row, s, from, n, text);
  }

  /** At most `n` bytes of a string, and zeroes up to `n`. */
  function CopyOf(text: seq<Byte>, n: nat): (c: seq<Byte>)
    ensures |c| == n
  {
    if |text| <= n then Padded(text, n) else text[..n]
  }

  /** `strncpy` into one row: the first `n` bytes of the row become the copy, and the rest stays. */
  method StrNCopy(command: array2<Byte>, row: nat, s: array<Byte>, from: nat, n: nat, ghost text: seq<Byte>)
    requires row < command.Length0 && n <= command.Length1 && IsText(s[..], from, text)
    modifies command
    ensures Row(command, row) == CopyOf(text, n) + old(Row(command, row))[n..]
    ensures forall i :: 0 <= i < command.Length0 && i != row ==> Row(command, i) == old(Row(command, i))
  {
    TextAt(s[..], from, text);
    var i := 0;
    while i < n && s[from + i] != 0
      invariant i <= |text| && i <= n
      invariant forall j :: 0 <= j < i ==> command[row, j] == text[j]
      invariant forall x, y :: 0 <= x < command.Length0 && 0 <= y < command.Length1 && (x != row || y >= i) ==>
        command[x, y] == old(command[x, y])
      decreases |text| - i
    {
      command[row, i] := s[from + i];
      i := i + 1;
    }
    while i < n
      invariant i <= n && (i < n ==> |text| <= i)
      invariant forall j :: 0 <= j < i ==> command[row, j] == if j < |text| then text[j] else 0
      invariant forall x, y :: 0 <= x < command.Length0 && 0 <= y < command.Length1 && (x != row || y >= i) ==>
        command[x, y] == old(command[x, y])
    {
      command[row, i] := 0;
      i := i + 1;
    }
  }
}
