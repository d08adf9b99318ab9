/**
 Decimal numbers: the printer that fills an eleven-byte buffer, and the parser of process
 numbers with its guard against overflow.
 */
module Decimals {
  import opened Words
  import opened Tokens

  const INT32_MAX := 0x7FFF_FFFF
  const INT32_MIN := -0x8000_0000
  const MINUS: Byte := 0x2D
  const PLUS: Byte := 0x2B
  const DIGIT_0: Byte := 0x30
  const DIGIT_9: Byte := 0x39

  // ----- numerals

  predicate IsDigit(c: Byte) {
    DIGIT_0 <= c <= DIGIT_9
  }

  predicate AllDigits(s: seq<Byte>) {
    forall i :: 0 <= i < |s| ==> IsDigit(s[i])
  }

  /** The value of a numeral, most significant digit first. */
  function Value(s: seq<Byte>): nat
    requires AllDigits(s)
  {
    if s == [] then 0 else 10 * Value(s[..|s| - 1]) + ((s[|s| - 1] as int) - DIGIT_0)
  }

  /** The digits of a positive number, least significant first, as the printer produces them. */
  function Backward(n: nat): (s: seq<Byte>)
    ensures AllDigits(s) && (n > 0 ==> |s| > 0)
  {
    if n == 0 then [] else [n % 10 + DIGIT_0] + Backward(n / 10)
  }

  function Reverse(s: seq<Byte>): (r: seq<Byte>)
    ensures |r| == |s|
    ensures forall i :: 0 <= i < |s| ==> r[i] == s[|s| - 1 - i]
  {
    seq(|s|, i requires 0 <= i < |s| => s[|s| - 1 - i])
  }

  /** A range whose bytes all stand mirrored is reversed, and what precedes it is as it was. */
  lemma ReversedRange(from: nat, to: nat, before: seq<Byte>, after: seq<Byte>)
    requires from <= to <= |before| == |after|
    requires forall x :: from <= x < to ==> after[x] == before[from + to - 1 - x]
    requires forall x :: 0 <= x < from ==> after[x] == before[x]
    ensures after[from..to] == Reverse(before[from..to]) && after[..from] == before[..from]
  {
    forall i | 0 <= i < to - from
      ensures after[from..to][i] == Reverse(before[from..to])[i]
    {
      assert after[from..to][i] == after[from + i];
    }
  }

  /** The numeral of a number, with no leading zero. */
  function Numeral(n: nat): (s: seq<Byte>)
    ensures AllDigits(s) && |s| > 0
  {
    if n == 0 then [DIGIT_0] else Reverse(Backward(n))
  }

  function Magnitude(n: int): nat {
    if n < 0 then -n else n
  }

  function Sign(n: int): seq<Byte> {
    if n < 0 then [MINUS] else []
  }

  function Text(n: int): seq<Byte> {
    Sign(n) + Numeral(Magnitude(n))
  }

  lemma {:induction false} ReverseValue(n: nat)
    ensures Value(Reverse(Backward(n))) == n
  {
    if n > 0 {
      ReverseValue(n / 10);
      var s := Reverse(Backward(n));
      assert s[..|s| - 1] == Reverse(Backward(n / 10));
    }
  }

  /** A printed number has the value it was printed from. */
  lemma NumeralValue(n: nat)
    ensures Value(Numeral(n)) == n
  {
    if n > 0 { ReverseValue(n); } else { assert Value([DIGIT_0][..0]) == 0; }
  }

  /** A number's text, byte by byte: a minus sign for negative numbers, and the digits "0" to "9", the units last. */
  lemma {:induction false} TextBytes(n: int)
    ensures n < 0 ==> Text(n) == [0x2D] + Text(-n)
    ensures 0 <= n <= 9 ==> Text(n) == [0x30 + n]
    ensures n >= 10 ==> Text(n) == Text(n / 10) + [0x30 + n % 10]
  {
    if n < 0 {
      NegativeText(n);
    } else if n >= 10 {
      LongText(n, n / 10, n % 10);
    } else if n > 0 {
      LongText(n, 0, n);
    }
  }

  lemma {:induction false} NegativeText(n: int)
    requires n < 0
    ensures Text(n) == [0x2D] + Text(-n)
  {
    assert Magnitude(n) == Magnitude(-n) == -n && Sign(-n) == [];
  }

  lemma {:induction false} LongText(n: nat, q: nat, r: nat)
    requires n > 0 && q == n / 10 && r == n % 10
    ensures q > 0 ==> Text(n) == Text(q) + [0x30 + r]
    ensures q == 0 ==> Text(n) == [0x30 + r]
  {
    ReverseStep(n, q, r);
    PositiveText(n);
    if q > 0 { PositiveText(q); }
  }

  lemma {:induction false} PositiveText(n: nat)
    requires n > 0
    ensures Text(n) == Reverse(Backward(n))
  {
    assert Magnitude(n) == n && Sign(n) == [];
  }

  lemma {:induction false} ReverseStep(n: nat, q: nat, r: nat)
    requires n > 0 && q == n / 10 && r == n % 10
    ensures Reverse(Backward(n)) == Reverse(Backward(q)) + [0x30 + r]
    ensures q == 0 ==> Reverse(Backward(n)) == [0x30 + r]
  {
    var s := Backward(q);
    assert Backward(n) == [r + DIGIT_0] + s;
    ReverseCons(r + DIGIT_0, s);
    if q == 0 { assert Reverse(s) == []; }
  }

  lemma ReverseCons(d: Byte, s: seq<Byte>)
    ensures Reverse([d] + s) == Reverse(s) + [d]
  {
  }

  /** No leading zero. */
  lemma {:induction false} FirstDigit(n: nat)
    ensures n > 0 ==> 0x31 <= Text(n)[0] <= 0x39
  {
    if n > 0 {
      LongText(n, n / 10, n % 10);
      if n >= 10 { FirstDigit(n / 10); }
    }
  }

  /** How a number's text begins, and the whole of it for a single digit. */
  lemma {:induction false} FirstBytes(n: int)
    ensures 0 <= n <= 9 ==> Text(n) == [0x30 + n]
    ensures n >= 10 ==> 0x31 <= Text(n)[0] <= 0x39
    ensures n < 0 ==> |Text(n)| > 1 && Text(n)[0] == 0x2D && 0x31 <= Text(n)[1] <= 0x39
  {
    TextBytes(n);
    FirstDigit(if n < 0 then -n else n);
  }

  lemma {:induction false} NumeralLength(n: nat, k: nat)
    requires n < Power10(k)
    ensures |Backward(n)| <= k
  {
    if n > 0 {
      var q := n / 10;
      assert 10 * q <= n;
      assert Power10(k) == 10 * Power10(k - 1);
      NumeralLength(q, k - 1);
    }
  }

  function Power10(k: nat): (p: nat)
    ensures p > 0
  {
    if k == 0 then 1 else 10 * Power10(k - 1)
  }

  lemma {:induction false} BackwardLow(n: nat, k: nat)
    requires n >= Power10(k)
    ensures |Backward(n)| > k
  {
    if k > 0 {
      var q := n / 10;
      assert n < 10 * q + 10;
      BackwardLow(q, k - 1);
    }
  }

  // ----- the printer

  /** The numbers whose text and terminator fit the printer's buffer. */
  predicate Printable(n: int) {
    -999_999_999 <= n <= INT32_MAX
  }

  lemma Powers()
    ensures Power10(9) == 1_000_000_000 && Power10(10) == 10_000_000_000
  {
    assert Power10(3) == 1000;
    assert Power10(6) == 1000 * Power10(3);
    assert Power10(9) == 1000 * Power10(6);
  }

  /** A 32-bit number's text fits the buffer with its terminator exactly when it is printable. */
  lemma PrintableExact(n: int)
    requires INT32_MIN <= n <= INT32_MAX
    ensures |Text(n)| < 11 <==> Printable(n)
  {
    Powers();
    if n >= 0 {
      NumeralLength(n, 10);
    } else if Printable(n) {
      NumeralLength(-n, 9);
    } else {
      BackwardLow(-n, 9);
    }
  }

  lemma TextNonzero(n: int)
    ensures forall k :: 0 <= k < |Text(n)| ==> Text(n)[k] != 0
  {
    var digits := Numeral(Magnitude(n));
    assert forall k :: 0 <= k < |digits| ==> IsDigit(digits[k]);
  }

  /** What a buffer that holds a number's text begins with. */
  lemma {:induction false} PrintedBytes(b: seq<Byte>, n: int)
    requires IsText(b, 0, Text(n)) && |b| == 11
    ensures 0 <= n <= 9 ==> b[0] == 0x30 + n && b[1] == 0
    ensures n >= 10 ==> 0x31 <= b[0] <= 0x39
    ensures n < 0 ==> b[0] == 0x2D && 0x31 <= b[1] <= 0x39
  {
    FirstBytes(n);
    TextAt(b, 0, Text(n));
    assert b[0 + 0] == Text(n)[0];
    if n < 0 { assert b[0 + 1] == Text(n)[1]; }
  }

  class Printer {
    const str: array<Byte>

    constructor ()
      ensures fresh(str) && str.Length == 11
    {
      str := new Byte[11](_ => 0);
    }

    /** Writes the text of `num` into the buffer. */
    method IntToString(num: int)
      requires str.Length == 11 && Printable(num)
      modifies str
      ensures IsText(str[..], 0, Text(num))
      ensures 0 <= num <= 9 ==> str[0] == 0x30 + num && str[1] == 0
      ensures num >= 10 ==> 0x31 <= str[0] <= 0x39
      ensures num < 0 ==> str[0] == 0x2D && 0x31 <= str[1] <= 0x39
    {
      PrintText(num);
      PrintedBytes(str[..], num);
    }

    /** The body of `int_to_string`. */
    method PrintText(num: int)
      requires str.Length == 11 && Printable(num)
      modifies str
      ensures IsText(str[..], 0, Text(num))
    {
      PrintableExact(num);
      var i := 0;
      if num == 0 {
        str[i] := DIGIT_0;
        i := 1;
      } else {
        i := PrintNonzero(num);
      }
      TextNonzero(num);
      str[i] := 0;
      assert str[..i] == Text(num);
    }

    /** The sign and the digits of a number other than zero. */
    method PrintNonzero(num: int) returns (i: nat)
      requires num != 0 && |Text(num)| < str.Length
      modifies str
      ensures i == |Text(num)| && str[..i] == Text(num)
    {
      var n, from: nat := num, 0;
      if n < 0 {
        str[0] := MINUS;
        from := 1;
        n := -n;
      }
      assert n == Magnitude(num) && str[..from] == Sign(num);
      i := DigitsInOrder(from, n);
    }

    /** Writes the digits of `num` from position `from` on: backward first, then reversed. */
    method DigitsInOrder(from: nat, num: nat) returns (i: nat)
      requires num > 0 && from + |Numeral(num)| < str.Length
      modifies str
      ensures i == from + |Numeral(num)| && str[..i] == old(str[..from]) + Numeral(num)
    {
      i := Digits(from, num);
      Flip(from, i);
      assert str[..i] == str[..from] + str[from..i];
    }

    /** Writes the digits of `num` from position `from` on, lowest first; returns the position after them. */
    method Digits(from: nat, num: nat) returns (i: nat)
      requires from + |Backward(num)| < str.Length
      modifies str
      ensures i == from + |Backward(num)| && str[from..i] == Backward(num)
      ensures str[..from] == old(str[..from])
    {
      ghost var digits := Backward(num);
      i := from;
      var n: nat := num;
      while n > 0
        invariant from <= i < str.Length && i - from <= |digits| && digits[i - from..] == Backward(n)
        invariant str[..from] == old(str[..from])
        invariant str[from..i] == digits[..i - from]
        decreases n
      {
        var digit, rest := NextDigit(n);
        ghost var k := i - from;
        assert digits[k..] == [digit] + Backward(rest);
        assert digits[k] == digits[k..][0] && digits[k + 1..] == digits[k..][1..];
        assert digits[..k + 1] == digits[..k] + [digit];
        str[i] := digit;
        i := i + 1;
        n := rest;
        assert str[from..i] == str[from..i - 1] + [digit];
      }
      assert digits[..i - from] == digits;
    }

    method NextDigit(n: nat) returns (digit: Byte, rest: nat)
      requires n > 0
      ensures Backward(n) == [digit] + Backward(rest) && rest < n
    {
      digit := n % 10 + DIGIT_0;
      rest := n / 10;
    }

    /** Reverses the bytes from position `from` to before `to`. */
    method Flip(from: nat, to: nat)
      requires from < to <= str.Length
      modifies str
      ensures str[from..to] == Reverse(old(str[from..to]))
      ensures str[..from] == old(str[..from])
    {
      var j: int, k: int := from, to - 1;
      while j < k
        invariant from <= j <= k + 1 <= to && j - from == to - 1 - k
        invariant forall x :: from <= x < j || k < x < to ==> str[x] == old(str[from + to - 1 - x])
        invariant forall x :: 0 <= x < from || j <= x <= k ==> str[x] == old(str[x])
      {
        var temp := str[j];
        str[j] := str[k];
        str[k] := temp;
        j := j + 1;
        k := k - 1;
      }
      ghost var before, after := old(str[..]), str[..];
      assert forall x :: from <= x < to ==> after[x] == before[from + to - 1 - x];
      ReversedRange(from, to, before, after);
      assert before[from..to] == old(str[from..to]) && before[..from] == old(str[..from]);
    }
  }

  // ----- the parser

  /** The text after an optional sign. */
  function Unsigned(s: seq<Byte>): seq<Byte> {
    if s != [] && (s[0] == MINUS || s[0] == PLUS) then s[1..] else s
  }

  /** An optional sign and one or more digits, of magnitude at most INT32_MAX. */
  predicate IsNumber(s: seq<Byte>) {
    Unsigned(s) != [] && AllDigits(Unsigned(s)) && Value(Unsigned(s)) <= INT32_MAX
  }

  function NumberOf(s: seq<Byte>): int
    requires IsNumber(s)
  {
    var n: int := Value(Unsigned(s));
    if s[0] == MINUS then -n else n
  }

  lemma {:induction false} ValueGrows(s: seq<Byte>, k: nat)
    requires AllDigits(s) && k <= |s|
    ensures Value(s[..k]) <= Value(s)
    decreases |s|
  {
    if k < |s| {
      ValueGrows(s[..|s| - 1], k);
      assert s[..|s| - 1][..k] == s[..k];
    } else {
      assert s[..k] == s;
    }
  }

  /** One more digit, and what it means when the value outgrows 32 bits. */
  lemma {:induction false} DigitStep(body: seq<Byte>, k: nat)
    requires k < |body| && AllDigits(body[..k]) && IsDigit(body[k])
    ensures AllDigits(body[..k + 1]) && Value(body[..k + 1]) == 10 * Value(body[..k]) + ((body[k] as int) - DIGIT_0)
    ensures AllDigits(body) ==> Value(body[..k + 1]) <= Value(body)
  {
    assert body[..k + 1][..k] == body[..k];
    if AllDigits(body) { ValueGrows(body, k + 1); }
  }

  /** The guard rejects exactly the steps that would leave 32 bits. */
  lemma GuardExact(value: nat, digit: nat)
    requires digit <= 9
    ensures value > (INT32_MAX - digit) / 10 <==> 10 * value + digit > INT32_MAX
  {
  }

  /**
   What a typed number is, byte by byte: an optional "-" or "+" before the digits "0" to "9", of
   magnitude up to 2147483647.
   */
  lemma {:induction false} NumberBytes(text: seq<Byte>)
    ensures var body := if text != [] && (text[0] == 0x2D || text[0] == 0x2B) then text[1..] else text;
      IsNumber(text) <==>
        && body != [] && (forall i :: 0 <= i < |body| ==> 0x30 <= body[i] <= 0x39)
        && AllDigits(body) && Value(body) <= 2147483647
  {
  }

  /** Its value: the digits from the left, ten times what comes before; a leading minus negates it. */
  lemma {:induction false} NumberValue(body: seq<Byte>, d: Byte)
    requires (forall i :: 0 <= i < |body| ==> 0x30 <= body[i] <= 0x39) && 0x30 <= d <= 0x39
    ensures AllDigits([]) && Value([]) == 0
    ensures AllDigits(body) && AllDigits(body + [d]) && Value(body + [d]) == 10 * Value(body) + ((d as int) - 0x30)
    ensures IsNumber(body + [d]) ==> NumberOf(body + [d]) == Value(body + [d])
    ensures IsNumber([0x2D] + body) ==> NumberOf([0x2D] + body) + Value(body) == 0
    ensures IsNumber([0x2B] + body) ==> NumberOf([0x2B] + body) == Value(body)
  {
    assert (body + [d])[..|body|] == body;
    assert ([0x2D] + body)[1..] == body && ([0x2B] + body)[1..] == body;
    assert (body + [d])[0] == if body == [] then d else body[0];
  }

  /** The shortest numbers: a digit alone, and a digit after a sign. */
  lemma {:induction false} ShortNumbers(d: Byte)
    ensures IsNumber([d]) <==> 0x30 <= d <= 0x39
    ensures IsNumber([0x2D, d]) <==> 0x30 <= d <= 0x39
    ensures IsNumber([0x2B, d]) <==> 0x30 <= d <= 0x39
    ensures 0x30 <= d <= 0x39 ==>
      NumberOf([d]) == (d as int) - 0x30 && NumberOf([0x2D, d]) == 0x30 - (d as int)
      && NumberOf([0x2B, d]) == (d as int) - 0x30
  {
    assert [0x2D, d][1..] == [d] && [0x2B, d][1..] == [d];
    if 0x30 <= d <= 0x39 { OneDigit(d); }
  }

  lemma {:induction false} OneDigit(d: Byte)
    requires 0x30 <= d <= 0x39
    ensures AllDigits([d]) && Value([d]) == (d as int) - 0x30
  {
    assert [d][..0] == [];
  }

  /** The first `k` bytes are digits, of value `n`. */
  ghost predicate ReadSoFar(body: seq<Byte>, k: nat, n: int) {
    k <= |body| && AllDigits(body[..k]) && n == Value(body[..k])
  }

  lemma {:induction false} ShortTexts(text: seq<Byte>)
    ensures forall d: Byte :: text == [d] ==>
      (IsNumber(text) <==> 0x30 <= d <= 0x39) && (IsNumber(text) ==> NumberOf(text) == (d as int) - 0x30)
    ensures forall d: Byte :: text == [0x2D, d] ==>
      (IsNumber(text) <==> 0x30 <= d <= 0x39) && (IsNumber(text) ==> NumberOf(text) == 0x30 - (d as int))
    ensures forall d: Byte :: text == [0x2B, d] ==>
      (IsNumber(text) <==> 0x30 <= d <= 0x39) && (IsNumber(text) ==> NumberOf(text) == (d as int) - 0x30)
  {
    if text != [] { ShortNumbers(text[|text| - 1]); }
  }

  /**
   Reads a process number from a C string.  Accepts exactly the numbers above; every intermediate
   value stays within 32 bits.
   */
  method ParsePid(str: array<Byte>, ghost text: seq<Byte>) returns (ok: bool, pid: int)
    requires IsText(str[..], 0, text)
    ensures ok <==> IsNumber(text)
    ensures ok ==> pid == NumberOf(text) && -2147483647 <= pid <= 2147483647
    ensures ok ==> |text| > 0 && forall i :: 0 <= i < |text| ==>
      0x30 <= text[i] <= 0x39 || (i == 0 && (text[0] == 0x2D || text[0] == 0x2B))
    ensures forall d: Byte :: text == [d] ==> (ok <==> 0x30 <= d <= 0x39) && (ok ==> pid == (d as int) - 0x30)
    ensures forall d: Byte :: text == [0x2D, d] ==> (ok <==> 0x30 <= d <= 0x39) && (ok ==> pid == 0x30 - (d as int))
    ensures forall d: Byte :: text == [0x2B, d] ==> (ok <==> 0x30 <= d <= 0x39) && (ok ==> pid == (d as int) - 0x30)
  {
    ok, pid := ParseSigned(str, text);
    ShortTexts(text);
    NumberBytes(text);
  }

  /** The sign and the loop over the digits. */
  method ParseSigned(str: array<Byte>, ghost text: seq<Byte>) returns (ok: bool, pid: int)
    requires IsText(str[..], 0, text)
    ensures ok <==> IsNumber(text)
    ensures ok ==> pid == NumberOf(text) && -INT32_MAX <= pid <= INT32_MAX
  {
    var at: nat, sign := 0, 1;
    pid, ok := 0, true;
    TextAt(str[..], 0, text);
    if str[at] == MINUS {
      sign, at := -1, 1;
    } else if str[at] == PLUS {
      at := 1;
    }
    ghost var from := at;
    ghost var body: seq<Byte> := Unsigned(text);
    assert body == text[from..];
    if str[at] == 0 {
      ok := false;
    }
    while str[at] != 0
      invariant from <= at <= |text| && 0 <= pid <= INT32_MAX
      invariant ok == (body != [])
      invariant ReadSoFar(body, at - from, pid)
      decreases |text| - at
    {
      var c := str[at];
      assert c == body[at - from];
      if c < DIGIT_0 || c > DIGIT_9 {
        ok := false;
        break;
      }
      DigitStep(body, at - from);
      GuardExact(pid, (c as int) - DIGIT_0);
      if pid > (INT32_MAX - ((c as int) - DIGIT_0)) / 10 {
        ok := false;
        break;
      }
      pid := pid * 10 + ((c as int) - DIGIT_0);
      at := at + 1;
    }
    if ok {
      assert body[..|body|] == body;
      pid := pid * sign;
    }
  }

  /** Parsing undoes printing. */
  lemma ParsePrinted(n: int)
    requires -INT32_MAX <= n <= INT32_MAX
    ensures IsNumber(Text(n)) && NumberOf(Text(n)) == n
  {
    var m := Magnitude(n);
    NumeralValue(m);
    assert IsDigit(Numeral(m)[0]);
    assert Unsigned(Text(n)) == Numeral(m);
  }
}
