/** The .NET string operations the configuration code relies on:
    `IndexOf(char)`, `Replace(string, "")` for a one-character pattern,
    `Split(char)`, `Substring(int, int)` and `int.Parse`. */
module Strings {
  import opened Wrappers
  import opened Exceptions

  /** The position of the first `c` in `s`, or -1. */
  function IndexOf(s: string, c: char): (i: int)
    ensures -1 <= i < |s|
    ensures i == -1 <==> c !in s
    ensures i >= 0 ==> s[i] == c && c !in s[..i]
  {
    if |s| == 0 then -1
    else if s[0] == c then 0
    else
      var k := IndexOf(s[1..], c);
      assert s[1..] == s[1..][..|s| - 1];
      if k == -1 then -1
      else
        assert s[..k + 1] == [s[0]] + s[1..][..k];
        k + 1
  }

  /** `IndexOf` on a concatenation whose left part lacks `c`. */
  lemma {:induction false} IndexOfAppend(a: string, b: string, c: char)
    requires c !in a && c in b
    ensures IndexOf(a + b, c) == |a| + IndexOf(b, c)
  {
    var i := IndexOf(b, c);
    assert (a + b)[|a| + i] == c;
    assert (a + b)[..|a| + i] == a + b[..i];
  }

  /** `s` with every `c` deleted (`s.Replace("c", "")`). */
  function Remove(s: string, c: char): (r: string)
    ensures c !in r && |r| <= |s|
    ensures forall x :: x in r ==> x in s
    ensures c !in s ==> r == s
  {
    if |s| == 0 then []
    else
      var rest := Remove(s[1..], c);
      if s[0] == c then rest
      else
        assert forall x :: x in s[1..] ==> x in s;
        [s[0]] + rest
  }

  lemma {:induction false} RemoveAppend(a: string, b: string, c: char)
    ensures Remove(a + b, c) == Remove(a, c) + Remove(b, c)
  {
    if |a| > 0 {
      RemoveAppend(a[1..], b, c);
      assert (a + b)[1..] == a[1..] + b;
    } else {
      assert a + b == b;
    }
  }

  /** The pieces of a separated string joined back with the separator. */
  function Join(parts: seq<string>, sep: char): string
    requires |parts| >= 1
  {
    if |parts| == 1 then parts[0] else parts[0] + [sep] + Join(parts[1..], sep)
  }

  /** `s.Split(sep)`: the maximal separator-free pieces, one more than the
      number of separators, empty pieces included. */
  function Split(s: string, sep: char): (parts: seq<string>)
    ensures |parts| >= 1
    ensures forall p :: p in parts ==> sep !in p
    ensures Join(parts, sep) == s
    decreases |s|
  {
    if sep !in s then [s]
    else
      var i := IndexOf(s, sep);
      var rest := Split(s[i + 1..], sep);
      assert s == s[..i] + [sep] + s[i + 1..];
      [s[..i]] + rest
  }

  /** Splitting undoes joining pieces that do not contain the separator. */
  lemma {:induction false} SplitJoin(parts: seq<string>, sep: char)
    requires |parts| >= 1
    requires forall p :: p in parts ==> sep !in p
    ensures Split(Join(parts, sep), sep) == parts
    decreases |parts|
  {
    if |parts| > 1 {
      var tail := Join(parts[1..], sep);
      var s := parts[0] + [sep] + tail;
      assert s == parts[0] + ([sep] + tail);
      IndexOfAppend(parts[0], [sep] + tail, sep);
      assert IndexOf(s, sep) == |parts[0]|;
      assert s[..|parts[0]|] == parts[0];
      assert s[|parts[0]| + 1..] == tail;
      SplitJoin(parts[1..], sep);
      assert parts == [parts[0]] + parts[1..];
    }
  }

  /** `s.Substring(start, length)`, with the range checks of .NET. */
  function Substring(s: string, start: int, length: int): (r: Result<string, Exception>)
    ensures r.Failure? <==> start < 0 || length < 0 || start + length > |s|
    ensures r.Failure? ==> r.error == ArgumentOutOfRange
    ensures r.Success? ==> |r.value| == length && forall k :: 0 <= k < length ==> r.value[k] == s[start + k]
  {
    if start < 0 || length < 0 || start + length > |s| then Failure(ArgumentOutOfRange)
    else Success(s[start..start + length])
  }

  // ---------------------------------------------------------------------
  // int.Parse
  // ---------------------------------------------------------------------

  const MinInt32: int := -0x8000_0000
  const MaxInt32: int := 0x7FFF_FFFF

  /** The white space `int.Parse` skips: U+0009..U+000D and the space. */
  predicate IsWhite(c: char) {
    c == ' ' || ('\t' <= c <= '\r')
  }

  predicate IsDigit(c: char) {
    '0' <= c <= '9'
  }

  predicate AllDigits(s: string) {
    forall k :: 0 <= k < |s| ==> IsDigit(s[k])
  }

  /** `s` without its leading white space. */
  function TrimStart(s: string): (r: string)
    ensures |r| <= |s| && r == s[|s| - |r|..]
    ensures forall k :: 0 <= k < |s| - |r| ==> IsWhite(s[k])
    ensures |r| == 0 || !IsWhite(r[0])
  {
    if |s| > 0 && IsWhite(s[0]) then
      var r := TrimStart(s[1..]);
      assert forall k :: 1 <= k < |s| - |r| ==> s[1..][k - 1] == s[k];
      r
    else s
  }

  /** `s` without its trailing white space. */
  function TrimEnd(s: string): (r: string)
    ensures |r| <= |s| && r == s[..|r|]
    ensures forall k :: |r| <= k < |s| ==> IsWhite(s[k])
    ensures |r| == 0 || !IsWhite(r[|r| - 1])
  {
    if |s| > 0 && IsWhite(s[|s| - 1]) then
      var r := TrimEnd(s[..|s| - 1]);
      assert s[..|s| - 1][..|r|] == s[..|r|];
      r
    else s
  }

  function DigitValue(c: char): nat
    requires IsDigit(c)
  {
    (c as int) - ('0' as int)
  }

  /** The value of a decimal digit string, most significant digit first. */
  function DigitsValue(s: string): nat
    requires AllDigits(s)
  {
    if |s| == 0 then 0 else 10 * DigitsValue(s[..|s| - 1]) + DigitValue(s[|s| - 1])
  }

  /** `int.Parse(s)` with the invariant culture: optional white space, an
      optional `-` or `+`, at least one decimal digit, optional white space.
      Anything else is a format error; a well-formed value outside the 32-bit
      range is an overflow. */
  function ParseInt32(s: string): (r: Result<int, Exception>)
    ensures r.Success? ==> MinInt32 <= r.value <= MaxInt32
    ensures r.Failure? ==> r.error == Format || r.error == Overflow
    ensures (forall k :: 0 <= k < |s| ==> IsWhite(s[k])) ==> r == Failure(Format)
  {
    ParseTrimmed(TrimEnd(TrimStart(s)))
  }

  /** The parse of the text between the white space. */
  function ParseTrimmed(t: string): (r: Result<int, Exception>)
    ensures r.Success? ==> MinInt32 <= r.value <= MaxInt32
    ensures r.Failure? ==> r.error == Format || r.error == Overflow
    ensures |t| == 0 ==> r == Failure(Format)
  {
    if |t| == 0 then Failure(Format)
    else
      var negative := t[0] == '-';
      var digits := if t[0] == '-' || t[0] == '+' then t[1..] else t;
      if |digits| == 0 || !AllDigits(digits) then Failure(Format)
      else
        var m: int := DigitsValue(digits);
        var v := if negative then -m else m;
        if v < MinInt32 || MaxInt32 < v then Failure(Overflow) else Success(v)
  }

  /** The decimal digits of a natural number, without leading zeros. */
  function NatDigits(n: nat): (s: string)
    ensures |s| >= 1 && AllDigits(s) && DigitsValue(s) == n
    ensures n > 0 ==> s[0] != '0'
  {
    var d := ['0' + ((n % 10) as char)];
    if n < 10 then d
    else
      var s := NatDigits(n / 10) + d;
      assert s[..|s| - 1] == NatDigits(n / 10);
      s
  }

  /** The decimal text of an integer, as `int.ToString()` writes it. */
  function ToDecimal(n: int): (s: string)
    ensures |s| >= 1
  {
    if n < 0 then "-" + NatDigits(-n) else NatDigits(n)
  }

  /** Parsing the decimal text of an integer gives the integer back when it
      fits in 32 bits, and an overflow otherwise. */
  lemma ParseToDecimal(n: int)
    ensures MinInt32 <= n <= MaxInt32 ==> ParseInt32(ToDecimal(n)) == Success(n)
    ensures (n < MinInt32 || MaxInt32 < n) ==> ParseInt32(ToDecimal(n)) == Failure(Overflow)
  {
    var s := ToDecimal(n);
    assert TrimStart(s) == s;
    assert TrimEnd(s) == s;
    if n < 0 {
      assert s[1..] == NatDigits(-n);
    }
  }

  /** A character that is neither white space, a sign nor a digit makes the
      parse a format error, wherever it stands. */
  lemma ParseRejectsStrayCharacter(s: string, k: nat)
    requires k < |s| && !IsWhite(s[k]) && !IsDigit(s[k]) && s[k] != '-' && s[k] != '+'
    ensures ParseInt32(s) == Failure(Format)
  {
    var a := TrimStart(s);
    var t := TrimEnd(a);
    var k1 := k - (|s| - |a|);
    assert 0 <= k1 < |a| && a[k1] == s[k];
    assert k1 < |t| && t[k1] == s[k];
    if k1 >= 1 && (t[0] == '-' || t[0] == '+') {
      assert t[1..][k1 - 1] == s[k];
    }
  }

  /** Surrounding white space does not change the parse. */
  lemma ParseIgnoresPadding(s: string, pad1: string, pad2: string)
    requires forall k :: 0 <= k < |pad1| ==> IsWhite(pad1[k])
    requires forall k :: 0 <= k < |pad2| ==> IsWhite(pad2[k])
    requires |s| > 0 && !IsWhite(s[0]) && !IsWhite(s[|s| - 1])
    ensures ParseInt32(pad1 + s + pad2) == ParseInt32(s)
  {
    assert TrimStart(s) == s;
    assert TrimEnd(s) == s;
    assert pad1 + s + pad2 == pad1 + (s + pad2);
    TrimStartPadding(pad1, s + pad2);
    TrimEndPadding(s, pad2);
  }

  lemma {:induction false} TrimStartPadding(pad: string, s: string)
    requires forall k :: 0 <= k < |pad| ==> IsWhite(pad[k])
    requires |s| > 0 && !IsWhite(s[0])
    ensures TrimStart(pad + s) == s
  {
    if |pad| > 0 {
      assert (pad + s)[1..] == pad[1..] + s;
      TrimStartPadding(pad[1..], s);
    } else {
      assert pad + s == s;
    }
  }

  lemma {:induction false} TrimEndPadding(s: string, pad: string)
    requires forall k :: 0 <= k < |pad| ==> IsWhite(pad[k])
    requires |s| > 0 && !IsWhite(s[|s| - 1])
    ensures TrimEnd(s + pad) == s
  {
    if |pad| > 0 {
      assert (s + pad)[..|s + pad| - 1] == s + pad[..|pad| - 1];
      TrimEndPadding(s, pad[..|pad| - 1]);
    } else {
      assert s + pad == s;
    }
  }

  /** White space around a signed number is skipped. */
  lemma ParseSignedExample()
    ensures ParseInt32(" -12 ") == Success(-12)
  {
    assert TrimStart(" -12 ") == "-12 ";
    assert TrimEnd("-12 ") == "-12";
    assert "-12"[1..] == "12";
    assert DigitsValue("12"[..1]) == 1;
  }
}
