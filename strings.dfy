/** Text operations shared by the client and the server, each stated by what
    it computes rather than how: decimal rendering and parsing, prefix and
    suffix tests, the JavaScript `split(sep).pop()` idiom, ASCII lower-casing,
    digit filtering and the JavaScript `trim()`. */
module Strings {
  import opened Wrappers

  predicate IsDigit(c: char) {
    '0' <= c <= '9'
  }

  predicate AllDigits(s: string) {
    forall i :: 0 <= i < |s| ==> IsDigit(s[i])
  }

  predicate StartsWith(s: string, prefix: string) {
    |prefix| <= |s| && s[..|prefix|] == prefix
  }

  predicate EndsWith(s: string, suffix: string) {
    |suffix| <= |s| && s[|s| - |suffix|..] == suffix
  }

  // ---------------------------------------------------------------------
  // Decimal numbers
  // ---------------------------------------------------------------------

  function DigitChar(d: nat): (c: char)
    requires d < 10
    ensures IsDigit(c)
  {
    ('0' as int + d) as char
  }

  function DigitValue(c: char): (d: nat)
    requires IsDigit(c)
    ensures d < 10 && DigitChar(d) == c
  {
    c as int - '0' as int
  }

  /** The decimal text of `n`, as JavaScript's template literals and Python's
      `str` print a non-negative integer: no sign, no leading zero. */
  function NatToString(n: nat): (r: string)
    ensures |r| >= 1 && AllDigits(r)
    ensures r[0] == '0' ==> n == 0
    decreases n
  {
    if n < 10 then [DigitChar(n)] else NatToString(n / 10) + [DigitChar(n % 10)]
  }

  function DecimalValue(s: string): nat
    requires AllDigits(s)
  {
    if |s| == 0 then 0 else DecimalValue(s[..|s| - 1]) * 10 + DigitValue(s[|s| - 1])
  }

  /** The number a text of decimal digits denotes; None for the empty text or
      any other character. */
  function ParseDecimal(s: string): (r: Option<nat>)
    ensures r.Some? <==> |s| > 0 && AllDigits(s)
  {
    if |s| > 0 && AllDigits(s) then Some(DecimalValue(s)) else None
  }

  /** Reading back a rendered number gives the number. */
  lemma {:induction false} ParseNatToString(n: nat)
    ensures ParseDecimal(NatToString(n)) == Some(n)
    decreases n
  {
    var r := NatToString(n);
    if n >= 10 {
      var front := NatToString(n / 10);
      ParseNatToString(n / 10);
      assert r == front + [DigitChar(n % 10)];
      assert r[..|r| - 1] == front;
      assert DecimalValue(r) == DecimalValue(front) * 10 + n % 10;
    }
  }

  /** Distinct numbers are rendered differently. */
  lemma NatToStringInjective(m: nat, n: nat)
    requires NatToString(m) == NatToString(n)
    ensures m == n
  {
    ParseNatToString(m);
    ParseNatToString(n);
  }

  // ---------------------------------------------------------------------
  // Splitting at a separator
  // ---------------------------------------------------------------------

  /** The last piece of `s.split(sep)`: the text after the last `sep`, or all
      of `s` when it has none. Also Python's `s.rsplit(sep, 1)[1]` when `sep`
      occurs in `s`. */
  function AfterLast(s: string, sep: char): (r: string)
    ensures sep !in r
    ensures |r| <= |s| && r == s[|s| - |r|..]
    ensures |r| < |s| ==> s[|s| - |r| - 1] == sep
    ensures |r| == |s| <==> sep !in s
  {
    if |s| == 0 then ""
    else if s[|s| - 1] == sep then ""
    else
      var r := AfterLast(s[..|s| - 1], sep) + [s[|s| - 1]];
      assert s[..|s| - 1] + [s[|s| - 1]] == s;
      r
  }

  /** What follows the last separator is exactly the piece after it. */
  lemma AfterLastOfJoin(front: string, sep: char, piece: string)
    requires sep !in piece
    ensures AfterLast(front + [sep] + piece, sep) == piece
  {
    var s := front + [sep] + piece;
    assert s[|s| - |piece| - 1] == sep;
    assert s[|s| - |piece|..] == piece;
  }

  // ---------------------------------------------------------------------
  // Case and filtering
  // ---------------------------------------------------------------------

  function LowerChar(c: char): char {
    if 'A' <= c <= 'Z' then (c as int + 32) as char else c
  }

  /** ASCII lower-casing. Python's `str.lower()` also maps non-ASCII letters,
      but none of them lower-cases to an ASCII letter that occurs in the
      extension lists this model compares against. */
  function AsciiLower(s: string): (r: string)
    ensures |r| == |s|
    ensures forall i :: 0 <= i < |s| ==> r[i] == LowerChar(s[i])
  {
    if |s| == 0 then "" else [LowerChar(s[0])] + AsciiLower(s[1..])
  }

  /** `text.replace(/[^0-9]/g, '')`: the digits of `s`, in order. */
  function KeepDigits(s: string): (r: string)
    ensures AllDigits(r) && |r| <= |s|
    ensures AllDigits(s) ==> r == s
  {
    if |s| == 0 then ""
    else if IsDigit(s[0]) then [s[0]] + KeepDigits(s[1..])
    else KeepDigits(s[1..])
  }

  // ---------------------------------------------------------------------
  // JavaScript String.prototype.trim
  // ---------------------------------------------------------------------

  /** The WhiteSpace and LineTerminator code points of ECMAScript, which
      `trim()` removes from both ends. */
  predicate IsJsSpace(c: char) {
    c == '\t' || c == '\n' || c == '\U{000B}' || c == '\U{000C}' || c == '\r' || c == ' '
    || c == '\U{00A0}' || c == '\U{1680}' || ('\U{2000}' <= c <= '\U{200A}')
    || c == '\U{2028}' || c == '\U{2029}' || c == '\U{202F}' || c == '\U{205F}'
    || c == '\U{3000}' || c == '\U{FEFF}'
  }

  predicate AllSpace(s: string) {
    forall i :: 0 <= i < |s| ==> IsJsSpace(s[i])
  }

  function TrimStart(s: string): (r: string)
    ensures |r| <= |s| && r == s[|s| - |r|..] && AllSpace(s[..|s| - |r|])
    ensures |r| > 0 ==> !IsJsSpace(r[0])
  {
    if |s| > 0 && IsJsSpace(s[0]) then TrimStart(s[1..]) else s
  }

  function TrimEnd(s: string): (r: string)
    ensures |r| <= |s| && r == s[..|r|] && AllSpace(s[|r|..])
    ensures |r| > 0 ==> !IsJsSpace(r[|r| - 1])
  {
    if |s| > 0 && IsJsSpace(s[|s| - 1]) then TrimEnd(s[..|s| - 1]) else s
  }

  function Trim(s: string): string {
    TrimEnd(TrimStart(s))
  }

  /** A sequence is what precedes a suffix, then a prefix of that suffix,
      then the rest of the suffix. */
  lemma SplitAround<T>(s: seq<T>, t: seq<T>, r: seq<T>)
    requires |t| <= |s| && t == s[|s| - |t|..]
    requires |r| <= |t| && r == t[..|r|]
    ensures s == s[..|s| - |t|] + r + t[|r|..]
  {
    assert t == r + t[|r|..];
    assert s == s[..|s| - |t|] + t;
  }

  /** `trim()` cuts a run of white space from each end: the runs it cut. */
  lemma TrimParts(s: string) returns (lead: string, trail: string)
    ensures AllSpace(lead) && AllSpace(trail) && s == lead + Trim(s) + trail
  {
    var t := TrimStart(s);
    var r := TrimEnd(t);
    SplitAround(s, t, r);
    lead, trail := s[..|s| - |t|], t[|r|..];
  }

  /** `trim()` cuts a run of white space from each end and leaves a text that
      neither starts nor ends with white space. */
  lemma TrimSpec(s: string)
    ensures exists lead, trail :: AllSpace(lead) && AllSpace(trail) && s == lead + Trim(s) + trail
    ensures |Trim(s)| > 0 ==> !IsJsSpace(Trim(s)[0]) && !IsJsSpace(Trim(s)[|Trim(s)| - 1])
  {
    var lead, trail := TrimParts(s);
    var t := TrimStart(s);
    if |TrimEnd(t)| > 0 {
      assert TrimEnd(t)[0] == t[0];
    }
  }

  /** Text without white space at either end is its own trim. */
  lemma TrimOfTrimmed(s: string)
    requires |s| > 0 ==> !IsJsSpace(s[0]) && !IsJsSpace(s[|s| - 1])
    ensures Trim(s) == s
  {
  }
}
