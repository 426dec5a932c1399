/**
 * The few Python `str` built-ins the services rely on, written out over
 * `seq<char>`: whitespace per `str.isspace()`, `strip`, `rstrip(c)`, `lower`,
 * `find`, `in`, `startswith`/`endswith`, `replace`, `join`, `splitlines`,
 * `len(s.split())` and `str(int)`.
 */
module Strings {
  import opened Wrappers

  /**
   * The characters for which Python's `str.isspace()` holds. They are also
   * what `\s` matches in a `str` regular expression and what `str.strip()`
   * and `str.split()` with no argument treat as whitespace. U+200B (zero
   * width space) is not among them; U+00A0 (no-break space) is.
   */
  predicate IsSpace(c: char) {
    || ('\t' <= c <= '\r')
    || ('\U{1C}' <= c <= ' ')
    || c == '\U{85}'
    || c == '\U{A0}'
    || c == '\U{1680}'
    || ('\U{2000}' <= c <= '\U{200A}')
    || c == '\U{2028}'
    || c == '\U{2029}'
    || c == '\U{202F}'
    || c == '\U{205F}'
    || c == '\U{3000}'
  }

  /** `s.lstrip()`: drops the leading whitespace and nothing else. */
  function TrimStart(s: string): (r: string)
    ensures |r| <= |s|
    ensures r == [] || !IsSpace(r[0])
    ensures forall i :: 0 <= i < |s| - |r| ==> IsSpace(s[i])
  {
    if s != [] && IsSpace(s[0]) then TrimStart(s[1..]) else s
  }

  /** `s.rstrip()`: drops the trailing whitespace and nothing else. */
  function TrimEnd(s: string): (r: string)
    ensures |r| <= |s|
    ensures r == [] || !IsSpace(r[|r| - 1])
    ensures forall i :: |r| <= i < |s| ==> IsSpace(s[i])
  {
    if s != [] && IsSpace(s[|s| - 1]) then TrimEnd(s[..|s| - 1]) else s
  }

  /** What `lstrip` leaves is a suffix of its input. */
  lemma {:induction false} TrimStartIsSuffix(s: string)
    ensures TrimStart(s) == s[|s| - |TrimStart(s)|..]
    decreases |s|
  {
    if s != [] && IsSpace(s[0]) {
      TrimStartIsSuffix(s[1..]);
      assert s[1..][|s| - 1 - |TrimStart(s)|..] == s[|s| - |TrimStart(s)|..];
    }
  }

  /** What `rstrip` leaves is a prefix of its input. */
  lemma {:induction false} TrimEndIsPrefix(s: string)
    ensures TrimEnd(s) == s[..|TrimEnd(s)|]
    decreases |s|
  {
    if s != [] && IsSpace(s[|s| - 1]) {
      TrimEndIsPrefix(s[..|s| - 1]);
      assert s[..|s| - 1][..|TrimEnd(s)|] == s[..|TrimEnd(s)|];
    }
  }

  /** Trailing whitespace is trimmed inside the last part when that part is not all whitespace. */
  lemma {:induction false} TrimEndAppend(a: string, b: string)
    requires TrimEnd(b) != []
    ensures TrimEnd(a + b) == a + TrimEnd(b)
    decreases |b|
  {
    var n := |b| - 1;
    if IsSpace(b[n]) {
      assert (a + b)[..|a + b| - 1] == a + b[..n];
      TrimEndAppend(a, b[..n]);
    }
  }

  /** `s.strip()`. */
  function Strip(s: string): string {
    TrimEnd(TrimStart(s))
  }

  /** Every character is whitespace (the empty string included). */
  predicate AllSpace(s: string) {
    forall i :: 0 <= i < |s| ==> IsSpace(s[i])
  }

  /** `s.strip()` is empty exactly when `s` is all whitespace. */
  lemma StripEmpty(s: string)
    ensures Strip(s) == "" <==> AllSpace(s)
  {
    var a := TrimStart(s);
    TrimStartIsSuffix(s);
    if a != [] {
      assert !IsSpace(a[0]) && a[0] == s[|s| - |a|];
      TrimEndEmpty(a);
    }
  }

  /** `s.rstrip()` is empty exactly when `s` is all whitespace. */
  lemma {:induction false} TrimEndEmpty(s: string)
    ensures TrimEnd(s) == "" <==> AllSpace(s)
    decreases |s|
  {
    if s != [] {
      var n := |s| - 1;
      TrimEndEmpty(s[..n]);
      if IsSpace(s[n]) {
        assert AllSpace(s) <==> AllSpace(s[..n]) by {
          assert forall i :: 0 <= i < n ==> s[..n][i] == s[i];
        }
      }
    }
  }

  /** `s.rstrip(c)` for a one-character argument. */
  function TrimEndChar(s: string, c: char): (r: string)
    ensures |r| <= |s| && r == s[..|r|]
    ensures r == [] || r[|r| - 1] != c
    ensures forall i :: |r| <= i < |s| ==> s[i] == c
  {
    if s != [] && s[|s| - 1] == c then TrimEndChar(s[..|s| - 1], c) else s
  }

  function LowerChar(c: char): char {
    if 'A' <= c <= 'Z' then (c as int + 32) as char else c
  }

  /** `s.lower()` on ASCII letters; every other character is kept. */
  function Lower(s: string): (r: string)
    ensures |r| == |s|
  {
    seq(|s|, i requires 0 <= i < |s| => LowerChar(s[i]))
  }

  /** `s.startswith(prefix)`. */
  predicate StartsWith(s: string, prefix: string) {
    |prefix| <= |s| && s[..|prefix|] == prefix
  }

  /** `s.endswith(suffix)`. */
  predicate EndsWith(s: string, suffix: string) {
    |suffix| <= |s| && s[|s| - |suffix|..] == suffix
  }

  /** `sub in s` for two strings. */
  predicate Contains(s: string, sub: string)
    decreases |s|
  {
    StartsWith(s, sub) || (s != [] && Contains(s[1..], sub))
  }

  /** `s.find(c)` for a one-character argument; Python's -1 is `None` here. */
  function IndexOf(s: string, c: char): (r: Option<nat>)
    ensures r.None? <==> c !in s
    ensures r.Some? ==> r.value < |s| && s[r.value] == c && c !in s[..r.value]
  {
    if s == [] then None
    else if s[0] == c then Some(0)
    else match IndexOf(s[1..], c)
      case None => None
      case Some(k) =>
        assert s[..k + 1] == [s[0]] + s[1..][..k];
        Some(k + 1)
  }

  /** `s.replace(c, with)` for a one-character pattern. */
  function ReplaceChar(s: string, c: char, with: string): string {
    if s == [] then [] else (if s[0] == c then with else [s[0]]) + ReplaceChar(s[1..], c, with)
  }

  /** `sep.join(parts)`. */
  function Join(sep: string, parts: seq<string>): string {
    if parts == [] then ""
    else if |parts| == 1 then parts[0]
    else parts[0] + sep + Join(sep, parts[1..])
  }

  /** The characters at which `str.splitlines()` ends a line. */
  predicate IsLineBreak(c: char) {
    || c == '\n'
    || c == '\r'
    || c == '\U{B}'
    || c == '\U{C}'
    || ('\U{1C}' <= c <= '\U{1E}')
    || c == '\U{85}'
    || c == '\U{2028}'
    || c == '\U{2029}'
  }

  /**
   * The pieces of `s` between line-break characters. It differs from
   * `str.splitlines()` only by extra empty pieces: one inside each "\r\n",
   * one after a final break, and `[""]` for the empty string. Every caller
   * keeps only lines that start with "- ", so those pieces never matter.
   */
  function SplitLines(s: string): (r: seq<string>)
    ensures |r| >= 1
  {
    if s == [] then [""]
    else
      var rest := SplitLines(s[1..]);
      if IsLineBreak(s[0]) then [""] + rest else [[s[0]] + rest[0]] + rest[1..]
  }

  /** The run of non-whitespace characters at the start of `s`. */
  function LeadingWord(s: string): (w: string)
    ensures |w| <= |s| && (|w| == |s| || IsSpace(s[|w|]))
    ensures s != [] && !IsSpace(s[0]) ==> w != []
    ensures forall i :: 0 <= i < |w| ==> w[i] == s[i] && !IsSpace(w[i])
  {
    if s == [] || IsSpace(s[0]) then [] else [s[0]] + LeadingWord(s[1..])
  }

  /** `s.split()`: the maximal runs of non-whitespace characters, in order. */
  function Words(s: string): seq<string>
    decreases |s|
  {
    if s == [] then []
    else if IsSpace(s[0]) then Words(s[1..])
    else
      var w := LeadingWord(s);
      [w] + Words(s[|w|..])
  }

  /** Leading whitespace does not change the words. */
  lemma {:induction false} WordsTrimStart(s: string)
    ensures Words(TrimStart(s)) == Words(s)
    decreases |s|
  {
    if s != [] && IsSpace(s[0]) {
      WordsTrimStart(s[1..]);
    }
  }

  /** `len(s.split())`: the number of maximal runs of non-whitespace. */
  function WordCount(s: string): nat {
    if s == [] then 0
    else
      var n := |s| - 1;
      WordCount(s[..n]) + (if !IsSpace(s[n]) && (n == 0 || IsSpace(s[n - 1])) then 1 else 0)
  }

  function DigitChar(d: nat): char
    requires d < 10
  {
    ('0' as int + d) as char
  }

  /** `str(n)` for a non-negative integer. */
  function NatToDecimal(n: nat): (r: string)
    ensures |r| >= 1
    ensures n < 10 <==> |r| == 1
  {
    if n < 10 then [DigitChar(n)] else NatToDecimal(n / 10) + [DigitChar(n % 10)]
  }

  /** `str(i)` for any integer. */
  function IntToDecimal(i: int): string {
    if i < 0 then "-" + NatToDecimal(-i) else NatToDecimal(i)
  }

  /** `int(s)` for a string of decimal digits, read from the left. */
  function NatValue(s: string): int
    decreases |s|
  {
    if s == [] then 0 else NatValue(s[..|s| - 1]) * 10 + (s[|s| - 1] as int - '0' as int)
  }

  /** `int(s)` for an optionally negative decimal numeral. */
  function IntValue(s: string): int {
    if s != [] && s[0] == '-' then -NatValue(s[1..]) else NatValue(s)
  }

  /** Reading back a printed natural number gives the number. */
  lemma {:induction false} NatToDecimalRoundTrip(n: nat)
    ensures NatValue(NatToDecimal(n)) == n
    decreases n
  {
    if n >= 10 {
      var r := NatToDecimal(n);
      NatToDecimalRoundTrip(n / 10);
      assert r[..|r| - 1] == NatToDecimal(n / 10);
    }
  }

  /** `int(str(i)) == i`, so distinct numbers print differently. */
  lemma IntToDecimalRoundTrip(i: int)
    ensures IntValue(IntToDecimal(i)) == i
  {
    if i < 0 {
      var d := NatToDecimal(-i);
      NatToDecimalRoundTrip(-i);
      assert IntToDecimal(i) == "-" + d && ("-" + d)[1..] == d;
    } else {
      var d := NatToDecimal(i);
      NatToDecimalFirstIsDigit(i);
      NatToDecimalRoundTrip(i);
      assert IntToDecimal(i) == d && d[0] != '-';
    }
  }

  lemma {:induction false} NatToDecimalFirstIsDigit(n: nat)
    ensures '0' <= NatToDecimal(n)[0] <= '9'
  {
    if n >= 10 {
      NatToDecimalFirstIsDigit(n / 10);
    }
  }
}
