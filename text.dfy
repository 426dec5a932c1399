/**
 * The text normaliser `clean_text` (app/utils/text.py): U+200B and U+00A0
 * become spaces, every whitespace run becomes one space, and the ends are
 * trimmed.
 */
module Text {
  import opened Strings

  const ZeroWidthSpace: char := '\U{200B}'
  const NoBreakSpace: char := '\U{A0}'

  /** The characters of `s` that are neither whitespace nor U+200B, in order. */
  function Visible(s: string): string {
    if s == [] then []
    else (if IsSpace(s[0]) || s[0] == ZeroWidthSpace then [] else [s[0]]) + Visible(s[1..])
  }

  /** The non-whitespace characters of `s`, in order. */
  function NonSpace(s: string): string {
    if s == [] then [] else (if IsSpace(s[0]) then [] else [s[0]]) + NonSpace(s[1..])
  }

  /** Every whitespace character of `r` is a plain space. */
  predicate OnlyPlainSpaces(r: string) {
    forall i :: 0 <= i < |r| ==> IsSpace(r[i]) ==> r[i] == ' '
  }

  /** No two whitespace characters of `r` are adjacent. */
  predicate NoSpaceRun(r: string) {
    forall i :: 0 < i < |r| ==> !(IsSpace(r[i - 1]) && IsSpace(r[i]))
  }

  /** What `clean_text` promises of its output. */
  predicate IsClean(r: string) {
    && ZeroWidthSpace !in r
    && OnlyPlainSpaces(r)
    && NoSpaceRun(r)
    && (r != [] ==> !IsSpace(r[0]) && !IsSpace(r[|r| - 1]))
  }

  /** The two `replace` calls of `clean_text`. */
  function ReplaceInvisible(s: string): string {
    ReplaceChar(ReplaceChar(s, ZeroWidthSpace, " "), NoBreakSpace, " ")
  }

  /** `re.sub(r'\s+', ' ', s)`: each maximal whitespace run becomes one space. */
  function CollapseSpace(s: string): (r: string)
    ensures |r| <= |s|
    ensures s != [] && !IsSpace(s[0]) ==> r != [] && r[0] == s[0]
    decreases |s|
  {
    if s == [] then []
    else if IsSpace(s[0]) then [' '] + CollapseSpace(TrimStart(s[1..]))
    else [s[0]] + CollapseSpace(s[1..])
  }

  /** Every whitespace character the substitution yields is a plain space. */
  lemma {:induction false} CollapseSpacePlain(s: string)
    ensures OnlyPlainSpaces(CollapseSpace(s))
    decreases |s|
  {
    if s != [] {
      var t := if IsSpace(s[0]) then TrimStart(s[1..]) else s[1..];
      var head := if IsSpace(s[0]) then ' ' else s[0];
      var rest := CollapseSpace(t);
      CollapseSpacePlain(t);
      var r := [head] + rest;
      assert CollapseSpace(s) == r;
      forall i | 0 <= i < |r| && IsSpace(r[i])
        ensures r[i] == ' '
      {
        if i > 0 {
          assert r[i] == rest[i - 1];
        }
      }
    }
  }

  /** Every character the substitution yields is a plain space or a character of the input. */
  lemma {:induction false} CollapseSpaceFrom(s: string)
    ensures forall c :: c in CollapseSpace(s) ==> c == ' ' || c in s
    decreases |s|
  {
    if s != [] {
      var k := if IsSpace(s[0]) then |s| - |TrimStart(s[1..])| else 1;
      var t := s[k..];
      if IsSpace(s[0]) {
        TrimStartIsSuffix(s[1..]);
      }
      assert CollapseSpace(s) == [CollapseSpace(s)[0]] + CollapseSpace(t);
      CollapseSpaceFrom(t);
      SuffixMembers(s, k);
    }
  }

  lemma SuffixMembers(s: string, k: nat)
    requires k <= |s|
    ensures forall c :: c in s[k..] ==> c in s
  {
    forall c | c in s[k..]
      ensures c in s
    {
      var j :| 0 <= j < |s| - k && s[k..][j] == c;
      assert s[k + j] == c;
    }
  }

  /** Every character the substitution yields is a plain space or a non-whitespace character of the input. */
  lemma CollapseSpaceChars(s: string)
    ensures forall i :: 0 <= i < |CollapseSpace(s)| ==>
      CollapseSpace(s)[i] == ' ' || (!IsSpace(CollapseSpace(s)[i]) && CollapseSpace(s)[i] in s)
  {
    CollapseSpacePlain(s);
    CollapseSpaceFrom(s);
  }

  /** The substitution never leaves two whitespace characters side by side. */
  lemma {:induction false} CollapseSpaceNoRun(s: string)
    ensures NoSpaceRun(CollapseSpace(s))
    decreases |s|
  {
    if s != [] {
      var t := if IsSpace(s[0]) then TrimStart(s[1..]) else s[1..];
      var head := if IsSpace(s[0]) then ' ' else s[0];
      var rest := CollapseSpace(t);
      CollapseSpaceNoRun(t);
      var r := [head] + rest;
      assert CollapseSpace(s) == r;
      assert rest != [] ==> !IsSpace(head) || !IsSpace(rest[0]);
      forall i | 0 < i < |r|
        ensures !(IsSpace(r[i - 1]) && IsSpace(r[i]))
      {
        if i > 1 {
          assert r[i - 1] == rest[i - 2] && r[i] == rest[i - 1];
        }
      }
    }
  }

  /** The substitution leaves only single plain spaces and brings in no other character. */
  lemma CollapseSpaceShape(s: string)
    ensures OnlyPlainSpaces(CollapseSpace(s)) && NoSpaceRun(CollapseSpace(s))
    ensures ZeroWidthSpace !in s ==> ZeroWidthSpace !in CollapseSpace(s)
  {
    CollapseSpaceChars(s);
    CollapseSpaceNoRun(s);
  }

  /** The substitution keeps the non-whitespace characters, in order. */
  lemma {:induction false} CollapseSpaceNonSpace(s: string)
    ensures NonSpace(CollapseSpace(s)) == NonSpace(s)
    decreases |s|
  {
    if s != [] {
      if IsSpace(s[0]) {
        var rest := CollapseSpace(TrimStart(s[1..]));
        CollapseSpaceNonSpace(TrimStart(s[1..]));
        NonSpaceTrimStart(s[1..]);
        assert ([' '] + rest)[1..] == rest;
      } else {
        var rest := CollapseSpace(s[1..]);
        CollapseSpaceNonSpace(s[1..]);
        assert ([s[0]] + rest)[1..] == rest;
      }
    }
  }

  /** `clean_text(s)`: empty input gives "", anything else is normalised. */
  function CleanText(s: string): (r: string)
    ensures s == [] ==> r == []
    ensures |r| <= |s|
    ensures IsClean(r)
  {
    if s == [] then ""
    else
      var x := ReplaceInvisible(s);
      ReplaceCharToSpace(s, ZeroWidthSpace);
      ReplaceCharToSpace(ReplaceChar(s, ZeroWidthSpace, " "), NoBreakSpace);
      var y := CollapseSpace(x);
      CollapseSpaceShape(x);
      StripKeepsClean(y);
      Strip(y)
  }

  /** `clean_text` keeps the visible characters: its output's non-whitespace characters are the input's characters other than whitespace and U+200B, in order. */
  lemma CleanTextKeepsVisible(s: string)
    ensures NonSpace(CleanText(s)) == Visible(s)
  {
    if s != [] {
      var x := ReplaceInvisible(s);
      VisibleAfterReplace(s);
      NonSpaceAfterReplace(ReplaceChar(s, ZeroWidthSpace, " "));
      CollapseSpaceNonSpace(x);
      NonSpaceStrip(CollapseSpace(x));
    }
  }

  /** The two replacements together turn each U+200B and U+00A0 into a space and keep every other character in place. */
  lemma ReplaceInvisibleAt(s: string)
    ensures |ReplaceInvisible(s)| == |s|
    ensures forall i :: 0 <= i < |s| ==>
      ReplaceInvisible(s)[i] == if s[i] == ZeroWidthSpace || s[i] == NoBreakSpace then ' ' else s[i]
  {
    ReplaceCharToSpace(s, ZeroWidthSpace);
    ReplaceCharToSpace(ReplaceChar(s, ZeroWidthSpace, " "), NoBreakSpace);
  }

  /** Replacing a character by a space keeps the length and touches nothing else. */
  lemma {:induction false} ReplaceCharToSpace(s: string, c: char)
    ensures |ReplaceChar(s, c, " ")| == |s|
    ensures forall i :: 0 <= i < |s| ==>
      ReplaceChar(s, c, " ")[i] == if s[i] == c then ' ' else s[i]
  {
    if s != [] {
      ReplaceCharToSpace(s[1..], c);
    }
  }

  /** After the U+200B replacement, the non-whitespace characters are the visible ones. */
  lemma {:induction false} VisibleAfterReplace(s: string)
    ensures NonSpace(ReplaceChar(s, ZeroWidthSpace, " ")) == Visible(s)
  {
    if s != [] {
      VisibleAfterReplace(s[1..]);
      var head := if s[0] == ZeroWidthSpace then " " else [s[0]];
      NonSpaceAppend(head, ReplaceChar(s[1..], ZeroWidthSpace, " "));
    }
  }

  /** Replacing U+00A0, itself whitespace, by a space keeps the non-whitespace characters. */
  lemma {:induction false} NonSpaceAfterReplace(s: string)
    ensures NonSpace(ReplaceChar(s, NoBreakSpace, " ")) == NonSpace(s)
  {
    if s != [] {
      NonSpaceAfterReplace(s[1..]);
      var head := if s[0] == NoBreakSpace then " " else [s[0]];
      NonSpaceAppend(head, ReplaceChar(s[1..], NoBreakSpace, " "));
    }
  }

  lemma {:induction false} NonSpaceAppend(a: string, b: string)
    ensures NonSpace(a + b) == NonSpace(a) + NonSpace(b)
  {
    if a != [] {
      var head := if IsSpace(a[0]) then [] else [a[0]];
      assert (a + b)[0] == a[0] && (a + b)[1..] == a[1..] + b;
      NonSpaceAppend(a[1..], b);
      calc {
        NonSpace(a + b);
        head + NonSpace(a[1..] + b);
        head + (NonSpace(a[1..]) + NonSpace(b));
        (head + NonSpace(a[1..])) + NonSpace(b);
      }
    } else {
      assert a + b == b;
    }
  }

  lemma {:induction false} NonSpaceTrimStart(s: string)
    ensures NonSpace(TrimStart(s)) == NonSpace(s)
  {
    if s != [] && IsSpace(s[0]) {
      NonSpaceTrimStart(s[1..]);
    }
  }

  lemma {:induction false} NonSpaceTrimEnd(s: string)
    ensures NonSpace(TrimEnd(s)) == NonSpace(s)
  {
    if s != [] && IsSpace(s[|s| - 1]) {
      var n := |s| - 1;
      NonSpaceTrimEnd(s[..n]);
      assert s == s[..n] + [s[n]];
      NonSpaceAppend(s[..n], [s[n]]);
    }
  }

  lemma NonSpaceStrip(s: string)
    ensures NonSpace(Strip(s)) == NonSpace(s)
  {
    NonSpaceTrimStart(s);
    NonSpaceTrimEnd(TrimStart(s));
  }

  /** `clean_text(s)` is `" ".join(s.split())` once U+200B and U+00A0 are spaces: the words, each separated by exactly one space. */
  lemma CleanTextWords(s: string)
    ensures CleanText(s) == Join(" ", Words(ReplaceInvisible(s)))
  {
    if s != [] {
      var x := ReplaceInvisible(s);
      TrimStartCollapse(x);
      CollapsedWords(TrimStart(x));
      WordsTrimStart(x);
    }
  }

  /** The substitution copies a leading word as it is. */
  lemma {:induction false} CollapseSpaceWord(y: string)
    ensures CollapseSpace(y) == LeadingWord(y) + CollapseSpace(y[|LeadingWord(y)|..])
    decreases |y|
  {
    if y != [] && !IsSpace(y[0]) {
      CollapseSpaceWord(y[1..]);
      var w' := LeadingWord(y[1..]);
      assert y[1..][|w'|..] == y[1 + |w'|..];
    }
  }

  /** Trimming the front before or after the substitution gives the same string. */
  lemma TrimStartCollapse(x: string)
    ensures TrimStart(CollapseSpace(x)) == CollapseSpace(TrimStart(x))
  {
    if x != [] && IsSpace(x[0]) {
      var c := CollapseSpace(TrimStart(x[1..]));
      assert CollapseSpace(x) == [' '] + c;
      assert ([' '] + c)[1..] == c;
    }
  }

  /** From a string that starts with a word, the substitution followed by `rstrip` joins the words with single spaces. */
  lemma {:induction false} CollapsedWords(y: string)
    requires y == [] || !IsSpace(y[0])
    ensures TrimEnd(CollapseSpace(y)) == Join(" ", Words(y))
    decreases |y|
  {
    if y != [] {
      var w := LeadingWord(y);
      var z := TrimStart(y[|w|..]);
      WordSplit(y);
      TrimEndWord(w);
      if |w| < |y| && z != [] {
        CollapsedWords(z);
        JoinStep(w, Words(z), CollapseSpace(z));
      }
    }
  }

  /** A string that starts with a word is that word, then whitespace, then the rest from its next word. */
  lemma WordSplit(y: string)
    requires y != [] && !IsSpace(y[0])
    ensures var w := LeadingWord(y);
      var z := TrimStart(y[|w|..]);
      && w != [] && (z == [] || !IsSpace(z[0])) && |z| < |y|
      && Words(y) == [w] + Words(z)
      && CollapseSpace(y) == (if |w| == |y| then w else w + [' '] + CollapseSpace(z))
  {
    var w := LeadingWord(y);
    var rest := y[|w|..];
    CollapseSpaceWord(y);
    WordsTrimStart(rest);
    if rest != [] {
      assert CollapseSpace(rest) == [' '] + CollapseSpace(TrimStart(rest));
    }
  }

  /** A word is left alone by `rstrip`, with or without one space after it. */
  lemma TrimEndWord(w: string)
    requires w != [] && forall i :: 0 <= i < |w| ==> !IsSpace(w[i])
    ensures TrimEnd(w) == w && TrimEnd(w + [' ']) == w
  {
    assert (w + [' '])[..|w|] == w;
  }

  /** A word, one space, and a string whose `rstrip` joins some words: `rstrip` joins the word and those words. */
  lemma JoinStep(w: string, ws: seq<string>, c: string)
    requires c != [] && !IsSpace(c[0]) && TrimEnd(c) == Join(" ", ws)
    ensures TrimEnd(w + [' '] + c) == Join(" ", [w] + ws)
  {
    TrimEndEmpty(c);
    assert !AllSpace(c);
    TrimEndAppend(w + [' '], c);
    assert ws != [];
    assert ([w] + ws)[1..] == ws;
  }

  /** What the substitution guarantees, kept by every slice. */
  predicate Collapsed(y: string) {
    ZeroWidthSpace !in y && OnlyPlainSpaces(y) && NoSpaceRun(y)
  }

  lemma CollapsedSlice(y: string, i: nat, j: nat)
    requires i <= j <= |y| && Collapsed(y)
    ensures Collapsed(y[i..j])
  {
    var z := y[i..j];
    assert forall k :: 0 <= k < |z| ==> z[k] == y[i + k];
  }

  /** Stripping a collapsed string leaves a clean one. */
  lemma StripKeepsClean(y: string)
    requires Collapsed(y)
    ensures IsClean(Strip(y))
  {
    var a := TrimStart(y);
    var z := TrimEnd(a);
    TrimStartIsSuffix(y);
    TrimEndIsPrefix(a);
    CollapsedSlice(y, |y| - |a|, |y|);
    CollapsedSlice(a, 0, |z|);
    assert z != [] ==> z[0] == a[0];
  }

  /** A clean string is its own normal form. */
  lemma CleanTextOfClean(t: string)
    requires IsClean(t)
    ensures CleanText(t) == t
  {
    if t != [] {
      ReplaceCharAbsent(t, ZeroWidthSpace);
      assert forall i :: 0 <= i < |t| ==> t[i] != NoBreakSpace;
      ReplaceCharAbsent(t, NoBreakSpace);
      CollapseSpaceOfCollapsed(t);
    }
  }

  lemma {:induction false} ReplaceCharAbsent(s: string, c: char)
    requires c !in s
    ensures ReplaceChar(s, c, " ") == s
  {
    if s != [] {
      ReplaceCharAbsent(s[1..], c);
    }
  }

  /** A string whose whitespace is already single plain spaces is left alone by the substitution. */
  lemma {:induction false} CollapseSpaceOfCollapsed(t: string)
    requires OnlyPlainSpaces(t) && NoSpaceRun(t)
    ensures CollapseSpace(t) == t
    decreases |t|
  {
    if t != [] {
      var rest := t[1..];
      assert OnlyPlainSpaces(rest) && NoSpaceRun(rest) by {
        assert forall i :: 0 <= i < |rest| ==> rest[i] == t[i + 1];
      }
      if IsSpace(t[0]) {
        assert rest == [] || !IsSpace(rest[0]);
        assert TrimStart(rest) == rest;
      }
      CollapseSpaceOfCollapsed(rest);
      assert t == [t[0]] + rest;
    }
  }

  /** `clean_text(clean_text(s)) == clean_text(s)`. */
  lemma CleanTextIdempotent(s: string)
    ensures CleanText(CleanText(s)) == CleanText(s)
  {
    CleanTextOfClean(CleanText(s));
  }
}
