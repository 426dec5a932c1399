/**
 * The post-processing of the recommendation generator
 * (app/nlp/recommender_llm.py): the scan for the first balanced JSON array
 * in the model's reply, the order-keeping case-insensitive dedupe, the
 * sampling of review texts into the prompt, and the chain that accepts the
 * JSON reply, falls back to a bullet-list reply, and finally to five fixed
 * recommendations.
 *
 * The text-generation model is the pair of functions in `Llm`, from the
 * reviews block to the reply for the JSON prompt and for the bullet prompt;
 * `json.loads` and `str()` of a decoded value are its other two members.
 */
module RecommenderLlm {
  import opened Wrappers
  import opened Strings
  import opened JsonValue

  // ---------------------------------------------------------------------------
  // `_extract_json_array`
  // ---------------------------------------------------------------------------

  /** The scanner's variables `depth`, `in_str` and `esc`. */
  datatype Scan = ScanState(depth: int, inStr: bool, esc: bool)

  function Initial(): Scan {
    ScanState(0, false, false)
  }

  /** One character of the scan. Only `[` and `]` outside a string move the depth. */
  function Step(st: Scan, ch: char): Scan {
    if st.inStr then
      if st.esc then st.(esc := false)
      else if ch == '\\' then st.(esc := true)
      else if ch == '"' then st.(inStr := false)
      else st
    else if ch == '"' then st.(inStr := true)
    else if ch == '[' then st.(depth := st.depth + 1)
    else if ch == ']' then st.(depth := st.depth - 1)
    else st
  }

  /** The state after scanning `s` from `st`. */
  function Run(st: Scan, s: string): Scan
    decreases |s|
  {
    if s == [] then st else Step(Run(st, s[..|s| - 1]), s[|s| - 1])
  }

  /** At state `st`, `ch` is a `]` outside any string that brings the depth back to 0. */
  predicate Closes(st: Scan, ch: char) {
    !st.inStr && ch == ']' && st.depth - 1 == 0
  }

  /** The first index at or after `i` at which the scan that began at `start` closes. */
  function CloseFrom(text: string, start: nat, i: nat): (r: Option<nat>)
    requires start <= i <= |text|
    ensures r.Some? ==> i <= r.value < |text| && Closes(Run(Initial(), text[start..r.value]), text[r.value])
    decreases |text| - i
  {
    if i == |text| then None
    else if Closes(Run(Initial(), text[start..i]), text[i]) then Some(i)
    else CloseFrom(text, start, i + 1)
  }

  /** What `_extract_json_array(text)` returns. */
  function JsonArrayOf(text: string): Option<string> {
    var found := IndexOf(text, '[');
    if found.None? then None
    else
      var close := CloseFrom(text, found.value, found.value);
      if close.None? then None else Some(text[found.value..close.value + 1])
  }

  /** `_extract_json_array(text)`: the scan loop from the first `[`. */
  method ExtractJsonArray(text: string) returns (r: Option<string>)
    ensures r == JsonArrayOf(text)
  {
    var found := IndexOf(text, '[');
    if found.None? {
      return None;
    }
    var start := found.value;
    var depth, inStr, esc := 0, false, false;
    var i := start;
    while i < |text|
      invariant start <= i <= |text|
      invariant ScanState(depth, inStr, esc) == Run(Initial(), text[start..i])
      invariant CloseFrom(text, start, start) == CloseFrom(text, start, i)
    {
      var ch := text[i];
      assert text[start..i + 1][..i - start] == text[start..i];
      assert Run(Initial(), text[start..i + 1]) == Step(ScanState(depth, inStr, esc), ch);
      if inStr {
        if esc {
          esc := false;
        } else if ch == '\\' {
          esc := true;
        } else if ch == '"' {
          inStr := false;
        }
      } else {
        if ch == '"' {
          inStr := true;
        } else if ch == '[' {
          depth := depth + 1;
        } else if ch == ']' {
          depth := depth - 1;
          if depth == 0 {
            return Some(text[start..i + 1]);
          }
        }
      }
      i := i + 1;
    }
    return None;
  }

  /** No close is found from `i` exactly when no index at or after `i` closes. */
  lemma {:induction false} CloseFromNone(text: string, start: nat, i: nat)
    requires start <= i <= |text|
    ensures CloseFrom(text, start, i).None? <==>
      forall j :: i <= j < |text| ==> !Closes(Run(Initial(), text[start..j]), text[j])
    decreases |text| - i
  {
    if i < |text| && !Closes(Run(Initial(), text[start..i]), text[i]) {
      CloseFromNone(text, start, i + 1);
    }
  }

  /** The close found from `i` is the first index at or after `i` that closes. */
  lemma {:induction false} CloseFromFirst(text: string, start: nat, i: nat)
    requires start <= i <= |text|
    ensures CloseFrom(text, start, i).Some? ==>
      forall j :: i <= j < CloseFrom(text, start, i).value ==> !Closes(Run(Initial(), text[start..j]), text[j])
    decreases |text| - i
  {
    if i < |text| && !Closes(Run(Initial(), text[start..i]), text[i]) {
      CloseFromFirst(text, start, i + 1);
    }
  }

  /** Without a `[` there is no array. */
  lemma NoBracketNoArray(text: string)
    requires '[' !in text
    ensures JsonArrayOf(text) == None
  {
  }

  /** From the first `[` at `start`, there is no array exactly when no later `]` brings the depth back to 0. */
  lemma JsonArrayOfNone(text: string, start: nat)
    requires IndexOf(text, '[') == Some(start)
    ensures JsonArrayOf(text).None? <==>
      forall j :: start <= j < |text| ==> !Closes(Run(Initial(), text[start..j]), text[j])
  {
    CloseFromNone(text, start, start);
  }

  /** When `k` is the first index at or after `i` that closes, the close found from `i` is `k`. */
  lemma {:induction false} CloseFromFinds(text: string, start: nat, i: nat, k: nat)
    requires start <= i <= k < |text| && Closes(Run(Initial(), text[start..k]), text[k])
    requires forall j :: i <= j < k ==> !Closes(Run(Initial(), text[start..j]), text[j])
    ensures CloseFrom(text, start, i) == Some(k)
    decreases k - i
  {
    if i < k {
      CloseFromFinds(text, start, i + 1, k);
    }
  }

  /** When the `]` at `k` is the first to bring the depth back to 0, the array is the slice from the first `[` to `k`. */
  lemma JsonArrayOfFirstClose(text: string, start: nat, k: nat)
    requires IndexOf(text, '[') == Some(start)
    requires start <= k < |text| && Closes(Run(Initial(), text[start..k]), text[k])
    requires forall j :: start <= j < k ==> !Closes(Run(Initial(), text[start..j]), text[j])
    ensures JsonArrayOf(text) == Some(text[start..k + 1])
  {
    CloseFromFinds(text, start, start, k);
    assert CloseFrom(text, start, start).value == k;
  }

  /** A found array starts with `[`, ends with the `]` that closes it, and scans to depth 0 outside any string. */
  lemma ArrayIsBalanced(text: string, b: string)
    requires JsonArrayOf(text) == Some(b)
    ensures |b| >= 2 && b[0] == '[' && b[|b| - 1] == ']'
    ensures Run(Initial(), b).depth == 0 && !Run(Initial(), b).inStr
  {
    var start := IndexOf(text, '[').value;
    var k := CloseFrom(text, start, start).value;
    assert text[start] == '[' && text[k] == ']';
    assert b == text[start..k + 1];
    assert b[..|b| - 1] == text[start..k];
  }

  /** Scanning a concatenation is scanning one part after the other. */
  lemma {:induction false} RunAppend(st: Scan, a: string, b: string)
    ensures Run(st, a + b) == Run(Run(st, a), b)
    decreases |b|
  {
    if b == [] {
      assert a + b == a;
    } else {
      var n := |b| - 1;
      RunAppend(st, a, b[..n]);
      assert (a + b)[..|a + b| - 1] == a + b[..n];
    }
  }

  /** The text between the quotes of a JSON string: plain characters and backslash escapes. */
  predicate StringBody(s: string)
    decreases |s|
  {
    s == []
    || (s[0] != '"' && s[0] != '\\' && StringBody(s[1..]))
    || (|s| >= 2 && s[0] == '\\' && StringBody(s[2..]))
  }

  /** Inside a string, its body leaves the scan where it was, whatever brackets or escaped quotes it holds. */
  lemma {:induction false} BodyKeepsScan(st: Scan, s: string)
    requires st.inStr && !st.esc && StringBody(s)
    ensures Run(st, s) == st
    decreases |s|
  {
    if s != [] {
      if s[0] == '\\' && |s| >= 2 && StringBody(s[2..]) {
        RunAppend(st, s[..2], s[2..]);
        assert s[..2] == s[..2][..1] + [s[1]];
        assert s[..2][..1] == [s[0]];
        assert Run(st, [s[0]]) == Step(Run(st, []), s[0]);
        BodyKeepsScan(st, s[2..]);
        assert s == s[..2] + s[2..];
      } else {
        RunAppend(st, [s[0]], s[1..]);
        assert Run(st, [s[0]]) == Step(Run(st, []), s[0]);
        BodyKeepsScan(st, s[1..]);
        assert s == [s[0]] + s[1..];
      }
    }
  }

  /** A quoted JSON string outside any string changes neither the depth nor the string state. */
  lemma StringLiteralTransparent(st: Scan, body: string)
    requires !st.inStr && !st.esc && StringBody(body)
    ensures Run(st, ['"'] + body + ['"']) == st
  {
    var inside := st.(inStr := true);
    assert Run(st, ['"']) == Step(Run(st, []), '"') == inside;
    RunAppend(st, ['"'], body);
    BodyKeepsScan(inside, body);
    RunAppend(st, ['"'] + body, ['"']);
    assert Run(inside, ['"']) == Step(Run(inside, []), '"');
  }

  // ---------------------------------------------------------------------------
  // `_dedupe_keep_order`
  // ---------------------------------------------------------------------------

  /** `t.lower().rstrip(".")` for `t = str(s).strip()`, with `lower()` folding ASCII letters only. */
  function Key(s: string): string {
    TrimEndChar(Lower(Strip(s)), '.')
  }

  /** `t.rstrip(".")`, the form an item is kept in. */
  function Display(s: string): string {
    TrimEndChar(Strip(s), '.')
  }

  /** The set `seen` after the items: their non-empty keys. */
  function Seen(items: seq<string>): set<string>
    decreases |items|
  {
    if items == [] then {}
    else
      var n := |items| - 1;
      Seen(items[..n]) + (if Key(items[n]) != "" then {Key(items[n])} else {})
  }

  /** The list `out` after the items: each item whose key is non-empty and new. */
  function Dedupe(items: seq<string>): seq<string>
    decreases |items|
  {
    if items == [] then []
    else
      var n := |items| - 1;
      var k := Key(items[n]);
      Dedupe(items[..n]) + (if k != "" && k !in Seen(items[..n]) then [Display(items[n])] else [])
  }

  /** `_dedupe_keep_order(items)`. */
  method DedupeKeepOrder(items: seq<string>) returns (out: seq<string>)
    ensures out == Dedupe(items)
  {
    var seen: set<string> := {};
    out := [];
    for i := 0 to |items|
      invariant seen == Seen(items[..i])
      invariant out == Dedupe(items[..i])
    {
      DedupeSnoc(items, i);
      var key := Key(items[i]);
      if key != "" && key !in seen {
        seen := seen + {key};
        out := out + [Display(items[i])];
      }
    }
    assert items[..|items|] == items;
  }

  /** One more item: its key joins `seen`, and its kept form is appended when the key is non-empty and new. */
  lemma DedupeSnoc(items: seq<string>, i: nat)
    requires i < |items|
    ensures Seen(items[..i + 1]) == Seen(items[..i]) + (if Key(items[i]) != "" then {Key(items[i])} else {})
    ensures Dedupe(items[..i + 1]) == Dedupe(items[..i]) +
      (if Key(items[i]) != "" && Key(items[i]) !in Seen(items[..i]) then [Display(items[i])] else [])
  {
    assert items[..i + 1][..i] == items[..i];
  }

  /** Lowercasing keeps the dots where they are, so the key is the lowercased kept form. */
  lemma {:induction false} KeyIsLowerDisplay(s: string)
    ensures Key(s) == Lower(Display(s))
  {
    LowerTrimEndDot(Strip(s));
  }

  lemma {:induction false} LowerTrimEndDot(t: string)
    ensures TrimEndChar(Lower(t), '.') == Lower(TrimEndChar(t, '.'))
    decreases |t|
  {
    if t != [] {
      var n := |t| - 1;
      assert Lower(t)[..n] == Lower(t[..n]);
      if t[n] == '.' {
        LowerTrimEndDot(t[..n]);
      }
    }
  }

  /** One kept item per distinct non-empty key. */
  lemma {:induction false} DedupeCount(items: seq<string>)
    ensures |Dedupe(items)| == |Seen(items)|
    decreases |items|
  {
    if items != [] {
      var n := |items| - 1;
      var pre, k := items[..n], Key(items[n]);
      DedupeCount(pre);
      if k != "" && k !in Seen(pre) {
        assert Seen(items) == Seen(pre) + {k};
      } else {
        assert Seen(items) == Seen(pre);
      }
    }
  }

  /** Every kept item is the stripped, dot-trimmed form of an input item with a non-empty key. */
  lemma {:induction false} DedupeFrom(items: seq<string>)
    ensures forall e :: e in Dedupe(items) ==> exists x :: x in items && Key(x) != "" && e == Display(x)
    decreases |items|
  {
    if items != [] {
      var n := |items| - 1;
      var pre := items[..n];
      DedupeFrom(pre);
      DedupeSnoc(items, n);
      assert items[..n + 1] == items;
      forall e | e in Dedupe(items)
        ensures exists x :: x in items && Key(x) != "" && e == Display(x)
      {
        if e in Dedupe(pre) {
          var x :| x in pre && Key(x) != "" && e == Display(x);
          assert x in items;
        } else {
          assert items[n] in items;
        }
      }
    }
  }

  /** The lowercased form of every kept item is among the keys seen. */
  lemma {:induction false} DedupeKeysSeen(items: seq<string>)
    ensures forall e :: e in Dedupe(items) ==> Lower(e) in Seen(items)
    decreases |items|
  {
    if items != [] {
      var n := |items| - 1;
      DedupeKeysSeen(items[..n]);
      DedupeSnoc(items, n);
      assert items[..n + 1] == items;
      KeyIsLowerDisplay(items[n]);
    }
  }

  /** No two kept items are equal up to case. */
  lemma {:induction false} DedupeDistinct(items: seq<string>)
    ensures forall i, j :: 0 <= i < j < |Dedupe(items)| ==> Lower(Dedupe(items)[i]) != Lower(Dedupe(items)[j])
    decreases |items|
  {
    if items != [] {
      var n := |items| - 1;
      var pre := items[..n];
      DedupeDistinct(pre);
      DedupeKeysSeen(pre);
      DedupeSnoc(items, n);
      assert items[..n + 1] == items;
      KeyIsLowerDisplay(items[n]);
      var front := Dedupe(pre);
      var all := Dedupe(items);
      forall i, j | 0 <= i < j < |all|
        ensures Lower(all[i]) != Lower(all[j])
      {
        assert all[i] == front[i] && front[i] in front;
        if j < |front| {
          assert all[j] == front[j];
        }
      }
    }
  }

  /** Every kept item is non-empty and does not end with '.'. */
  lemma DedupeTrimmed(items: seq<string>)
    ensures forall e :: e in Dedupe(items) ==> e != [] && e[|e| - 1] != '.'
  {
    DedupeFrom(items);
    forall e | e in Dedupe(items)
      ensures e != [] && e[|e| - 1] != '.'
    {
      var x :| x in items && Key(x) != "" && e == Display(x);
      DisplayNonEmpty(x);
    }
  }

  /** An item's kept form is non-empty exactly when its key is. */
  lemma DisplayNonEmpty(s: string)
    ensures Key(s) != "" <==> Display(s) != ""
  {
    KeyIsLowerDisplay(s);
  }

  /** The first item with a given non-empty key is kept, in input order: what is kept from a prefix stays at the front. */
  lemma {:induction false} DedupePrefix(items: seq<string>, k: nat)
    requires k <= |items|
    ensures Dedupe(items[..k]) <= Dedupe(items)
    decreases |items|
  {
    if k < |items| {
      var n := |items| - 1;
      DedupePrefix(items[..n], k);
      assert items[..n][..k] == items[..k];
    } else {
      assert items[..k] == items;
    }
  }

  // ---------------------------------------------------------------------------
  // `_format_reviews_block`
  // ---------------------------------------------------------------------------

  const PerItemChars: nat := 240
  const MaxItems: nat := 10

  /** `[t.strip() for t in negative_texts if t and t.strip()]`: `t and t.strip()` is falsy exactly when `t` is all whitespace. */
  function NonBlank(texts: seq<string>): (r: seq<string>)
    ensures |r| <= |texts|
    ensures forall x :: x in r ==> x != ""
  {
    if texts == [] then []
    else
      StripEmpty(texts[0]);
      (if !AllSpace(texts[0]) then [Strip(texts[0])] else []) + NonBlank(texts[1..])
  }

  /** `texts[:10]` when there are at most ten, else the first five and the last five. */
  function Sample(texts: seq<string>): seq<string> {
    if |texts| <= MaxItems then texts
    else texts[..MaxItems / 2] + texts[|texts| - MaxItems / 2..]
  }

  /** `x[:240]`. */
  function Truncate(x: string): (r: string)
    ensures r <= x && |r| == if |x| <= PerItemChars then |x| else PerItemChars
  {
    if |x| <= PerItemChars then x else x[..PerItemChars]
  }

  /** The bullets of the block, in order. */
  function Bullets(texts: seq<string>): seq<string> {
    var s := Sample(NonBlank(texts));
    seq(|s|, i requires 0 <= i < |s| => Truncate(s[i]))
  }

  /** `_format_reviews_block(negative_texts)`. */
  function FormatReviewsBlock(texts: seq<string>): string {
    var b := Bullets(texts);
    if b == [] then "(none)" else "\n- " + Join("\n- ", b)
  }

  /** The block is "(none)" exactly when every text is blank. */
  lemma BlockNone(texts: seq<string>)
    ensures FormatReviewsBlock(texts) == "(none)" <==> forall t :: t in texts ==> AllSpace(t)
  {
    NonBlankEmpty(texts);
    var nb := NonBlank(texts);
    if nb != [] {
      var s := "\n- " + Join("\n- ", Bullets(texts));
      assert s[0] == '\n';
      assert nb[0] in nb;
    }
  }

  /** No text survives exactly when every text is blank. */
  lemma {:induction false} NonBlankEmpty(texts: seq<string>)
    ensures NonBlank(texts) == [] <==> forall t :: t in texts ==> AllSpace(t)
  {
    if texts != [] {
      NonBlankEmpty(texts[1..]);
      assert forall t :: t in texts ==> t == texts[0] || t in texts[1..];
    }
  }

  /** Every surviving text is the stripped form of one of the texts. */
  lemma {:induction false} NonBlankFrom(texts: seq<string>)
    ensures forall x :: x in NonBlank(texts) ==> exists t :: t in texts && x == Strip(t)
  {
    if texts != [] {
      NonBlankFrom(texts[1..]);
      forall x | x in NonBlank(texts)
        ensures exists t :: t in texts && x == Strip(t)
      {
        if x !in NonBlank(texts[1..]) {
          assert x == Strip(texts[0]);
        } else {
          var t :| t in texts[1..] && x == Strip(t);
          assert t in texts;
        }
      }
    }
  }

  /** Every non-blank text survives, stripped. */
  lemma {:induction false} NonBlankKeeps(texts: seq<string>, t: string)
    requires t in texts && !AllSpace(t)
    ensures Strip(t) in NonBlank(texts)
  {
    if texts[0] != t {
      assert t in texts[1..];
      NonBlankKeeps(texts[1..], t);
    }
  }

  /** Every sampled text is one of the texts. */
  lemma SampleFrom(texts: seq<string>)
    ensures forall i :: 0 <= i < |Sample(texts)| ==> Sample(texts)[i] in texts
  {
    if |texts| > MaxItems {
      var s := Sample(texts);
      forall i | 0 <= i < |s|
        ensures s[i] in texts
      {
        if i < MaxItems / 2 {
          assert s[i] == texts[i];
        } else {
          assert s[i] == texts[|texts| - MaxItems + i];
        }
      }
    }
  }

  /** At most ten bullets, each a non-empty text of at most 240 characters. */
  lemma BulletsBounded(texts: seq<string>)
    ensures |Bullets(texts)| <= MaxItems
    ensures forall i :: 0 <= i < |Bullets(texts)| ==> 0 < |Bullets(texts)[i]| <= PerItemChars
  {
    var nb := NonBlank(texts);
    SampleFrom(nb);
    var s := Sample(nb);
    var b := Bullets(texts);
    forall i | 0 <= i < |b|
      ensures 0 < |b[i]| <= PerItemChars
    {
      assert b[i] == Truncate(s[i]) && s[i] in nb;
    }
  }

  /** With at most ten non-blank texts, one bullet per text, in order, each a prefix of its text. */
  lemma BulletsFew(texts: seq<string>)
    requires |NonBlank(texts)| <= MaxItems
    ensures |Bullets(texts)| == |NonBlank(texts)|
    ensures forall i :: 0 <= i < |Bullets(texts)| ==> Bullets(texts)[i] <= NonBlank(texts)[i]
    ensures forall i :: 0 <= i < |Bullets(texts)| ==>
      |Bullets(texts)[i]| == if |NonBlank(texts)[i]| <= PerItemChars then |NonBlank(texts)[i]| else PerItemChars
  {
  }

  /** With more, ten bullets: prefixes of the first five non-blank texts, then of the last five. */
  lemma BulletsMany(texts: seq<string>)
    requires |NonBlank(texts)| > MaxItems
    ensures |Bullets(texts)| == MaxItems
    ensures forall i :: 0 <= i < 5 ==> Bullets(texts)[i] <= NonBlank(texts)[i]
    ensures forall i :: 5 <= i < MaxItems ==> Bullets(texts)[i] <= NonBlank(texts)[|NonBlank(texts)| - MaxItems + i]
    ensures forall i :: 0 <= i < MaxItems ==>
      var t := if i < 5 then NonBlank(texts)[i] else NonBlank(texts)[|NonBlank(texts)| - MaxItems + i];
      |Bullets(texts)[i]| == if |t| <= PerItemChars then |t| else PerItemChars
  {
    BulletsManyAt(texts);
  }

  lemma BulletsManyAt(texts: seq<string>)
    requires |NonBlank(texts)| > MaxItems
    ensures |Bullets(texts)| == MaxItems
    ensures forall i :: 0 <= i < MaxItems ==>
      Bullets(texts)[i] == Truncate(if i < 5 then NonBlank(texts)[i] else NonBlank(texts)[|NonBlank(texts)| - MaxItems + i])
  {
    var nb := NonBlank(texts);
    SampleMany(nb);
    forall i | 0 <= i < MaxItems
      ensures Bullets(texts)[i] == Truncate(if i < 5 then nb[i] else nb[|nb| - MaxItems + i])
    {
      assert Bullets(texts)[i] == Truncate(Sample(nb)[i]);
    }
  }

  /** Of more than ten texts, the sample is the first five then the last five. */
  lemma SampleMany(nb: seq<string>)
    requires |nb| > MaxItems
    ensures |Sample(nb)| == MaxItems
    ensures forall i :: 0 <= i < MaxItems ==> Sample(nb)[i] == if i < 5 then nb[i] else nb[|nb| - MaxItems + i]
  {
  }

  // ---------------------------------------------------------------------------
  // `generate_recommendations_from_reviews`
  // ---------------------------------------------------------------------------

  /** The text-generation model and the JSON decoder, as functions. */
  datatype Llm = Llm(
    jsonReply: string -> string,
    bulletReply: string -> string,
    decode: string -> Option<Json>,
    render: Json -> string)

  const Placeholder: string := "No sufficiently negative feedback found to generate recommendations."

  const Fallback: seq<string> := [
    "Reduce crashes and errors " + "in top user flows",
    "Clarify pricing, trials " + "and cancellation inside the app",
    "Improve login and account " + "recovery reliability",
    "Optimize performance on older " + "devices and slow networks",
    "Tighten billing, refunds " + "and support escalation paths"
  ]

  /** `xs[:5]`. */
  function Take5(xs: seq<string>): (r: seq<string>)
    ensures r <= xs && |r| == if |xs| <= 5 then |xs| else 5
  {
    if |xs| <= 5 then xs else xs[..5]
  }

  /** The JSON attempt: the deduplicated first five strings of the decoded array, if the reply holds one. */
  function JsonAttempt(reply: string, llm: Llm): Option<seq<string>> {
    match JsonArrayOf(reply)
    case None => None
    case Some(blob) =>
      match llm.decode(blob)
      case Some(JArr(xs)) => Some(Take5(Dedupe(seq(|xs|, i requires 0 <= i < |xs| => StrOf(xs[i], llm.render)))))
      case _ => None
  }

  /** One line of the bullet reply: kept, with its "- " and dots removed, if it starts with "- " and has three words. */
  function BulletLine(ln: string): Option<string> {
    var t := Strip(ln);
    if StartsWith(t, "- ") then
      var c := TrimEndChar(Strip(t[2..]), '.');
      if WordCount(c) >= 3 then Some(c) else None
    else None
  }

  /** The two list comprehensions over `out2.splitlines()`. */
  function BulletLines(lines: seq<string>): (r: seq<string>)
    ensures |r| <= |lines|
    ensures forall c :: c in r ==> exists ln :: ln in lines && BulletLine(ln) == Some(c)
  {
    if lines == [] then []
    else (match BulletLine(lines[0]) case Some(c) => [c] case None => []) + BulletLines(lines[1..])
  }

  /** Every line that qualifies as a bullet is kept. */
  lemma {:induction false} BulletLinesKeep(lines: seq<string>)
    ensures forall ln :: ln in lines && BulletLine(ln).Some? ==> BulletLine(ln).value in BulletLines(lines)
  {
    if lines != [] {
      BulletLinesKeep(lines[1..]);
      forall ln | ln in lines && BulletLine(ln).Some?
        ensures BulletLine(ln).value in BulletLines(lines)
      {
        if ln != lines[0] {
          assert ln in lines[1..];
        }
      }
    }
  }

  /** The bullets keep the order of their lines: those of a first block of lines come before those of the rest. */
  lemma {:induction false} BulletLinesConcat(a: seq<string>, b: seq<string>)
    ensures BulletLines(a + b) == BulletLines(a) + BulletLines(b)
    decreases |a|
  {
    if a != [] {
      var head := match BulletLine(a[0]) case Some(c) => [c] case None => [];
      assert (a + b)[0] == a[0] && (a + b)[1..] == a[1..] + b;
      assert BulletLines(a + b) == head + BulletLines(a[1..] + b);
      BulletLinesConcat(a[1..], b);
      assert BulletLines(a) == head + BulletLines(a[1..]);
    } else {
      assert a + b == b;
    }
  }

  /** The bullet attempt. */
  function BulletAttempt(reply: string): seq<string> {
    Take5(Dedupe(BulletLines(SplitLines(reply))))
  }

  /** `generate_recommendations_from_reviews(negative_texts)`. */
  function GenerateRecommendations(texts: seq<string>, llm: Llm): (r: seq<string>)
    ensures 1 <= |r| <= 5
  {
    if texts == [] then [Placeholder]
    else
      var block := FormatReviewsBlock(texts);
      var arr := JsonAttempt(llm.jsonReply(block), llm);
      if arr.Some? && 3 <= |arr.value| <= 5 then arr.value
      else
        var lines := BulletAttempt(llm.bulletReply(block));
        if lines != [] then lines else Fallback
  }

  /** Without negative texts the placeholder is returned and the model is not consulted. */
  lemma NoTextsPlaceholder(llm1: Llm, llm2: Llm)
    ensures GenerateRecommendations([], llm1) == GenerateRecommendations([], llm2) == [Placeholder]
  {
  }

  /** Which attempt supplies the recommendations. */
  lemma RecommendationSource(texts: seq<string>, llm: Llm)
    requires texts != []
    ensures var block := FormatReviewsBlock(texts);
      var arr := JsonAttempt(llm.jsonReply(block), llm);
      var lines := BulletAttempt(llm.bulletReply(block));
      var r := GenerateRecommendations(texts, llm);
      && (arr.Some? && |arr.value| >= 3 ==> r == arr.value)
      && (!(arr.Some? && |arr.value| >= 3) && lines != [] ==> r == lines)
      && (!(arr.Some? && |arr.value| >= 3) && lines == [] ==> r == Fallback)
  {
  }

  /**
   * With at least one negative text, every recommendation is non-empty,
   * does not end with '.', and no two are equal up to case.
   */
  lemma RecommendationsWellFormed(texts: seq<string>, llm: Llm)
    requires texts != []
    ensures var r := GenerateRecommendations(texts, llm);
      && (forall e :: e in r ==> e != [] && e[|e| - 1] != '.')
      && (forall i, j :: 0 <= i < j < |r| ==> Lower(r[i]) != Lower(r[j]))
  {
    var block := FormatReviewsBlock(texts);
    var r := GenerateRecommendations(texts, llm);
    var arr := JsonAttempt(llm.jsonReply(block), llm);
    if arr.Some? && 3 <= |arr.value| <= 5 {
      var blob := JsonArrayOf(llm.jsonReply(block)).value;
      var xs := llm.decode(blob).value.items;
      Take5Shape(seq(|xs|, i requires 0 <= i < |xs| => StrOf(xs[i], llm.render)));
    } else if BulletAttempt(llm.bulletReply(block)) != [] {
      Take5Shape(BulletLines(SplitLines(llm.bulletReply(block))));
    } else {
      FallbackShape();
    }
  }

  /** The first five kept items keep the shape of all kept items. */
  lemma Take5Shape(items: seq<string>)
    ensures var r := Take5(Dedupe(items));
      && (forall e :: e in r ==> e != [] && e[|e| - 1] != '.')
      && (forall i, j :: 0 <= i < j < |r| ==> Lower(r[i]) != Lower(r[j]))
  {
    DedupeTrimmed(items);
    DedupeDistinct(items);
    var d := Dedupe(items);
    var r := Take5(d);
    forall e | e in r
      ensures e in d
    {
    }
    forall i, j | 0 <= i < j < |r|
      ensures Lower(r[i]) != Lower(r[j])
    {
      assert r[i] == d[i] && r[j] == d[j];
    }
  }

  /** The fixed recommendations start with five different letters and end in letters. */
  lemma FallbackShape()
    ensures forall e :: e in Fallback ==> e != [] && e[|e| - 1] != '.'
    ensures forall i, j :: 0 <= i < j < |Fallback| ==> Lower(Fallback[i]) != Lower(Fallback[j])
  {
    var firsts := "RCIOT";
    assert forall k :: 0 <= k < |Fallback| ==> Fallback[k][0] == firsts[k];
    forall i, j | 0 <= i < j < |Fallback|
      ensures Lower(Fallback[i]) != Lower(Fallback[j])
    {
      assert Lower(Fallback[i])[0] != Lower(Fallback[j])[0];
    }
  }
}
