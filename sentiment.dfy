/**
 * `classify_sentiment` (app/nlp/sentiment.py): empty text is neutral; any
 * other text goes to the sentiment classifier, whose label is mapped to one
 * of three classes, case-insensitively, so that both the "negative/neutral/
 * positive" and the "LABEL_0/1/2" schemes are understood. The classifier is
 * the function `model`, from a text to its label.
 */
module Sentiment {
  import opened Strings

  /** The three strings `classify_sentiment` returns. */
  datatype Label = Negative | Neutral | Positive

  /** The label as the service reports it. */
  function Name(l: Label): (s: string)
    ensures s == "negative" || s == "neutral" || s == "positive"
  {
    match l
    case Negative => "negative"
    case Neutral => "neutral"
    case Positive => "positive"
  }

  /** The classifier label names a negative class. */
  predicate NegativeLabel(lab: string) {
    Contains(lab, "neg") || EndsWith(lab, "_0")
  }

  /** The classifier label names a positive class. */
  predicate PositiveLabel(lab: string) {
    Contains(lab, "pos") || EndsWith(lab, "_2")
  }

  /** The mapping of a classifier label, lowercased first; the negative test comes first. */
  function LabelClass(raw: string): Label {
    var lab := Lower(raw);
    if NegativeLabel(lab) then Negative
    else if PositiveLabel(lab) then Positive
    else Neutral
  }

  /** `classify_sentiment(text)` with the classifier `model`. */
  function ClassifySentiment(text: string, model: string -> string): Label {
    if text == "" then Neutral else LabelClass(model(text))
  }

  /** The class names are distinct, so a class is recovered from its name. */
  lemma NameInjective(a: Label, b: Label)
    ensures Name(a) == Name(b) <==> a == b
  {
    if a != b {
      assert Name(a)[0] != Name(b)[0] || Name(a)[2] != Name(b)[2];
    }
  }

  /** Empty text is neutral whatever the classifier would say. */
  lemma EmptyTextIsNeutral(m1: string -> string, m2: string -> string)
    ensures ClassifySentiment("", m1) == ClassifySentiment("", m2) == Neutral
  {
  }

  /** A label is negative exactly when it names a negative class, and positive exactly when it names only a positive one. */
  lemma LabelClassCases(raw: string)
    ensures LabelClass(raw) == Negative <==> NegativeLabel(Lower(raw))
    ensures LabelClass(raw) == Positive <==> !NegativeLabel(Lower(raw)) && PositiveLabel(Lower(raw))
    ensures LabelClass(raw) == Neutral <==> !NegativeLabel(Lower(raw)) && !PositiveLabel(Lower(raw))
  {
  }

  /** Lowercasing is idempotent, so the mapping ignores the case of the label. */
  lemma LabelClassIgnoresCase(raw: string)
    ensures LabelClass(Lower(raw)) == LabelClass(raw)
  {
    var a, b := Lower(Lower(raw)), Lower(raw);
    assert a == b by {
      forall i | 0 <= i < |a|
        ensures a[i] == b[i]
      {
        assert LowerChar(LowerChar(raw[i])) == LowerChar(raw[i]);
      }
    }
  }

  /** A string in which some character of `sub` never occurs does not contain `sub`. */
  lemma {:induction false} NotContains(s: string, sub: string, k: nat)
    requires k < |sub| && sub[k] !in s
    ensures !Contains(s, sub)
    decreases |s|
  {
    assert !StartsWith(s, sub) by {
      if |sub| <= |s| {
        assert s[..|sub|][k] == s[k];
      }
    }
    if s != [] {
      assert sub[k] !in s[1..] by {
        assert forall i :: 0 <= i < |s| - 1 ==> s[1..][i] == s[i + 1];
      }
      NotContains(s[1..], sub, k);
    }
  }

  /** "negative", "neutral" and "positive", in any case, map to their own class. */
  lemma NamedNegative()
    ensures LabelClass("negative") == Negative && LabelClass("NEGATIVE") == Negative
  {
    assert Lower("NEGATIVE") == "negative" == Lower("negative");
    assert StartsWith("negative", "neg");
  }

  lemma NamedNeutral()
    ensures LabelClass("neutral") == Neutral && LabelClass("Neutral") == Neutral
  {
    var lab := "neutral";
    assert Lower("Neutral") == lab == Lower(lab);
    NotContains(lab, "neg", 2);
    NotContains(lab, "pos", 0);
    assert !EndsWith(lab, "_0") && !EndsWith(lab, "_2");
  }

  lemma NamedPositive()
    ensures LabelClass("positive") == Positive && LabelClass("POSITIVE") == Positive
  {
    var lab := "positive";
    assert Lower("POSITIVE") == lab == Lower(lab);
    NotContains(lab, "neg", 0);
    assert !EndsWith(lab, "_0");
    assert StartsWith(lab, "pos");
  }

  /** The numbered scheme LABEL_0/1/2 maps to negative, neutral and positive. */
  lemma NumberedScheme(d: char)
    requires d == '0' || d == '1' || d == '2'
    ensures LabelClass("LABEL_" + [d]) == (if d == '0' then Negative else if d == '1' then Neutral else Positive)
  {
    var lab := "label_" + [d];
    assert Lower("LABEL_" + [d]) == lab;
    NotContains(lab, "neg", 0);
    NotContains(lab, "pos", 0);
    assert lab[|lab| - 2..] == ['_', d];
  }
}
