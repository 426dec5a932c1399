/**
 * `analyze_insights` (app/services/insights_service.py): the stored reviews
 * of one app and country are classified one by one, the labels are counted
 * (`Counter`), each count becomes a percentage of the number of reviews, and
 * the texts classified negative are handed to the keyword extractor and to
 * the recommendation generator.
 *
 * The sentiment classifier is the function `model` (see `Sentiment`), the
 * keyword extractor `top_keywords` is the function `topKeywords`, and the
 * text-generation model is `llm` (see `RecommenderLlm`). Percentages are exact
 * reals; `round(x, 2)` is not applied.
 */
module InsightsService {
  import opened Models
  import opened Sentiment
  import RecommenderLlm

  /** `top_k` in the call to `top_keywords`. */
  const TopK: nat := 15

  /** `[classify_sentiment(r.text) for r in rows]`, as the strings the classifier returns. */
  function Sentiments(rows: seq<StoredReview>, model: string -> string): (r: seq<string>)
    ensures |r| == |rows|
    ensures forall i :: 0 <= i < |rows| ==> r[i] == Name(ClassifySentiment(rows[i].text, model))
    decreases |rows|
  {
    if rows == [] then []
    else
      var n := |rows| - 1;
      Sentiments(rows[..n], model) + [Name(ClassifySentiment(rows[n].text, model))]
  }

  /** How many times `k` occurs in `xs`. */
  function Count(xs: seq<string>, k: string): nat
    decreases |xs|
  {
    if xs == [] then 0
    else
      var n := |xs| - 1;
      Count(xs[..n], k) + (if xs[n] == k then 1 else 0)
  }

  /** `Counter(xs)`: a key for each string that occurs, mapped to its number of occurrences. */
  function Tally(xs: seq<string>): map<string, nat>
    decreases |xs|
  {
    if xs == [] then map[]
    else
      var n := |xs| - 1;
      var m := Tally(xs[..n]);
      m[xs[n] := CountOf(m, xs[n]) + 1]
  }

  /** `c[k]` on a `Counter`: a missing key counts 0. */
  function CountOf(m: map<string, nat>, k: string): nat {
    if k in m then m[k] else 0
  }

  /** `len(sentiments) if sentiments else 1`. */
  function Total(xs: seq<string>): (t: nat)
    ensures t >= 1
    ensures xs != [] ==> t == |xs|
  {
    if xs == [] then 1 else |xs|
  }

  /** `{k: v*100.0/total for k, v in c.items()}`, before rounding. */
  function PercentMap(c: map<string, nat>, total: nat): (r: map<string, real>)
    requires total >= 1
    ensures r.Keys == c.Keys
  {
    map k | k in c :: (c[k] as real) * 100.0 / (total as real)
  }

  /** `[r.text for r in rows if classify_sentiment(r.text) == 'negative']`. */
  function Negatives(rows: seq<StoredReview>, model: string -> string): (r: seq<string>)
    ensures |r| <= |rows|
    decreases |rows|
  {
    if rows == [] then []
    else
      var n := |rows| - 1;
      Negatives(rows[..n], model) + (if ClassifySentiment(rows[n].text, model) == Negative then [rows[n].text] else [])
  }

  /** The dictionary `analyze_insights` returns. */
  datatype Insights = Insights(
    sentimentCounts: map<string, nat>,
    sentimentPercent: map<string, real>,
    topNegativeKeywords: seq<string>,
    recommendations: seq<string>)

  /** `analyze_insights(db, app_id, country)` over the table `table`. */
  function AnalyzeInsights(
    table: seq<StoredReview>, appId: string, country: string,
    model: string -> string,
    topKeywords: (seq<string>, nat) -> seq<string>,
    llm: RecommenderLlm.Llm): Insights
  {
    var rows := RowsFor(table, appId, country);
    var sentiments := Sentiments(rows, model);
    var c := Tally(sentiments);
    var negatives := Negatives(rows, model);
    Insights(
      c,
      PercentMap(c, Total(sentiments)),
      topKeywords(negatives, TopK),
      RecommenderLlm.GenerateRecommendations(negatives, llm))
  }

  // ---------------------------------------------------------------------------
  // Properties
  // ---------------------------------------------------------------------------

  /** The counter holds exactly the strings that occur, each with its number of occurrences. */
  lemma {:induction false} TallyCounts(xs: seq<string>, k: string)
    ensures k in Tally(xs) <==> k in xs
    ensures CountOf(Tally(xs), k) == Count(xs, k)
    decreases |xs|
  {
    if xs != [] {
      var n := |xs| - 1;
      TallyCounts(xs[..n], k);
      assert xs == xs[..n] + [xs[n]];
    }
  }

  /** Every classification is one of the three class names. */
  lemma {:induction false} SentimentsAreNames(rows: seq<StoredReview>, model: string -> string)
    ensures forall x :: x in Sentiments(rows, model) ==> x == "negative" || x == "neutral" || x == "positive"
    decreases |rows|
  {
    if rows != [] {
      SentimentsAreNames(rows[..|rows| - 1], model);
    }
  }

  /** When every string is a class name, the three counts add up to the length. */
  lemma {:induction false} NameCountsAddUp(xs: seq<string>)
    requires forall x :: x in xs ==> x == "negative" || x == "neutral" || x == "positive"
    ensures Count(xs, "negative") + Count(xs, "neutral") + Count(xs, "positive") == |xs|
    decreases |xs|
  {
    if xs != [] {
      var n := |xs| - 1;
      assert forall x :: x in xs[..n] ==> x in xs;
      assert xs[n] in xs;
      NameCountsAddUp(xs[..n]);
    }
  }

  /** The negative count is the number of negative texts handed on. */
  lemma {:induction false} NegativesCounted(rows: seq<StoredReview>, model: string -> string)
    ensures |Negatives(rows, model)| == Count(Sentiments(rows, model), "negative")
    decreases |rows|
  {
    if rows != [] {
      var n := |rows| - 1;
      NegativesCounted(rows[..n], model);
      NameInjective(ClassifySentiment(rows[n].text, model), Negative);
    }
  }

  /** The negative texts are exactly the texts of the selected rows that are classified negative. */
  lemma {:induction false} NegativesMembers(rows: seq<StoredReview>, model: string -> string)
    ensures forall x :: x in Negatives(rows, model) <==>
      exists r :: r in rows && r.text == x && ClassifySentiment(r.text, model) == Negative
    decreases |rows|
  {
    if rows != [] {
      var n := |rows| - 1;
      NegativesMembers(rows[..n], model);
      assert rows == rows[..n] + [rows[n]];
    }
  }

  /** The positions of the selected rows classified negative, in increasing order. */
  ghost function NegativeIndices(rows: seq<StoredReview>, model: string -> string): seq<nat>
    decreases |rows|
  {
    if rows == [] then []
    else
      var n := |rows| - 1;
      NegativeIndices(rows[..n], model) + (if ClassifySentiment(rows[n].text, model) == Negative then [n] else [])
  }

  /**
   * The negative texts are the texts of the rows classified negative, in row
   * order, one per such row: the k-th negative text is the text of the k-th
   * negative row, so a text that occurs in several negative rows is handed on
   * that many times.
   */
  lemma {:induction false} NegativesInOrder(rows: seq<StoredReview>, model: string -> string)
    ensures |NegativeIndices(rows, model)| == |Negatives(rows, model)|
    ensures forall k :: 0 <= k < |NegativeIndices(rows, model)| ==>
      NegativeIndices(rows, model)[k] < |rows| && Negatives(rows, model)[k] == rows[NegativeIndices(rows, model)[k]].text
    ensures forall k, l :: 0 <= k < l < |NegativeIndices(rows, model)| ==>
      NegativeIndices(rows, model)[k] < NegativeIndices(rows, model)[l]
    ensures forall i :: 0 <= i < |rows| ==>
      (i in NegativeIndices(rows, model) <==> ClassifySentiment(rows[i].text, model) == Negative)
  {
    NegativeIndicesIncreasing(rows, model);
    NegativeIndicesExact(rows, model);
    NegativesAtIndices(rows, model);
  }

  /** The negative positions are in range and strictly increasing. */
  lemma {:induction false} NegativeIndicesIncreasing(rows: seq<StoredReview>, model: string -> string)
    ensures forall k :: 0 <= k < |NegativeIndices(rows, model)| ==> NegativeIndices(rows, model)[k] < |rows|
    ensures forall k, l :: 0 <= k < l < |NegativeIndices(rows, model)| ==>
      NegativeIndices(rows, model)[k] < NegativeIndices(rows, model)[l]
    decreases |rows|
  {
    if rows != [] {
      var n := |rows| - 1;
      NegativeIndicesIncreasing(rows[..n], model);
    }
  }

  /** A position is listed exactly when its row is classified negative. */
  lemma {:induction false} NegativeIndicesExact(rows: seq<StoredReview>, model: string -> string)
    ensures forall i :: 0 <= i < |rows| ==>
      (i in NegativeIndices(rows, model) <==> ClassifySentiment(rows[i].text, model) == Negative)
    decreases |rows|
  {
    if rows != [] {
      var n := |rows| - 1;
      var pre := rows[..n];
      var idx := NegativeIndices(pre, model);
      var last := if ClassifySentiment(rows[n].text, model) == Negative then [n] else [];
      assert NegativeIndices(rows, model) == idx + last;
      NegativeIndicesIncreasing(pre, model);
      NegativeIndicesExact(pre, model);
      forall i | 0 <= i < |rows|
        ensures i in idx + last <==> ClassifySentiment(rows[i].text, model) == Negative
      {
        if i < n {
          assert pre[i] == rows[i];
          assert i !in last;
        } else {
          assert i !in idx;
        }
      }
    }
  }

  /** The k-th negative text is the text of the row at the k-th negative position. */
  lemma {:induction false} NegativesAtIndices(rows: seq<StoredReview>, model: string -> string)
    ensures |NegativeIndices(rows, model)| == |Negatives(rows, model)|
    ensures forall k :: 0 <= k < |NegativeIndices(rows, model)| ==>
      NegativeIndices(rows, model)[k] < |rows| && Negatives(rows, model)[k] == rows[NegativeIndices(rows, model)[k]].text
    decreases |rows|
  {
    if rows != [] {
      var n := |rows| - 1;
      var pre := rows[..n];
      NegativesAtIndices(pre, model);
      assert forall i :: 0 <= i < n ==> pre[i] == rows[i];
    }
  }

  /** The sentiment counts cover every selected review once: they add up to the number of reviews. */
  lemma CountsAddUp(
    table: seq<StoredReview>, appId: string, country: string, model: string -> string,
    topKeywords: (seq<string>, nat) -> seq<string>, llm: RecommenderLlm.Llm)
    ensures var c := AnalyzeInsights(table, appId, country, model, topKeywords, llm).sentimentCounts;
      CountOf(c, "negative") + CountOf(c, "neutral") + CountOf(c, "positive") == |RowsFor(table, appId, country)|
  {
    var rows := RowsFor(table, appId, country);
    var xs := Sentiments(rows, model);
    SentimentsAreNames(rows, model);
    NameCountsAddUp(xs);
    TallyCounts(xs, "negative");
    TallyCounts(xs, "neutral");
    TallyCounts(xs, "positive");
  }

  /** Only the three class names appear as keys of the counts, and each with a positive count. */
  lemma CountKeys(
    table: seq<StoredReview>, appId: string, country: string, model: string -> string,
    topKeywords: (seq<string>, nat) -> seq<string>, llm: RecommenderLlm.Llm)
    ensures var c := AnalyzeInsights(table, appId, country, model, topKeywords, llm).sentimentCounts;
      forall k :: k in c ==> (k == "negative" || k == "neutral" || k == "positive") && c[k] >= 1
  {
    var xs := Sentiments(RowsFor(table, appId, country), model);
    SentimentsAreNames(RowsFor(table, appId, country), model);
    forall k | k in Tally(xs)
      ensures (k == "negative" || k == "neutral" || k == "positive") && Tally(xs)[k] >= 1
    {
      TallyCounts(xs, k);
      CountPositive(xs, k);
    }
  }

  /** A string that occurs is counted at least once. */
  lemma {:induction false} CountPositive(xs: seq<string>, k: string)
    requires k in xs
    ensures Count(xs, k) >= 1
    decreases |xs|
  {
    var n := |xs| - 1;
    if xs[n] != k {
      assert k in xs[..n] by {
        var i :| 0 <= i < |xs| && xs[i] == k;
        assert xs[..n][i] == k;
      }
      CountPositive(xs[..n], k);
    }
  }

  /**
   * The percentages have exactly the keys of the counts; each is the count
   * times 100 over the number of reviews, between 0 and 100.
   */
  lemma PercentOfCounts(
    table: seq<StoredReview>, appId: string, country: string, model: string -> string,
    topKeywords: (seq<string>, nat) -> seq<string>, llm: RecommenderLlm.Llm)
    requires RowsFor(table, appId, country) != []
    ensures var ins := AnalyzeInsights(table, appId, country, model, topKeywords, llm);
      var n := |RowsFor(table, appId, country)| as real;
      && ins.sentimentPercent.Keys == ins.sentimentCounts.Keys
      && forall k :: k in ins.sentimentPercent ==>
           && ins.sentimentPercent[k] == (ins.sentimentCounts[k] as real) * 100.0 / n
           && 0.0 < ins.sentimentPercent[k] <= 100.0
  {
    var xs := Sentiments(RowsFor(table, appId, country), model);
    var ins := AnalyzeInsights(table, appId, country, model, topKeywords, llm);
    assert ins.sentimentCounts == Tally(xs);
    assert ins.sentimentPercent == PercentMap(Tally(xs), Total(xs));
    PercentMapOfTally(xs);
  }

  /** The percentage map of a non-empty tally: same keys, count times 100 over the length, within (0, 100]. */
  lemma PercentMapOfTally(xs: seq<string>)
    requires xs != []
    ensures var c := Tally(xs);
      var p := PercentMap(c, Total(xs));
      && p.Keys == c.Keys
      && forall k :: k in p ==> p[k] == (c[k] as real) * 100.0 / (|xs| as real) && 0.0 < p[k] <= 100.0
  {
    var c := Tally(xs);
    var n := |xs| as real;
    assert Total(xs) == |xs|;
    forall k | k in c
      ensures 0.0 < (c[k] as real) * 100.0 / n <= 100.0
    {
      TallyCounts(xs, k);
      CountPositive(xs, k);
      CountAtMost(xs, k);
      Fraction(c[k] as real, n);
    }
  }

  /** No string occurs more often than the sequence is long. */
  lemma {:induction false} CountAtMost(xs: seq<string>, k: string)
    ensures Count(xs, k) <= |xs|
    decreases |xs|
  {
    if xs != [] {
      CountAtMost(xs[..|xs| - 1], k);
    }
  }

  lemma Fraction(a: real, n: real)
    requires 1.0 <= a <= n
    ensures 0.0 < a * 100.0 / n <= 100.0
  {
    assert a * 100.0 / n == 100.0 * (a / n);
    assert a / n <= 1.0;
  }

  /** With at least one review, the three percentages add up to 100 (before rounding). */
  lemma PercentsAddUp(
    table: seq<StoredReview>, appId: string, country: string, model: string -> string,
    topKeywords: (seq<string>, nat) -> seq<string>, llm: RecommenderLlm.Llm)
    requires RowsFor(table, appId, country) != []
    ensures var p := AnalyzeInsights(table, appId, country, model, topKeywords, llm).sentimentPercent;
      PercentOf(p, "negative") + PercentOf(p, "neutral") + PercentOf(p, "positive") == 100.0
  {
    var rows := RowsFor(table, appId, country);
    SentimentsAreNames(rows, model);
    NamePercentsAddUp(Sentiments(rows, model));
  }

  /** When every string is a class name, the percentages of a non-empty tally add up to 100. */
  lemma NamePercentsAddUp(xs: seq<string>)
    requires xs != []
    requires forall x :: x in xs ==> x == "negative" || x == "neutral" || x == "positive"
    ensures var p := PercentMap(Tally(xs), Total(xs));
      PercentOf(p, "negative") + PercentOf(p, "neutral") + PercentOf(p, "positive") == 100.0
  {
    var c := Tally(xs);
    var n := |xs| as real;
    var p := PercentMap(c, Total(xs));
    NameCountsAddUp(xs);
    TallyCounts(xs, "negative");
    TallyCounts(xs, "neutral");
    TallyCounts(xs, "positive");
    var a, b, d := CountOf(c, "negative") as real, CountOf(c, "neutral") as real, CountOf(c, "positive") as real;
    PercentOfMap(c, |xs|, "negative");
    PercentOfMap(c, |xs|, "neutral");
    PercentOfMap(c, |xs|, "positive");
    SplitSum(a, b, d, n);
  }

  /** `percent[k]` with a missing key read as 0. */
  function PercentOf(p: map<string, real>, k: string): real {
    if k in p then p[k] else 0.0
  }

  lemma PercentOfMap(c: map<string, nat>, total: nat, k: string)
    requires total >= 1
    ensures PercentOf(PercentMap(c, total), k) == (CountOf(c, k) as real) * 100.0 / (total as real)
  {
  }

  lemma SplitSum(a: real, b: real, d: real, n: real)
    requires n > 0.0 && a + b + d == n
    ensures a * 100.0 / n + b * 100.0 / n + d * 100.0 / n == 100.0
  {
    assert a * 100.0 / n + b * 100.0 / n + d * 100.0 / n == (a + b + d) * 100.0 / n;
  }

  /** With no review of the app and country, both maps are empty and the placeholder is the only recommendation. */
  lemma NoReviewsNoInsights(
    table: seq<StoredReview>, appId: string, country: string, model: string -> string,
    topKeywords: (seq<string>, nat) -> seq<string>, llm: RecommenderLlm.Llm)
    requires RowsFor(table, appId, country) == []
    ensures var ins := AnalyzeInsights(table, appId, country, model, topKeywords, llm);
      && ins.sentimentCounts == map[]
      && ins.sentimentPercent == map[]
      && ins.recommendations == [RecommenderLlm.Placeholder]
  {
  }

  /**
   * Keywords and recommendations are computed from the negative texts alone:
   * two selections with the same negative texts get the same keywords and
   * recommendations, and without a negative text the placeholder is returned.
   */
  lemma OnlyNegativesMatter(
    t1: seq<StoredReview>, t2: seq<StoredReview>, appId: string, country: string, model: string -> string,
    topKeywords: (seq<string>, nat) -> seq<string>, llm: RecommenderLlm.Llm)
    requires Negatives(RowsFor(t1, appId, country), model) == Negatives(RowsFor(t2, appId, country), model)
    ensures var i1 := AnalyzeInsights(t1, appId, country, model, topKeywords, llm);
      var i2 := AnalyzeInsights(t2, appId, country, model, topKeywords, llm);
      i1.topNegativeKeywords == i2.topNegativeKeywords && i1.recommendations == i2.recommendations
  {
  }

  /** When no selected review is classified negative, the recommendations are the placeholder. */
  lemma NoNegativesPlaceholder(
    table: seq<StoredReview>, appId: string, country: string, model: string -> string,
    topKeywords: (seq<string>, nat) -> seq<string>, llm: RecommenderLlm.Llm)
    requires CountOf(AnalyzeInsights(table, appId, country, model, topKeywords, llm).sentimentCounts, "negative") == 0
    ensures AnalyzeInsights(table, appId, country, model, topKeywords, llm).recommendations == [RecommenderLlm.Placeholder]
    ensures AnalyzeInsights(table, appId, country, model, topKeywords, llm).topNegativeKeywords == topKeywords([], TopK)
  {
    var rows := RowsFor(table, appId, country);
    NegativesCounted(rows, model);
    TallyCounts(Sentiments(rows, model), "negative");
  }
}
