/**
 * `compute_metrics` (app/services/metrics_service.py): the number of stored
 * reviews of one app and country, their mean rating, and the share of each
 * rating value, keyed by the rating as a str in ascending numeric order.
 * Percentages and the mean are exact reals here; `round(x, 2)` is not applied.
 */
module MetricsService {
  import opened Strings
  import opened Models

  /** A rating value and how often it occurs, as one item of `sorted(Counter(ratings).items())`. */
  datatype Bucket = Bucket(rating: int, count: nat)

  /** The response of `compute_metrics`; `distribution` keeps the dict's insertion order. */
  datatype Metrics = Metrics(count: nat, average: real, distribution: seq<(string, real)>)

  /** `[r.rating for r in rows if r.rating is not None]`; the column is NOT NULL, so every row has one. */
  function Ratings(rows: seq<StoredReview>): (xs: seq<int>)
    ensures |xs| == |rows|
    ensures forall i :: 0 <= i < |rows| ==> xs[i] == rows[i].rating
  {
    if rows == [] then [] else [rows[0].rating] + Ratings(rows[1..])
  }

  /** How many times `v` occurs in `xs`. */
  function Occurrences(xs: seq<int>, v: int): nat
    decreases |xs|
  {
    if xs == [] then 0
    else Occurrences(xs[..|xs| - 1], v) + (if xs[|xs| - 1] == v then 1 else 0)
  }

  function Sum(xs: seq<int>): int
    decreases |xs|
  {
    if xs == [] then 0 else Sum(xs[..|xs| - 1]) + xs[|xs| - 1]
  }

  /** The buckets are in strictly ascending rating order. */
  predicate Ascending(t: seq<Bucket>) {
    forall i, j :: 0 <= i < j < |t| ==> t[i].rating < t[j].rating
  }

  /** The sum of the counts of the buckets for `v`. */
  function CountIn(t: seq<Bucket>, v: int): nat {
    if t == [] then 0 else (if t[0].rating == v then t[0].count else 0) + CountIn(t[1..], v)
  }

  /** The sum of all counts. */
  function Total(t: seq<Bucket>): nat {
    if t == [] then 0 else t[0].count + Total(t[1..])
  }

  /** Counting one more `v` into buckets kept in ascending order. */
  function Insert(t: seq<Bucket>, v: int): (u: seq<Bucket>)
    ensures |u| >= 1
  {
    if t == [] then [Bucket(v, 1)]
    else if v < t[0].rating then [Bucket(v, 1)] + t
    else if v == t[0].rating then [Bucket(v, t[0].count + 1)] + t[1..]
    else [t[0]] + Insert(t[1..], v)
  }

  /** `sorted(Counter(ratings).items())`. */
  function Tally(xs: seq<int>): seq<Bucket>
    decreases |xs|
  {
    if xs == [] then [] else Insert(Tally(xs[..|xs| - 1]), xs[|xs| - 1])
  }

  /** `v * 100.0 / total`. */
  function Percent(count: nat, total: nat): (r: real)
    requires total > 0
    ensures 0.0 <= r
    ensures count <= total ==> r <= 100.0
  {
    ShareBound(count as real, total as real);
    (count as real) * 100.0 / (total as real)
  }

  lemma ShareBound(a: real, n: real)
    requires 0.0 <= a && 0.0 < n
    ensures 0.0 <= a * 100.0 / n
    ensures a <= n ==> a * 100.0 / n <= 100.0
  {
    assert a * 100.0 / n == 100.0 * (a / n);
    if a <= n {
      assert a / n <= 1.0;
    }
  }

  /** `{str(k): v * 100.0 / total for k, v in buckets}`, in bucket order. */
  function Distribution(t: seq<Bucket>, total: nat): (d: seq<(string, real)>)
    requires total > 0
    ensures |d| == |t|
    ensures forall i :: 0 <= i < |t| ==> d[i] == (IntToDecimal(t[i].rating), Percent(t[i].count, total))
  {
    if t == [] then [] else [(IntToDecimal(t[0].rating), Percent(t[0].count, total))] + Distribution(t[1..], total)
  }

  function PercentSum(d: seq<(string, real)>): real {
    if d == [] then 0.0 else d[0].1 + PercentSum(d[1..])
  }

  /** The metrics of the ratings `xs` of the selected rows. */
  function MetricsOf(xs: seq<int>): Metrics {
    if xs == [] then Metrics(0, 0.0, [])
    else Metrics(|xs|, (Sum(xs) as real) / (|xs| as real), Distribution(Tally(xs), |xs|))
  }

  /** `compute_metrics(db, app_id, country)` over the table's rows. */
  function ComputeMetrics(rows: seq<StoredReview>, appId: string, country: string): Metrics {
    MetricsOf(Ratings(RowsFor(rows, appId, country)))
  }

  /** Inserting counts `v` once more, leaves the other counts alone, and adds no other rating. */
  lemma {:induction false} InsertCounts(t: seq<Bucket>, v: int)
    ensures forall w :: CountIn(Insert(t, v), w) == CountIn(t, w) + (if w == v then 1 else 0)
    ensures Total(Insert(t, v)) == Total(t) + 1
    ensures forall b :: b in Insert(t, v) ==> b in t || b.rating == v
  {
    if t != [] && v > t[0].rating {
      InsertCounts(t[1..], v);
      assert Insert(t, v) == [t[0]] + Insert(t[1..], v);
    } else if t != [] && v == t[0].rating {
      assert Insert(t, v)[1..] == t[1..];
    } else if t != [] {
      assert Insert(t, v)[1..] == t;
    }
  }

  /** Inserting keeps the buckets in ascending order. */
  lemma {:induction false} InsertAscending(t: seq<Bucket>, v: int)
    requires Ascending(t)
    ensures Ascending(Insert(t, v))
  {
    if t != [] {
      var rest := t[1..];
      AscendingTail(t);
      if v > t[0].rating {
        InsertAscending(rest, v);
        InsertAbove(rest, v, t[0].rating);
        ConsAscending(t[0], Insert(rest, v));
      } else if v == t[0].rating {
        ConsAscending(Bucket(v, t[0].count + 1), rest);
      } else {
        assert t == [t[0]] + rest;
        ConsAscending(Bucket(v, 1), t);
      }
    }
  }

  /** The buckets after the first of an ascending list are ascending and above the first. */
  lemma AscendingTail(t: seq<Bucket>)
    requires Ascending(t) && t != []
    ensures Ascending(t[1..])
    ensures forall k :: 0 <= k < |t[1..]| ==> t[0].rating < t[1..][k].rating
  {
    assert forall i :: 0 <= i < |t[1..]| ==> t[1..][i] == t[i + 1];
  }

  /** Inserting a value above `lo` into buckets above `lo` leaves every bucket above `lo`. */
  lemma InsertAbove(t: seq<Bucket>, v: int, lo: int)
    requires lo < v && forall k :: 0 <= k < |t| ==> lo < t[k].rating
    ensures forall k :: 0 <= k < |Insert(t, v)| ==> lo < Insert(t, v)[k].rating
  {
    InsertCounts(t, v);
    var u := Insert(t, v);
    forall k | 0 <= k < |u|
      ensures lo < u[k].rating
    {
      assert u[k] in u;
      if u[k] in t {
        var m :| 0 <= m < |t| && t[m] == u[k];
      }
    }
  }

  /** A bucket below every bucket of an ascending list can go in front of it. */
  lemma ConsAscending(b: Bucket, s: seq<Bucket>)
    requires Ascending(s) && forall k :: 0 <= k < |s| ==> b.rating < s[k].rating
    ensures Ascending([b] + s)
  {
    var u := [b] + s;
    forall i, j | 0 <= i < j < |u|
      ensures u[i].rating < u[j].rating
    {
      assert u[j] == s[j - 1];
      if i > 0 {
        assert u[i] == s[i - 1];
      }
    }
  }

  /** The tally is ascending, counts every value exactly, and its counts sum to the number of ratings. */
  lemma {:induction false} TallyCounts(xs: seq<int>)
    ensures Ascending(Tally(xs))
    ensures forall w :: CountIn(Tally(xs), w) == Occurrences(xs, w)
    ensures Total(Tally(xs)) == |xs|
    ensures forall b :: b in Tally(xs) ==> b.rating in xs && b.count >= 1
    decreases |xs|
  {
    if xs != [] {
      var n := |xs| - 1;
      TallyCounts(xs[..n]);
      InsertCounts(Tally(xs[..n]), xs[n]);
      InsertAscending(Tally(xs[..n]), xs[n]);
      forall b | b in Tally(xs)
        ensures b.rating in xs && b.count >= 1
      {
        if b in Tally(xs[..n]) {
          assert b.rating in xs[..n];
        } else {
          assert b.rating == xs[n];
          CountInMember(Tally(xs), b);
        }
      }
    }
  }

  /** In ascending buckets, the count for a bucket's rating is that bucket's count. */
  lemma {:induction false} CountInMember(t: seq<Bucket>, b: Bucket)
    requires Ascending(t) && b in t
    ensures CountIn(t, b.rating) == b.count
  {
    assert Ascending(t[1..]) by {
      assert forall i :: 0 <= i < |t| - 1 ==> t[1..][i] == t[i + 1];
    }
    if t[0] == b {
      CountInAbove(t[1..], b.rating);
    } else {
      assert b in t[1..];
      CountInMember(t[1..], b);
      assert t[0].rating != b.rating by {
        var k :| 1 <= k < |t| && t[k] == b;
      }
    }
  }

  /** No bucket of an ascending list after the first one holds the first one's rating. */
  lemma {:induction false} CountInAbove(t: seq<Bucket>, v: int)
    requires forall i :: 0 <= i < |t| ==> t[i].rating > v
    ensures CountIn(t, v) == 0
  {
    if t != [] {
      assert forall i :: 0 <= i < |t| - 1 ==> t[1..][i] == t[i + 1];
      CountInAbove(t[1..], v);
    }
  }

  lemma {:induction false} OccurrencesMember(xs: seq<int>, v: int)
    ensures v in xs <==> Occurrences(xs, v) > 0
    decreases |xs|
  {
    if xs != [] {
      var n := |xs| - 1;
      OccurrencesMember(xs[..n], v);
      assert xs == xs[..n] + [xs[n]];
    }
  }

  lemma {:induction false} CountInPositive(t: seq<Bucket>, v: int)
    requires CountIn(t, v) > 0
    ensures exists b :: b in t && b.rating == v
  {
    if t[0].rating != v {
      CountInPositive(t[1..], v);
      var b :| b in t[1..] && b.rating == v;
      assert b in t;
    }
  }

  lemma {:induction false} PercentSumOfDistribution(t: seq<Bucket>, total: nat)
    requires total > 0
    ensures PercentSum(Distribution(t, total)) == (Total(t) as real) * 100.0 / (total as real)
  {
    if t != [] {
      PercentSumOfDistribution(t[1..], total);
      var T := total as real;
      var c := t[0].count as real;
      var r := Total(t[1..]) as real;
      var d := Distribution(t, total);
      assert d[1..] == Distribution(t[1..], total);
      assert PercentSum(d) == c * 100.0 / T + r * 100.0 / T;
      PercentsAdd(c, r, T);
    }
  }

  lemma PercentsAdd(a: real, b: real, T: real)
    requires T > 0.0
    ensures a * 100.0 / T + b * 100.0 / T == (a + b) * 100.0 / T
  {
    calc {
      a * 100.0 / T + b * 100.0 / T;
      (a * 100.0 + b * 100.0) / T;
    }
  }

  lemma {:induction false} SumBounds(xs: seq<int>, lo: int, hi: int)
    requires forall i :: 0 <= i < |xs| ==> lo <= xs[i] <= hi
    ensures lo * |xs| <= Sum(xs) <= hi * |xs|
    decreases |xs|
  {
    if xs != [] {
      var n := |xs| - 1;
      SumBounds(xs[..n], lo, hi);
      assert lo * |xs| == lo * n + lo && hi * |xs| == hi * n + hi;
    }
  }

  /** With no rows for the app and country, the metrics are (0, 0.0, {}). */
  lemma NoRowsNoMetrics(rows: seq<StoredReview>, appId: string, country: string)
    requires forall i :: 0 <= i < |rows| ==> rows[i].appId != appId || rows[i].country != country
    ensures ComputeMetrics(rows, appId, country) == Metrics(0, 0.0, [])
  {
    RowsForNone(rows, appId, country);
  }

  /** `count` is the number of rows of the app and country. */
  lemma MetricsCount(rows: seq<StoredReview>, appId: string, country: string)
    ensures ComputeMetrics(rows, appId, country).count == CountFor(rows, appId, country)
  {
  }

  /**
   * The distribution is keyed by the rated values, as decimal strings, in
   * strictly ascending numeric order; each value is 100 times the rating's
   * share of the ratings.
   */
  lemma DistributionEntries(xs: seq<int>)
    requires xs != []
    ensures var d := MetricsOf(xs).distribution;
      var t := Tally(xs);
      && Ascending(t)
      && |d| == |t|
      && (forall i :: 0 <= i < |t| ==>
            d[i].0 == IntToDecimal(t[i].rating)
            && t[i].rating in xs
            && d[i].1 == Percent(Occurrences(xs, t[i].rating), |xs|))
  {
    var t := Tally(xs);
    TallyCounts(xs);
    forall i | 0 <= i < |t|
      ensures t[i].count == Occurrences(xs, t[i].rating)
    {
      CountInMember(t, t[i]);
    }
  }

  /** Every rated value has its key in the distribution. */
  lemma DistributionCoversRatings(xs: seq<int>)
    ensures forall v :: v in xs ==> exists i :: 0 <= i < |Tally(xs)| && Tally(xs)[i].rating == v
  {
    var t := Tally(xs);
    TallyCounts(xs);
    forall v | v in xs
      ensures exists i :: 0 <= i < |t| && t[i].rating == v
    {
      OccurrencesMember(xs, v);
      CountInPositive(t, v);
      var b :| b in t && b.rating == v;
      var i :| 0 <= i < |t| && t[i] == b;
    }
  }

  /** With at least one rating, the distribution's values sum to 100. */
  lemma DistributionSumsTo100(xs: seq<int>)
    requires xs != []
    ensures PercentSum(MetricsOf(xs).distribution) == 100.0
  {
    TallyCounts(xs);
    PercentSumOfDistribution(Tally(xs), |xs|);
    WholeIsHundred(|xs| as real);
  }

  lemma WholeIsHundred(n: real)
    requires n > 0.0
    ensures n * 100.0 / n == 100.0
  {
  }

  /** The distribution keys are pairwise distinct strings. */
  lemma DistributionKeysDistinct(xs: seq<int>)
    ensures var d := MetricsOf(xs).distribution;
      forall i, j :: 0 <= i < j < |d| ==> d[i].0 != d[j].0
  {
    TallyCounts(xs);
    var t := Tally(xs);
    var d := MetricsOf(xs).distribution;
    forall i, j | 0 <= i < j < |d|
      ensures d[i].0 != d[j].0
    {
      IntToDecimalRoundTrip(t[i].rating);
      IntToDecimalRoundTrip(t[j].rating);
    }
  }

  /** The mean lies between any lower and upper bound of the ratings. */
  lemma AverageWithinRatings(xs: seq<int>, lo: int, hi: int)
    requires forall i :: 0 <= i < |xs| ==> lo <= xs[i] <= hi
    ensures xs != [] ==> lo as real <= MetricsOf(xs).average <= hi as real
  {
    if xs != [] {
      SumBounds(xs, lo, hi);
      var n := |xs| as real;
      var s := Sum(xs) as real;
      assert (lo as real) * n <= s <= (hi as real) * n;
      DivBounds(s, n, lo as real, hi as real);
    }
  }

  lemma DivBounds(s: real, n: real, lo: real, hi: real)
    requires n > 0.0 && lo * n <= s <= hi * n
    ensures lo <= s / n <= hi
  {
    assert s / n * n == s;
  }
}
