/**
 * The `reviews` table (app/models.py): one row per stored review, unique on
 * (app_id, country, review_id). The integer surrogate key `id` is not part
 * of this model.
 */
module Models {
  import opened Wrappers
  import RssClient

  /** A row of the `reviews` table. */
  datatype StoredReview = StoredReview(
    appId: string,
    country: string,
    reviewId: string,
    author: string,
    title: string,
    text: string,
    rating: int,
    version: string,
    date: Option<RssClient.Instant>,
    source: string,
    language: string)

  /** The natural key the unique constraint is declared on. */
  datatype Key = Key(appId: string, country: string, reviewId: string)

  function KeyOf(r: StoredReview): Key {
    Key(r.appId, r.country, r.reviewId)
  }

  /** No two rows share a natural key. */
  predicate UniqueKeys(rows: seq<StoredReview>) {
    forall i, j :: 0 <= i < j < |rows| ==> KeyOf(rows[i]) != KeyOf(rows[j])
  }

  /** `filter_by(app_id=..., country=..., review_id=...).first() is not None`. */
  predicate Stored(rows: seq<StoredReview>, k: Key) {
    exists i :: 0 <= i < |rows| && KeyOf(rows[i]) == k
  }

  /** `filter_by(app_id=..., country=...).all()`, in table order. */
  function RowsFor(rows: seq<StoredReview>, appId: string, country: string): (r: seq<StoredReview>)
    ensures |r| <= |rows|
  {
    if rows == [] then []
    else
      var n := |rows| - 1;
      RowsFor(rows[..n], appId, country) + (if rows[n].appId == appId && rows[n].country == country then [rows[n]] else [])
  }

  /** The selected rows are exactly the rows of the app and country. */
  lemma {:induction false} RowsForMembers(rows: seq<StoredReview>, appId: string, country: string)
    ensures forall x :: x in RowsFor(rows, appId, country) <==> x in rows && x.appId == appId && x.country == country
    decreases |rows|
  {
    if rows != [] {
      var n := |rows| - 1;
      RowsForMembers(rows[..n], appId, country);
      assert rows == rows[..n] + [rows[n]];
    }
  }

  /** With no row of the app and country, nothing is selected. */
  lemma {:induction false} RowsForNone(rows: seq<StoredReview>, appId: string, country: string)
    requires forall i :: 0 <= i < |rows| ==> rows[i].appId != appId || rows[i].country != country
    ensures RowsFor(rows, appId, country) == []
    decreases |rows|
  {
    if rows != [] {
      RowsForNone(rows[..|rows| - 1], appId, country);
    }
  }

  /** `filter_by(app_id=..., country=...).count()`. */
  function CountFor(rows: seq<StoredReview>, appId: string, country: string): nat {
    |RowsFor(rows, appId, country)|
  }

  /** Appending rows of one app and country raises its count by their number and leaves the others alone. */
  lemma {:induction false} CountForAppend(rows: seq<StoredReview>, added: seq<StoredReview>, appId: string, country: string)
    requires forall x :: x in added ==> x.appId == appId && x.country == country
    ensures CountFor(rows + added, appId, country) == CountFor(rows, appId, country) + |added|
    ensures forall a, c :: (a, c) != (appId, country) ==> CountFor(rows + added, a, c) == CountFor(rows, a, c)
    decreases |added|
  {
    if added != [] {
      var n := |added| - 1;
      CountForAppend(rows, added[..n], appId, country);
      assert (rows + added)[..|rows| + n] == rows + added[..n];
      assert added[n] in added;
    } else {
      assert rows + added == rows;
    }
  }

  /** The table, whose rows the ingestion service appends to. */
  class ReviewTable {
    var rows: seq<StoredReview>

    /** The unique constraint `_app_country_review_uc`. */
    ghost predicate Valid()
      reads this
    {
      UniqueKeys(rows)
    }

    constructor ()
      ensures rows == [] && Valid()
    {
      rows := [];
    }
  }
}
