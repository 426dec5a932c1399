/**
 * Ingestion (app/services/review_service.py): `upsert_reviews` inserts the
 * rated records of a batch whose natural key is not yet stored, and
 * `collect_reviews` fetches a pool, shuffles it, upserts a sample and reports
 * the inserted count with the change in the row count.
 *
 * The session is opened with `autoflush=False` (app/database.py:8): the
 * duplicate lookup sees only committed rows, never the rows added earlier in
 * the same batch. Those are checked only by the unique constraint at commit,
 * which then fails and leaves the table as it was.
 */
module ReviewService {
  import opened Wrappers
  import opened Strings
  import opened JsonValue
  import Text
  import opened RssClient
  import opened Models

  /** Why a call fails: the commit violates the unique constraint, or building a row raises. */
  datatype DbError = IntegrityError | Raised(fault: Fault)

  /** `if not r.get('rating'): continue` lets the record through. */
  predicate Rated(r: ReviewRecord) {
    r.rating != 0
  }

  /** The records of `batch` that the loop turns into rows: rated, and with a key not among the committed rows. */
  function Admitted(existing: seq<StoredReview>, appId: string, country: string, batch: seq<ReviewRecord>): (adm: seq<ReviewRecord>)
    ensures |adm| <= |batch|
  {
    if batch == [] then []
    else
      var n := |batch| - 1;
      var r := batch[n];
      Admitted(existing, appId, country, batch[..n])
        + (if Rated(r) && !Stored(existing, Key(appId, country, r.reviewId)) then [r] else [])
  }

  /** A record is admitted exactly when it is in the batch, rated, and its key is not stored. */
  lemma {:induction false} AdmittedMembers(existing: seq<StoredReview>, appId: string, country: string, batch: seq<ReviewRecord>)
    ensures forall r :: r in Admitted(existing, appId, country, batch) <==>
      r in batch && Rated(r) && !Stored(existing, Key(appId, country, r.reviewId))
    decreases |batch|
  {
    if batch != [] {
      var n := |batch| - 1;
      AdmittedMembers(existing, appId, country, batch[..n]);
      assert batch == batch[..n] + [batch[n]];
    }
  }

  /** `f"rss-{random.getrandbits(32)}"` for some draw. */
  predicate RandomId(id: string) {
    exists n: nat :: n < 0x1_0000_0000 && id == "rss-" + NatToDecimal(n)
  }

  /** `r.get('review_id') or f"rss-..."`. */
  predicate IdFor(r: ReviewRecord, id: string) {
    if r.reviewId != "" then id == r.reviewId else RandomId(id)
  }

  /** The key of the row built from record `r`. */
  predicate KeyedAs(row: StoredReview, appId: string, country: string, r: ReviewRecord) {
    row.appId == appId && row.country == country && IdFor(r, row.reviewId)
  }

  /** The `Review(...)` built from record `r`. */
  predicate RowFor(row: StoredReview, appId: string, country: string, r: ReviewRecord, render: Json -> string) {
    && KeyedAs(row, appId, country, r)
    && CleanValue(r.author) == Ok(row.author)
    && row.title == Text.CleanText(r.title)
    && row.text == Text.CleanText(r.text)
    && row.rating == r.rating
    && row.version == StrOf(r.version, render)
    && row.date == r.date
    && row.source == r.source
    && row.language == r.language
  }

  /** `P(xs[i], ys[i])` at every position i of two sequences of one length. */
  predicate Pairwise<A, B>(xs: seq<A>, ys: seq<B>, P: (A, B) -> bool)
    decreases |xs|
  {
    && |xs| == |ys|
    && (xs != [] ==>
         var n := |xs| - 1;
         Pairwise(xs[..n], ys[..n], P) && P(xs[n], ys[n]))
  }

  lemma PairwiseSnoc<A, B>(xs: seq<A>, ys: seq<B>, P: (A, B) -> bool, x: A, y: B)
    requires Pairwise(xs, ys, P) && P(x, y)
    ensures Pairwise(xs + [x], ys + [y], P)
  {
    assert (xs + [x])[..|xs|] == xs && (ys + [y])[..|ys|] == ys;
  }

  lemma {:induction false} PairwiseAt<A, B>(xs: seq<A>, ys: seq<B>, P: (A, B) -> bool, i: nat)
    requires Pairwise(xs, ys, P) && i < |xs|
    ensures i < |ys| && P(xs[i], ys[i])
    decreases |xs|
  {
    var n := |xs| - 1;
    if i < n {
      PairwiseAt(xs[..n], ys[..n], P, i);
      assert xs[..n][i] == xs[i] && ys[..n][i] == ys[i];
    }
  }

  /** `rows[i]` is the row built from `recs[i]`, for every i. */
  predicate Built(rows: seq<StoredReview>, appId: string, country: string, recs: seq<ReviewRecord>, render: Json -> string) {
    Pairwise(rows, recs, (row, r) => RowFor(row, appId, country, r, render))
  }

  lemma BuiltSnoc(rows: seq<StoredReview>, appId: string, country: string, recs: seq<ReviewRecord>, render: Json -> string,
                  row: StoredReview, r: ReviewRecord)
    requires Built(rows, appId, country, recs, render) && RowFor(row, appId, country, r, render)
    ensures Built(rows + [row], appId, country, recs + [r], render)
  {
    PairwiseSnoc(rows, recs, (row, r) => RowFor(row, appId, country, r, render), row, r);
  }

  /** Each built row is the row of the record at its position, and carries that record's key. */
  lemma BuiltPointwise(rows: seq<StoredReview>, appId: string, country: string, recs: seq<ReviewRecord>, render: Json -> string)
    requires Built(rows, appId, country, recs, render)
    ensures |rows| == |recs|
    ensures forall i :: 0 <= i < |rows| ==> RowFor(rows[i], appId, country, recs[i], render)
    ensures forall i :: 0 <= i < |rows| ==> KeyedAs(rows[i], appId, country, recs[i])
  {
    forall i | 0 <= i < |rows|
      ensures RowFor(rows[i], appId, country, recs[i], render)
    {
      BuiltAt(rows, appId, country, recs, render, i);
    }
  }

  /** The row at `i` is built from the record at `i`. */
  lemma BuiltAt(rows: seq<StoredReview>, appId: string, country: string, recs: seq<ReviewRecord>, render: Json -> string, i: nat)
    requires Built(rows, appId, country, recs, render) && i < |rows|
    ensures i < |recs| && RowFor(rows[i], appId, country, recs[i], render)
  {
    PairwiseAt(rows, recs, (row, r) => RowFor(row, appId, country, r, render), i);
  }

  /** Some record's author is truthy but not a str, so `clean_text` raises on it. */
  predicate AuthorFault(recs: seq<ReviewRecord>)
    decreases |recs|
  {
    recs != [] && (AuthorFault(recs[..|recs| - 1]) || CleanValue(recs[|recs| - 1].author).Err?)
  }

  lemma {:induction false} AuthorFaultAt(recs: seq<ReviewRecord>)
    ensures AuthorFault(recs) <==> exists i :: 0 <= i < |recs| && CleanValue(recs[i].author).Err?
  {
    AuthorFaultWitness(recs);
    if exists i :: 0 <= i < |recs| && CleanValue(recs[i].author).Err? {
      var i :| 0 <= i < |recs| && CleanValue(recs[i].author).Err?;
      AuthorFaultOf(recs, i);
    }
  }

  lemma {:induction false} AuthorFaultWitness(recs: seq<ReviewRecord>)
    ensures AuthorFault(recs) ==> exists i :: 0 <= i < |recs| && CleanValue(recs[i].author).Err?
    decreases |recs|
  {
    if AuthorFault(recs) {
      var n := |recs| - 1;
      if !CleanValue(recs[n].author).Err? {
        var pre := recs[..n];
        AuthorFaultWitness(pre);
        var i :| 0 <= i < n && CleanValue(pre[i].author).Err?;
        assert recs[i] == pre[i];
      }
    }
  }

  lemma {:induction false} AuthorFaultOf(recs: seq<ReviewRecord>, i: nat)
    requires i < |recs| && CleanValue(recs[i].author).Err?
    ensures AuthorFault(recs)
    decreases |recs|
  {
    var n := |recs| - 1;
    if i < n {
      var pre := recs[..n];
      assert pre[i] == recs[i];
      AuthorFaultOf(pre, i);
    }
  }

  /** One more record is a fault exactly when its author is. */
  lemma AuthorFaultSnoc(recs: seq<ReviewRecord>, r: ReviewRecord)
    ensures AuthorFault(recs + [r]) <==> AuthorFault(recs) || CleanValue(r.author).Err?
  {
    assert (recs + [r])[..|recs|] == recs;
  }

  /** A fault in a prefix is a fault of the whole. */
  lemma AuthorFaultExtends(pre: seq<ReviewRecord>, whole: seq<ReviewRecord>)
    requires pre <= whole && AuthorFault(pre)
    ensures AuthorFault(whole)
  {
    AuthorFaultAt(pre);
    AuthorFaultAt(whole);
    var i :| 0 <= i < |pre| && CleanValue(pre[i].author).Err?;
    assert whole[i] == pre[i];
  }

  /** The review ids of `batch` are non-empty and pairwise distinct. */
  predicate DistinctIds(batch: seq<ReviewRecord>) {
    && (forall i :: 0 <= i < |batch| ==> batch[i].reviewId != "")
    && (forall i, j :: 0 <= i < j < |batch| ==> batch[i].reviewId != batch[j].reviewId)
  }

  /** One pass of the upsert loop: the record at `i` is admitted or not, after those before it. */
  lemma AdmittedStep(existing: seq<StoredReview>, appId: string, country: string, batch: seq<ReviewRecord>, i: nat)
    requires i < |batch|
    ensures Admitted(existing, appId, country, batch[..i + 1]) ==
      Admitted(existing, appId, country, batch[..i])
        + (if Rated(batch[i]) && !Stored(existing, Key(appId, country, batch[i].reviewId)) then [batch[i]] else [])
  {
    assert batch[..i + 1][..i] == batch[..i];
  }

  /**
   * The loop of `upsert_reviews`: one row per admitted record, in order, and
   * the count `inserted`; it raises at the first admitted record whose author
   * is truthy but not a str.
   */
  method BuildRows(existing: seq<StoredReview>, appId: string, country: string, batch: seq<ReviewRecord>, render: Json -> string)
    returns (rows: Result<seq<StoredReview>, Fault>, inserted: nat)
    ensures rows.Err? <==> AuthorFault(Admitted(existing, appId, country, batch))
    ensures rows.Err? ==> rows.error == AttributeError
    ensures rows.Ok? ==> inserted == |rows.value|
    ensures rows.Ok? ==> Built(rows.value, appId, country, Admitted(existing, appId, country, batch), render)
  {
    ghost var admitted: seq<ReviewRecord> := [];
    var pending: seq<StoredReview> := [];
    inserted := 0;
    for i := 0 to |batch|
      invariant inserted == |pending|
      invariant admitted == Admitted(existing, appId, country, batch[..i])
      invariant !AuthorFault(admitted)
      invariant Built(pending, appId, country, admitted, render)
    {
      var r := batch[i];
      AdmittedStep(existing, appId, country, batch, i);
      if !Rated(r) {
        continue;
      }
      if Stored(existing, Key(appId, country, r.reviewId)) {
        continue;
      }
      var id := r.reviewId;
      if id == "" {
        var n: nat :| n < 0x1_0000_0000;
        id := "rss-" + NatToDecimal(n);
      }
      var author := CleanValue(r.author);
      if author.Err? {
        FaultAhead(existing, appId, country, batch, i);
        return Err(author.error), inserted;
      }
      var row := StoredReview(appId, country, id, author.value, Text.CleanText(r.title), Text.CleanText(r.text),
                              r.rating, StrOf(r.version, render), r.date, r.source, r.language);
      AuthorFaultSnoc(admitted, r);
      BuiltSnoc(pending, appId, country, admitted, render, row, r);
      pending := pending + [row];
      admitted := admitted + [r];
      inserted := inserted + 1;
    }
    assert batch[..|batch|] == batch;
    rows := Ok(pending);
  }

  /**
   * `upsert_reviews(db, app_id, country, rows)`. `added` is the rows the loop
   * builds, in order; they reach the table only if the commit succeeds.
   */
  method UpsertReviews(db: ReviewTable, appId: string, country: string, batch: seq<ReviewRecord>, render: Json -> string)
    returns (res: Result<nat, DbError>, ghost added: seq<StoredReview>)
    requires db.Valid()
    modifies db
    ensures db.Valid()
    ensures res.Ok? ==> db.rows == old(db.rows) + added && res.value == |added|
    ensures res.Err? ==> db.rows == old(db.rows)
    ensures !AuthorFault(Admitted(old(db.rows), appId, country, batch)) ==>
      Built(added, appId, country, Admitted(old(db.rows), appId, country, batch), render)
    ensures res.Err? && res.error.Raised? <==> AuthorFault(Admitted(old(db.rows), appId, country, batch))
    ensures res.Err? && res.error.Raised? ==> res.error.fault == AttributeError
    ensures res == Err(IntegrityError) ==> !UniqueKeys(old(db.rows) + added)
    ensures DistinctIds(batch) && !AuthorFault(Admitted(old(db.rows), appId, country, batch)) ==> res.Ok?
  {
    var existing := db.rows;
    var rows, inserted := BuildRows(existing, appId, country, batch, render);
    if rows.Err? {
      return Err(Raised(rows.error)), [];
    }
    var pending := rows.value;
    added := pending;
    if DistinctIds(batch) {
      BuiltPointwise(pending, appId, country, Admitted(existing, appId, country, batch), render);
      DistinctBatchCommits(existing, appId, country, batch, pending);
    }
    if UniqueKeys(db.rows + pending) {
      db.rows := db.rows + pending;
      res := Ok(inserted);
    } else {
      res := Err(IntegrityError);
    }
  }

  /** A record at `i` that the loop admits and whose author raises makes the whole batch fault. */
  lemma FaultAhead(existing: seq<StoredReview>, appId: string, country: string, batch: seq<ReviewRecord>, i: nat)
    requires i < |batch| && Rated(batch[i]) && !Stored(existing, Key(appId, country, batch[i].reviewId))
    requires CleanValue(batch[i].author).Err?
    ensures AuthorFault(Admitted(existing, appId, country, batch))
  {
    var pre := Admitted(existing, appId, country, batch[..i]);
    AdmittedStep(existing, appId, country, batch, i);
    AuthorFaultSnoc(pre, batch[i]);
    AdmittedPrefix(existing, appId, country, batch, i + 1);
    AuthorFaultExtends(pre + [batch[i]], Admitted(existing, appId, country, batch));
  }

  /** What the loop admits from a prefix of the batch stays at the front of what it admits from the whole batch. */
  lemma {:induction false} AdmittedPrefix(existing: seq<StoredReview>, appId: string, country: string, batch: seq<ReviewRecord>, j: nat)
    requires j <= |batch|
    ensures Admitted(existing, appId, country, batch[..j]) <= Admitted(existing, appId, country, batch)
    decreases |batch|
  {
    if j < |batch| {
      var n := |batch| - 1;
      AdmittedPrefix(existing, appId, country, batch[..n], j);
      assert batch[..n][..j] == batch[..j];
    } else {
      assert batch[..j] == batch;
    }
  }

  /** A sub-batch of a batch with distinct ids has distinct ids. */
  lemma {:induction false} AdmittedDistinct(existing: seq<StoredReview>, appId: string, country: string, batch: seq<ReviewRecord>)
    requires DistinctIds(batch)
    ensures DistinctIds(Admitted(existing, appId, country, batch))
    decreases |batch|
  {
    if batch != [] {
      var n := |batch| - 1;
      var pre := batch[..n];
      var last := batch[n];
      DistinctPrefix(batch);
      AdmittedDistinct(existing, appId, country, pre);
      AdmittedMembers(existing, appId, country, pre);
      var front := Admitted(existing, appId, country, pre);
      if Rated(last) && !Stored(existing, Key(appId, country, last.reviewId)) {
        DistinctSnoc(front, last);
      }
    }
  }

  /** Dropping the last record keeps the ids distinct, and none of them is the last record's id. */
  lemma DistinctPrefix(batch: seq<ReviewRecord>)
    requires batch != [] && DistinctIds(batch)
    ensures DistinctIds(batch[..|batch| - 1])
    ensures forall x :: x in batch[..|batch| - 1] ==> x.reviewId != batch[|batch| - 1].reviewId
  {
    var n := |batch| - 1;
    var pre := batch[..n];
    assert forall i :: 0 <= i < n ==> pre[i] == batch[i];
    forall x | x in pre
      ensures x.reviewId != batch[n].reviewId
    {
      var k :| 0 <= k < n && pre[k] == x;
    }
  }

  /** A record whose id is non-empty and new keeps the ids distinct. */
  lemma DistinctSnoc(recs: seq<ReviewRecord>, r: ReviewRecord)
    requires DistinctIds(recs) && r.reviewId != ""
    requires forall x :: x in recs ==> x.reviewId != r.reviewId
    ensures DistinctIds(recs + [r])
  {
    var all := recs + [r];
    forall i, j | 0 <= i < j < |all|
      ensures all[i].reviewId != all[j].reviewId
    {
      assert all[i] == recs[i];
      if j == |recs| {
        assert recs[i] in recs;
      } else {
        assert all[j] == recs[j];
      }
    }
  }

  /**
   * With non-empty, distinct review ids in the batch, the rows built from it
   * keep the table unique, so the commit succeeds.
   */
  lemma DistinctBatchCommits(existing: seq<StoredReview>, appId: string, country: string, batch: seq<ReviewRecord>,
                             added: seq<StoredReview>)
    requires UniqueKeys(existing) && DistinctIds(batch)
    requires |added| == |Admitted(existing, appId, country, batch)|
    requires forall i :: 0 <= i < |added| ==> KeyedAs(added[i], appId, country, Admitted(existing, appId, country, batch)[i])
    ensures UniqueKeys(existing + added)
  {
    var adm := Admitted(existing, appId, country, batch);
    AdmittedDistinct(existing, appId, country, batch);
    AdmittedMembers(existing, appId, country, batch);
    var all := existing + added;
    forall i, j | 0 <= i < j < |all|
      ensures KeyOf(all[i]) != KeyOf(all[j])
    {
      if j >= |existing| {
        var b := j - |existing|;
        assert all[j] == added[b] && KeyedAs(added[b], appId, country, adm[b]);
        assert KeyOf(all[j]) == Key(appId, country, adm[b].reviewId);
        if i < |existing| {
          assert adm[b] in adm;
          assert !Stored(existing, KeyOf(all[j]));
          assert all[i] == existing[i];
        } else {
          var a := i - |existing|;
          assert all[i] == added[a] && KeyedAs(added[a], appId, country, adm[a]);
        }
      }
    }
  }

  /** Every rated record with a review id has its key in the table once its batch has committed. */
  lemma ReupsertFindsKeys(existing: seq<StoredReview>, appId: string, country: string, batch: seq<ReviewRecord>,
                          added: seq<StoredReview>)
    requires |added| == |Admitted(existing, appId, country, batch)|
    requires forall i :: 0 <= i < |added| ==> KeyedAs(added[i], appId, country, Admitted(existing, appId, country, batch)[i])
    ensures forall r :: r in batch && Rated(r) && r.reviewId != "" ==> Stored(existing + added, Key(appId, country, r.reviewId))
  {
    var adm := Admitted(existing, appId, country, batch);
    AdmittedMembers(existing, appId, country, batch);
    var all := existing + added;
    forall r | r in batch && Rated(r) && r.reviewId != ""
      ensures Stored(all, Key(appId, country, r.reviewId))
    {
      var k := Key(appId, country, r.reviewId);
      if Stored(existing, k) {
        var i :| 0 <= i < |existing| && KeyOf(existing[i]) == k;
        assert all[i] == existing[i];
      } else {
        var b :| 0 <= b < |adm| && adm[b] == r;
        assert all[|existing| + b] == added[b] && KeyedAs(added[b], appId, country, adm[b]);
      }
    }
  }

  /**
   * Upserting a batch again after it committed admits nothing but records
   * without a review id.
   */
  lemma ReupsertAdmitsOnlyIdless(existing: seq<StoredReview>, appId: string, country: string, batch: seq<ReviewRecord>,
                                 added: seq<StoredReview>)
    requires |added| == |Admitted(existing, appId, country, batch)|
    requires forall i :: 0 <= i < |added| ==> KeyedAs(added[i], appId, country, Admitted(existing, appId, country, batch)[i])
    ensures forall r :: r in Admitted(existing + added, appId, country, batch) ==> r.reviewId == ""
  {
    ReupsertFindsKeys(existing, appId, country, batch, added);
    AdmittedMembers(existing + added, appId, country, batch);
  }

  /** The order in which `collect_reviews` tries its sources. */
  function SourceOrder(source: string): (order: seq<string>)
    ensures |order| >= 1
  {
    if source == "auto" || source == "webscraper" then ["webscraper", "rss"]
    else if source != "auto" then [source]
    else ["rss"]
  }

  function Min(a: int, b: int): int {
    if a <= b then a else b
  }

  /** `random.shuffle`: swaps each position, from the last down, with a position at or before it. */
  method Shuffle<T>(a: array<T>)
    modifies a
    ensures multiset(a[..]) == multiset(old(a[..]))
  {
    var i := a.Length - 1;
    while i > 0
      invariant i < a.Length
      invariant multiset(a[..]) == multiset(old(a[..]))
    {
      var j :| 0 <= j <= i;
      a[i], a[j] := a[j], a[i];
      i := i - 1;
    }
  }

  /** The source loop: each source calls the RSS collector with ten pages, and the last call's records are kept. */
  method FetchPool(order: seq<string>, feeds: nat -> nat -> PageResponse, parse: Json -> EntryOutcome)
    returns (pool: seq<ReviewRecord>)
    requires |order| >= 1
    ensures pool == Collected(feeds(|order| - 1), 10, parse)
  {
    pool := [];
    for i := 0 to |order|
      invariant i > 0 ==> pool == Collected(feeds(i - 1), 10, parse)
    {
      pool := Fetch(feeds(i), 10, parse);
    }
  }

  /** `random.shuffle(pool)` followed by `pool[:how_many]`. */
  method ShuffledSample(pool: seq<ReviewRecord>, howMany: int) returns (shuffled: seq<ReviewRecord>, sample: seq<ReviewRecord>)
    requires howMany >= 1
    ensures multiset(shuffled) == multiset(pool) && |shuffled| == |pool|
    ensures sample == shuffled[..Min(howMany, |pool|)]
  {
    var a := new ReviewRecord[|pool|](k requires 0 <= k < |pool| => pool[k]);
    assert a[..] == pool;
    Shuffle(a);
    shuffled := a[..];
    assert |multiset(shuffled)| == |multiset(pool)|;
    sample := a[..Min(howMany, a.Length)];
  }

  /**
   * `collect_reviews(db, app_id, country, how_many, source)`. Every source
   * in the order calls the RSS collector with ten pages, and each call
   * replaces the pool; `feeds(i)` is the network as the i-th call sees it.
   * `fetched` is the final pool and `shuffled` the pool after the shuffle.
   */
  method CollectReviews(db: ReviewTable, appId: string, country: string, howMany: int, source: string,
                        feeds: nat -> nat -> PageResponse, parse: Json -> EntryOutcome, render: Json -> string)
    returns (res: Result<(nat, int), DbError>, ghost fetched: seq<ReviewRecord>, ghost shuffled: seq<ReviewRecord>)
    requires db.Valid() && 1 <= howMany <= 1000
    modifies db
    ensures db.Valid()
    ensures fetched == Collected(feeds(|SourceOrder(source)| - 1), 10, parse)
    ensures fetched == [] ==> res == Ok((0, 0)) && db.rows == old(db.rows)
    ensures multiset(shuffled) == multiset(fetched)
    ensures res.Err? ==> db.rows == old(db.rows)
    ensures res.Ok? ==> old(db.rows) <= db.rows
    ensures res.Ok? ==> res.value.1 == CountFor(db.rows, appId, country) - CountFor(old(db.rows), appId, country)
    ensures res.Ok? ==> res.value.0 == res.value.1 == |db.rows| - |old(db.rows)|
    ensures fetched != [] && res.Ok? ==>
      Built(db.rows[|old(db.rows)|..], appId, country,
            Admitted(old(db.rows), appId, country, shuffled[..Min(howMany, |fetched|)]), render)
    ensures fetched != [] ==>
      (res.Err? && res.error.Raised? <==>
       AuthorFault(Admitted(old(db.rows), appId, country, shuffled[..Min(howMany, |fetched|)])))
    ensures fetched != [] ==>
      var sample := shuffled[..Min(howMany, |fetched|)];
      DistinctIds(sample) && !AuthorFault(Admitted(old(db.rows), appId, country, sample)) ==> res.Ok?
  {
    var pool := FetchPool(SourceOrder(source), feeds, parse);
    fetched := pool;
    shuffled := pool;
    if pool == [] {
      return Ok((0, 0)), fetched, shuffled;
    }
    var sample;
    shuffled, sample := ShuffledSample(pool, howMany);
    var before := CountFor(db.rows, appId, country);
    ghost var committed := db.rows;
    var upserted, added := UpsertReviews(db, appId, country, sample, render);
    if upserted.Err? {
      return Err(upserted.error), fetched, shuffled;
    }
    var inserted := upserted.value;
    var after := CountFor(db.rows, appId, country);
    ghost var adm := Admitted(committed, appId, country, sample);
    BuiltPointwise(added, appId, country, adm, render);
    forall x | x in added
      ensures x.appId == appId && x.country == country
    {
      var k :| 0 <= k < |added| && added[k] == x;
      assert KeyedAs(added[k], appId, country, adm[k]);
    }
    CountForAppend(committed, added, appId, country);
    assert db.rows[|committed|..] == added;
    res := Ok((inserted, after - before));
  }
}
