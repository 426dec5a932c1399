/**
 * `RSSCollector.fetch` (app/collectors/rss_client.py). Pages 1 to
 * `max_pages` of an app's customer-review feed are requested in order. Every
 * entry that carries an `im:rating` becomes a review record. A page that
 * fails is abandoned where it failed, and the loop goes on with the next page.
 *
 * The network is the function `feed`: the reply to the request for each page
 * number. Python's `int()` on a str, `datetime.fromisoformat` and `str()` of a
 * list or dict are the functions in `Parsers`.
 */
module RssClient {
  import opened Wrappers
  import opened Strings
  import opened JsonValue
  import Text

  /** A point in time, as `datetime.fromisoformat` produces it. */
  type Instant = int

  /** The outcome of `requests.get` for one page: no reply (it raised), or a status and a body that is JSON or is not. */
  datatype PageResponse = NoReply | Reply(status: int, body: Option<Json>)

  /** The record dict the collector appends for one review. */
  datatype ReviewRecord = ReviewRecord(
    reviewId: string,
    author: Json,
    title: string,
    text: string,
    rating: int,
    version: Json,
    date: Option<Instant>,
    source: string,
    language: string)

  /** The Python parsers the collector relies on. */
  datatype Parsers = Parsers(
    parseInt: string -> Option<int>,
    parseDate: string -> Option<Instant>,
    render: Json -> string)

  /** What one entry does to the page loop: `continue`, raise, or append a record. */
  datatype EntryOutcome = Skip | Abandon | Emit(record: ReviewRecord)

  /** The date of an entry. A non-empty str label is parsed with 'Z' read as
      "+00:00"; a parse failure is caught and gives None. An empty label makes
      the source fall back to the `updated` object itself (or ""), which is
      either falsy or has no `replace`; a label that is not a str has no
      `replace` either. All of these give None. */
  function DateOf(stamp: Json, parseDate: string -> Option<Instant>): Option<Instant> {
    if stamp.JStr? && stamp.s != "" then parseDate(ReplaceChar(stamp.s, 'Z', "+00:00")) else None
  }

  /** The values pulled from an entry, with the title and text cleaned. */
  datatype EntryFields = EntryFields(
    rid: Json, author: Json, title: string, text: string, rating: int, version: Json, dateLabel: Json)

  /** The fields of an entry, pulled by their fixed key paths with their defaults, in the order the source reads them. */
  function PullFields(e: Json, parseInt: string -> Option<int>): (r: Result<EntryFields, Fault>)
    ensures r.Ok? ==> Text.IsClean(r.value.title) && Text.IsClean(r.value.text)
    ensures r.Ok? ==> e.JObj? && ("updated" !in e.fields ==> r.value.dateLabel == JStr(""))
  {
    var rid :- Label(e, "id", JStr(""));
    var title :- Label(e, "title", JStr(""));
    var text :- Label(e, "content", JStr(""));
    var ratingLabel :- Label(e, "im:rating", JInt(0));
    var rating :- IntOf(ratingLabel, parseInt);
    var authorObject :- Get(e, "author", EmptyObject);
    var author :- Label(authorObject, "name", JStr(""));
    var version :- Label(e, "im:version", JStr(""));
    var updated :- Get(e, "updated", EmptyObject);
    var dateLabel :- Get(updated, "label", JStr(""));
    var cleanTitle :- CleanValue(title);
    var cleanText :- CleanValue(text);
    Ok(EntryFields(rid, author, cleanTitle, cleanText, rating, version, dateLabel))
  }

  /** The record appended for an entry. */
  function EntryRecord(e: Json, p: Parsers): (r: Result<ReviewRecord, Fault>)
    ensures r.Ok? ==> r.value.source == "rss" && r.value.language == ""
    ensures r.Ok? ==> Text.IsClean(r.value.title) && Text.IsClean(r.value.text)
  {
    var f :- PullFields(e, p.parseInt);
    Ok(ReviewRecord(StrOf(f.rid, p.render), f.author, f.title, f.text, f.rating,
                    f.version, DateOf(f.dateLabel, p.parseDate), "rss", ""))
  }

  /** What the collector promises of each record. */
  predicate IsRssRecord(r: ReviewRecord) {
    r.source == "rss" && r.language == "" && Text.IsClean(r.title) && Text.IsClean(r.text)
  }

  /** One pass of the entry loop. */
  function ParseEntry(e: Json, p: Parsers): (o: EntryOutcome)
    ensures o.Emit? ==> IsRssRecord(o.record) && HasKey(e, "im:rating") == Ok(true)
  {
    match HasKey(e, "im:rating")
    case Err(_) => Abandon
    case Ok(false) => Skip
    case Ok(true) =>
      match EntryRecord(e, p)
      case Ok(r) => Emit(r)
      case Err(_) => Abandon
  }

  /** `data.get('feed', {}).get('entry', [])`. */
  function EntryList(data: Json): Result<Json, Fault> {
    var feed :- Get(data, "feed", EmptyObject);
    Get(feed, "entry", JArr([]))
  }

  /** The entries the loop walks for one reply. A failed request, a status
      other than 200, a body that is not JSON or a missing `feed` dict give
      none. An `entry` that is not a list gives none as well: iterating a str
      yields one-character strings, which never contain "im:rating"; iterating
      a dict yields keys, which are skipped or raise before anything is
      appended; any other value cannot be iterated. */
  function PageEntries(resp: PageResponse): seq<Json> {
    if resp.NoReply? || resp.status != 200 || resp.body.None? then []
    else match EntryList(resp.body.value)
      case Ok(JArr(xs)) => xs
      case _ => []
  }

  /** The entry loop's step for the collector's parsers. */
  function EntryParser(p: Parsers): Json -> EntryOutcome {
    e => ParseEntry(e, p)
  }

  /**
   * The records the entry loop appends for `xs`: each entry is skipped or
   * appends its record, and the first entry that raises ends the page.
   * The step is a parameter, `EntryParser(p)` in the collector, so that the
   * loop structure is stated once.
   */
  function Walk(xs: seq<Json>, parse: Json -> EntryOutcome): seq<ReviewRecord>
    decreases |xs|
  {
    if xs == [] then []
    else match parse(xs[0])
      case Abandon => []
      case Skip => Walk(xs[1..], parse)
      case Emit(r) => [r] + Walk(xs[1..], parse)
  }

  /** The records one page adds. */
  function PageRecords(resp: PageResponse, parse: Json -> EntryOutcome): seq<ReviewRecord> {
    Walk(PageEntries(resp), parse)
  }

  /** The records of pages 1 to `pages`, page after page. */
  function Collected(feed: nat -> PageResponse, pages: int, parse: Json -> EntryOutcome): seq<ReviewRecord>
    decreases pages
  {
    if pages <= 0 then [] else Collected(feed, pages - 1, parse) + PageRecords(feed(pages), parse)
  }

  /**
   * `RSSCollector().fetch(app_id, country, max_pages)`, which never raises.
   * The collector passes `EntryParser(p)` as `parse`.
   */
  method Fetch(feed: nat -> PageResponse, maxPages: int, parse: Json -> EntryOutcome) returns (out: seq<ReviewRecord>)
    ensures out == Collected(feed, maxPages, parse)
  {
    out := [];
    var page := 1;
    while page <= maxPages
      invariant page == 1 || 1 < page <= maxPages + 1
      invariant out == Collected(feed, page - 1, parse)
    {
      var records := FetchPage(feed(page), parse);
      out := out + records;
      page := page + 1;
    }
    if maxPages < page - 1 {
      assert Collected(feed, maxPages, parse) == [];
    }
  }

  /** The body of the page loop: walk the entries of one reply until one raises. */
  method FetchPage(resp: PageResponse, parse: Json -> EntryOutcome) returns (records: seq<ReviewRecord>)
    ensures records == PageRecords(resp, parse)
  {
    records := [];
    if resp.Reply? && resp.status == 200 && resp.body.Some? {
      var entries := EntryList(resp.body.value);
      if entries.Ok? && entries.value.JArr? {
        var xs := entries.value.items;
        assert xs == PageEntries(resp);
        var k := 0;
        while k < |xs|
          invariant 0 <= k <= |xs|
          invariant Walk(xs, parse) == records + Walk(xs[k..], parse)
        {
          var outcome := parse(xs[k]);
          assert xs[k..][0] == xs[k] && xs[k..][1..] == xs[k + 1..];
          if outcome.Abandon? {
            break;
          }
          if outcome.Emit? {
            records := records + [outcome.record];
          }
          k := k + 1;
        }
      }
    }
  }

  /** Every record the step emits is tagged "rss" with an empty language, and its title and text are clean. */
  ghost predicate EmitsClean(parse: Json -> EntryOutcome) {
    forall e :: parse(e).Emit? ==> IsRssRecord(parse(e).record)
  }

  /** The collector's step emits only clean "rss" records. */
  lemma EntryParserClean(p: Parsers)
    ensures EmitsClean(EntryParser(p))
  {
    forall e | EntryParser(p)(e).Emit?
      ensures IsRssRecord(EntryParser(p)(e).record)
    {
      assert EntryParser(p)(e) == ParseEntry(e, p);
    }
  }

  /** Every collected record is tagged "rss" with an empty language, and its title and text are clean. */
  lemma CollectedRecordsAreClean(feed: nat -> PageResponse, pages: int, p: Parsers)
    ensures forall r :: r in Collected(feed, pages, EntryParser(p)) ==> IsRssRecord(r)
  {
    EntryParserClean(p);
    CollectedKeepsClean(feed, pages, EntryParser(p));
  }

  lemma {:induction false} CollectedKeepsClean(feed: nat -> PageResponse, pages: int, parse: Json -> EntryOutcome)
    requires EmitsClean(parse)
    ensures forall r :: r in Collected(feed, pages, parse) ==> IsRssRecord(r)
    decreases pages
  {
    if pages > 0 {
      CollectedKeepsClean(feed, pages - 1, parse);
      WalkKeepsClean(PageEntries(feed(pages)), parse);
      assert Collected(feed, pages, parse) == Collected(feed, pages - 1, parse) + PageRecords(feed(pages), parse);
    }
  }

  lemma {:induction false} WalkKeepsClean(xs: seq<Json>, parse: Json -> EntryOutcome)
    requires EmitsClean(parse)
    ensures forall r :: r in Walk(xs, parse) ==> IsRssRecord(r)
    decreases |xs|
  {
    if xs != [] {
      WalkKeepsClean(xs[1..], parse);
    }
  }

  /** The records of one page are clean "rss" records too. */
  lemma WalkRecordsAreClean(xs: seq<Json>, p: Parsers)
    ensures forall r :: r in Walk(xs, EntryParser(p)) ==> IsRssRecord(r)
  {
    EntryParserClean(p);
    WalkKeepsClean(xs, EntryParser(p));
  }

  /** A record is collected exactly when one of the pages 1..pages yields it. */
  lemma CollectedFromPages(feed: nat -> PageResponse, pages: int, parse: Json -> EntryOutcome, r: ReviewRecord)
    ensures r in Collected(feed, pages, parse) <==>
      exists page :: 1 <= page <= pages && r in PageRecords(feed(page), parse)
  {
    if r in Collected(feed, pages, parse) {
      var page := CollectedPage(feed, pages, parse, r);
    }
    forall page | 1 <= page <= pages && r in PageRecords(feed(page), parse)
      ensures r in Collected(feed, pages, parse)
    {
      PageCollected(feed, pages, parse, r, page);
    }
  }

  /** A collected record comes from one of the pages 1..pages. */
  lemma {:induction false} CollectedPage(feed: nat -> PageResponse, pages: int, parse: Json -> EntryOutcome, r: ReviewRecord)
    returns (page: nat)
    requires r in Collected(feed, pages, parse)
    ensures 1 <= page <= pages && r in PageRecords(feed(page), parse)
    decreases pages
  {
    assert Collected(feed, pages, parse) == Collected(feed, pages - 1, parse) + PageRecords(feed(pages), parse);
    if r in PageRecords(feed(pages), parse) {
      page := pages;
    } else {
      page := CollectedPage(feed, pages - 1, parse, r);
    }
  }

  /** Every record of one of the pages 1..pages is collected. */
  lemma {:induction false} PageCollected(feed: nat -> PageResponse, pages: int, parse: Json -> EntryOutcome, r: ReviewRecord, page: nat)
    requires 1 <= page <= pages && r in PageRecords(feed(page), parse)
    ensures r in Collected(feed, pages, parse)
    decreases pages
  {
    assert Collected(feed, pages, parse) == Collected(feed, pages - 1, parse) + PageRecords(feed(pages), parse);
    if page < pages {
      PageCollected(feed, pages - 1, parse, r, page);
    }
  }

  /** A page answered with a status other than 200 adds nothing, and the pages after it are still collected. */
  lemma {:induction false} FailedPageAddsNothing(feed: nat -> PageResponse, k: nat, pages: int, parse: Json -> EntryOutcome)
    requires feed(k).Reply? && feed(k).status != 200
    ensures PageRecords(feed(k), parse) == []
    ensures Collected(feed, pages, parse) == Collected((n: nat) => if n == k then NoReply else feed(n), pages, parse)
    decreases pages
  {
    if pages > 0 {
      FailedPageAddsNothing(feed, k, pages - 1, parse);
    }
  }

  /** The number of entries for which `'im:rating' in e` holds. */
  function RatedCount(xs: seq<Json>): nat
    decreases |xs|
  {
    if xs == [] then 0
    else (if HasKey(xs[0], "im:rating") == Ok(true) then 1 else 0) + RatedCount(xs[1..])
  }

  /** Only entries that have an `im:rating` append a record, one at most each. */
  lemma {:induction false} WalkAtMostRated(xs: seq<Json>, p: Parsers)
    ensures |Walk(xs, EntryParser(p))| <= RatedCount(xs)
    decreases |xs|
  {
    if xs != [] {
      WalkAtMostRated(xs[1..], p);
    }
  }

  /** The records of every entry that appends one, as if no entry raised. */
  function AllEmitted(xs: seq<Json>, parse: Json -> EntryOutcome): seq<ReviewRecord>
    decreases |xs|
  {
    if xs == [] then []
    else
      var o := parse(xs[0]);
      (if o.Emit? then [o.record] else []) + AllEmitted(xs[1..], parse)
  }

  /** A page keeps a prefix of what its entries would append, all of it when none raises. */
  lemma {:induction false} WalkIsPrefixOfAllEmitted(xs: seq<Json>, parse: Json -> EntryOutcome)
    ensures Walk(xs, parse) <= AllEmitted(xs, parse)
    ensures (forall i :: 0 <= i < |xs| ==> !parse(xs[i]).Abandon?) ==> Walk(xs, parse) == AllEmitted(xs, parse)
    decreases |xs|
  {
    if xs != [] {
      WalkIsPrefixOfAllEmitted(xs[1..], parse);
      assert forall i :: 0 <= i < |xs| - 1 ==> xs[1..][i] == xs[i + 1];
    }
  }

  /** Nothing after an entry that raises is collected: the page is what the entries before it append. */
  lemma {:induction false} WalkStopsAtAbandon(xs: seq<Json>, k: nat, parse: Json -> EntryOutcome)
    requires k < |xs| && parse(xs[k]).Abandon?
    ensures Walk(xs, parse) == Walk(xs[..k], parse)
    decreases k
  {
    if k > 0 {
      WalkStopsAtAbandon(xs[1..], k - 1, parse);
      assert xs[..k][0] == xs[0] && xs[..k][1..] == xs[1..][..k - 1];
    }
  }

  /** An entry without an `im:rating` key is skipped. */
  lemma EntryWithoutRatingIsSkipped(e: Json, p: Parsers)
    requires e.JObj? && "im:rating" !in e.fields
    ensures ParseEntry(e, p) == Skip && Walk([e], EntryParser(p)) == []
  {
  }

  /** The date parser never decides whether an entry is kept, and an entry without `updated` has no date. */
  lemma DateNeverDropsEntry(e: Json, p: Parsers, parseDate: string -> Option<Instant>)
    ensures EntryRecord(e, p).Ok? == EntryRecord(e, p.(parseDate := parseDate)).Ok?
    ensures EntryRecord(e, p).Ok? && "updated" !in e.fields ==> EntryRecord(e, p).value.date == None
  {
    var q := p.(parseDate := parseDate);
    assert PullFields(e, q.parseInt) == PullFields(e, p.parseInt);
  }
}
