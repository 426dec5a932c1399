# App Store review service: a verified model of its core logic

This project models the plain sequence, string and counting logic of a small
review-analysis service in Dafny. The service collects App Store reviews from the
iTunes RSS feed, stores them in a `reviews` table that is unique on
(app_id, country, review_id), and reports rating metrics, sentiment tallies and
recommendations generated by a language model. The model covers these parts:

- `clean_text`, the text normaliser (`text.dfy`, with Python `str` builtins in `strings.dfy`).
- The page and entry loop of `RSSCollector.fetch` (`rss_client.dfy`), over parsed JSON values (`json_value.dfy`).
  - The network is a parameter: one reply per page number.
  - Parsing of integers and dates is a parameter too.
- `upsert_reviews` and `collect_reviews` (`review_service.dfy`), over a `ReviewTable` class (`models.dfy`).
  - The class holds the committed rows.
  - Its invariant is the unique constraint.
- `compute_metrics` (`metrics_service.dfy`).
- The label mapping of `classify_sentiment` (`sentiment.dfy`), with the classifier as a function parameter.
- The counts, percentages and negative-text selection of `analyze_insights` (`insights_service.dfy`).
- The post-processing in `recommender_llm.py` (`recommender_llm.dfy`):
  - the string-aware bracket scanner;
  - the order-keeping dedupe, which ignores ASCII case;
  - the review block;
  - the accept/fallback chain.
  The generator's two replies and `json.loads` are parameters (`Llm`).

The loops of the source are methods with loop invariants:
- `Fetch` and `FetchPage`;
- `UpsertReviews`;
- `CollectReviews`, `FetchPool`, `Shuffle` and `ShuffledSample`;
- `ExtractJsonArray` and `DedupeKeepOrder`.

Each method is proved equal to a specification function. The lemmas state what
the source promises about that function. The comprehension-style code is modelled
as functions and lemmas.

The database session is opened with `autoflush=False` (app/database.py:8). The
duplicate lookup in `upsert_reviews` therefore sees only committed rows. Two
records of one batch with the same review id are both added, and the commit then
violates the unique constraint. The model returns `Err(IntegrityError)` in that
case and leaves the table as it was. The lemma `DistinctBatchCommits` states when
this cannot happen.

## Model

| member | source | states |
|---|---|---|
| Text.CleanText | app/utils/text.py:3-8 | Empty input gives "". The output is never longer than the input. It is clean: no U+200B, no U+00A0, no whitespace at either end, and no two whitespace characters side by side. The exact output is stated by `Text.CleanTextWords`. |
| Text.CleanTextWords | app/utils/text.py:3-8 | The output is the whitespace-separated words of the input, after U+200B and U+00A0 become spaces, joined by single spaces: every whitespace run between two words becomes exactly one space, and none is left at either end. |
| Text.ReplaceInvisible | app/utils/text.py:6 | The two `replace` calls. What they do is stated by `Text.ReplaceInvisibleAt`. |
| Text.ReplaceInvisibleAt | app/utils/text.py:6 | The length is kept. Each U+200B and U+00A0 becomes a space and every other character stays where it was. |
| Text.CollapseSpace | app/utils/text.py:7 | `re.sub(r'\s+', ' ', s)` is never longer than its input and keeps a leading non-whitespace character. The lemmas below state the rest. |
| Text.TrimStartCollapse | app/utils/text.py:7 | Stripping leading whitespace before or after the substitution gives the same string. |
| Text.CollapsedWords | app/utils/text.py:7 | For a string that starts with a non-whitespace character, the substitution followed by `rstrip()` is the string's words joined by single spaces. |
| Text.CleanTextKeepsVisible | app/utils/text.py:3-8 | The output's non-whitespace characters are exactly the input's characters that are neither whitespace nor U+200B, in order. |
| Text.CleanTextIdempotent | app/utils/text.py:3-8 | `clean_text(clean_text(s)) == clean_text(s)`. |
| Text.CleanTextOfClean | app/utils/text.py:3-8 | A clean string is returned unchanged. |
| Text.CollapseSpaceShape | app/utils/text.py:7 | After `re.sub(r'\s+', ' ', s)` the only whitespace left is single plain spaces, and no U+200B is introduced. |
| Text.CollapseSpacePlain | app/utils/text.py:7 | Every whitespace character the substitution yields is a plain space. |
| Text.CollapseSpaceFrom | app/utils/text.py:7 | Every character the substitution yields is a plain space or a character of the input. |
| Text.CollapseSpaceChars | app/utils/text.py:7 | Every character the substitution yields is a plain space or a non-whitespace character of the input. |
| Text.CollapseSpaceNoRun | app/utils/text.py:7 | The substitution never leaves two whitespace characters side by side. |
| Text.CollapseSpaceNonSpace | app/utils/text.py:7 | The substitution keeps the non-whitespace characters, in order. |
| Text.CollapseSpaceOfCollapsed | app/utils/text.py:7 | A string whose whitespace is already single plain spaces is left unchanged by the substitution. |
| Text.ReplaceCharToSpace | app/utils/text.py:6 | A one-character `replace` by a space keeps the length and changes only that character. |
| Text.VisibleAfterReplace | app/utils/text.py:6 | After the U+200B replacement, the non-whitespace characters are the visible characters of the input. |
| Text.NonSpaceAfterReplace | app/utils/text.py:6 | Replacing U+00A0, itself whitespace, keeps the non-whitespace characters. |
| Text.NonSpaceStrip | app/utils/text.py:7 | `strip()` keeps the non-whitespace characters. |
| Text.StripKeepsClean | app/utils/text.py:7 | Stripping a collapsed string yields a clean string. |
| Strings.TrimStart | app/utils/text.py:7 | `lstrip()` removes exactly the leading whitespace: the result is a suffix starting with a non-whitespace character, and everything dropped is whitespace. |
| Strings.TrimEnd | app/utils/text.py:7 | `rstrip()` removes exactly the trailing whitespace. |
| Strings.Words | app/utils/text.py:7 | `s.split()`, the maximal runs of non-whitespace characters, in order. It is the reference that `Text.CleanTextWords` compares the output with. |
| Strings.LeadingWord | app/utils/text.py:7 | The first word of a string is its longest prefix without whitespace. It is non-empty when the string starts with a non-whitespace character, and it is followed by whitespace or by the end. |
| Strings.WordsTrimStart | app/utils/text.py:7 | Leading whitespace does not change the words. |
| Strings.StripEmpty | app/nlp/recommender_llm.py:168 | `t.strip()` is empty exactly when `t` is all whitespace. |
| Strings.TrimEndEmpty | app/nlp/recommender_llm.py:168 | `t.rstrip()` is empty exactly when `t` is all whitespace. |
| Strings.TrimEndChar | app/nlp/recommender_llm.py:156 | `rstrip(".")` removes exactly the trailing dots: the result is a prefix that does not end in '.'. |
| Strings.Lower | app/nlp/sentiment.py:18 | `lower()` keeps the length. |
| Strings.IndexOf | app/nlp/recommender_llm.py:123-125 | `find("[")` is None exactly when there is no `[`; otherwise it is the index of the first `[`. |
| Strings.NatToDecimalRoundTrip | app/services/metrics_service.py:13 | Reading back the decimal text of a natural number gives the number. |
| Strings.IntToDecimalRoundTrip | app/services/metrics_service.py:13 | `int(str(k)) == k` for every integer, so distinct ratings get distinct keys. |
| JsonValue.CleanValue | app/services/review_service.py:20-22 | `clean_text` on a feed value succeeds exactly when the value is falsy or a str, and its result is clean. Any other value has no `replace` method and raises. |
| JsonValue.Get | app/collectors/rss_client.py:17 | `dict.get(key, default)`. What it returns is stated by `JsonValue.GetOnDict`. |
| JsonValue.GetOnDict | app/collectors/rss_client.py:17 | `get` succeeds exactly on a dict. On a dict it gives the value under the key, or the default when the key is missing. |
| JsonValue.HasKey | app/collectors/rss_client.py:20 | `key in e`. Its cases are stated by `JsonValue.HasKeyCases`. |
| JsonValue.HasKeyCases | app/collectors/rss_client.py:20 | `in` raises exactly on None, a bool or a number. On a dict it tests the keys. |
| JsonValue.IntOf | app/collectors/rss_client.py:25 | `int(value)`. Its cases are stated by `JsonValue.IntOfCases`. |
| JsonValue.IntOfCases | app/collectors/rss_client.py:25 | `int()` raises TypeError exactly on None, a list or a dict. It raises ValueError exactly on a str that does not parse. An int is returned unchanged. |
| JsonValue.StrOf | app/collectors/rss_client.py:34 | `str(x)` of a str is the str itself. The text of an int reads back as that int. |
| RssClient.PullFields | app/collectors/rss_client.py:22-32 | The fields read from an entry have a clean title and text. An entry without `updated` gets an empty date label. |
| RssClient.EntryRecord | app/collectors/rss_client.py:22-43 | A record built from an entry is tagged "rss" with an empty language, and its title and text are clean. |
| RssClient.DateOf | app/collectors/rss_client.py:28-32 | The date of an entry. `RssClient.DateNeverDropsEntry` states that an entry without `updated` gets no date and that the date never decides whether the entry is kept. |
| RssClient.PageEntries | app/collectors/rss_client.py:13-19 | The entries one reply yields. `RssClient.FailedPageAddsNothing` states that a reply with a status other than 200 yields nothing. |
| RssClient.Walk | app/collectors/rss_client.py:19-45 | The entry loop of one page. `RssClient.WalkIsPrefixOfAllEmitted`, `RssClient.WalkStopsAtAbandon`, `RssClient.WalkAtMostRated` and `RssClient.WalkRecordsAreClean` state its properties. |
| RssClient.PageRecords | app/collectors/rss_client.py:12-45 | The records one page adds. `RssClient.FetchPage` is proved to compute it. |
| RssClient.Collected | app/collectors/rss_client.py:9-46 | The records of pages 1 to max_pages, page after page. `RssClient.Fetch` is proved to return it. `RssClient.CollectedFromPages` and `RssClient.CollectedRecordsAreClean` state what it holds. |
| RssClient.ParseEntry | app/collectors/rss_client.py:20-43 | An entry produces a record only when it has an `im:rating` key, and that record is a clean "rss" record. |
| RssClient.Fetch | app/collectors/rss_client.py:8-46 | The page loop never raises and returns `Collected(feed, max_pages)`: the records of pages 1 to max_pages, in page order. |
| RssClient.FetchPage | app/collectors/rss_client.py:12-45 | One page yields the records its entries append, up to the first entry that raises. |
| RssClient.CollectedFromPages | app/collectors/rss_client.py:10-46 | A record is collected exactly when one of pages 1..max_pages yields it. |
| RssClient.EntryParserClean | app/collectors/rss_client.py:20-43 | Every record the entry step emits has source "rss", an empty language, and a clean title and text. |
| RssClient.CollectedKeepsClean | app/collectors/rss_client.py:33-43 | For any entry step that emits only such records, every collected record is one. |
| RssClient.WalkKeepsClean | app/collectors/rss_client.py:33-43 | For any entry step that emits only such records, every record of one page is one. |
| RssClient.CollectedRecordsAreClean | app/collectors/rss_client.py:33-43 | Every collected record has source "rss", an empty language, and a clean title and text. |
| RssClient.WalkRecordsAreClean | app/collectors/rss_client.py:33-43 | The same holds for the records of one page. |
| RssClient.CollectedPage | app/collectors/rss_client.py:10-46 | A collected record comes from one of pages 1..max_pages. |
| RssClient.PageCollected | app/collectors/rss_client.py:10-46 | Every record of one of pages 1..max_pages is collected. |
| RssClient.FailedPageAddsNothing | app/collectors/rss_client.py:14-15 | A reply with a status other than 200 adds nothing, and the pages after it are still collected. |
| RssClient.EntryWithoutRatingIsSkipped | app/collectors/rss_client.py:20-21 | An entry without `im:rating` produces no record. |
| RssClient.WalkAtMostRated | app/collectors/rss_client.py:19-21 | A page yields at most one record per entry that has `im:rating`. |
| RssClient.WalkIsPrefixOfAllEmitted | app/collectors/rss_client.py:19-45 | A page keeps a prefix of the records its entries would produce, and all of them when no entry raises. |
| RssClient.WalkStopsAtAbandon | app/collectors/rss_client.py:44-45 | An entry that raises abandons the rest of the page; the records appended before it are kept. |
| RssClient.DateNeverDropsEntry | app/collectors/rss_client.py:28-32 | The date parser never decides whether an entry is kept, and an entry without `updated` gets no date. |
| Models.RowsForMembers | app/services/metrics_service.py:6 | The selection holds exactly the rows of the app and country. |
| Models.RowsForNone | app/services/metrics_service.py:6-8 | With no row of the app and country, nothing is selected. |
| Models.RowsFor | app/services/metrics_service.py:6 | `filter_by(app_id=..., country=...)`, in insertion order, selects no more rows than the table holds. Its members are stated by `Models.RowsForMembers`. |
| Models.CountFor | app/services/review_service.py:51 | `filter_by(...).count()`. How it changes when rows are appended is stated by `Models.CountForAppend`. |
| Models.CountForAppend | app/services/review_service.py:51-53 | Appending rows of one app and country raises its count by their number and leaves every other count alone. |
| Models.ReviewTable.constructor | app/models.py:18 | A new table is empty and satisfies the unique constraint. |
| ReviewService.Admitted | app/services/review_service.py:10-15 | The loop admits at most as many records as the batch holds. |
| ReviewService.AdmittedMembers | app/services/review_service.py:10-15 | A record is admitted exactly when it is in the batch, has a non-zero rating, and its key is not among the committed rows. |
| ReviewService.AdmittedPrefix | app/services/review_service.py:10-15 | What is admitted from a prefix of the batch stays at the front, in batch order. |
| ReviewService.RandomId | app/services/review_service.py:19 | An id of the form "rss-" followed by the decimal digits of some number below 2^32. |
| ReviewService.IdFor | app/services/review_service.py:19 | The stored id is the record's id when it is non-empty, and a random "rss-" id otherwise. |
| ReviewService.RowFor | app/services/review_service.py:16-28 | The row built from a record. `ReviewService.BuiltPointwise` and `ReviewService.UpsertReviews` state which fields it takes from where. |
| ReviewService.BuiltPointwise | app/services/review_service.py:16-28 | Each added row is built from the admitted record at its position. It takes app_id and country from the arguments, the record's id or an "rss-" id, and cleaned author, title and text. |
| ReviewService.BuiltAt | app/services/review_service.py:16-28 | The row at each position is built from the admitted record at that position. |
| ReviewService.FaultAhead | app/services/review_service.py:10-20 | An admitted record whose author cannot be cleaned makes building the rows raise. |
| ReviewService.BuildRows | app/services/review_service.py:9-30 | The loop raises exactly when an admitted author cannot be cleaned, and then with AttributeError. Otherwise it builds one row per admitted record, in order, and counts them. |
| ReviewService.AuthorFaultAt | app/services/review_service.py:20 | Building the rows raises exactly when some admitted record's author is neither falsy nor a str. |
| ReviewService.UpsertReviews | app/services/review_service.py:8-32 | Several cases. On success, the rows are appended to the table, no existing row changes, and the result is their number. On failure, the table is unchanged. It raises exactly when an admitted author cannot be cleaned. It fails at commit only when the keys clash. It succeeds whenever the batch ids are distinct and no author faults. |
| ReviewService.AdmittedDistinct | app/services/review_service.py:10-15 | A batch with distinct ids admits records with distinct ids. |
| ReviewService.DistinctSnoc | app/services/review_service.py:13-15 | A record whose id is non-empty and new keeps the ids distinct. |
| ReviewService.DistinctBatchCommits | app/services/review_service.py:13-31 | With non-empty, distinct ids in the batch, the table stays unique on (app_id, country, review_id) after the rows are added. |
| ReviewService.ReupsertFindsKeys | app/services/review_service.py:13-15 | After a batch commits, every rated record of it that has a review id has its key in the table. |
| ReviewService.ReupsertAdmitsOnlyIdless | app/services/review_service.py:13-19 | Upserting the same batch again admits only records without a review id. |
| ReviewService.SourceOrder | app/services/review_service.py:37 | There is always at least one source to try. |
| ReviewService.Shuffle | app/services/review_service.py:49 | `random.shuffle` leaves a permutation of the pool in place. |
| ReviewService.FetchPool | app/services/review_service.py:39-44 | Every source calls the collector with ten pages, and the pool is the last call's result. |
| ReviewService.ShuffledSample | app/services/review_service.py:49-50 | The sample is the first min(how_many, len(pool)) records of a permutation of the pool. |
| ReviewService.CollectReviews | app/services/review_service.py:34-54 | Several cases. An empty pool returns (0, 0) and leaves the table alone. The table only grows. The second component is after−before. On success the first component equals it. The new rows are built from the admitted records of the sample. With a non-empty pool, it raises exactly when an admitted author of the sample cannot be cleaned. It succeeds whenever the sample's ids are distinct and no admitted author faults. |
| MetricsService.Ratings | app/services/metrics_service.py:9 | One rating per selected row, in row order. |
| MetricsService.Insert | app/services/metrics_service.py:11 | Counting one value into the buckets. `MetricsService.InsertCounts` and `MetricsService.InsertAscending` state its properties. |
| MetricsService.Tally | app/services/metrics_service.py:11-13 | `sorted(Counter(ratings).items())`. Its properties are stated by `MetricsService.TallyCounts`. |
| MetricsService.Percent | app/services/metrics_service.py:13 | `v*100.0/total` is non-negative, and at most 100 when the count is at most the total. |
| MetricsService.MetricsOf | app/services/metrics_service.py:7-14 | The metrics of a list of ratings. `MetricsService.NoRowsNoMetrics`, `MetricsService.DistributionEntries`, `MetricsService.DistributionSumsTo100` and `MetricsService.AverageWithinRatings` state them. |
| MetricsService.ComputeMetrics | app/services/metrics_service.py:5-14 | `compute_metrics`. `MetricsService.MetricsCount` and `MetricsService.NoRowsNoMetrics` state its count and its empty case. |
| MetricsService.Distribution | app/services/metrics_service.py:13 | One entry per bucket: the rating as a decimal string, and 100·count/total. |
| MetricsService.InsertCounts | app/services/metrics_service.py:11 | Counting one value raises its count by one and leaves every other count alone. |
| MetricsService.AscendingTail | app/services/metrics_service.py:11-13 | The buckets after the first of an ascending list are ascending and rate above it. |
| MetricsService.InsertAbove | app/services/metrics_service.py:11-13 | Counting a value above a bound into buckets above that bound keeps every bucket above it. |
| MetricsService.InsertAscending | app/services/metrics_service.py:11-13 | Counting keeps the buckets strictly ascending by rating. |
| MetricsService.TallyCounts | app/services/metrics_service.py:11-13 | `sorted(Counter(ratings).items())` is strictly ascending. It counts every value exactly, sums to the number of ratings, and holds only values that occur. |
| MetricsService.CountInMember | app/services/metrics_service.py:11 | In ascending buckets, the count for a bucket's rating is that bucket's count. |
| MetricsService.PercentSumOfDistribution | app/services/metrics_service.py:13 | The distribution values sum to 100·(sum of counts)/total. |
| MetricsService.SumBounds | app/services/metrics_service.py:10 | The sum of n ratings lies between n·lo and n·hi. |
| MetricsService.NoRowsNoMetrics | app/services/metrics_service.py:7-8 | With no rows, the metrics are count 0, average 0.0 and an empty distribution. |
| MetricsService.MetricsCount | app/services/metrics_service.py:9-14 | `count` is the number of rows of the app and country. |
| MetricsService.DistributionEntries | app/services/metrics_service.py:11-13 | The keys are the rated values as decimal strings, in strictly ascending order. Each value is 100·occurrences/count. |
| MetricsService.DistributionCoversRatings | app/services/metrics_service.py:11-13 | Every rated value has a bucket. |
| MetricsService.DistributionSumsTo100 | app/services/metrics_service.py:11-13 | With at least one rating, the unrounded distribution values sum to 100. |
| MetricsService.DistributionKeysDistinct | app/services/metrics_service.py:13 | The distribution keys are pairwise distinct. |
| MetricsService.AverageWithinRatings | app/services/metrics_service.py:10 | The unrounded mean lies between any lower and upper bound of the ratings. |
| Sentiment.Name | app/nlp/sentiment.py:19-23 | The result is always "negative", "neutral" or "positive". |
| Sentiment.NameInjective | app/nlp/sentiment.py:19-23 | The three class names are distinct. |
| Sentiment.LabelClass | app/nlp/sentiment.py:18-23 | The label mapping. `Sentiment.NamedNegative`, `Sentiment.NamedNeutral`, `Sentiment.NamedPositive` and `Sentiment.NumberedScheme` state that both label schemes map as intended. `Sentiment.LabelClassIgnoresCase` states that case does not matter. |
| Sentiment.ClassifySentiment | app/nlp/sentiment.py:14-23 | `classify_sentiment`. `Sentiment.EmptyTextIsNeutral` states that empty text is neutral whatever the classifier says. Any other text gets the class of the classifier's label. |
| Sentiment.EmptyTextIsNeutral | app/nlp/sentiment.py:15-16 | Empty text is neutral whatever the classifier would say. |
| Sentiment.LabelClassIgnoresCase | app/nlp/sentiment.py:18 | The mapping ignores the case of the label. |
| Sentiment.NotContains | app/nlp/sentiment.py:19-22 | A string missing some character of a pattern does not contain the pattern. |
| Sentiment.NamedNegative | app/nlp/sentiment.py:19-20 | "negative" in any case maps to negative. |
| Sentiment.NamedNeutral | app/nlp/sentiment.py:23 | "neutral" maps to neutral. |
| Sentiment.NamedPositive | app/nlp/sentiment.py:21-22 | "positive" in any case maps to positive. |
| Sentiment.NumberedScheme | app/nlp/sentiment.py:19-23 | LABEL_0, LABEL_1 and LABEL_2 map to negative, neutral and positive. |
| InsightsService.Sentiments | app/services/insights_service.py:12 | One classification per selected row, in row order: the i-th is the name of the class of the i-th row's text. |
| InsightsService.Total | app/services/insights_service.py:14 | The denominator is at least 1, and it is the number of classifications when there are any. |
| InsightsService.Negatives | app/services/insights_service.py:17 | There are never more negative texts than rows. |
| InsightsService.TallyCounts | app/services/insights_service.py:13 | `Counter(xs)` has a key exactly for each string that occurs, with its number of occurrences. |
| InsightsService.SentimentsAreNames | app/services/insights_service.py:12 | Every classification is one of the three class names. |
| InsightsService.NameCountsAddUp | app/services/insights_service.py:12-13 | When every string is a class name, the three counts add up to the length. |
| InsightsService.NegativesCounted | app/services/insights_service.py:12-17 | The number of negative texts equals the negative count. |
| InsightsService.NegativesMembers | app/services/insights_service.py:17 | The negatives are exactly the texts of selected rows that are classified negative. |
| InsightsService.NegativesInOrder | app/services/insights_service.py:17 | The negatives are the texts of the rows classified negative, in row order, one per such row. The k-th negative is the text of the k-th such row, so a repeated text is kept as often as it occurs. |
| InsightsService.NegativeIndicesIncreasing | app/services/insights_service.py:17 | The positions of the negative rows are in range and strictly increasing. |
| InsightsService.NegativeIndicesExact | app/services/insights_service.py:17 | A position is among them exactly when its row is classified negative. |
| InsightsService.NegativesAtIndices | app/services/insights_service.py:17 | There is one negative text per negative position, and it is that row's text. |
| InsightsService.Tally | app/services/insights_service.py:13 | `Counter(xs)`. Its keys and counts are stated by `InsightsService.TallyCounts`, `InsightsService.CountPositive` and `InsightsService.CountAtMost`. |
| InsightsService.PercentMap | app/services/insights_service.py:15 | The percentage map has exactly the keys of the counts. `InsightsService.PercentMapOfTally` states its values. |
| InsightsService.AnalyzeInsights | app/services/insights_service.py:10-27 | `analyze_insights`. `InsightsService.CountsAddUp`, `InsightsService.CountKeys`, `InsightsService.PercentOfCounts`, `InsightsService.PercentsAddUp`, `InsightsService.OnlyNegativesMatter` and `InsightsService.NoReviewsNoInsights` state its properties. |
| InsightsService.CountsAddUp | app/services/insights_service.py:11-13 | The sentiment counts add up to the number of selected rows. |
| InsightsService.CountKeys | app/services/insights_service.py:12-13 | Only the three class names are keys, each with a count of at least 1. |
| InsightsService.CountPositive | app/services/insights_service.py:13 | A string that occurs is counted at least once. |
| InsightsService.CountAtMost | app/services/insights_service.py:13 | No string is counted more often than the sequence is long. |
| InsightsService.PercentOfCounts | app/services/insights_service.py:14-15 | The percentages have exactly the keys of the counts. Each is 100·count over the number of rows, in (0, 100]. |
| InsightsService.PercentMapOfTally | app/services/insights_service.py:15 | For a non-empty tally, the percentage map has the same keys and values 100·count/len, in (0, 100]. |
| InsightsService.PercentOfMap | app/services/insights_service.py:15 | A missing key reads as 0 percent, consistent with its count of 0. |
| InsightsService.PercentsAddUp | app/services/insights_service.py:14-15 | With at least one row, the three unrounded percentages add up to 100. |
| InsightsService.NamePercentsAddUp | app/services/insights_service.py:15 | The unrounded percentages of a non-empty list of class names add up to 100. |
| InsightsService.NoReviewsNoInsights | app/services/insights_service.py:11-20 | With no rows, the denominator is 1, both maps are empty, and the only recommendation is the placeholder. |
| InsightsService.OnlyNegativesMatter | app/services/insights_service.py:17-20 | Keywords and recommendations depend on the negative texts alone. |
| InsightsService.NoNegativesPlaceholder | app/services/insights_service.py:17-20 | With no negative review, the recommendation is the placeholder and the keywords are those of the empty list. |
| RecommenderLlm.CloseFrom | app/nlp/recommender_llm.py:130-147 | A close found by the scan is an index at which a `]` brings the out-of-string depth back to 0. |
| RecommenderLlm.ExtractJsonArray | app/nlp/recommender_llm.py:119-148 | The scan loop returns what `JsonArrayOf` specifies. |
| RecommenderLlm.JsonArrayOf | app/nlp/recommender_llm.py:119-148 | The first balanced array of a reply. `RecommenderLlm.JsonArrayOfNone`, `RecommenderLlm.JsonArrayOfFirstClose` and `RecommenderLlm.ArrayIsBalanced` state what it returns. |
| RecommenderLlm.NoBracketNoArray | app/nlp/recommender_llm.py:123-125 | Without a `[` there is no array. |
| RecommenderLlm.CloseFromNone | app/nlp/recommender_llm.py:130-148 | No close is found exactly when no later index closes. |
| RecommenderLlm.CloseFromFirst | app/nlp/recommender_llm.py:143-147 | The close found is the first index that closes. |
| RecommenderLlm.CloseFromFinds | app/nlp/recommender_llm.py:143-147 | When `k` is the first index that closes, the scan finds `k`. |
| RecommenderLlm.JsonArrayOfNone | app/nlp/recommender_llm.py:123-148 | From the first `[`, the result is None exactly when the depth never returns to 0. |
| RecommenderLlm.JsonArrayOfFirstClose | app/nlp/recommender_llm.py:123-147 | When the `]` at `k` is the first to bring the depth back to 0, the result is the slice from the first `[` through `k`. |
| RecommenderLlm.ArrayIsBalanced | app/nlp/recommender_llm.py:123-147 | A returned array starts with `[` and ends with `]`, and scans to depth 0 outside any string. |
| RecommenderLlm.RunAppend | app/nlp/recommender_llm.py:130-141 | Scanning a concatenation is scanning one part after the other. |
| RecommenderLlm.BodyKeepsScan | app/nlp/recommender_llm.py:132-138 | Inside a string, a body of escaped characters and brackets leaves the scan state unchanged. |
| RecommenderLlm.StringLiteralTransparent | app/nlp/recommender_llm.py:132-141 | A quoted string outside any string changes neither the depth nor the string state, whatever brackets or escaped quotes it holds. |
| RecommenderLlm.DedupeKeepOrder | app/nlp/recommender_llm.py:151-160 | The loop returns what `Dedupe` specifies. |
| RecommenderLlm.Dedupe | app/nlp/recommender_llm.py:151-160 | The order-keeping dedupe, insensitive to ASCII case. `RecommenderLlm.DedupeCount`, `RecommenderLlm.DedupeFrom`, `RecommenderLlm.DedupeDistinct`, `RecommenderLlm.DedupeTrimmed` and `RecommenderLlm.DedupePrefix` state its properties. |
| RecommenderLlm.KeyIsLowerDisplay | app/nlp/recommender_llm.py:155-159 | The key is the lowercase of the kept form. |
| RecommenderLlm.LowerTrimEndDot | app/nlp/recommender_llm.py:156 | Lowercasing and trimming trailing dots commute. |
| RecommenderLlm.DedupeCount | app/nlp/recommender_llm.py:157-159 | One item is kept per distinct non-empty key. |
| RecommenderLlm.DedupeFrom | app/nlp/recommender_llm.py:154-159 | Every kept item is the stripped, dot-trimmed form of an input item with a non-empty key. |
| RecommenderLlm.DedupeKeysSeen | app/nlp/recommender_llm.py:156-158 | The lowercase form of every kept item is among the keys seen. |
| RecommenderLlm.DedupeDistinct | app/nlp/recommender_llm.py:156-159 | No two kept items are equal up to ASCII case. |
| RecommenderLlm.DedupeTrimmed | app/nlp/recommender_llm.py:159 | Every kept item is non-empty and does not end with '.'. |
| RecommenderLlm.DisplayNonEmpty | app/nlp/recommender_llm.py:157-159 | An item's kept form is non-empty exactly when its key is. |
| RecommenderLlm.DedupePrefix | app/nlp/recommender_llm.py:154-160 | First occurrences are kept in input order: what is kept from a prefix stays at the front. |
| RecommenderLlm.NonBlank | app/nlp/recommender_llm.py:168 | The surviving texts are non-empty and no more numerous than the input. |
| RecommenderLlm.NonBlankEmpty | app/nlp/recommender_llm.py:168-169 | No text survives exactly when every text is blank. |
| RecommenderLlm.NonBlankFrom | app/nlp/recommender_llm.py:168 | Every surviving text is the stripped form of an input text. |
| RecommenderLlm.NonBlankKeeps | app/nlp/recommender_llm.py:168 | Every non-blank text survives, stripped. |
| RecommenderLlm.BlockNone | app/nlp/recommender_llm.py:168-170 | The block is "(none)" exactly when every text is blank. |
| RecommenderLlm.SampleFrom | app/nlp/recommender_llm.py:171 | Every sampled text is one of the texts. |
| RecommenderLlm.Truncate | app/nlp/recommender_llm.py:172 | `x[:240]` is a prefix of `x`, of length min(len(x), 240). |
| RecommenderLlm.Bullets | app/nlp/recommender_llm.py:168-172 | The bullets of the block. `RecommenderLlm.BulletsBounded`, `RecommenderLlm.BulletsFew` and `RecommenderLlm.BulletsMany` state them. |
| RecommenderLlm.FormatReviewsBlock | app/nlp/recommender_llm.py:163-172 | `_format_reviews_block`. `RecommenderLlm.BlockNone` states when it is "(none)". |
| RecommenderLlm.BulletsBounded | app/nlp/recommender_llm.py:171-172 | There are at most ten bullets, each non-empty and at most 240 characters. |
| RecommenderLlm.BulletsFew | app/nlp/recommender_llm.py:171-172 | With at most ten non-blank texts, there is one bullet per text, in order. Each bullet is a prefix of its text, of length min(len(text), 240). |
| RecommenderLlm.BulletsMany | app/nlp/recommender_llm.py:171-172 | With more, there are ten bullets: prefixes of the first five texts, then of the last five, each of length min(len(text), 240). |
| RecommenderLlm.BulletsManyAt | app/nlp/recommender_llm.py:171-172 | With more than ten texts, the i-th bullet is the truncation of the i-th of the first five, or of the matching one of the last five. |
| RecommenderLlm.BulletLines | app/nlp/recommender_llm.py:227-228 | There are no more kept lines than reply lines. Every kept line comes from a reply line that starts with "- " and has at least three words. |
| RecommenderLlm.BulletLinesKeep | app/nlp/recommender_llm.py:227-228 | Conversely, every reply line that qualifies is kept. |
| RecommenderLlm.BulletLinesConcat | app/nlp/recommender_llm.py:227-228 | Kept lines stay in reply order: the lines kept from a first block of the reply come before those kept from the rest. |
| RecommenderLlm.Take5 | app/nlp/recommender_llm.py:208 | `xs[:5]` is a prefix of `xs`, of length min(len(xs), 5). |
| RecommenderLlm.JsonAttempt | app/nlp/recommender_llm.py:202-212 | The JSON attempt. `RecommenderLlm.RecommendationSource` states when it is used. |
| RecommenderLlm.BulletAttempt | app/nlp/recommender_llm.py:226-231 | The bullet attempt. `RecommenderLlm.RecommendationSource` and `RecommenderLlm.Take5Shape` state when it is used and what it holds. |
| RecommenderLlm.GenerateRecommendations | app/nlp/recommender_llm.py:177-240 | There are always between 1 and 5 recommendations. |
| RecommenderLlm.NoTextsPlaceholder | app/nlp/recommender_llm.py:184-185 | Without negative texts, the placeholder alone is returned, whatever the model would reply. |
| RecommenderLlm.RecommendationSource | app/nlp/recommender_llm.py:202-240 | The JSON array is used exactly when it yields 3 to 5 items after dedupe. Otherwise the bullet lines are used when there are any. Otherwise the fixed fallback is used. |
| RecommenderLlm.RecommendationsWellFormed | app/nlp/recommender_llm.py:202-240 | With negative texts, every recommendation is non-empty and does not end with '.', and no two are equal up to ASCII case. |
| RecommenderLlm.Take5Shape | app/nlp/recommender_llm.py:208-229 | The first five kept items are non-empty, undotted and distinct up to ASCII case. |
| RecommenderLlm.FallbackShape | app/nlp/recommender_llm.py:234-240 | The fixed recommendations are non-empty, do not end with '.', and are distinct up to case. |

## Left out

- HTTP requests, URLs, timeouts and `r.json()`: each page's reply is a parameter (`feed: nat -> PageResponse`), and a reply that cannot be decoded counts as a failed page.
- `int()` on the rating label, `datetime.fromisoformat`, and `json.loads`: these are oracle parameters that may fail (`Parsers`, `Llm.decode`).
- `str()` of a list or dict (for the version field and for JSON array items): the parameter `render` stands for it.
- JSON numbers are modelled as integers. The feed's values are strings, and floats play no part in the logic modelled.
- Python's `str.lower` is modelled on ASCII letters only (`Strings.Lower`). The sentiment labels are ASCII, so the label mapping is unaffected. The dedupe key lowercases arbitrary generated text, so there the model folds less case than Python does.
- RecommenderLlm.Dedupe: keys fold ASCII case only. Items that differ only in non-ASCII case ("É" and "é"), or in a character whose lowercase has another length ('İ'), are all kept, where Python keeps only the first.
- RecommenderLlm.DedupeDistinct: "no two equal up to case" means up to ASCII case; Python's `lower()` also merges non-ASCII case variants.
- RecommenderLlm.Take5Shape: the first five kept items are distinct up to ASCII case only, for the reason given for `RecommenderLlm.Dedupe`.
- RecommenderLlm.RecommendationsWellFormed: "no two equal up to case" holds for ASCII case only, for the reason given for `RecommenderLlm.Dedupe`.
- Database queries without ORDER BY (`filter_by(...).all()`) are modelled as returning rows in insertion order (`Models.RowsFor`). The order of the negative texts, and so which texts the review block's head-and-tail sample picks, depends on that choice.
- Strings.Lower: its contract states only the length. The character-by-character mapping is its definition, and the lemmas that need it read it from there.
- The Unicode `\s` class is modelled as the character set of `str.isspace`.
- `round(x, 2)` and floating-point division: averages and percentages are exact reals.
- MetricsService.AverageWithinRatings: states the bounds of the unrounded mean; the rounding is left out.
- MetricsService.DistributionSumsTo100: the sum is that of the unrounded values.
- InsightsService.PercentOfCounts: the percentages are stated before `round(..., 2)`.
- InsightsService.PercentsAddUp: the sum of 100 holds before rounding.
- `random.shuffle`: `Shuffle` makes arbitrary swaps (any permutation).
- `random.getrandbits(32)`: an empty review id becomes any "rss-" id below 2^32 (`RandomId`).
- ReviewService.DistinctBatchCommits: the uniqueness guarantee needs non-empty, distinct ids in the batch. With empty ids, two random "rss-" ids may collide, and that is left unconstrained.
- ReviewService.UpsertReviews: a commit that fails for any reason other than a key clash (a broken connection) is not modelled.
- The check-then-insert race between concurrent `collect_reviews` calls: the model runs one call at a time.
- The integer surrogate key `id` of the `reviews` table is not modelled.
- Dictionary and `Counter` key order for `sentiment_counts` and `sentiment_percent`: these are Dafny maps, which have no order. The metrics distribution keeps its order as a sequence.
- The lazily built ML pipelines behind `threading.Lock` and the transformers calls: the sentiment classifier is a deterministic function parameter (`model`), and the generator's two replies are parameters (`Llm`).
- InsightsService.Sentiments: the source classifies every negative text twice, once for the counts and once for the selection. The model uses one deterministic classifier for both, so the two calls agree.
- `_build_prompt_from_reviews` (chat-template formatting): left out. The generator's reply is a function of the review block alone.
- `top_keywords` (scikit-learn TF-IDF ranking): a function parameter of `AnalyzeInsights`.
- `Strings.SplitLines` differs from `str.splitlines()` only by extra empty pieces. The "- " filter drops them, so the bullet lines are the same.
- MetricsService.Ratings: the `is not None` filter keeps every row, because the rating column is NOT NULL (app/models.py:13).
- RecommenderLlm.GenerateRecommendations: the docstring promises 3 to 5 recommendations, but the code returns the bullet lines whenever there is at least one. The model follows the code and states 1 to 5.
- RecommenderLlm.JsonArrayOfFirstClose: the result of `_extract_json_array` is characterised by lemmas that name the closing index `k`, not by one formula over all indices.
- RssClient.Fetch: the entry step is a parameter; the collector passes `EntryParser(p)`, for which the record lemmas are proved.
- app/main.py (HTTP routes, CSV/JSON export, charts, HTML) and app/schemas.py are not part of this model. Only the `how_many` bounds 1..1000 are used, as a precondition of `CollectReviews`.
