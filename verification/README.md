# Etimad tender scraper — a Dafny model

This project models the core of a Flask/SQLAlchemy service that scrapes tenders from the Saudi Etimad
procurement portal. It also stores one vector embedding per tender in PostgreSQL/pgvector and serves the
tenders over a small JSON API. The model covers seven parts of that core:

- **Scraper** (`Scraper`): mapping the listing API's `data` items to record dictionaries (`fetch_tenders`),
  upserting those records into the `tenders` table with a commit every 50 records (`save_tenders_to_db`), and
  the RUNNING → SUCCESS / WARNING / ERROR scraping log (`scrape`, `run_scraper`).
- **Models** (`Models`): the `Tender` and `ScrapingLog` rows and their `to_dict` serialisations.
- **Embeddings** (`Embeddings`): the `tender_embeddings` table and the single-tender and batch embedders.
  Also the reaper of expired vectors and the cosine nearest-neighbour search.
- **Incremental driver** (`Incremental`): `generate_embeddings_incrementally`. It runs one clean-up, then
  batches while the count query reports tenders without a vector.
- **Migration** (`Migration`): `migrate_vector_size`, `delete_all_embeddings`, `regenerate_all_embeddings`
  and `run_migration`.
- **URL rewriter** (`TenderUrls`, `UrlQuote`):
  - `search_tender_by_title`, including the UTF-8 percent-encoding of `urllib.parse.quote`;
  - the `StenderID=(\d+)` extraction;
  - the selection of tenders to rewrite, with placeholder URLs first;
  - the rewrite pass of `update_tender_urls`.
- **API** (`Routes`): `/api/tenders`, `/api/tenders/<id>`, `/api/stats`, `/api/organizations` and
  `/api/tender-types`.

Shared vocabulary lives in `Wrappers` (`Option`, `Result`), `Text` (whitespace, `split`, `strip`, substring
search), `Dates` (proleptic Gregorian dates, `strptime('%Y-%m-%d')`, `isoformat`, `timedelta` by days),
`Json` (decoded JSON values, `dict.get`, `str()`) and `Sorting` (insertion sort, `ORDER BY … LIMIT n`,
code-point string order).

Some things become parameters:

- the database's row order for a query without `ORDER BY`;
- the clocks;
- the embedding service (a function from a requested dimension and input texts to vectors, or a failure);
- the cosine distance;
- the text `get_text_for_embedding` builds for a tender;
- which migration statement raises.

`TenderEmbedding` and `Tender.get_text_for_embedding` are not part of this model: the table is modelled as
a map from tender id to vector plus a column that is either dropped or has a fixed dimension.

## Model

| member | source | states |
|---|---|---|
| Models.IsoOrNone | models.py:31 | `None` exactly for a null column; otherwise text whose first ten characters parse back to the stored date and whose 11th is `T` |
| Models.TenderToDict | models.py:26-45 | the dictionary carries the row's id, reference number, title, type, organization, URL, activities, duration, city and price unchanged, and each date key is null exactly when the column is null |
| Models.ToDictDatesReadBack | models.py:31-39 | the publication date and submission deadline in the dictionary read back, through their first ten characters, as the row's dates |
| Models.NewScrapingLog | models.py:51-57 | a fresh log row is RUNNING, started at the given time, with no end, no message and zero counts |
| Models.ScrapingLogToDict | models.py:59-69 | the dictionary keeps the status name, the message, the three counters, and nullness of start and end |
| Models.NewLogDict | models.py:59-69 | the dictionary of a fresh log says `RUNNING`, has a start and no end |
| Dates.ParseYmd | routes.py:57 | `strptime(s, '%Y-%m-%d')` accepts only valid calendar dates, and only texts of 8 to 10 characters with a dash after the year |
| Dates.ParseFormatRoundTrip | routes.py:57 | parsing the `YYYY-MM-DD` form of any valid date gives that date back |
| Dates.FormatParseRoundTrip | routes.py:57 | a text in full `YYYY-MM-DD` shape that parses is exactly the formatting of its date |
| Dates.IsoFormatStartsWithDate | models.py:31 | `isoformat()` has 19 characters, or 26 with microseconds; its date part parses back and a `T` follows it |
| Dates.NextDay | routes.py:66 | adding a day gives a later valid date, and overflows (no result) exactly on 9999-12-31 |
| Dates.NextDayIsSuccessor | routes.py:66-67 | no date lies strictly between a date and its next day |
| Dates.PrevNextDay | routes.py:66 | subtracting a day undoes adding one |
| Dates.MinusDays | routes.py:124 | `now - timedelta(days=n)` is a valid time strictly earlier than `now` when `n > 0` |
| Text.Words | update_tender_urls.py:49 | `str.split()` yields non-empty words without whitespace, and none exactly when the text is blank |
| Text.WordsOfJoin | update_tender_urls.py:49-50 | splitting the space-join of words gives the words back |
| Text.Strip | update_tender_urls.py:43 | `strip()` is empty exactly when the text is all whitespace |
| Text.FindFrom | update_tender_urls.py:122 | the leftmost occurrence of a substring at or after a position, or none when there is none |
| Text.ContainsIffFound | update_tender_urls.py:122 | the `in` test holds exactly when the leftmost search finds a position |
| Text.BeforeFirst | scraper.py:100-101 | `split('T')[0]` is the longest prefix without `T` |
| Text.Lower | routes.py:45 | case folding for `ILIKE` maps every character independently and keeps the length |
| Text.NatToStringRoundTrip | scraper.py:264 | the decimal text of a count in the SUCCESS message reads back to the count |
| UrlQuote.DecodeEncode | update_tender_urls.py:53 | UTF-8 decoding of the UTF-8 encoding of any text gives the text back |
| UrlQuote.QuoteByte | update_tender_urls.py:53 | a safe byte is kept as is; any other byte becomes `%` and two hex digits whose value is the byte |
| UrlQuote.QuoteRoundTrip | update_tender_urls.py:53 | unquoting `quote(s)` gives the UTF-8 bytes of `s`, which decode back to `s` |
| UrlQuote.QuoteAlphabet | update_tender_urls.py:53 | `quote(s)` uses only unreserved characters, `/` and `%`-escapes |
| UrlQuote.QuoteSpace | update_tender_urls.py:53 | a space is quoted as `%20` |
| UrlQuote.QuoteArabicLetter | update_tender_urls.py:53 | an Arabic letter is quoted as its two UTF-8 bytes, `%D8%AA` |
| UrlQuote.QuoteKeepsSafe | update_tender_urls.py:53 | a text comes out of `quote` unchanged exactly when every character is an ASCII letter or digit, one of `-._~`, or `/` |
| UrlQuote.QuoteLength | update_tender_urls.py:53 | quoting never shortens a text, and keeps its length only when every character is safe |
| Json.Get | scraper.py:86-93 | `item.get(key, default)` is the item's value when the key is present, otherwise the default |
| Json.PyStr | scraper.py:86 | `str()` of a JSON string is the string itself; of any other value, non-empty text (lists and objects abbreviated, see Left out) |
| Sorting.Sort | routes.py:72 | the result is ordered and a permutation of the input |
| Sorting.TopBy | routes.py:131 | `ORDER BY … LIMIT n`: an ordered sub-multiset of size `min(n, len)`, the whole input when it fits, every element kept comes from the input, and no element left out precedes an element kept |
| Sorting.SubMultisetKeysApart | routes.py:72-75 | rows taken by `ORDER BY … LIMIT` from rows with pairwise different keys keep their keys pairwise different |
| Sorting.StrLeIsTotalPreorder | routes.py:152 | string ordering by code points is total and transitive |
| Scraper.ItemDate | scraper.py:97-135 | a date field gives midnight of a valid date exactly when it is a string whose part before `T` parses as `%Y-%m-%d` |
| Scraper.DateTimeTextGivesItsDate | scraper.py:97-104 | an RFC 3339 date-time text yields midnight of its date, whatever follows the `T` |
| Scraper.MapItem | scraper.py:83-159 | an item is kept exactly when it is an object whose `str(tenderId)` and `tenderName` are truthy; the kept record has the twelve fetched keys and the visitor URL |
| Scraper.BuildRecord | scraper.py:138-155 | the record carries the id text, the `DetaielsForVisitors?StenderID=` URL for that id and the item's `tenderName` |
| Scraper.MissingIdDropsItem | scraper.py:86-141 | an item without `tenderId` is dropped |
| Scraper.NullIdIsKeptAsNone | scraper.py:86-141 | an item whose `tenderId` is null and which has a title is kept under the id `'None'` |
| Scraper.MapItems | scraper.py:83-159 | every kept record has the fetched shape, and there are no more records than items |
| Scraper.MapItemsDistributes | scraper.py:83-159 | items are mapped independently: the records of a concatenation are the concatenation of the records |
| Scraper.FetchTenders | scraper.py:42-174 | records come only from a 200 response whose `data` is a list, and each has the fetched shape |
| Scraper.Lookup | scraper.py:184-214 | `rec[key]` raises `KeyError(key)` exactly when the key is absent |
| Scraper.Upsert | scraper.py:182-223 | a successful upsert writes exactly one row, keyed by the record's id, and keeps ids unique and within their `String(255)` column; a record lacking the title key raises `KeyError` on it |
| Scraper.ColumnText | models.py:8-22 | a value lands in a `String(width)` column exactly when it converts to text that is at most `width` long or whose characters past `width` are all spaces; the stored text is the converted text cut to `width`, and only spaces are cut; any other over-long text raises `TooLong` for that column |
| Scraper.FittingTextIsKept | models.py:8-22 | a text no longer than its column is stored unchanged |
| Scraper.IntegerCastReadsBack | scraper.py:186-195 | an integer written to a text column is stored as decimal digits that read back as the integer |
| Scraper.ReadColumns | scraper.py:184-221 | the six text columns are read in the source's order (`KeyError` on a missing key first) and succeed exactly when each converts and is stored by its column (width 500 for title and URL, 255 otherwise; an excess of spaces only is dropped), city `'Unknown'` and price `''` when absent |
| Scraper.UpsertUpdatesMappedColumns | scraper.py:186-202 | an update takes title, organization, type, URL, city (`'Unknown'` when absent) and price (`''` when absent) from the record and stamps `updated_at`; it keeps the id, reference number, activities, duration, inquiry and opening dates and `created_at`; a date changes only when the record's date is truthy |
| Scraper.UpsertCreatesWithDefaults | scraper.py:203-223 | a created row carries the record's id (at most 255 characters) and mapped columns, `None` dates for absent keys, `''` defaults and both timestamps |
| Scraper.Advance | scraper.py:223-227 | each record adds one to exactly one counter, and the table is committed exactly when the running total is a multiple of 50 |
| Scraper.SaveStep | scraper.py:182-227 | one iteration raises exactly when its upsert raises |
| Scraper.SavedAccountsForEveryRecord | scraper.py:176-238 | a successful save counts every record as new or updated; the new count is the number of distinct ids the table lacked |
| Scraper.CheckpointHolds | scraper.py:225-230 | after each multiple of 50 records the committed table is the table after that many upserts |
| Scraper.FailedSaveKeepsLastCheckpoint | scraper.py:225-235 | a save that raises on record `f` leaves the table as committed at the last multiple of 50 not above `f` |
| Scraper.FailureIsSticky | scraper.py:232-235 | once a prefix raises, the whole save raises with the same committed table |
| Scraper.Scrape | scraper.py:240-286 | the log ends SUCCESS, WARNING or ERROR at `now`; WARNING exactly when nothing was fetched (table untouched); on SUCCESS the table and the new and updated counts are those `save_tenders_to_db` committed, and every fetched record is counted; ERROR exactly when the save raised, with the table the save left and its error re-raised |
| Scraper.RunScraper | scraper.py:288-296 | the run always ends with a terminal log stamped at `now`; the error is swallowed |
| Scraper.SourceKeysFailOnFirstRecord | scraper.py:184-188 | with the keys as written, the first fetched record raises `KeyError('tender_name')` before any commit |
| Scraper.NonEmptyFetchEndsInError | scraper.py:182-286 | with the keys as written, every non-empty fetch ends in ERROR with message `Error during scraping: 'tender_name'` and an unchanged table |
| Scraper.FetchedKeysScrapeSucceeds | scraper.py:141-223 | with the keys the fetch emits, a non-empty fetch ends in SUCCESS exactly when every record's text is stored by its column (fits its width, or only spaces lie past it) and its id fits, and then counts every record; otherwise it ends in ERROR |
| Scraper.OverlongTitleIsRejected | models.py:12 | a fetched title of 501 characters whose last is not a space makes the upsert raise `TooLong` for the `String(500)` title column |
| Scraper.TrailingSpaceIsDropped | models.py:12 | a fetched title of 500 characters and one trailing space is stored as its first 500 characters |
| Embeddings.Commit | embeddings.py:136 | a commit stores all staged vectors, overwriting none it does not stage, exactly when each has the column's dimension; otherwise it stores none |
| Embeddings.CommitKeepsConsistent | embeddings.py:136 | a successful commit keeps every stored vector attached to a tender and of the column's dimension |
| Embeddings.CreateEmbedding | embeddings.py:25-42 | blank text or a failing service gives the 3072-long zero vector; any other result is a vector the service returned |
| Embeddings.CreateEmbeddingHasFullDimension | embeddings.py:25-42 | with a reliable service every embedding has 3072 entries |
| Embeddings.EmbedTender | embeddings.py:44-74 | `True` exactly when the tender had no vector and its embedding fits the column (the commit does not raise); then exactly that tender's vector was added and nothing else changed, otherwise nothing changed |
| Embeddings.EmbedTenderSucceeds | embeddings.py:44-74 | with a reliable service and a 3072-wide column, a tender without a vector always gets one |
| Embeddings.Candidates | embeddings.py:90-97 | the selection query returns exactly the tenders without a vector whose deadline is null or after `now`, without repeats |
| Embeddings.Selection | embeddings.py:99-102 | a truthy limit takes the first `min(limit, candidates)` candidates; 0 or none takes them all |
| Embeddings.SelectionIsEligible | embeddings.py:90-102 | every selected tender is eligible, every eligible one is selected when the limit allows, and none twice |
| Embeddings.Chunks | embeddings.py:109-110 | the batches are non-empty, at most 50 long, and concatenate back to the selection |
| Embeddings.Stage | embeddings.py:122-131 | item `j` is staged with the response's `j`-th vector exactly when the response has one |
| Embeddings.StageSize | embeddings.py:122-131 | distinct ids stage `min(batch, response)` vectors |
| Embeddings.EmbedGroup | embeddings.py:113-141 | a failing service call counts and stores nothing; otherwise the count is the number of vectors staged, whether or not the commit succeeds; a successful commit stores exactly the staged vectors (the `j`-th returned vector for the `j`-th tender) and persists the count, a failed one stores nothing |
| Embeddings.StagedAt | embeddings.py:121-131 | the `j`-th tender of a batch is staged with the `j`-th vector of the response |
| Embeddings.EmbedGroups | embeddings.py:109-141 | the batches in turn only add vectors for selected tenders, and count at least what they store |
| Embeddings.BatchEmbedTenders | embeddings.py:76-144 | the returned count is at most the selection size and at least the number of vectors stored; nothing else changes |
| Embeddings.GroupsStoredWhenDimensionsAgree | embeddings.py:109-141 | with a reliable service asked for the column's dimension, every batch is stored in full and counted exactly, each tender holding the vector the service returned for it in its batch |
| Embeddings.GroupStoredWhenDimensionsAgree | embeddings.py:113-141 | one batch asked for the column's dimension of a reliable service is stored in full, each tender with the vector returned at its position |
| Embeddings.GroupsLostWhenDimensionsDiffer | embeddings.py:113-141 | when the requested and column dimensions differ, every commit fails: nothing is stored, yet every item is counted |
| Embeddings.BatchEmbedStoresSelection | embeddings.py:76-144 | with a reliable service and a 3072 column, every selected tender gets a vector and the count is exact; the selection goes out in batches of 50 and each tender holds the vector the service returned at its position in its batch |
| Embeddings.BatchCountExceedsStored | embeddings.py:113-141 | with a column not 3072 wide, the whole selection is counted and nothing is stored |
| Embeddings.Cleanup | embeddings.py:146-170 | exactly the vectors of tenders whose deadline is before `now` are deleted, and the count returned is how many |
| Embeddings.CleanupIsIdempotent | embeddings.py:146-170 | a second clean-up at the same `now` deletes nothing; vectors of tenders whose deadline is at or after `now` survive |
| Embeddings.ScoredRows | embeddings.py:190-207 | the joined rows kept are exactly the live tenders (published today with `today_only`), each with its distance to the query |
| Embeddings.Ranked | embeddings.py:210 | `ORDER BY distance LIMIT n` returns exactly `min(n, rows)` of those rows in ascending distance, drawn from the rows without repetition (a sub-multiset) and, over distinct stored vectors, no vector twice |
| Embeddings.ScoredRowsKeysApart | embeddings.py:190-208 | over distinct stored vectors each is scored at most once |
| Embeddings.RankedAreNearest | embeddings.py:210 | a row left out means the result is full and every row in it is at least as near |
| Embeddings.RankedFromScored | embeddings.py:199-210 | every ranked row is a stored vector of a searchable tender |
| Embeddings.SearchVector | embeddings.py:190-215 | exactly `min(limit, searchable rows)` hits, the ranked rows, in non-increasing similarity, with `similarity = 1 - distance` of a stored vector of a searchable tender; over a table keyed by `tender_id`, no tender appears twice |
| Embeddings.HitsApart | embeddings.py:210-215 | over a table keyed by `tender_id`, ranked rows of different tenders give hits of different tenders |
| Embeddings.SearchSimilar | embeddings.py:172-215 | the query raises exactly when the column is dropped or a searchable tender's vector differs in length from the query's embedding; otherwise the vector search for that embedding: `min(limit, searchable rows)` hits, nearest first, no tender twice over a table keyed by `tender_id` |
| Embeddings.ClashesMeans | embeddings.py:199-210 | a length clash among the joined rows is exactly a clash among the stored vectors of searchable tenders |
| Embeddings.SearchSucceedsWhenDimensionsAgree | embeddings.py:172-215 | with a reliable service asked for the column's dimension and every stored vector of that dimension, the search never raises |
| Embeddings.SearchOfThreeWithLimitTwo | embeddings.py:210-213 | of three rows at distances 0.1, 0.4 and 0.7 a limit of 2 returns the two nearest, at similarities 0.9 and 0.6 |
| Embeddings.TodayOnlyMeansSinceMidnight | embeddings.py:204-207 | `today_only` means since 00:00 of today, not the last 24 hours: a tender published at 23:00 yesterday is excluded at 01:00 |
| Incremental.CountMatchesCandidates | generate_embeddings_incremental.py:66-83 | with the same clock, the count query equals the number of tenders the selection query can pick |
| Incremental.StoredBatch | generate_embeddings_incremental.py:85-88 | corrected driver (counting what each commit stored): each vector stored takes one tender off those lacking one; with a reliable service asked for the column's dimension, a batch that stores nothing leaves no tender eligible |
| Incremental.Round | generate_embeddings_incremental.py:43-61 | corrected driver (counting what each commit stored): one pass of the loop body appends one batch count, equal to the vectors that batch stored, and keeps the loop invariant while strictly reducing the tenders left to embed or stopping |
| Incremental.EmbedUntilDone | generate_embeddings_incremental.py:39-61 | corrected driver (counting what each commit stored): the loop respects the cap, sleeps between batches only, stops after a batch that stores nothing, and ends with none pending or the cap reached |
| Incremental.GenerateIncrementally | generate_embeddings_incremental.py:21-64 | corrected driver (counting what each commit stored): after the clean-up the run adds exactly the per-batch counts; without a cap, with one clock and a reliable service asked for the column's dimension, no tender is left without a vector |
| Incremental.BatchStoresEverythingWhenDimensionsAgree | embeddings.py:76-144 | with a reliable service asked for the column's dimension, a batch stores the whole selection, and stores nothing only when nothing is eligible |
| Incremental.LoopAsWritten | generate_embeddings_incremental.py:43-61 | the loop as written never runs more batches than the cap allows and never touches the tenders |
| Incremental.LoopWith | generate_embeddings_incremental.py:43-61 | the loop as written over any batch that keeps the tenders: it never runs more batches than the cap allows and never touches the tenders |
| Incremental.LoopEndsUnderCap | generate_embeddings_incremental.py:43-56 | with a cap of `m` batches the loop as written ends within `m` steps, whatever the batches report |
| Incremental.LoopSpins | generate_embeddings_incremental.py:43-61 | without a cap, a batch that reports a positive count yet stores nothing makes the loop as written run for ever |
| Incremental.BatchSpins | embeddings.py:113-141 | against a column not 3072 wide, a batch with candidates reports a positive count and leaves the database unchanged |
| Incremental.Batch | generate_embeddings_incremental.py:85-88 | one batch as written counts at most its selection and stores at most its count |
| Incremental.AfterBatch | generate_embeddings_incremental.py:46-61 | after a batch the total grows by its count, the count query is taken again, and a sleep follows exactly when another batch will run |
| Incremental.GenerateAsWritten | generate_embeddings_incremental.py:21-64 | when the run as written ends, it has respected the cap and the tenders are untouched |
| Incremental.GenerateAsWrittenEndsUnderCap | generate_embeddings_incremental.py:43 | with `max_batches=m` the run as written ends within `m` batches |
| Incremental.GenerateAsWrittenNeverEnds | generate_embeddings_incremental.py:43-56 | with no cap and a column not 3072 wide, while some tender is pending the run as written never ends |
| Migration.MigrateVectorSize | migrate_vector_size.py:12-40 | `True` exactly when no statement raises and the column exists (the plain `DROP COLUMN` raises on a missing column), leaving no vectors and a 1536 column; a failure keeps the statements already committed |
| Migration.RerunAfterFailedAddFails | migrate_vector_size.py:19-31 | after a run that stopped between the drop and the add, running the migration again fails and leaves the column absent |
| Migration.DeleteAllEmbeddings | regenerate_all_embeddings.py:15-32 | returns the number of vectors and empties the table, or 0 and no change when the delete raises |
| Migration.RegenerateAll | regenerate_all_embeddings.py:34-51 | reports what the delete reported; the regeneration never changes the tenders or the column |
| Migration.RunMigration | run_vector_migration.py:12-32 | a failed migration returns `False` with its partial effect; `True` means the column is now 1536 wide |
| Migration.RunMigrationNeverEnds | run_vector_migration.py:18-25 | after a successful migration, with a reliable service and one tender live at both clocks, `run_migration` never returns |
| Migration.RunMigrationCorrected | run_vector_migration.py:12-32 | requesting the column's dimension, a successful migration leaves every live tender with a vector |
| TenderUrls.SearchTerm | update_tender_urls.py:49-50 | the search term's words are the title's first five words |
| TenderUrls.SearchTenderByTitle | update_tender_urls.py:33-66 | no URL exactly for a missing, empty or under-5-character stripped title; otherwise the `List?SearchText=` URL whose query unquotes to the UTF-8 of the search term |
| TenderUrls.SearchUrlReadsBack | update_tender_urls.py:49-57 | decoding the search URL's query gives back the title's first five words |
| TenderUrls.SearchUrlHasSearchText | update_tender_urls.py:57 | every search URL contains `SearchText` |
| TenderUrls.DigitRun | update_tender_urls.py:135 | `\d+` is greedy: the run is all digits and the next character is not one |
| TenderUrls.FirstMatch | update_tender_urls.py:135 | `re.search` finds the leftmost `StenderID=` followed by a digit, or reports none |
| TenderUrls.ExtractStenderId | update_tender_urls.py:135-138 | an id is extracted exactly when the URL has a match, and it is a non-empty run of digits |
| TenderUrls.ExtractStenderIdIsLeftmostGreedy | update_tender_urls.py:135-138 | the id is the maximal digit run after the leftmost match |
| TenderUrls.DirectUrl | update_tender_urls.py:131-140 | a direct URL is built only from a visitor URL with an extractable id, as `TenderDetails/` plus that id |
| TenderUrls.CommitUrl | update_tender_urls.py:147-160 | a new URL is committed exactly when it fits the `String(500)` column; otherwise the commit fails |
| TenderUrls.CandidateEndsWithoutSpace | update_tender_urls.py:131-167 | every URL the pass builds is non-empty and does not end in a space, so a URL over 500 characters is always rejected by its column |
| TenderUrls.Rewrite | update_tender_urls.py:121-187 | skipped exactly for a `TenderDetails` URL; failed exactly when there is no candidate URL or it is too long; a rewrite fits the column |
| TenderUrls.RewriteTender | update_tender_urls.py:147-187 | only the URL changes, and only on a rewrite |
| TenderUrls.DetailsUrlIsSkipped | update_tender_urls.py:122-140 | every direct URL the pass writes is one a later pass skips |
| TenderUrls.SearchUrlHasNoStenderId | update_tender_urls.py:135-167 | no search URL matches the `StenderID=(\d+)` pattern |
| TenderUrls.RewriteIsIdempotent | update_tender_urls.py:118-187 | rewriting a rewritten tender changes nothing |
| TenderUrls.Pass | update_tender_urls.py:113-192 | over distinct ids, `updated`, `failed`, `skipped` and `sleeps` are the numbers of visited tenders that were rewritten, failed, were skipped, or took the title-search path (which sleeps); they add up to the tenders processed; tenders outside the selection are untouched, and each selected one is rewritten |
| TenderUrls.ExpectedStep | update_tender_urls.py:118-192 | visiting the first of distinct ids adds that tender's own outcome to the counts of the rest |
| TenderUrls.PassIsIdempotent | update_tender_urls.py:113-192 | a second pass over the same tenders leaves the table as the first left it |
| TenderUrls.LikePlaceholderMatchesPattern | update_tender_urls.py:89 | the `LIKE '%StenderID=%5BID%5D%'` test holds exactly when the three fragments occur in order |
| TenderUrls.Needing | update_tender_urls.py:86-90 | exactly the tenders with a null, empty or placeholder URL, in row order, without repeats |
| TenderUrls.Others | update_tender_urls.py:96-101 | exactly the rows not already taken, in row order, without repeats |
| TenderUrls.SelectForUpdate | update_tender_urls.py:84-110 | a positive limit selects at most `limit` distinct tenders; otherwise every tender |
| TenderUrls.SelectionPutsPlaceholdersFirst | update_tender_urls.py:84-104 | tenders needing a URL come first; leaving one out means the selection is full of them; leaving any out means the selection is full |
| TenderUrls.UpdateTenderUrls | update_tender_urls.py:68-197 | returns the updated count, keeps the set of tenders, and each counter is the number of selected tenders with that outcome |
| Routes.ParseFilter | routes.py:34-69 | a malformed date is ignored; `date_to = 9999-12-31` overflows into a 500 |
| Routes.KeepMeansArguments | routes.py:44-69 | the corrected filter (`<` the next day) keeps a tender exactly when each non-empty text argument occurs case-insensitively in its column and its date is on or after `date_from` and on or before `date_to` |
| Routes.KeepAsWrittenMeansArguments | routes.py:44-69 | the filter as written (`<=` the next day) keeps a tender exactly when the text arguments match and its date is on or after `date_from` and either on or before `date_to` or exactly 00:00 of the day after |
| Routes.UntilAsWrittenKeepsNextMidnight | routes.py:64-67 | the `<=` bound keeps a tender published at 00:00 of the day after `date_to`; the `<` bound drops it and agrees elsewhere |
| Routes.NewerFirstIsTotalPreorder | routes.py:72 | `publication_date DESC` with NULLs first is a total preorder |
| Routes.Matching | routes.py:41-69 | the filtered rows are exactly the tenders the filter as written keeps |
| Routes.MatchingCount | routes.py:75-80 | over distinct rows, the number of filtered rows is the number of kept ids |
| Routes.MatchingCountsKept | routes.py:75-80 | over a listing of the table, the number of filtered rows is the number of stored tenders the filter keeps |
| Routes.PageCount | routes.py:75-81 | `pages` is the least `n` with `n * 300 >= total`: 0 exactly when there are no results |
| Routes.Newest | routes.py:72-79 | the first page holds exactly `min(300, matching)` tenders that pass the filter as written, newest first, drawn from the matching rows without repetition (a sub-multiset; no `tender_id` twice over a well-keyed table): every matching tender when at most 300 match, and otherwise none left out is newer than one shown |
| Routes.MatchingKeysApart | routes.py:41-69 | over distinct rows of a well-keyed table, no tender matches twice |
| Routes.MatchingIdsFrom | routes.py:41-69 | over a well-keyed table each matching tender's id is one of the rows |
| Routes.ApiTenders | routes.py:27-88 | 500 exactly for `date_to = 9999-12-31`; otherwise `total` is the number of stored tenders the filter as written keeps and page 1 holds `min(300, total)` of them, newest first, none left out that is newer than one listed, none listed more often than it matches (no `tender_id` twice over a well-keyed table) |
| Routes.MalformedDatesAreIgnored | routes.py:55-69 | a date argument that does not parse has the same effect as an empty one |
| Routes.ApiTenderDetails | routes.py:90-102 | 404 exactly for an unknown id; otherwise that tender's dictionary |
| Routes.DetailsAreOfRequestedTender | routes.py:94-99 | the details returned are those of the requested id |
| Routes.DistinctSorted | routes.py:150-154 | ascending without repeats, containing exactly the non-empty values present |
| Routes.ApiOrganizations | routes.py:146-157 | ascending and containing exactly the non-empty organizations of the table |
| Routes.ApiTenderTypes | routes.py:159-170 | ascending and containing exactly the non-empty tender types of the table |
| Routes.GroupBy | routes.py:112-115 | one group per distinct key, each with its number of occurrences, summing to the number of rows |
| Routes.GroupByCount | routes.py:112-121 | there are as many groups as distinct keys |
| Routes.TypeCounts | routes.py:112-115 | the per-type counts (null a key of its own) add up to the number of tenders |
| Routes.TopGroups | routes.py:118-121 | exactly `min(n, distinct keys)` groups in descending count with their true counts, no key twice; a key left out has no more rows than any listed |
| Routes.TopGroupsApart | routes.py:118-121 | groups taken from groups with distinct keys keep their keys distinct |
| Routes.RecentDays | routes.py:124-128 | the days listed are exactly those of tenders published at or after the cut-off |
| Routes.RecentDaysCount | routes.py:124-128 | over distinct rows, each day occurs among the recent days exactly once per tender published on it at or after the cut-off |
| Routes.LatestRuns | routes.py:131 | the 5 latest runs by start time; any run left out started no later than those listed |
| Routes.Label | routes.py:135-136 | `x or 'Unknown'` is never empty and is the value itself when that is truthy |
| Routes.DayCounts | routes.py:124-137 | each recent day appears with its `YYYY-MM-DD` label and the number of tenders published on it: over distinct rows, the size of the set of ids published that day at or after the cut-off |
| Routes.ApiStats | routes.py:104-144 | 500 exactly when the 30-day cut-off underflows; otherwise the total, the per-type, top-10 organization and per-day counts and the five latest logs |
| Routes.UnknownMayAppearTwice | routes.py:112-135 | a null type and an empty type are counted apart yet both labelled `Unknown` |

## Left out

- HTTP, the OpenAI client and logging: the response status and decoded body, the embedding service and the
  distance function are parameters; nothing is sent or logged.
- Floating point: vectors are sequences of reals and similarity is `1 - distance` over reals.
- `time.sleep` calls are not performed. The incremental driver counts the pauses between its batches and
  the URL pass counts the tenders whose title search is followed by a pause; the delay values are not
  modelled.
- Clocks (`utcnow`, Riyadh time) are parameters. The two clocks of the incremental driver are separate
  parameters because the source uses an aware Riyadh clock for the count and a naive UTC clock for the
  selection.
- Each clock is read once per run: the source re-reads it at every call (`get_saudi_now()` at
  generate_embeddings_incremental.py:69 before each count, `utcnow()` at embeddings.py:85, 148 and 187),
  so the model does not capture a tender expiring between two batches of one run.
- The row order of queries without `ORDER BY` is a parameter. Both URL-selection queries of
  `update_tender_urls` use the same order.
- Ties of an `ORDER BY` are broken by insertion order; the database may break them differently.
- String order is by code points; the database's collation is not modelled.
- `ILIKE` is modelled with ASCII case folding only, and `%`, `_` in user input are taken literally.
- A backslash in a search argument is taken literally: in `ILIKE` it escapes the next character, so a
  search text containing `\` does not match as a plain substring in the database.
- Negative limits are not modelled: `limit` of `batch_embed_tenders` and `search_similar_tenders` and
  `--batch-size` and `--max-batches` of the incremental driver are natural numbers here. A negative limit
  is truthy in Python and reaches `LIMIT`, where PostgreSQL raises; a negative `--max-batches` runs no
  batch.
- `\d` in the `StenderID` regex is modelled as ASCII digits; Python also accepts other Unicode digits.
- `urllib.parse.quote` of texts containing lone surrogates is not modelled (Dafny `char` is a scalar value).
- Json.PyStr: `str()` of a list or an object is abbreviated to `[]` or `{}`, so two different non-empty
  lists (or objects) give the same id text here; Python prints their full `repr`, which is not modelled
  (a decoded object here has no key order).
- JSON numbers with a fraction or an exponent (Python `float`) are not modelled: `JValue` has only integers.
- Dates.ParseYmd: accepts only ASCII digits; Python's `strptime` (`\d`) also accepts other Unicode decimal
  digits, such as Arabic-Indic ones.
- Scraper.Upsert: database type coercion is modelled as the assignment cast PostgreSQL applies to text
  columns (an integer becomes its digits, a boolean `true` or `false`); a date-time, list or object sent
  to a text column, or anything but a date-time or `None` sent to a date column, raises
  `ColumnTypeError` (PostgreSQL would also parse a date text; the fetched records never carry one).
  The driver's error message text is not modelled, and the error is raised at the record rather than at
  the next flush (the committed table and the log are the same). A new `tender_id` longer than 255
  characters raises `TooLong` even when the excess is all spaces: PostgreSQL would store the cut id, which
  the next lookup by the uncut id would not find, and that path is not modelled.
- The surrogate integer primary key `id` is not modelled; rows are keyed by `tender_id`, which is unique.
- Session autoflush, concurrent sessions, the scheduler, the HTML templates, `/trigger-scrape` and the
  paging query arguments of `/api/tenders` (the source ignores them, always page 1 of 300).
- `strftime('%Y-%m-%d')` of years before 1000 (Python prints fewer than four digits) is not modelled.
- Embeddings.Cleanup: requires the `embedding` column to exist (querying the table with the column dropped
  raises, which is not modelled).
- Incremental.LoopWith: the loop as written is evaluated within a `fuel` bound on the number of
  batches; `None` means it had not ended within that bound. `LoopAsWritten` inherits the bound.
- Migration.RunMigration: inherits the `fuel` bound of the loop as written.
- TenderUrls.SelectionPutsPlaceholdersFirst: states that leaving a tender out means the selection is full,
  not the stronger claim that `len(rows) <= limit` selects every row.

## Findings

| source | as written | input that shows it | evidently intended | confidence | as-written member | corrected member |
|---|---|---|---|---|---|---|
| scraper.py:188 | `save_tenders_to_db` reads the keys `tender_name`, `agency`, `category` and `url`; `fetch_tenders` emits `tender_title`, `organization`, `tender_type` and `tender_url` | any 200 response with one item carrying `tenderId` and `tenderName` | save the fetched records under the keys the fetch emits | high, not executed | Scraper.NonEmptyFetchEndsInError | Scraper.FetchedKeysScrapeSucceeds |
| embeddings.py:131 | the count is incremented as each vector is added to the session, before the commit; a commit that fails still counts its items, so the driver loop never sees 0 | a reliable service and a column whose dimension is not 3072, with one live tender and `max_batches=None` | count what the commit stored, so the loop ends | high, not executed | Incremental.GenerateAsWrittenNeverEnds | Incremental.GenerateIncrementally |
| migrate_vector_size.py:31 | the column becomes `vector(1536)` while every request still asks for `dimensions=3072` | `run_migration()` with a reliable service and one live tender | request the column's dimension | high, not executed | Migration.RunMigrationNeverEnds | Migration.RunMigrationCorrected |
| routes.py:67 | `publication_date <= date_to + 1 day` also keeps tenders published at 00:00 of the following day, and scraped dates are always midnight | `date_to=2025-03-10` and a tender published 2025-03-11 (stored as midnight) | `publication_date < date_to + 1 day`; the endpoint model (`ApiTenders`) keeps the bound as written | medium, not executed | Routes.KeepAsWrittenMeansArguments | Routes.KeepMeansArguments |
