# Yad2 multi-search scraper — a Dafny model of the discovery pipeline

This project models the core of a rental-listing scraper: the listing discovery,
deduplication and resolution pipeline of `Yad2MultiSearchScraper`, plus the
`PropertyTracker` that remembers which listings were already reported. A run
works like this:

1. Every saved search configuration is crawled page by page (`fetch_listings`, at most five pages).
2. Each entry is tagged with the name of its search, and all entries are merged into one list.
3. The list is deduplicated by token into a crawl frontier that records which searches found each token.
4. Every frontier element becomes a property record. The record comes from the per-scraper cache, or else from the listing page.
5. The records are stamped with the run's timestamp.
6. The tracker picks out the listings it has not seen and persists them to its JSON database.
7. A summary counts listings per search and reports the first ten properties that several searches found.

Modules follow that structure:

- `Pagination`: the page loop.
- `MultiSearch`: the first pass over the configurations.
- `Dedup`: `_deduplicate_listings`.
- `ListingPage`: images, entry date and record assembly in `scrape_listing_page`.
- `Resolution`: the cached `scrape_listings_pages` override.
- `Tracker`: `PropertyTracker`.
- `Notifications`: the check-then-add loop of `_handle_notifications`.
- `Summary`: `print_search_summary_v2` and `_analyze_search_overlaps`.
- `Pipeline`: `run_multi_search` as a whole.
- `Scenarios`: a worked two-search example.
- `Seqs` and `Wrappers` hold generic helpers.

The network, the clock and the database file are parameters:

- a `PageFetcher` maps query parameters and a page number to a page outcome;
- a `DetailFetcher` maps a listing URL to a listing page outcome;
- clock readings are strings;
- the file is a `DbFile` value.

Python exceptions that escape are modelled by `Result.Raised`.

Where the code behaves in ways a reader might not expect, the model follows the code:

- A listing page that raises aborts the whole run instead of skipping the listing, because `run_multi_search` re-raises. Several things on that page raise outside any handler:
  - `requests.get` and `raise_for_status`;
  - a JSON decode error, which is a `ValueError` and not among the caught types;
  - a JSON `null` where the field projection calls `.get` on a nested object;
  - a `null` `images` or `videos` array given to `len`.
- `found_in_searches` is not free of repetitions. A search that returns a token on two of its pages appends its name twice.
- Deduplicating an already deduplicated list keeps the same listings in the same order. It resets every `found_in_searches` to the listing's own search, so the merge history is not idempotent (`Dedup.DedupTwice`).
- A listing whose `entranceDate` is JSON `null` makes `.split` raise, and that also aborts the run.

## Model

| member | source | states |
|---|---|---|
| Pagination.FetchListings | scripts/scraper.py:24-74 | Pages are requested consecutively from 1, at most 5 of them. Every page before the last requested one had entries. The last one stopped the crawl unless it hit the cap. The result is the entries of the requested pages in page order, and an unexpected exception on the last page escapes |
| Pagination.FirstPageFailure | scripts/scraper.py:43-45 | A search whose first page has no data or fails with a caught error yields no entries and no exception. One whose first page raises otherwise yields the exception |
| MultiSearch.CollectListings | scripts/scraper.py:337-358 | The merged list is the contributions of the configurations in order. Every entry carries the name of a configuration |
| MultiSearch.CollectedAppend | scripts/scraper.py:337-358 | Configurations are independent: crawling `a` then `b` merges what crawling each one alone would |
| MultiSearch.FailingConfigSkipped | scripts/scraper.py:354-358 | A configuration whose crawl raises contributes nothing; the others' entries are unaffected |
| MultiSearch.SucceedingConfigTagged | scripts/scraper.py:344-349 | A configuration whose crawl succeeds contributes all of its entries, in crawl order, tagged with its name, at its place in the merged list |
| Dedup.DedupSpec | scripts/scraper.py:399-416 | The frontier's tokens are the input's truthy tokens, each once, in first-occurrence order. Each element is the first input entry with its token. Its `found_in_searches` is the search of every entry with that token, in input order |
| Dedup.DedupCovers | scripts/scraper.py:404-411 | Frontier tokens are distinct and non-empty. Every entry with a truthy token is represented |
| Dedup.DedupOrder | scripts/scraper.py:407-411 | Frontier elements are in strictly increasing order of their token's first position in the input |
| Dedup.DedupAccounting | scripts/scraper.py:366-369 | The `found_in_searches` lists together have one element per entry with a truthy token. The frontier is no longer than the number of such entries, which is at most the input length and equal to it when every entry has a token |
| Dedup.DedupOfDistinct | scripts/scraper.py:407-411 | On entries with truthy, pairwise-distinct tokens every entry becomes its own element, seeded with its own search |
| Dedup.DedupTwice | scripts/scraper.py:407-414 | Deduplicating the frontier's entries again keeps the same entries in the same order, but each list restarts from the entry's own search |
| Scenarios.OverlappingSearches | scripts/scraper.py:399-416 | Search x finding a and b and search y finding b and c give frontier [a, b, c]. Here b records [x, y], a records [x] and c records [y] |
| ListingPage.FirstTruthyKey | scripts/scraper.py:135 | The chosen key is the first of url/src/href/link with a truthy value, and no earlier key has one |
| ListingPage.ImageDroppedIff | scripts/scraper.py:128-142 | An image element is dropped exactly when it is neither a string nor an object with a truthy url/src/href/link, an `original` or a `large` key |
| ListingPage.ImageUrlKeyPriority | scripts/scraper.py:135-137 | When the j-th key of the chain is the first truthy one, its value is the one appended, and it is non-empty |
| ListingPage.ImageValuesAppend | scripts/scraper.py:129-142 | Image elements are handled one at a time, in order: the result for a concatenation is the concatenation of the results |
| ListingPage.ImageValuesOfStrings | scripts/scraper.py:130-132 | An array of URL strings is kept as it is |
| ListingPage.ExtractImages | scripts/scraper.py:124-128 | A non-array `images` value gives no URLs. An array gives at most one URL per element |
| ListingPage.SplitHead | scripts/scraper.py:162 | `split(sep)[0]` is the longest prefix without `sep`, followed in the input by `sep` when shorter |
| ListingPage.EntryDate | scripts/scraper.py:162 | A missing entrance date gives "". A null one raises. A text one gives the prefix before the first `T` |
| ListingPage.EntryDateIdempotent | scripts/scraper.py:162 | Cutting an already cut date changes nothing |
| ListingPage.ScrapeListingPage | scripts/scraper.py:89-187 | It raises exactly when fetching or decoding the page raised, the entrance date is null, or the field projection raises. It gives no record exactly when no listing data was found. Otherwise the record carries the token, the page URL, the projected fields, the extracted images and the cut date |
| ListingPage.ScrapeRoundTrip | scripts/scraper.py:122-184 | A scraped record's date has no time part left. A page rebuilt from the record's own token, image values, date and fields scrapes to the same record |
| ListingPage.ImageValuesRebuilt | scripts/scraper.py:128-142 | Every list of image values, `null`s included, is the extraction of some `images` array |
| Resolution.ResolveDetails | scripts/scraper.py:418-453 | Cached records are never replaced. After a normal return every record-yielding token is cached and nothing else was added. No page is requested for a cached token. It raises exactly when some uncached token's page raises. The rows are the cached records, with each element's own `found_in_searches`, in frontier order. A fresh frontier has every token requested once, in order |
| Pipeline.RunMultiSearch | scripts/scraper.py:331-397 | The frontier is the deduplicated merged list. It raises exactly when an uncached frontier token's page raises. The result is the stamped projection of the frontier on the cache. The tracker changes only when rows exist and a notifier is set; it then has seen every row id, and the file stays in sync |
| Pipeline.Publish | scripts/scraper.py:372-387 | An empty table is returned unchanged. Otherwise every row is stamped, and with a notifier the rows go through the notification loop |
| Pipeline.Stamp | scripts/scraper.py:377 | Every row gets the same timestamp, and rows and ids are unchanged otherwise |
| Pipeline.NewScraper | scripts/scraper.py:251-262 | A new scraper has an empty cache and a tracker in sync with its database file |
| Pipeline.RepeatRunUsesCache | scripts/scraper.py:426-443 | After a run that did not raise, every frontier token whose page yields a record is cached, so the next run does not request it again |
| Notifications.HandleNotifications | scripts/scraper.py:283-305 | Without a notifier nothing changes. Otherwise the new rows are those whose id was unseen and not repeated earlier. The tracker ends up having seen every row id, and the file is rewritten exactly when something was new |
| Notifications.NewAsChecked | scripts/scraper.py:297-304 | The reported rows have distinct ids, form a subsequence of the table, and their ids are exactly the table's ids minus the seen ones |
| Notifications.CheckedIsGetNew | scripts/scraper.py:297-304 | With distinct ids in the table, the loop reports what `get_new_properties` would |
| Notifications.NewAsCheckedFirstCopies | scripts/scraper.py:297-304 | Every reported row is the first row of the table carrying its id |
| Notifications.RepeatedIdReportedOnce | scripts/scraper.py:299-304 | For an id at positions i < j of any table, the id is reported at most once, and the reported row is the copy at the id's first position, which is at most i |
| Notifications.Delivered | scripts/scraper.py:310-322 | At most one delivery per new row, none when new-property notifications are off, and all when every send succeeds |
| Tracker.LoadSeen | utils/property_tracker.py:21-30 | The loaded ids are the file's `seen_ids` without repetitions. A missing, unparsable or key-less file gives none |
| Tracker.Open | utils/property_tracker.py:8-16 | A new tracker has its path and exactly the file's ids |
| Tracker.Save | utils/property_tracker.py:32-40 | The written file holds exactly the tracker's ids and the save time |
| Tracker.SaveLoad | utils/property_tracker.py:21-40 | Reading back a saved file gives the saved set |
| Tracker.Reopen | utils/property_tracker.py:8-40 | A tracker in sync with its file survives a restart with the same ids |
| Tracker.OpenEmpty | utils/property_tracker.py:23-30 | Opening a missing, unparsable or key-less file gives an empty tracker |
| Tracker.Exists | utils/property_tracker.py:92-102 | True exactly for seen ids |
| Tracker.Add | utils/property_tracker.py:104-113 | The id joins the seen set and the file is rewritten |
| Tracker.AddIdempotent | utils/property_tracker.py:104-113 | Adding an id twice is the same as adding it once |
| Tracker.AddThenReopen | utils/property_tracker.py:104-113 | An added id is found by a tracker reopened on the rewritten file |
| Tracker.AddSynced | utils/property_tracker.py:104-113 | Adding keeps the file in sync with the tracker |
| Tracker.GetNewFilters | utils/property_tracker.py:42-59 | The result keeps exactly the rows with an unseen id, in their order. Every copy of a repeated row is kept: each row occurs as often as in the table when its id is unseen, and not at all otherwise |
| Tracker.MarkSeen | utils/property_tracker.py:61-71 | A non-empty batch adds all its ids and rewrites the file. An empty batch changes nothing |
| Tracker.MarkSeenSynced | utils/property_tracker.py:61-71 | Marking keeps the file in sync with the tracker |
| Tracker.MarkThenNothingNew | utils/property_tracker.py:42-71 | After a batch is marked as seen, none of its rows is new |
| Tracker.GetStats | utils/property_tracker.py:73-90 | The count is the size of the seen set, the path is the database path, and the timestamp is the file's ("Never" or "Unknown" when absent) |
| Tracker.TotalSeenIsLength | utils/property_tracker.py:76 | The reported count is the number of stored ids |
| Tracker.RunMonotone | utils/property_tracker.py:61-113 | Along any sequence of add and mark calls the seen set only grows and the file stays in sync |
| Summary.SearchCounts | scripts/scraper.py:461-468 | One key per search name, in first-appearance order, and each count is the number of listings of that search |
| Summary.CountsCoverAll | scripts/scraper.py:461-470 | The per-search counts add up to the number of listings |
| Summary.JoinLength | scripts/scraper.py:492 | The joined text's length is the parts' total length plus one separator length per pair of neighbours |
| Summary.AnalyzeSearchOverlaps | scripts/scraper.py:485-494 | At most ten lines, taken from the front of the full list of overlap messages |
| Summary.OverlapsCounted | scripts/scraper.py:489-494 | One message per row found by more than one search, and the report holds the smaller of ten and that count |
| Summary.OverlapsNameRows | scripts/scraper.py:489-492 | The messages are, in order, those of exactly the rows found by more than one search |
| Summary.SingleSearchNoOverlap | scripts/scraper.py:491 | A row found by at most one search produces no line |

## Left out

- HTTP requests, HTML parsing and JSON decoding are not modelled. Pages arrive as already classified outcomes, because the model has no network or parser.
- The projection of the listing JSON onto the thirty-odd record fields is not modelled, and neither is the halving of `propertyTax` into `arnona_month`. The result is an opaque field map, or `None` when the projection raises, because the individual lookups and the floating-point division do not affect the pipeline.
- `image_count` and `video_count` are not modelled as values. They only count, and their `len(None)` crash on a `null` array is folded into the projection raising.
- The upsert of the table into the spreadsheet store is not part of this model, because the store's reader/writer is not part of this model.
- Sending Telegram messages, message formatting and error notifications are not modelled; sending is a parameter of `Notifications.Delivered`.
- The `try/except` that swallows errors inside `_handle_notifications` is not modelled, because nothing modelled in the loop raises.
- `enable_notifications` and the notifier's successful setup are folded into one `notifier` flag.
- Sleeps, prints and the `print_search_summary_v2` text layout are not modelled, because they do not affect results.
- `log_extra_listing_info`, `extract_listing_links`, `print_listings`, `check_listing_categories` and the base-class `scrape_listings_pages` are not modelled, because nothing in the pipeline calls them.
- `os.makedirs` is not modelled, and neither is the file's JSON layout beyond `seen_ids` and `last_updated`.
- A database file whose top-level JSON is not an object makes `.get` raise in the source. The model treats it as unparsable.
- Python set iteration order is not modelled. The tracker keeps its ids in insertion order, so the list written to the file is that order.
- Timestamps are opaque strings supplied by the caller.
- The fallback `search_configs or SEARCH_CONFIGURATIONS` is not modelled. An empty configuration list selects the default searches in the source, but `Pipeline.RunMultiSearch` takes the list it is given, because the defaults are configuration data outside this model.
- A JSON `null` `seen_ids` makes `set(None)` raise when the tracker is built. The model reads it as a file without the key, that is an empty tracker, because `DbFile` does not distinguish `null` from absent.
- Tokens, listing ids and image values are strings only. A non-string JSON token is not representable: an integer token would count as truthy, and concatenating it to the item URL would raise. The feed is taken to deliver string tokens.
