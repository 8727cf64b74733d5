/** `Yad2MultiSearchScraper.run_multi_search`: collect the results of every saved
    search, deduplicate them by token, resolve each token to a property record,
    stamp the records and let the tracker pick out the new ones. */
module Pipeline {
  import opened Wrappers
  import opened Listings
  import Seqs
  import Pagination
  import MultiSearch
  import Dedup
  import Resolution
  import Tracker
  import Notifications

  /** What outlives one run: the cache of scraped records (`scraped_listings`),
      the tracker and the database file it mirrors. */
  datatype ScraperState = ScraperState(cache: map<string, Property>, tracker: Tracker.Tracker, file: Tracker.DbFile)

  /** A scraper just built on the database file `f` at `path`: empty cache, tracker
      loaded from the file. */
  function NewScraper(path: string, f: Tracker.DbFile): (s: ScraperState)
    ensures s.cache == map[] && Tracker.Synced(s.tracker, f) && s.file == f
  {
    Tracker.OpenSynced(path, f);
    ScraperState(map[], Tracker.Open(path, f), f)
  }

  /** `combined_df['search_timestamp'] = now`: every row gets the same stamp. */
  function Stamp(rows: seq<Property>, ts: string): (r: seq<Property>)
    ensures |r| == |rows|
    ensures forall i | 0 <= i < |rows| :: r[i] == rows[i].(searchTimestamp := Some(ts))
    ensures Ids(r) == Ids(rows)
  {
    seq(|rows|, i requires 0 <= i < |rows| => rows[i].(searchTimestamp := Some(ts)))
  }

  /** The frontier of a run over `configs`. */
  function Frontier(fetch: Pagination.PageFetcher, configs: seq<SearchConfig>): seq<FrontierRef> {
    Dedup.Deduplicate(MultiSearch.Collected(fetch, configs))
  }

  /** `run_multi_search` with the search feed `fetch`, the listing pages `detail`,
      the clock readings `now` (for the tracker file) and `ts` (for the rows), and
      `notifier` telling whether a notifier was set up. `frontier` is the list
      of unique listings the run resolved.
      - An exception escapes exactly when some frontier token was not cached and
        its page raises; the records cached before that point stay cached.
      - Otherwise the result is one stamped row per frontier element whose token
        ends up cached, in frontier order; an empty frontier gives no rows.
      - Cached records are never replaced.
      - The tracker changes only when the run succeeds with rows and a notifier
        exists; it then has seen every row id, and `newRows` are the rows the
        tracker had not seen, each id once. The file stays in sync with it. */
  method RunMultiSearch(fetch: Pagination.PageFetcher, detail: Resolution.DetailFetcher, configs: seq<SearchConfig>,
                        st: ScraperState, notifier: bool, now: string, ts: string)
    returns (result: Result<seq<Property>>, st': ScraperState, newRows: seq<Property>, frontier: seq<FrontierRef>)
    ensures frontier == Frontier(fetch, configs)
    ensures result.Raised? <==>
              exists j | 0 <= j < |frontier| ::
                frontier[j].Token() !in st.cache && Resolution.Scrape(detail, frontier[j].Token()).Raised?
    ensures result.Ok? ==> result.value == Stamp(Resolution.Project(frontier, st'.cache), ts)
    ensures forall t | t in st.cache :: t in st'.cache && st'.cache[t] == st.cache[t]
    ensures result.Ok? ==> Resolution.CacheAfter(detail, frontier, |frontier|, st.cache, st'.cache)
    ensures !(result.Ok? && result.value != [] && notifier) ==> st'.tracker == st.tracker && st'.file == st.file && newRows == []
    ensures result.Ok? && result.value != [] && notifier ==>
              && Tracker.Seen(st'.tracker) == Tracker.Seen(st.tracker) + Seqs.Elems(Ids(result.value))
              && newRows == Notifications.NewAsChecked(result.value, Tracker.Seen(st.tracker))
    ensures Tracker.Synced(st.tracker, st.file) ==> Tracker.Synced(st'.tracker, st'.file)
  {
    var all := MultiSearch.CollectListings(fetch, configs);
    frontier := Dedup.Deduplicate(all);
    if |frontier| == 0 {
      result, st', newRows := Ok([]), st, [];
      return;
    }
    var rows, cache', _ := Resolution.ResolveDetails(frontier, st.cache, detail);
    if rows.Raised? {
      result, st', newRows := Raised, st.(cache := cache'), [];
      return;
    }
    result, st', newRows := Publish(rows.value, st.(cache := cache'), notifier, now, ts);
  }

  /** The end of a run that resolved to `rows`: an empty table is returned as it
      is; otherwise the rows are stamped and, with a notifier, handed to the
      notification handler. */
  method Publish(rows: seq<Property>, st: ScraperState, notifier: bool, now: string, ts: string)
    returns (result: Result<seq<Property>>, st': ScraperState, newRows: seq<Property>)
    ensures result == Ok(Stamp(rows, ts)) && st'.cache == st.cache
    ensures !(rows != [] && notifier) ==> st' == st && newRows == []
    ensures rows != [] && notifier ==>
              && Tracker.Seen(st'.tracker) == Tracker.Seen(st.tracker) + Seqs.Elems(Ids(rows))
              && newRows == Notifications.NewAsChecked(Stamp(rows, ts), Tracker.Seen(st.tracker))
    ensures Tracker.Synced(st.tracker, st.file) ==> Tracker.Synced(st'.tracker, st'.file)
  {
    if |rows| == 0 {
      result, st', newRows := Ok([]), st, [];
      return;
    }
    var stamped := Stamp(rows, ts);
    var tracker', file';
    newRows, tracker', file' := Notifications.HandleNotifications(stamped, st.tracker, st.file, notifier, now);
    st' := st.(tracker := tracker', file := file');
    result := Ok(stamped);
  }

  /** After a run that did not raise, every frontier token whose page yields a
      record is cached, so the next run takes it from the cache instead of
      requesting its page again. */
  lemma RepeatRunUsesCache(detail: Resolution.DetailFetcher, u: seq<FrontierRef>, cache: map<string, Property>,
                           c: map<string, Property>, j: nat)
    requires j < |u| && Resolution.CacheAfter(detail, u, |u|, cache, c)
    requires Resolution.Succeeds(detail, u[j].Token())
    ensures u[j].Token() in c
  {
    assert Resolution.CacheComplete(detail, u, |u|, c);
  }
}
