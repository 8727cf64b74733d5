/** The page loop of `fetch_listings`: pages 1, 2, ... of one search are requested
    until a page ends the crawl or the page cap is reached. */
module Pagination {
  import opened Wrappers
  import opened Listings

  /** At most this many pages are requested per search. */
  const MaxPages: nat := 5

  /** What requesting one results page yields.
      - `Feed(items)`: the private, platinum and agency entries of the page, concatenated;
      - `NoFeedData`: the page had no `__NEXT_DATA__` script;
      - `RequestError`: the request failed or its JSON did not parse (both caught);
      - `Unexpected`: any other exception, which escapes `fetch_listings`. */
  datatype PageOutcome = Feed(items: seq<RawListing>) | NoFeedData | RequestError | Unexpected

  /** The network: query parameters and page number to the page's outcome. */
  type PageFetcher = (map<string, string>, nat) -> PageOutcome

  /** A page lets the crawl go on to the next page only when it has entries. */
  predicate Continues(o: PageOutcome) {
    o.Feed? && |o.items| > 0
  }

  function PageItems(o: PageOutcome): seq<RawListing> {
    if o.Feed? then o.items else []
  }

  /** The last page requested when the crawl is at page `p`: the first page from
      `p` on that does not continue, or the cap. */
  function LastPage(fetch: PageFetcher, params: map<string, string>, p: nat): (n: nat)
    requires 1 <= p <= MaxPages
    ensures p <= n <= MaxPages
    decreases MaxPages - p
  {
    if p == MaxPages || !Continues(fetch(params, p)) then p else LastPage(fetch, params, p + 1)
  }

  /** The entries of pages `1 .. to - 1`, in page order. */
  function Gathered(fetch: PageFetcher, params: map<string, string>, to: nat): seq<RawListing> {
    if to <= 1 then [] else Gathered(fetch, params, to - 1) + PageItems(fetch(params, to - 1))
  }

  /** The outcome of crawling one search: the entries of every page up to the
      last one requested, unless that page raised. */
  function Crawl(fetch: PageFetcher, params: map<string, string>): Result<seq<RawListing>> {
    var n := LastPage(fetch, params, 1);
    if fetch(params, n).Unexpected? then Raised else Ok(Gathered(fetch, params, n + 1))
  }

  /** `fetch_listings`. `requested` is the sequence of page numbers sent to the
      fetcher. Pages are requested consecutively from 1, at most `MaxPages` of
      them, and every page before the last one requested had entries; the last
      one ends the crawl unless it is the cap. The entries returned are those of
      the requested pages in order, and an unexpected exception on the last page
      escapes. */
  method FetchListings(fetch: PageFetcher, params: map<string, string>)
    returns (result: Result<seq<RawListing>>, requested: seq<nat>)
    ensures 1 <= |requested| <= MaxPages
    ensures forall k | 0 <= k < |requested| :: requested[k] == k + 1
    ensures forall p | 1 <= p < |requested| :: Continues(fetch(params, p))
    ensures |requested| < MaxPages ==> !Continues(fetch(params, |requested|))
    ensures result.Raised? <==> fetch(params, |requested|).Unexpected?
    ensures result.Ok? ==> result.value == Gathered(fetch, params, |requested| + 1)
    ensures result == Crawl(fetch, params)
  {
    var all: seq<RawListing> := [];
    var page := 1;
    requested := [];
    while page <= MaxPages
      invariant 1 <= page <= MaxPages + 1
      invariant |requested| == page - 1
      invariant forall k | 0 <= k < |requested| :: requested[k] == k + 1
      invariant forall p | 1 <= p < page :: Continues(fetch(params, p))
      invariant all == Gathered(fetch, params, page)
      invariant page <= MaxPages ==> LastPage(fetch, params, page) == LastPage(fetch, params, 1)
      invariant page == MaxPages + 1 ==> LastPage(fetch, params, 1) == MaxPages
    {
      requested := requested + [page];
      var outcome := fetch(params, page);
      match outcome
      case Unexpected =>
        result := Raised;
        return;
      case NoFeedData =>
        break;
      case RequestError =>
        break;
      case Feed(items) =>
        if |items| == 0 {
          break;
        }
        all := all + items;
        page := page + 1;
    }
    result := Ok(all);
  }

  /** A search whose first page already fails, for a caught reason, yields no
      entries and no exception; one whose first page raises yields the exception. */
  lemma FirstPageFailure(fetch: PageFetcher, params: map<string, string>)
    ensures fetch(params, 1).NoFeedData? || fetch(params, 1).RequestError? ==> Crawl(fetch, params) == Ok([])
    ensures fetch(params, 1).Unexpected? ==> Crawl(fetch, params) == Raised
  {
    assert LastPage(fetch, params, 1) == 1 || Continues(fetch(params, 1));
    assert Gathered(fetch, params, 2) == Gathered(fetch, params, 1) + PageItems(fetch(params, 1));
  }
}
