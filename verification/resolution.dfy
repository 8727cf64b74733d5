/** Detail resolution (`Yad2MultiSearchScraper.scrape_listings_pages`): each
    frontier element becomes a property record, fetched from its listing page
    unless the scraper's cache already holds its token. */
module Resolution {
  import opened Wrappers
  import opened Listings
  import opened ListingPage
  import Seqs
  import Dedup

  /** The network for listing pages: page URL to what the page yields. */
  type DetailFetcher = string -> DetailOutcome

  /** Scraping the listing page of `token`. */
  function Scrape(detail: DetailFetcher, token: string): Result<Option<Property>> {
    ScrapeListingPage(detail(ItemUrl(token)), ItemUrl(token))
  }

  /** Scraping `token` produces a record. */
  predicate Succeeds(detail: DetailFetcher, token: string) {
    Scrape(detail, token).Ok? && Scrape(detail, token).value.Some?
  }

  /** `r`'s record as taken from the cache: the cached record with the
      `found_in_searches` of `r`. */
  function FromCache(c: map<string, Property>, r: FrontierRef): Property
    requires r.Token() in c
  {
    c[r.Token()].(foundInSearches := r.foundInSearches)
  }

  /** The rows produced for `refs` once `c` holds every record that could be had:
      one row per element whose token is cached, in element order. */
  function Project(refs: seq<FrontierRef>, c: map<string, Property>): (rows: seq<Property>)
    ensures |rows| <= |refs|
  {
    if |refs| == 0 then []
    else
      var r := refs[|refs| - 1];
      Project(refs[..|refs| - 1], c) + (if r.Token() in c then [FromCache(c, r)] else [])
  }

  /** The record `t` gets when first cached: its scraped record with the
      `found_in_searches` of the first element of `refs` carrying it. */
  function NewEntry(detail: DetailFetcher, refs: seq<FrontierRef>, t: string): Property
    requires Succeeds(detail, t)
  {
    var k := Seqs.IndexOf(Dedup.RefTokens(refs), t);
    var found := if k < |refs| then refs[k].foundInSearches else [];
    Scrape(detail, t).value.value.(foundInSearches := found)
  }

  /** Every entry of `cache` is in `c`, unchanged. */
  ghost predicate CacheKept(cache: map<string, Property>, c: map<string, Property>) {
    forall t | t in cache :: t in c && c[t] == cache[t]
  }

  /** Every entry of `c` not in `cache` belongs to a token among the first `n`
      elements whose page yields a record, and holds its `NewEntry`. */
  ghost predicate CacheAdded(detail: DetailFetcher, refs: seq<FrontierRef>, n: nat,
                             cache: map<string, Property>, c: map<string, Property>)
    requires n <= |refs|
  {
    forall t | t in c && t !in cache ::
      t in Dedup.RefTokens(refs[..n]) && Succeeds(detail, t) && c[t] == NewEntry(detail, refs, t)
  }

  /** Every token among the first `n` elements whose page yields a record is in `c`. */
  ghost predicate CacheComplete(detail: DetailFetcher, refs: seq<FrontierRef>, n: nat, c: map<string, Property>)
    requires n <= |refs|
  {
    forall j | 0 <= j < n && Succeeds(detail, refs[j].Token()) :: refs[j].Token() in c
  }

  /** The cache after resolving the first `n` elements of `refs` from `cache`. */
  ghost predicate CacheAfter(detail: DetailFetcher, refs: seq<FrontierRef>, n: nat,
                             cache: map<string, Property>, c: map<string, Property>)
    requires n <= |refs|
  {
    CacheKept(cache, c) && CacheAdded(detail, refs, n, cache, c) && CacheComplete(detail, refs, n, c)
  }

  /** Adding a key that no element of `refs` carries does not change the rows. */
  lemma {:induction false} ProjectOtherKey(refs: seq<FrontierRef>, c: map<string, Property>, t: string, p: Property)
    requires t !in Dedup.RefTokens(refs)
    ensures Project(refs, c[t := p]) == Project(refs, c)
  {
    if |refs| > 0 {
      var refs' := refs[..|refs| - 1];
      assert Dedup.RefTokens(refs') == Dedup.RefTokens(refs)[..|refs| - 1];
      ProjectOtherKey(refs', c, t, p);
    }
  }

  lemma ProjectSnoc(refs: seq<FrontierRef>, r: FrontierRef, c: map<string, Property>)
    ensures Project(refs + [r], c) == Project(refs, c) + (if r.Token() in c then [FromCache(c, r)] else [])
  {
    assert (refs + [r])[..|refs|] == refs;
  }

  /** The facts the resolution loop keeps about its request log after `n` elements. */
  ghost predicate FetchLog(detail: DetailFetcher, refs: seq<FrontierRef>, n: nat,
                           cache: map<string, Property>, fetched: seq<string>)
    requires n <= |refs|
  {
    && (forall t | t in fetched :: t !in cache && t in Dedup.RefTokens(refs[..n]))
    && (forall a, b | 0 <= a < b < |fetched| && fetched[a] == fetched[b] :: Scrape(detail, fetched[a]) == Ok(None))
    && |fetched| <= n
  }

  lemma RefTokensSnoc(refs: seq<FrontierRef>, i: nat)
    requires i < |refs|
    ensures Dedup.RefTokens(refs[..i + 1]) == Dedup.RefTokens(refs[..i]) + [refs[i].Token()]
  {
    assert refs[..i + 1] == refs[..i] + [refs[i]];
  }

  /** A cache hit adds the cached record with the element's searches to the rows. */
  lemma HitRows(refs: seq<FrontierRef>, i: nat, c: map<string, Property>, rows: seq<Property>)
    requires i < |refs| && refs[i].Token() in c && rows == Project(refs[..i], c)
    ensures rows + [FromCache(c, refs[i])] == Project(refs[..i + 1], c)
  {
    assert refs[..i + 1] == refs[..i] + [refs[i]];
    ProjectSnoc(refs[..i], refs[i], c);
  }

  /** Moving past an element keeps the cache's additions accounted for. */
  lemma KeepAdded(detail: DetailFetcher, refs: seq<FrontierRef>, i: nat, cache: map<string, Property>,
                  c: map<string, Property>)
    requires i < |refs| && CacheAdded(detail, refs, i, cache, c)
    ensures CacheAdded(detail, refs, i + 1, cache, c)
  {
    RefTokensSnoc(refs, i);
    forall t | t in c && t !in cache
      ensures t in Dedup.RefTokens(refs[..i + 1])
    {
      assert t in Dedup.RefTokens(refs[..i]);
    }
  }

  lemma HitComplete(detail: DetailFetcher, refs: seq<FrontierRef>, i: nat, c: map<string, Property>)
    requires i < |refs| && refs[i].Token() in c && CacheComplete(detail, refs, i, c)
    ensures CacheComplete(detail, refs, i + 1, c)
  {
  }

  /** A page that yields nothing changes neither the cache nor the rows. */
  lemma EmptyPageStep(detail: DetailFetcher, refs: seq<FrontierRef>, i: nat, cache: map<string, Property>,
                      c: map<string, Property>, rows: seq<Property>)
    requires i < |refs| && refs[i].Token() !in c && !Succeeds(detail, refs[i].Token())
    requires CacheAfter(detail, refs, i, cache, c) && rows == Project(refs[..i], c)
    ensures CacheAfter(detail, refs, i + 1, cache, c)
    ensures rows == Project(refs[..i + 1], c)
  {
    KeepAdded(detail, refs, i, cache, c);
    assert rows == Project(refs[..i + 1], c) by {
      assert refs[..i + 1] == refs[..i] + [refs[i]];
      ProjectSnoc(refs[..i], refs[i], c);
    }
  }

  /** A page that yields a record caches it and adds it to the rows. */
  lemma RecordStep(detail: DetailFetcher, refs: seq<FrontierRef>, i: nat, cache: map<string, Property>,
                   c: map<string, Property>, rows: seq<Property>, p: Property)
    requires i < |refs| && refs[i].Token() !in c && Succeeds(detail, refs[i].Token())
    requires p == Scrape(detail, refs[i].Token()).value.value.(foundInSearches := refs[i].foundInSearches)
    requires CacheAfter(detail, refs, i, cache, c) && rows == Project(refs[..i], c)
    ensures CacheAfter(detail, refs, i + 1, cache, c[refs[i].Token() := p])
    ensures rows + [p] == Project(refs[..i + 1], c[refs[i].Token() := p])
  {
    var t := refs[i].Token();
    RefTokensSnoc(refs, i);
    assert t !in Dedup.RefTokens(refs[..i]);
    RecordAdded(detail, refs, i, cache, c, p);
    RecordRows(refs, i, c, rows, p);
  }

  lemma RecordAdded(detail: DetailFetcher, refs: seq<FrontierRef>, i: nat, cache: map<string, Property>,
                    c: map<string, Property>, p: Property)
    requires i < |refs| && refs[i].Token() !in c && Succeeds(detail, refs[i].Token())
    requires refs[i].Token() !in Dedup.RefTokens(refs[..i])
    requires p == Scrape(detail, refs[i].Token()).value.value.(foundInSearches := refs[i].foundInSearches)
    requires CacheAdded(detail, refs, i, cache, c)
    ensures CacheAdded(detail, refs, i + 1, cache, c[refs[i].Token() := p])
  {
    var t := refs[i].Token();
    var prior := Dedup.RefTokens(refs[..i]);
    RefTokensSnoc(refs, i);
    assert Seqs.IndexOf(Dedup.RefTokens(refs), t) == i by {
      assert Dedup.RefTokens(refs) == (prior + [t]) + Dedup.RefTokens(refs[i + 1..]);
      Seqs.IndexOfPrefix(prior + [t], Dedup.RefTokens(refs[i + 1..]), t);
      Seqs.IndexOfAppendAbsent(prior, t);
    }
    assert p == NewEntry(detail, refs, t);
  }

  lemma RecordRows(refs: seq<FrontierRef>, i: nat, c: map<string, Property>, rows: seq<Property>, p: Property)
    requires i < |refs| && refs[i].Token() !in Dedup.RefTokens(refs[..i])
    requires p.foundInSearches == refs[i].foundInSearches
    requires rows == Project(refs[..i], c)
    ensures rows + [p] == Project(refs[..i + 1], c[refs[i].Token() := p])
  {
    var t := refs[i].Token();
    assert refs[..i + 1] == refs[..i] + [refs[i]];
    ProjectOtherKey(refs[..i], c, t, p);
    ProjectSnoc(refs[..i], refs[i], c[t := p]);
    assert FromCache(c[t := p], refs[i]) == p;
  }

  /** Requesting the page of an uncached token keeps the request log's facts. */
  lemma RequestStep(detail: DetailFetcher, refs: seq<FrontierRef>, i: nat, cache: map<string, Property>,
                    c: map<string, Property>, fetched: seq<string>)
    requires i < |refs| && refs[i].Token() !in c && !Scrape(detail, refs[i].Token()).Raised?
    requires CacheAfter(detail, refs, i, cache, c) && FetchLog(detail, refs, i, cache, fetched)
    ensures FetchLog(detail, refs, i + 1, cache, fetched + [refs[i].Token()])
  {
    var t := refs[i].Token();
    RefTokensSnoc(refs, i);
    var f := fetched + [t];
    forall a, b | 0 <= a < b < |f| && f[a] == f[b]
      ensures Scrape(detail, f[a]) == Ok(None)
    {
      if b == |fetched| {
        var j := Seqs.IndexOf(Dedup.RefTokens(refs[..i]), t);
        assert f[a] in fetched;
        assert refs[j].Token() == t;
      }
    }
  }

  /** Without a cache hit, the log is skipped to the same token. */
  lemma HitKeepsLog(detail: DetailFetcher, refs: seq<FrontierRef>, i: nat, cache: map<string, Property>,
                    fetched: seq<string>)
    requires i < |refs| && FetchLog(detail, refs, i, cache, fetched)
    ensures FetchLog(detail, refs, i + 1, cache, fetched)
  {
    RefTokensSnoc(refs, i);
  }

  /** No element among the first `n` whose token was not cached at the start raises. */
  ghost predicate NoneRaised(detail: DetailFetcher, refs: seq<FrontierRef>, n: nat, cache: map<string, Property>)
    requires n <= |refs|
  {
    forall j | 0 <= j < n :: refs[j].Token() in cache || !Scrape(detail, refs[j].Token()).Raised?
  }

  /** The frontier has distinct tokens, none of them cached at the start. */
  ghost predicate FreshFrontier(refs: seq<FrontierRef>, cache: map<string, Property>) {
    Seqs.NoDups(Dedup.RefTokens(refs)) && forall j | 0 <= j < |refs| :: refs[j].Token() !in cache
  }

  /** On a fresh frontier no element hits the cache. */
  lemma FreshNoHit(detail: DetailFetcher, refs: seq<FrontierRef>, i: nat, cache: map<string, Property>,
                   c: map<string, Property>)
    requires i < |refs| && FreshFrontier(refs, cache) && CacheAfter(detail, refs, i, cache, c)
    ensures refs[i].Token() !in c
  {
    assert CacheAdded(detail, refs, i, cache, c);
    var prior := Dedup.RefTokens(refs[..i]);
    assert forall j | 0 <= j < i :: prior[j] == Dedup.RefTokens(refs)[j];
  }

  /** A cached element never raises. */
  lemma CachedDoesNotRaise(detail: DetailFetcher, refs: seq<FrontierRef>, i: nat, cache: map<string, Property>,
                           c: map<string, Property>)
    requires i < |refs| && refs[i].Token() in c && CacheAfter(detail, refs, i, cache, c)
    requires NoneRaised(detail, refs, i, cache)
    ensures NoneRaised(detail, refs, i + 1, cache)
  {
    assert CacheAdded(detail, refs, i, cache, c);
  }

  /** Everything the resolution loop keeps after `n` elements, with cache `c`,
      rows `rows` and request log `fetched`. */
  ghost predicate Resolved(detail: DetailFetcher, refs: seq<FrontierRef>, n: nat, cache: map<string, Property>,
                           c: map<string, Property>, rows: seq<Property>, fetched: seq<string>)
    requires n <= |refs|
  {
    && CacheAfter(detail, refs, n, cache, c)
    && rows == Project(refs[..n], c)
    && FetchLog(detail, refs, n, cache, fetched)
    && NoneRaised(detail, refs, n, cache)
    && (FreshFrontier(refs, cache) ==> fetched == Dedup.RefTokens(refs[..n]))
  }

  lemma HitResolved(detail: DetailFetcher, refs: seq<FrontierRef>, i: nat, cache: map<string, Property>,
                    c: map<string, Property>, rows: seq<Property>, fetched: seq<string>)
    requires i < |refs| && refs[i].Token() in c
    requires Resolved(detail, refs, i, cache, c, rows, fetched)
    ensures Resolved(detail, refs, i + 1, cache, c, rows + [FromCache(c, refs[i])], fetched)
  {
    RefTokensSnoc(refs, i);
    if FreshFrontier(refs, cache) {
      FreshNoHit(detail, refs, i, cache, c);
    }
    KeepAdded(detail, refs, i, cache, c);
    HitComplete(detail, refs, i, c);
    HitRows(refs, i, c, rows);
    HitKeepsLog(detail, refs, i, cache, fetched);
    CachedDoesNotRaise(detail, refs, i, cache, c);
  }

  lemma FetchResolved(detail: DetailFetcher, refs: seq<FrontierRef>, i: nat, cache: map<string, Property>,
                      c: map<string, Property>, rows: seq<Property>, fetched: seq<string>)
    requires i < |refs| && refs[i].Token() !in c && !Scrape(detail, refs[i].Token()).Raised?
    requires Resolved(detail, refs, i, cache, c, rows, fetched)
    ensures var t := refs[i].Token();
            if Succeeds(detail, t) then
              var p := Scrape(detail, t).value.value.(foundInSearches := refs[i].foundInSearches);
              Resolved(detail, refs, i + 1, cache, c[t := p], rows + [p], fetched + [t])
            else
              Resolved(detail, refs, i + 1, cache, c, rows, fetched + [t])
  {
    var t := refs[i].Token();
    RefTokensSnoc(refs, i);
    RequestStep(detail, refs, i, cache, c, fetched);
    assert NoneRaised(detail, refs, i + 1, cache);
    if Succeeds(detail, t) {
      var p := Scrape(detail, t).value.value.(foundInSearches := refs[i].foundInSearches);
      RecordStep(detail, refs, i, cache, c, rows, p);
    } else {
      EmptyPageStep(detail, refs, i, cache, c, rows);
    }
  }

  /** `scrape_listings_pages` on the scraper's cache `cache`. `fetched` lists the
      tokens whose page was requested, in request order.
      - The cache only grows, and a cached record is never replaced; a new entry is
        the scraped record of its token with the `found_in_searches` of the first
        element carrying it.
      - No page is requested for a token that was cached, and a token is requested
        again only if its earlier request yielded no record.
      - An exception escapes exactly when some element's token was not cached and
        its page raises.
      - Otherwise the rows are, in element order, one per element whose token ends
        up cached: that record with the element's own `found_in_searches`; the
        elements whose page yielded nothing are skipped.
      - On a frontier with distinct, uncached tokens every token is requested
        exactly once, in frontier order. */
  method ResolveDetails(refs: seq<FrontierRef>, cache: map<string, Property>, detail: DetailFetcher)
    returns (result: Result<seq<Property>>, cache': map<string, Property>, fetched: seq<string>)
    ensures forall t | t in cache :: t in cache' && cache'[t] == cache[t]
    ensures result.Ok? ==> CacheAfter(detail, refs, |refs|, cache, cache')
    ensures forall t | t in fetched :: t !in cache && t in Dedup.RefTokens(refs)
    ensures forall a, b | 0 <= a < b < |fetched| && fetched[a] == fetched[b] :: Scrape(detail, fetched[a]) == Ok(None)
    ensures |fetched| <= |refs|
    ensures result.Raised? <==>
              exists j | 0 <= j < |refs| :: refs[j].Token() !in cache && Scrape(detail, refs[j].Token()).Raised?
    ensures result.Ok? ==> result.value == Project(refs, cache')
    ensures result.Ok? && FreshFrontier(refs, cache) ==> fetched == Dedup.RefTokens(refs)
  {
    var rows: seq<Property> := [];
    cache' := cache;
    fetched := [];
    var i := 0;
    while i < |refs|
      invariant 0 <= i <= |refs|
      invariant Resolved(detail, refs, i, cache, cache', rows, fetched)
    {
      var r := refs[i];
      var t := r.Token();
      if t in cache' {
        HitResolved(detail, refs, i, cache, cache', rows, fetched);
        rows := rows + [FromCache(cache', r)];
      } else {
        var page := Scrape(detail, t);
        if page.Raised? {
          RaisedEnd(detail, refs, i, cache, cache', rows, fetched);
          fetched := fetched + [t];
          result := Raised;
          return;
        }
        FetchResolved(detail, refs, i, cache, cache', rows, fetched);
        fetched := fetched + [t];
        if page.value.Some? {
          var p := page.value.value.(foundInSearches := r.foundInSearches);
          cache' := cache'[t := p];
          rows := rows + [p];
        }
      }
      i := i + 1;
    }
    OkEnd(detail, refs, cache, cache', rows, fetched);
    result := Ok(rows);
  }

  /** What the loop's facts give when element `i` raises. */
  lemma RaisedEnd(detail: DetailFetcher, refs: seq<FrontierRef>, i: nat, cache: map<string, Property>,
                  c: map<string, Property>, rows: seq<Property>, fetched: seq<string>)
    requires i < |refs| && refs[i].Token() !in c && Scrape(detail, refs[i].Token()).Raised?
    requires Resolved(detail, refs, i, cache, c, rows, fetched)
    ensures forall t | t in cache :: t in c && c[t] == cache[t]
    ensures var f := fetched + [refs[i].Token()];
            && (forall t | t in f :: t !in cache && t in Dedup.RefTokens(refs))
            && (forall a, b | 0 <= a < b < |f| && f[a] == f[b] :: Scrape(detail, f[a]) == Ok(None))
            && |f| <= |refs|
    ensures exists j | 0 <= j < |refs| :: refs[j].Token() !in cache && Scrape(detail, refs[j].Token()).Raised?
  {
    var t := refs[i].Token();
    assert CacheKept(cache, c);
    assert FetchLog(detail, refs, i, cache, fetched);
    var f := fetched + [t];
    assert forall x | x in Dedup.RefTokens(refs[..i]) :: x in Dedup.RefTokens(refs) by {
      assert Dedup.RefTokens(refs) == Dedup.RefTokens(refs[..i]) + Dedup.RefTokens(refs[i..]);
    }
    assert Dedup.RefTokens(refs)[i] == t;
    forall a, b | 0 <= a < b < |f| && f[a] == f[b]
      ensures Scrape(detail, f[a]) == Ok(None)
    {
    }
  }

  /** What the loop's facts give once every element is processed. */
  lemma OkEnd(detail: DetailFetcher, refs: seq<FrontierRef>, cache: map<string, Property>,
              c: map<string, Property>, rows: seq<Property>, fetched: seq<string>)
    requires Resolved(detail, refs, |refs|, cache, c, rows, fetched)
    ensures forall t | t in cache :: t in c && c[t] == cache[t]
    ensures CacheAfter(detail, refs, |refs|, cache, c)
    ensures forall t | t in fetched :: t !in cache && t in Dedup.RefTokens(refs)
    ensures forall a, b | 0 <= a < b < |fetched| && fetched[a] == fetched[b] :: Scrape(detail, fetched[a]) == Ok(None)
    ensures |fetched| <= |refs|
    ensures !exists j | 0 <= j < |refs| :: refs[j].Token() !in cache && Scrape(detail, refs[j].Token()).Raised?
    ensures rows == Project(refs, c)
    ensures FreshFrontier(refs, cache) ==> fetched == Dedup.RefTokens(refs)
  {
    assert refs[..|refs|] == refs;
    assert CacheKept(cache, c);
    assert FetchLog(detail, refs, |refs|, cache, fetched);
    assert NoneRaised(detail, refs, |refs|, cache);
  }
}
