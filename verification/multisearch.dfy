/** The first pass of `run_multi_search`: every search configuration is crawled
    in order, its entries are tagged with the configuration's name and appended
    to one merged list; a configuration whose crawl raises is skipped. */
module MultiSearch {
  import opened Wrappers
  import opened Listings
  import opened Pagination

  /** The entries `ls` with `search_config` set to `name`. */
  function Tag(ls: seq<RawListing>, name: string): seq<TaggedListing> {
    seq(|ls|, i requires 0 <= i < |ls| => TaggedListing(ls[i], name))
  }

  /** What one configuration adds to the merged list. */
  function Contribution(fetch: PageFetcher, c: SearchConfig): seq<TaggedListing> {
    match Crawl(fetch, c.params)
    case Ok(ls) => Tag(ls, c.name)
    case Raised => []
  }

  /** The merged list after crawling `configs` in order. */
  function Collected(fetch: PageFetcher, configs: seq<SearchConfig>): seq<TaggedListing> {
    if |configs| == 0 then []
    else Collected(fetch, configs[..|configs| - 1]) + Contribution(fetch, configs[|configs| - 1])
  }

  /** The names of the configurations, in order. */
  function Names(configs: seq<SearchConfig>): seq<string> {
    seq(|configs|, i requires 0 <= i < |configs| => configs[i].name)
  }

  /** The first-pass loop of `run_multi_search`. The merged list is the
      contributions of the configurations in configuration order; each entry a
      configuration returned appears once, tagged with that configuration's
      name; a configuration whose crawl raised contributes nothing. */
  method CollectListings(fetch: PageFetcher, configs: seq<SearchConfig>)
    returns (all: seq<TaggedListing>)
    ensures all == Collected(fetch, configs)
    ensures forall i | 0 <= i < |all| :: all[i].searchConfig in Names(configs)
  {
    all := [];
    var i := 0;
    while i < |configs|
      invariant 0 <= i <= |configs|
      invariant all == Collected(fetch, configs[..i])
      invariant forall j | 0 <= j < |all| :: all[j].searchConfig in Names(configs)
    {
      var c := configs[i];
      var listings, _ := FetchListings(fetch, c.params);
      assert configs[..i + 1][..i] == configs[..i];
      if listings.Ok? {
        assert Names(configs)[i] == c.name;
        all := all + Tag(listings.value, c.name);
      }
      i := i + 1;
    }
    assert configs[..i] == configs;
  }

  /** Configurations are independent: crawling `a` then `b` merges exactly what
      crawling each alone would. */
  lemma {:induction false} CollectedAppend(fetch: PageFetcher, a: seq<SearchConfig>, b: seq<SearchConfig>)
    ensures Collected(fetch, a + b) == Collected(fetch, a) + Collected(fetch, b)
  {
    if |b| > 0 {
      var b' := b[..|b| - 1];
      assert (a + b)[..|a + b| - 1] == a + b';
      CollectedAppend(fetch, a, b');
    } else {
      assert a + b == a;
    }
  }

  /** A configuration whose crawl raises is skipped: the merged list is that of
      the configurations before it followed by that of the ones after it. */
  lemma FailingConfigSkipped(fetch: PageFetcher, configs: seq<SearchConfig>, i: nat)
    requires i < |configs|
    requires Crawl(fetch, configs[i].params).Raised?
    ensures Collected(fetch, configs) == Collected(fetch, configs[..i]) + Collected(fetch, configs[i + 1..])
  {
    var pre, post := configs[..i], configs[i + 1..];
    assert configs == pre + [configs[i]] + post;
    CollectedAppend(fetch, pre + [configs[i]], post);
    CollectedAppend(fetch, pre, [configs[i]]);
    assert [configs[i]][..0] == [];
    assert Collected(fetch, [configs[i]]) == [];
    assert Collected(fetch, pre + [configs[i]]) == Collected(fetch, pre);
  }

  /** A configuration whose crawl succeeds contributes all of its entries, in
      crawl order, each tagged with its name. */
  lemma SucceedingConfigTagged(fetch: PageFetcher, configs: seq<SearchConfig>, i: nat)
    requires i < |configs|
    requires Crawl(fetch, configs[i].params).Ok?
    ensures var ls := Crawl(fetch, configs[i].params).value;
            var before := |Collected(fetch, configs[..i])|;
            && before + |ls| <= |Collected(fetch, configs)|
            && forall j | 0 <= j < |ls| ::
                 Collected(fetch, configs)[before + j] == TaggedListing(ls[j], configs[i].name)
  {
    assert configs == configs[..i] + [configs[i]] + configs[i + 1..];
    CollectedAppend(fetch, configs[..i] + [configs[i]], configs[i + 1..]);
    CollectedAppend(fetch, configs[..i], [configs[i]]);
    assert Collected(fetch, [configs[i]]) == Collected(fetch, []) + Contribution(fetch, configs[i]);
  }
}
