/** Worked examples of the pipeline on small inputs. */
module Scenarios {
  import opened Wrappers
  import opened Listings
  import Seqs
  import Dedup

  function Entry(token: string, search: string): TaggedListing {
    TaggedListing(RawListing(Some(token), map[]), search)
  }

  /** One more entry with a truthy token, as `_deduplicate_listings` handles it. */
  lemma DedupSnoc(s: seq<TaggedListing>, l: TaggedListing)
    requires HasToken(l)
    ensures var u := Dedup.Deduplicate(s);
            var k := Seqs.IndexOf(Dedup.RefTokens(u), TokenOf(l));
            Dedup.Deduplicate(s + [l]) ==
              if k == |u| then u + [FrontierRef(l, [l.searchConfig])]
              else u[k := u[k].(foundInSearches := u[k].foundInSearches + [l.searchConfig])]
  {
    assert (s + [l])[..|s|] == s;
  }

  /** An entry whose token is not in the frontier yet is appended to it. */
  lemma SnocNew(s: seq<TaggedListing>, l: TaggedListing)
    requires HasToken(l) && TokenOf(l) !in Dedup.RefTokens(Dedup.Deduplicate(s))
    ensures Dedup.Deduplicate(s + [l]) == Dedup.Deduplicate(s) + [FrontierRef(l, [l.searchConfig])]
  {
    DedupSnoc(s, l);
  }

  /** An entry whose token is at position `k` of the frontier only extends its searches. */
  lemma SnocSeen(s: seq<TaggedListing>, l: TaggedListing, k: nat)
    requires HasToken(l)
    requires var u := Dedup.Deduplicate(s); k < |u| && u[k].Token() == TokenOf(l) && TokenOf(l) !in Dedup.RefTokens(u)[..k]
    ensures var u := Dedup.Deduplicate(s);
            Dedup.Deduplicate(s + [l]) == u[k := u[k].(foundInSearches := u[k].foundInSearches + [l.searchConfig])]
  {
    var u := Dedup.Deduplicate(s);
    DedupSnoc(s, l);
    assert Dedup.RefTokens(u)[k] == TokenOf(l);
    assert Seqs.IndexOf(Dedup.RefTokens(u), TokenOf(l)) == k;
  }

  /** Search `x` finds tokens `a` and `b`, search `y` finds `b` and `c`: the
      frontier holds `a`, `b`, `c` once each, and `b` records both searches. */
  lemma OverlappingSearches(a: string, b: string, c: string, x: string, y: string)
    requires a != "" && b != "" && c != "" && a != b && b != c && a != c
    ensures var u := Dedup.Deduplicate([Entry(a, x), Entry(b, x), Entry(b, y), Entry(c, y)]);
            && Dedup.RefTokens(u) == [a, b, c]
            && u[0].foundInSearches == [x] && u[1].foundInSearches == [x, y] && u[2].foundInSearches == [y]
  {
    var e1, e2, e3, e4 := Entry(a, x), Entry(b, x), Entry(b, y), Entry(c, y);
    var u1 := [FrontierRef(e1, [x])];
    var u2 := u1 + [FrontierRef(e2, [x])];
    var u3 := [FrontierRef(e1, [x]), FrontierRef(e2, [x] + [y])];
    assert Dedup.Deduplicate([e1]) == u1 by {
      SnocNew([], e1);
      assert [] + [e1] == [e1];
    }
    assert Dedup.Deduplicate([e1, e2]) == u2 by {
      assert Dedup.RefTokens(u1) == [a];
      SnocNew([e1], e2);
      assert [e1] + [e2] == [e1, e2];
    }
    assert Dedup.Deduplicate([e1, e2, e3]) == u3 by {
      assert Dedup.RefTokens(u2) == [a, b];
      assert Dedup.RefTokens(u2)[..1] == [a];
      SnocSeen([e1, e2], e3, 1);
      assert [e1, e2] + [e3] == [e1, e2, e3];
    }
    assert Dedup.Deduplicate([e1, e2, e3, e4]) == u3 + [FrontierRef(e4, [y])] by {
      assert Dedup.RefTokens(u3) == [a, b];
      SnocNew([e1, e2, e3], e4);
      assert [e1, e2, e3] + [e4] == [e1, e2, e3, e4];
    }
    assert [x] + [y] == [x, y];
  }
}
