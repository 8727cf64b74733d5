/** Deduplication of the merged search results by token (`_deduplicate_listings`). */
module Dedup {
  import opened Listings
  import Seqs

  /** The token of every entry, `""` standing for a missing or empty one. */
  function AllTokens(s: seq<TaggedListing>): (r: seq<string>)
    ensures |r| == |s|
    ensures forall i | 0 <= i < |s| :: r[i] == TokenOf(s[i])
  {
    seq(|s|, i requires 0 <= i < |s| => TokenOf(s[i]))
  }

  /** The truthy tokens of `s` in input order, repetitions kept. */
  function Tokens(s: seq<TaggedListing>): (r: seq<string>)
    ensures |r| <= |s|
  {
    if |s| == 0 then []
    else
      var l := s[|s| - 1];
      Tokens(s[..|s| - 1]) + (if HasToken(l) then [TokenOf(l)] else [])
  }

  /** The `search_config` of every entry carrying token `t`, in input order. */
  function SearchesFor(s: seq<TaggedListing>, t: string): seq<string> {
    if |s| == 0 then []
    else
      var l := s[|s| - 1];
      SearchesFor(s[..|s| - 1], t) + (if TokenOf(l) == t then [l.searchConfig] else [])
  }

  /** Position of the first entry carrying token `t`. */
  function FirstWith(s: seq<TaggedListing>, t: string): nat {
    Seqs.IndexOf(AllTokens(s), t)
  }

  /** The tokens of the frontier, in frontier order. */
  function RefTokens(u: seq<FrontierRef>): (r: seq<string>)
    ensures |r| == |u|
    ensures forall k | 0 <= k < |u| :: r[k] == u[k].Token()
  {
    seq(|u|, k requires 0 <= k < |u| => u[k].Token())
  }

  /** `_deduplicate_listings`. Entries whose token is missing or empty are dropped.
      The first entry with a given token is kept and its `found_in_searches` is
      seeded with its own search; each later entry with that token only appends
      its search to that list. The lookup of `seen_tokens` is a search of the
      frontier built so far. */
  function Deduplicate(s: seq<TaggedListing>): seq<FrontierRef> {
    if |s| == 0 then []
    else
      var u := Deduplicate(s[..|s| - 1]);
      var l := s[|s| - 1];
      if !HasToken(l) then u
      else
        var k := Seqs.IndexOf(RefTokens(u), TokenOf(l));
        if k == |u| then u + [FrontierRef(l, [l.searchConfig])]
        else u[k := u[k].(foundInSearches := u[k].foundInSearches + [l.searchConfig])]
  }

  /** What `Deduplicate` computes, independently of how: the frontier's tokens are
      the input's truthy tokens in first-occurrence order, each element is the
      first input entry carrying its token, and its `found_in_searches` is the
      search of every entry carrying that token, in input order and with
      repetitions. */
  lemma {:induction false} DedupSpec(s: seq<TaggedListing>)
    ensures RefTokens(Deduplicate(s)) == Seqs.Distinct(Tokens(s))
    ensures forall k | 0 <= k < |Deduplicate(s)| ::
              var u := Deduplicate(s);
              FirstWith(s, u[k].Token()) < |s| && u[k].tagged == s[FirstWith(s, u[k].Token())]
    ensures forall k | 0 <= k < |Deduplicate(s)| ::
              Deduplicate(s)[k].foundInSearches == SearchesFor(s, Deduplicate(s)[k].Token())
  {
    if |s| > 0 {
      var s', l := s[..|s| - 1], s[|s| - 1];
      assert s == s' + [l];
      DedupSpec(s');
      var u := Deduplicate(s');
      assert DedupOf(s', u);
      if !HasToken(l) {
        DedupStepSame(s', l, u);
      } else {
        var k := Seqs.IndexOf(RefTokens(u), TokenOf(l));
        if k == |u| {
          DedupStepNew(s', l, u);
        } else {
          DedupStepSeen(s', l, u, k);
        }
      }
      assert DedupOf(s, Deduplicate(s));
    }
  }

  /** `DedupSpec` packed into one predicate. */
  lemma DedupHolds(s: seq<TaggedListing>)
    ensures DedupOf(s, Deduplicate(s))
  {
    DedupSpec(s);
  }

  ghost predicate FrontierTokens(s: seq<TaggedListing>, u: seq<FrontierRef>) {
    RefTokens(u) == Seqs.Distinct(Tokens(s))
  }

  ghost predicate FrontierFirsts(s: seq<TaggedListing>, u: seq<FrontierRef>) {
    forall k | 0 <= k < |u| ::
      FirstWith(s, u[k].Token()) < |s| && u[k].tagged == s[FirstWith(s, u[k].Token())]
  }

  ghost predicate FrontierSearches(s: seq<TaggedListing>, u: seq<FrontierRef>) {
    forall k | 0 <= k < |u| :: u[k].foundInSearches == SearchesFor(s, u[k].Token())
  }

  /** The three ensures of `Deduplicate`, as one predicate over an input and a frontier. */
  ghost predicate DedupOf(s: seq<TaggedListing>, u: seq<FrontierRef>) {
    FrontierTokens(s, u) && FrontierFirsts(s, u) && FrontierSearches(s, u)
  }

  lemma AllTokensSnoc(s: seq<TaggedListing>, l: TaggedListing)
    ensures AllTokens(s + [l]) == AllTokens(s) + [TokenOf(l)]
  {
  }

  lemma TokensSnoc(s: seq<TaggedListing>, l: TaggedListing)
    ensures Tokens(s + [l]) == Tokens(s) + (if HasToken(l) then [TokenOf(l)] else [])
  {
    assert (s + [l])[..|s|] == s;
  }

  lemma SearchesForSnoc(s: seq<TaggedListing>, l: TaggedListing, t: string)
    ensures SearchesFor(s + [l], t) == SearchesFor(s, t) + (if TokenOf(l) == t then [l.searchConfig] else [])
  {
    assert (s + [l])[..|s|] == s;
  }

  /** A truthy token is among `Tokens` exactly when some entry carries it. */
  lemma {:induction false} TokensMember(s: seq<TaggedListing>, t: string)
    requires t != ""
    ensures t in Tokens(s) <==> t in AllTokens(s)
  {
    if |s| > 0 {
      var s', l := s[..|s| - 1], s[|s| - 1];
      assert s == s' + [l];
      TokensMember(s', t);
      TokensSnoc(s', l);
      AllTokensSnoc(s', l);
    }
  }

  lemma FirstWithSnoc(s: seq<TaggedListing>, l: TaggedListing, t: string)
    requires t in AllTokens(s)
    ensures FirstWith(s + [l], t) == FirstWith(s, t)
  {
    AllTokensSnoc(s, l);
    Seqs.IndexOfPrefix(AllTokens(s), [TokenOf(l)], t);
  }

  /** Frontier tokens all occur in the input. */
  lemma RefTokenInInput(s: seq<TaggedListing>, u: seq<FrontierRef>, k: nat)
    requires FrontierTokens(s, u) && k < |u|
    ensures u[k].Token() != "" && u[k].Token() in AllTokens(s)
  {
    var t := u[k].Token();
    assert RefTokens(u)[k] == t;
    assert t in Tokens(s);
    TokensNonEmpty(s);
    TokensMember(s, t);
  }

  lemma {:induction false} TokensNonEmpty(s: seq<TaggedListing>)
    ensures "" !in Tokens(s)
  {
    if |s| > 0 {
      TokensSnoc(s[..|s| - 1], s[|s| - 1]);
      assert s == s[..|s| - 1] + [s[|s| - 1]];
      TokensNonEmpty(s[..|s| - 1]);
    }
  }

  lemma FirstsSnoc(s: seq<TaggedListing>, l: TaggedListing, u: seq<FrontierRef>)
    requires FrontierTokens(s, u) && FrontierFirsts(s, u)
    ensures FrontierFirsts(s + [l], u)
  {
    forall k | 0 <= k < |u|
      ensures FirstWith(s + [l], u[k].Token()) == FirstWith(s, u[k].Token())
    {
      RefTokenInInput(s, u, k);
      FirstWithSnoc(s, l, u[k].Token());
    }
  }

  lemma DedupStepSame(s: seq<TaggedListing>, l: TaggedListing, u: seq<FrontierRef>)
    requires DedupOf(s, u)
    requires !HasToken(l)
    ensures DedupOf(s + [l], u)
  {
    assert FrontierTokens(s + [l], u) by {
      TokensSnoc(s, l);
      assert Tokens(s + [l]) == Tokens(s);
    }
    assert FrontierFirsts(s + [l], u) by {
      FirstsSnoc(s, l, u);
    }
    assert FrontierSearches(s + [l], u) by {
      forall k | 0 <= k < |u|
        ensures u[k].foundInSearches == SearchesFor(s + [l], u[k].Token())
      {
        RefTokenInInput(s, u, k);
        SearchesForSnoc(s, l, u[k].Token());
      }
    }
  }

  lemma DedupStepNew(s: seq<TaggedListing>, l: TaggedListing, u: seq<FrontierRef>)
    requires DedupOf(s, u)
    requires HasToken(l) && TokenOf(l) !in RefTokens(u)
    ensures DedupOf(s + [l], u + [FrontierRef(l, [l.searchConfig])])
  {
    assert TokenOf(l) !in AllTokens(s) by {
      assert TokenOf(l) !in Tokens(s);
      TokensMember(s, TokenOf(l));
    }
    NewTokens(s, l, u);
    NewFirsts(s, l, u);
    NewSearches(s, l, u);
  }

  lemma NewTokens(s: seq<TaggedListing>, l: TaggedListing, u: seq<FrontierRef>)
    requires FrontierTokens(s, u)
    requires HasToken(l) && TokenOf(l) !in RefTokens(u)
    ensures FrontierTokens(s + [l], u + [FrontierRef(l, [l.searchConfig])])
  {
    var u1 := u + [FrontierRef(l, [l.searchConfig])];
    TokensSnoc(s, l);
    Seqs.DistinctSnoc(Tokens(s), TokenOf(l));
    assert RefTokens(u1) == RefTokens(u) + [TokenOf(l)];
  }

  lemma NewFirsts(s: seq<TaggedListing>, l: TaggedListing, u: seq<FrontierRef>)
    requires FrontierTokens(s, u) && FrontierFirsts(s, u)
    requires TokenOf(l) !in AllTokens(s)
    ensures FrontierFirsts(s + [l], u + [FrontierRef(l, [l.searchConfig])])
  {
    var s1, t := s + [l], TokenOf(l);
    var u1 := u + [FrontierRef(l, [l.searchConfig])];
    FirstsSnoc(s, l, u);
    assert FirstWith(s1, t) == |s| by {
      AllTokensSnoc(s, l);
      Seqs.IndexOfAppendAbsent(AllTokens(s), t);
    }
    forall k | 0 <= k < |u1|
      ensures FirstWith(s1, u1[k].Token()) < |s1| && u1[k].tagged == s1[FirstWith(s1, u1[k].Token())]
    {
      if k < |u| {
        assert u1[k] == u[k];
      } else {
        assert u1[k].tagged == l;
      }
    }
  }

  lemma NewSearches(s: seq<TaggedListing>, l: TaggedListing, u: seq<FrontierRef>)
    requires FrontierTokens(s, u) && FrontierSearches(s, u)
    requires TokenOf(l) !in AllTokens(s)
    ensures FrontierSearches(s + [l], u + [FrontierRef(l, [l.searchConfig])])
  {
    var s1, t := s + [l], TokenOf(l);
    var u1 := u + [FrontierRef(l, [l.searchConfig])];
    assert SearchesFor(s1, t) == [l.searchConfig] by {
      SearchesForAbsent(s, t);
      SearchesForSnoc(s, l, t);
    }
    forall k | 0 <= k < |u1|
      ensures u1[k].foundInSearches == SearchesFor(s1, u1[k].Token())
    {
      if k < |u| {
        assert u1[k] == u[k];
        RefTokenInInput(s, u, k);
        SearchesForSnoc(s, l, u[k].Token());
      }
    }
  }

  lemma DedupStepSeen(s: seq<TaggedListing>, l: TaggedListing, u: seq<FrontierRef>, k: nat)
    requires DedupOf(s, u)
    requires HasToken(l) && k < |u| && u[k].Token() == TokenOf(l)
    ensures DedupOf(s + [l], u[k := u[k].(foundInSearches := u[k].foundInSearches + [l.searchConfig])])
  {
    var s1, t := s + [l], TokenOf(l);
    var u1 := u[k := u[k].(foundInSearches := u[k].foundInSearches + [l.searchConfig])];
    assert RefTokens(u1) == RefTokens(u);
    assert FrontierTokens(s1, u1) by {
      TokensSnoc(s, l);
      assert RefTokens(u)[k] == t;
      Seqs.DistinctSnoc(Tokens(s), t);
    }
    assert FrontierFirsts(s1, u1) by {
      FirstsSnoc(s, l, u);
    }
    assert FrontierSearches(s1, u1) by {
      forall j | 0 <= j < |u1|
        ensures u1[j].foundInSearches == SearchesFor(s1, u1[j].Token())
      {
        SearchesForSnoc(s, l, u[j].Token());
        if j != k {
          assert RefTokens(u)[j] != RefTokens(u)[k];
        }
      }
    }
  }

  lemma {:induction false} SearchesForAbsent(s: seq<TaggedListing>, t: string)
    requires t !in AllTokens(s)
    ensures SearchesFor(s, t) == []
  {
    if |s| > 0 {
      assert s == s[..|s| - 1] + [s[|s| - 1]];
      AllTokensSnoc(s[..|s| - 1], s[|s| - 1]);
      SearchesForAbsent(s[..|s| - 1], t);
    }
  }

  /** Every truthy token of the input is represented in the frontier, exactly once;
      entries without a truthy token leave no trace. */
  lemma DedupCovers(s: seq<TaggedListing>)
    ensures Seqs.NoDups(RefTokens(Deduplicate(s)))
    ensures forall i | 0 <= i < |s| && HasToken(s[i]) :: TokenOf(s[i]) in RefTokens(Deduplicate(s))
    ensures forall k | 0 <= k < |Deduplicate(s)| :: Deduplicate(s)[k].Token() != ""
  {
    var u := Deduplicate(s);
    DedupHolds(s);
    forall i | 0 <= i < |s| && HasToken(s[i])
      ensures TokenOf(s[i]) in RefTokens(u)
    {
      assert AllTokens(s)[i] == TokenOf(s[i]);
      TokensMember(s, TokenOf(s[i]));
    }
    forall k | 0 <= k < |u|
      ensures u[k].Token() != ""
    {
      RefTokenInInput(s, u, k);
    }
  }

  /** The frontier lists tokens in the order of their first occurrence in the input. */
  lemma {:induction false} DedupOrder(s: seq<TaggedListing>)
    ensures forall k, k' | 0 <= k < k' < |Deduplicate(s)| ::
              FirstWith(s, Deduplicate(s)[k].Token()) < FirstWith(s, Deduplicate(s)[k'].Token())
  {
    if |s| > 0 {
      DedupOrder(s[..|s| - 1]);
      OrderStep(s);
    }
    assert FirstOrdered(s, Deduplicate(s));
  }

  /** The position of the first entry carrying each frontier token, in frontier order. */
  function Positions(s: seq<TaggedListing>, u: seq<FrontierRef>): (p: seq<nat>)
    ensures |p| == |u|
    ensures forall k | 0 <= k < |u| :: p[k] == FirstWith(s, u[k].Token())
  {
    seq(|u|, k requires 0 <= k < |u| => FirstWith(s, u[k].Token()))
  }

  predicate Increasing(p: seq<nat>) {
    forall k, k' | 0 <= k < k' < |p| :: p[k] < p[k']
  }

  /** The tokens of `u` appear in `s` in frontier order. */
  ghost predicate FirstOrdered(s: seq<TaggedListing>, u: seq<FrontierRef>) {
    Increasing(Positions(s, u))
  }

  lemma IncreasingSnoc(p: seq<nat>, n: nat)
    requires Increasing(p) && forall k | 0 <= k < |p| :: p[k] < n
    ensures Increasing(p + [n])
  {
  }

  /** One more entry keeps the positions of the frontier so far and appends at
      most the position of that entry, which lies past all of them. */
  lemma PositionsStep(s: seq<TaggedListing>)
    requires |s| > 0
    ensures var p', p := Positions(s[..|s| - 1], Deduplicate(s[..|s| - 1])), Positions(s, Deduplicate(s));
            && (forall k | 0 <= k < |p'| :: p'[k] < |s| - 1)
            && (p == p' || p == p' + [|s| - 1])
  {
    var s' := s[..|s| - 1];
    var u', u := Deduplicate(s'), Deduplicate(s);
    var p', p := Positions(s', u'), Positions(s, u);
    DedupGrows(s);
    forall k | 0 <= k < |u'|
      ensures p[k] == p'[k] && p'[k] < |s| - 1
    {
      OrderKept(s, k);
      DedupHolds(s');
      assert FrontierFirsts(s', u');
    }
    if |u| > |u'| {
      OrderNew(s);
      assert p == p' + [|s| - 1];
    } else {
      assert p == p';
    }
  }

  lemma {:induction false} OrderStep(s: seq<TaggedListing>)
    requires |s| > 0 && FirstOrdered(s[..|s| - 1], Deduplicate(s[..|s| - 1]))
    ensures FirstOrdered(s, Deduplicate(s))
  {
    PositionsStep(s);
    var p' := Positions(s[..|s| - 1], Deduplicate(s[..|s| - 1]));
    IncreasingSnoc(p', |s| - 1);
  }

  /** One more entry keeps every frontier token in place and appends at most one. */
  lemma DedupGrows(s: seq<TaggedListing>)
    requires |s| > 0
    ensures var u', u := Deduplicate(s[..|s| - 1]), Deduplicate(s);
            && |u'| <= |u| <= |u'| + 1
            && forall k | 0 <= k < |u'| :: u[k].Token() == u'[k].Token()
  {
  }

  /** A token already in the frontier keeps its first position. */
  lemma OrderKept(s: seq<TaggedListing>, k: nat)
    requires |s| > 0 && k < |Deduplicate(s[..|s| - 1])|
    ensures var u', u := Deduplicate(s[..|s| - 1]), Deduplicate(s);
            && k < |u| && u[k].Token() == u'[k].Token()
            && FirstWith(s, u[k].Token()) == FirstWith(s[..|s| - 1], u'[k].Token())
  {
    var s', l := s[..|s| - 1], s[|s| - 1];
    assert s == s' + [l];
    var u' := Deduplicate(s');
    DedupGrows(s);
    DedupHolds(s');
    RefTokenInInput(s', u', k);
    FirstWithSnoc(s', l, u'[k].Token());
  }

  /** A token that joins the frontier first occurs at the last entry. */
  lemma OrderNew(s: seq<TaggedListing>)
    requires |s| > 0 && |Deduplicate(s[..|s| - 1])| < |Deduplicate(s)|
    ensures var u', u := Deduplicate(s[..|s| - 1]), Deduplicate(s);
            |u'| < |u| && FirstWith(s, u[|u'|].Token()) == |s| - 1
  {
    var s', l := s[..|s| - 1], s[|s| - 1];
    assert s == s' + [l];
    var u' := Deduplicate(s');
    DedupHolds(s');
    assert Deduplicate(s)[|u'|].Token() == TokenOf(l);
    assert TokenOf(l) !in AllTokens(s') by {
      assert TokenOf(l) !in RefTokens(u');
      assert TokenOf(l) !in Tokens(s');
      TokensMember(s', TokenOf(l));
    }
    Seqs.IndexOfAppendAbsent(AllTokens(s'), TokenOf(l));
    AllTokensSnoc(s', l);
  }

  /** Sum of the lengths of all `found_in_searches` lists of a frontier. */
  function FoundTotal(u: seq<FrontierRef>): nat {
    if |u| == 0 then 0 else FoundTotal(u[..|u| - 1]) + |u[|u| - 1].foundInSearches|
  }

  lemma {:induction false} FoundTotalUpdate(u: seq<FrontierRef>, k: nat, r: FrontierRef)
    requires k < |u|
    ensures FoundTotal(u[k := r]) + |u[k].foundInSearches| == FoundTotal(u) + |r.foundInSearches|
  {
    var n := |u| - 1;
    if k < n {
      assert u[k := r][..n] == u[..n][k := r];
      FoundTotalUpdate(u[..n], k, r);
    } else {
      assert u[k := r][..n] == u[..n];
    }
  }

  /** Every entry with a truthy token is accounted for exactly once: the
      `found_in_searches` lists together have one element per such entry. Hence
      "duplicates avoided" is the number of token-less entries plus, per token,
      its extra occurrences, and the frontier is never longer than the input. */
  lemma {:induction false} DedupAccounting(s: seq<TaggedListing>)
    ensures FoundTotal(Deduplicate(s)) == |Tokens(s)|
    ensures |Deduplicate(s)| <= |Tokens(s)| <= |s|
    ensures (forall i | 0 <= i < |s| :: HasToken(s[i])) ==> |Tokens(s)| == |s|
  {
    if |s| > 0 {
      var s' := s[..|s| - 1];
      DedupAccounting(s');
      AccountStep(s);
      assert (forall i | 0 <= i < |s| :: HasToken(s[i])) ==> (forall i | 0 <= i < |s'| :: HasToken(s'[i]));
    }
  }

  /** One more entry adds one search to the frontier exactly when it has a truthy token. */
  lemma AccountStep(s: seq<TaggedListing>)
    requires |s| > 0
    ensures var u', u := Deduplicate(s[..|s| - 1]), Deduplicate(s);
            var d := if HasToken(s[|s| - 1]) then 1 else 0;
            && FoundTotal(u) == FoundTotal(u') + d
            && |u| <= |u'| + d
            && |Tokens(s)| == |Tokens(s[..|s| - 1])| + d
  {
    var s', l := s[..|s| - 1], s[|s| - 1];
    assert s == s' + [l];
    TokensSnoc(s', l);
    var u' := Deduplicate(s');
    if HasToken(l) {
      var k := Seqs.IndexOf(RefTokens(u'), TokenOf(l));
      if k == |u'| {
        var u := u' + [FrontierRef(l, [l.searchConfig])];
        assert u[..|u| - 1] == u';
      } else {
        FoundTotalUpdate(u', k, u'[k].(foundInSearches := u'[k].foundInSearches + [l.searchConfig]));
      }
    }
  }

  /** The tagged entries of a frontier, in frontier order. */
  function Firsts(u: seq<FrontierRef>): (r: seq<TaggedListing>)
    ensures |r| == |u|
    ensures forall k | 0 <= k < |u| :: r[k] == u[k].tagged
  {
    seq(|u|, k requires 0 <= k < |u| => u[k].tagged)
  }

  /** On entries with truthy, pairwise distinct tokens nothing merges: each entry
      becomes its own frontier element, seeded with its own search only. */
  lemma {:induction false} DedupOfDistinct(s: seq<TaggedListing>)
    requires forall i | 0 <= i < |s| :: HasToken(s[i])
    requires Seqs.NoDups(AllTokens(s))
    ensures Firsts(Deduplicate(s)) == s
    ensures forall k | 0 <= k < |s| :: Deduplicate(s)[k].foundInSearches == [s[k].searchConfig]
  {
    if |s| > 0 {
      var s' := s[..|s| - 1];
      assert AllTokens(s') == AllTokens(s)[..|s| - 1];
      DedupOfDistinct(s');
      SeparateStep(s);
    }
  }

  /** Each entry becomes its own frontier element, seeded with its own search. */
  ghost predicate Separate(s: seq<TaggedListing>, u: seq<FrontierRef>) {
    |u| == |s| && forall k | 0 <= k < |s| :: u[k].tagged == s[k] && u[k].foundInSearches == [s[k].searchConfig]
  }

  lemma {:induction false} SeparateStep(s: seq<TaggedListing>)
    requires |s| > 0 && HasToken(s[|s| - 1]) && Seqs.NoDups(AllTokens(s))
    requires Firsts(Deduplicate(s[..|s| - 1])) == s[..|s| - 1]
    requires forall k | 0 <= k < |s| - 1 :: Deduplicate(s[..|s| - 1])[k].foundInSearches == [s[k].searchConfig]
    ensures Firsts(Deduplicate(s)) == s
    ensures forall k | 0 <= k < |s| :: Deduplicate(s)[k].foundInSearches == [s[k].searchConfig]
  {
    var s', l := s[..|s| - 1], s[|s| - 1];
    var u' := Deduplicate(s');
    assert Separate(s', u');
    assert TokenOf(l) !in RefTokens(u') by {
      assert RefTokens(u') == AllTokens(s)[..|s| - 1];
      assert AllTokens(s)[|s| - 1] == TokenOf(l);
    }
    DedupAppends(s);
    SeparateSnoc(s', u', l);
    assert s' + [l] == s;
    assert Firsts(Deduplicate(s)) == s;
  }

  /** An entry whose token is new to the frontier becomes its last element. */
  lemma DedupAppends(s: seq<TaggedListing>)
    requires |s| > 0 && HasToken(s[|s| - 1])
    requires TokenOf(s[|s| - 1]) !in RefTokens(Deduplicate(s[..|s| - 1]))
    ensures Deduplicate(s) == Deduplicate(s[..|s| - 1]) + [FrontierRef(s[|s| - 1], [s[|s| - 1].searchConfig])]
  {
  }

  lemma SeparateSnoc(s: seq<TaggedListing>, u: seq<FrontierRef>, l: TaggedListing)
    requires Separate(s, u)
    ensures Separate(s + [l], u + [FrontierRef(l, [l.searchConfig])])
  {
    var s1, u1 := s + [l], u + [FrontierRef(l, [l.searchConfig])];
    forall k | 0 <= k < |s1|
      ensures u1[k].tagged == s1[k] && u1[k].foundInSearches == [s1[k].searchConfig]
    {
      if k < |s| {
        assert u1[k] == u[k] && s1[k] == s[k];
      }
    }
  }

  /** Running the deduplication again on its own output keeps the same entries in
      the same order, but each `found_in_searches` restarts from the entry's own
      search: the merge history is not idempotent. */
  lemma DedupTwice(s: seq<TaggedListing>)
    ensures Firsts(Deduplicate(Firsts(Deduplicate(s)))) == Firsts(Deduplicate(s))
    ensures forall k | 0 <= k < |Deduplicate(s)| ::
              Deduplicate(Firsts(Deduplicate(s)))[k].foundInSearches == [Deduplicate(s)[k].tagged.searchConfig]
  {
    var u := Deduplicate(s);
    var w := Firsts(u);
    DedupCovers(s);
    assert AllTokens(w) == RefTokens(u);
    DedupOfDistinct(w);
  }
}
