/** The two computations behind `print_search_summary_v2`: listings per search and
    the overlap messages of `_analyze_search_overlaps`. Printing is left out. */
module Summary {
  import opened Listings
  import Seqs

  /** The `search_config` of every collected listing, in collection order. */
  function Configs(all: seq<TaggedListing>): (r: seq<string>)
    ensures |r| == |all|
    ensures forall i | 0 <= i < |all| :: r[i] == all[i].searchConfig
  {
    seq(|all|, i requires 0 <= i < |all| => all[i].searchConfig)
  }

  /** `names` and `counts` are the dictionary built from the names `s`: its keys
      in first-occurrence order, and how often each occurs. */
  ghost predicate Tallied(s: seq<string>, names: seq<string>, counts: map<string, nat>) {
    && names == Seqs.Distinct(s)
    && (forall n :: n in counts <==> n in s)
    && (forall n | n in counts :: counts[n] == Seqs.Count(s, n))
  }

  /** `search_counts[config] = search_counts.get(config, 0) + 1`, with the key order. */
  function Bump(names: seq<string>, counts: map<string, nat>, c: string): (r: (seq<string>, map<string, nat>)) {
    if c in counts then (names, counts[c := counts[c] + 1]) else (names + [c], counts[c := 1])
  }

  lemma BumpTallied(s: seq<string>, names: seq<string>, counts: map<string, nat>, c: string)
    requires Tallied(s, names, counts)
    ensures Tallied(s + [c], Bump(names, counts, c).0, Bump(names, counts, c).1)
  {
    BumpNames(s, names, counts, c);
    BumpKeys(s, counts, c);
    BumpCounts(s, counts, c);
  }

  lemma BumpNames(s: seq<string>, names: seq<string>, counts: map<string, nat>, c: string)
    requires names == Seqs.Distinct(s) && forall n :: n in counts <==> n in s
    ensures Bump(names, counts, c).0 == Seqs.Distinct(s + [c])
  {
    Seqs.DistinctSnoc(s, c);
  }

  lemma BumpKeys(s: seq<string>, counts: map<string, nat>, c: string)
    requires forall n :: n in counts <==> n in s
    ensures forall n :: n in Bump([], counts, c).1 <==> n in s + [c]
  {
    assert forall n :: n in s + [c] <==> n in s || n == c;
  }

  lemma BumpCounts(s: seq<string>, counts: map<string, nat>, c: string)
    requires forall n :: n in counts <==> n in s
    requires forall n | n in counts :: counts[n] == Seqs.Count(s, n)
    ensures forall n | n in Bump([], counts, c).1 :: Bump([], counts, c).1[n] == Seqs.Count(s + [c], n)
  {
    var counts' := Bump([], counts, c).1;
    forall n | n in counts'
      ensures counts'[n] == Seqs.Count(s + [c], n)
    {
      Seqs.CountSnoc(s, c);
      if n != c {
        assert counts'[n] == counts[n];
      } else if c !in counts {
        assert Seqs.Count(s, c) == 0;
      }
    }
  }

  /** The `search_counts` loop: one dictionary entry per search name, in the order
      the names first occur, holding how many listings that search contributed. */
  method SearchCounts(all: seq<TaggedListing>) returns (names: seq<string>, counts: map<string, nat>)
    ensures names == Seqs.Distinct(Configs(all))
    ensures forall n :: n in counts <==> n in Configs(all)
    ensures forall n | n in counts :: counts[n] == Seqs.Count(Configs(all), n)
  {
    names, counts := [], map[];
    var i := 0;
    while i < |all|
      invariant 0 <= i <= |all|
      invariant Tallied(Configs(all[..i]), names, counts)
    {
      TallyStep(all, i, names, counts);
      var b := Bump(names, counts, all[i].searchConfig);
      names, counts := b.0, b.1;
      i := i + 1;
    }
    assert all[..i] == all;
  }

  lemma TallyStep(all: seq<TaggedListing>, i: nat, names: seq<string>, counts: map<string, nat>)
    requires i < |all| && Tallied(Configs(all[..i]), names, counts)
    ensures var b := Bump(names, counts, all[i].searchConfig);
            Tallied(Configs(all[..i + 1]), b.0, b.1)
  {
    assert Configs(all[..i + 1]) == Configs(all[..i]) + [all[i].searchConfig];
    BumpTallied(Configs(all[..i]), names, counts, all[i].searchConfig);
  }

  /** The sum of the counts `s` gives to the names in `names`. */
  function Tally(names: seq<string>, s: seq<string>): nat {
    if |names| == 0 then 0
    else Tally(names[..|names| - 1], s) + Seqs.Count(s, names[|names| - 1])
  }

  lemma {:induction false} TallyBump(names: seq<string>, s: seq<string>, c: string)
    requires Seqs.NoDups(names)
    ensures Tally(names, s + [c]) == Tally(names, s) + (if c in names then 1 else 0)
  {
    Seqs.CountSnoc(s, c);
    if |names| > 0 {
      var names' := names[..|names| - 1];
      assert names == names' + [names[|names| - 1]];
      TallyBump(names', s, c);
    }
  }

  lemma {:induction false} TallyAppend(names: seq<string>, n: string, s: seq<string>)
    ensures Tally(names + [n], s) == Tally(names, s) + Seqs.Count(s, n)
  {
    assert (names + [n])[..|names|] == names;
  }

  /** The counts add up to the number of listings: every listing is counted
      exactly once, under its own search. */
  lemma {:induction false} CountsCoverAll(s: seq<string>)
    ensures Tally(Seqs.Distinct(s), s) == |s|
  {
    if |s| > 0 {
      var s', c := s[..|s| - 1], s[|s| - 1];
      assert s == s' + [c];
      CountsCoverAll(s');
      Seqs.DistinctSnoc(s', c);
      var d := Seqs.Distinct(s');
      TallyBump(d, s', c);
      if c !in s' {
        assert c !in d;
        TallyAppend(d, c, s);
        Seqs.CountSnoc(s', c);
        assert Seqs.Count(s', c) == 0;
      } else {
        assert c in d by {
          var j :| 0 <= j < |s'| && s'[j] == c;
        }
      }
    }
  }

  /** `', '.join(xs)`. */
  function Join(xs: seq<string>, sep: string): (r: string)
    ensures |xs| == 1 ==> r == xs[0]
  {
    if |xs| == 0 then ""
    else if |xs| == 1 then xs[0]
    else Join(xs[..|xs| - 1], sep) + sep + xs[|xs| - 1]
  }

  /** Total length of the strings in `xs`. */
  function TotalLength(xs: seq<string>): nat {
    if |xs| == 0 then 0 else TotalLength(xs[..|xs| - 1]) + |xs[|xs| - 1]|
  }

  /** The joined text holds every part and one separator between neighbours. */
  lemma {:induction false} JoinLength(xs: seq<string>, sep: string)
    requires |xs| > 0
    ensures |Join(xs, sep)| == TotalLength(xs) + (|xs| - 1) * |sep|
  {
    if |xs| > 1 {
      JoinLength(xs[..|xs| - 1], sep);
    } else {
      assert xs[..0] == [];
    }
  }

  /** The line reported for a row found by several searches. */
  function OverlapMessage(p: Property): string {
    "Property " + p.listingId + " found in: " + Join(p.foundInSearches, ", ")
  }

  /** A row is reported when more than one search found it. */
  predicate Overlapping(p: Property) {
    |p.foundInSearches| > 1
  }

  /** Every overlap message, in row order, before the cut. */
  function AllOverlaps(rows: seq<Property>): (r: seq<string>)
    ensures |r| <= |rows|
  {
    if |rows| == 0 then []
    else
      var p := rows[|rows| - 1];
      AllOverlaps(rows[..|rows| - 1]) + (if Overlapping(p) then [OverlapMessage(p)] else [])
  }

  /** The number of rows found by several searches. */
  function OverlapCount(rows: seq<Property>): nat {
    if |rows| == 0 then 0
    else OverlapCount(rows[..|rows| - 1]) + (if Overlapping(rows[|rows| - 1]) then 1 else 0)
  }

  /** At most this many overlap lines are returned. */
  const MaxOverlaps := 10

  /** `_analyze_search_overlaps`: the first ten overlap messages. */
  function AnalyzeSearchOverlaps(rows: seq<Property>): (r: seq<string>)
    ensures |r| <= MaxOverlaps && |r| <= |AllOverlaps(rows)|
    ensures r == AllOverlaps(rows)[..|r|]
  {
    var all := AllOverlaps(rows);
    if |all| <= MaxOverlaps then all else all[..MaxOverlaps]
  }

  lemma AllOverlapsSnoc(rows: seq<Property>, p: Property)
    ensures AllOverlaps(rows + [p]) == AllOverlaps(rows) + (if Overlapping(p) then [OverlapMessage(p)] else [])
    ensures OverlapCount(rows + [p]) == OverlapCount(rows) + (if Overlapping(p) then 1 else 0)
  {
    assert (rows + [p])[..|rows|] == rows;
  }

  /** There is one message per overlapping row, so the report holds
      `min(10, overlapping rows)` lines. */
  lemma {:induction false} OverlapsCounted(rows: seq<Property>)
    ensures |AllOverlaps(rows)| == OverlapCount(rows)
    ensures |AnalyzeSearchOverlaps(rows)| == if OverlapCount(rows) < MaxOverlaps then OverlapCount(rows) else MaxOverlaps
  {
    if |rows| > 0 {
      var rows' := rows[..|rows| - 1];
      assert rows == rows' + [rows[|rows| - 1]];
      OverlapsCounted(rows');
      AllOverlapsSnoc(rows', rows[|rows| - 1]);
    }
  }

  /** The positions of the rows found by several searches, in row order. */
  function OverlapRows(rows: seq<Property>): (idx: seq<nat>)
    ensures forall k | 0 <= k < |idx| :: idx[k] < |rows|
  {
    if |rows| == 0 then []
    else OverlapRows(rows[..|rows| - 1]) + (if Overlapping(rows[|rows| - 1]) then [|rows| - 1] else [])
  }

  /** The overlap messages are, in order, those of the rows at `OverlapRows`: each
      message is about a distinct row that two or more searches found, and every
      such row gets one. */
  lemma {:induction false} OverlapsNameRows(rows: seq<Property>)
    ensures var idx, a := OverlapRows(rows), AllOverlaps(rows);
            && |idx| == |a|
            && (forall k | 0 <= k < |idx| :: Overlapping(rows[idx[k]]) && a[k] == OverlapMessage(rows[idx[k]]))
            && (forall k, k' | 0 <= k < k' < |idx| :: idx[k] < idx[k'])
            && (forall j | 0 <= j < |rows| && Overlapping(rows[j]) :: j in idx)
  {
    if |rows| > 0 {
      var rows', p := rows[..|rows| - 1], rows[|rows| - 1];
      assert rows == rows' + [p];
      OverlapsNameRows(rows');
      AllOverlapsSnoc(rows', p);
      var idx', idx := OverlapRows(rows'), OverlapRows(rows);
      var a', a := AllOverlaps(rows'), AllOverlaps(rows);
      forall k | 0 <= k < |idx|
        ensures Overlapping(rows[idx[k]]) && a[k] == OverlapMessage(rows[idx[k]])
      {
        if k < |idx'| {
          assert idx[k] == idx'[k] && a[k] == a'[k] && rows[idx[k]] == rows'[idx'[k]];
        }
      }
    }
  }

  /** A row that no second search found produces no line. */
  lemma SingleSearchNoOverlap(p: Property)
    requires |p.foundInSearches| <= 1
    ensures AnalyzeSearchOverlaps([p]) == []
  {
    assert [p][..0] == [];
  }
}
