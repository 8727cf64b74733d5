/** Generic facts about sequences used throughout the model: duplicate-freedom,
    occurrence counts, first positions, first-occurrence order and subsequences. */
module Seqs {

  /** No value occurs twice in `s`. */
  predicate NoDups<T(==)>(s: seq<T>) {
    forall i, j | 0 <= i < j < |s| :: s[i] != s[j]
  }

  /** The set of values occurring in `s`. */
  function Elems<T>(s: seq<T>): set<T> {
    set x | x in s
  }

  /** Number of occurrences of `x` in `s`. */
  function Count<T(==)>(s: seq<T>, x: T): (n: nat)
    ensures n <= |s|
    ensures n == 0 <==> x !in s
  {
    if |s| == 0 then 0
    else
      assert s == s[..|s| - 1] + [s[|s| - 1]];
      Count(s[..|s| - 1], x) + (if s[|s| - 1] == x then 1 else 0)
  }

  /** Position of the first occurrence of `x` in `s`, or `|s|` when there is none. */
  function IndexOf<T(==)>(s: seq<T>, x: T): (i: nat)
    ensures i <= |s|
    ensures i < |s| <==> x in s
    ensures i < |s| ==> s[i] == x
    ensures forall j | 0 <= j < i :: s[j] != x
  {
    if |s| == 0 then 0
    else if s[0] == x then 0
    else 1 + IndexOf(s[1..], x)
  }

  /** The values of `s` in the order of their first occurrence, each once. */
  function Distinct<T(==)>(s: seq<T>): (r: seq<T>)
    ensures NoDups(r)
    ensures forall i | 0 <= i < |r| :: r[i] in s
    ensures forall i | 0 <= i < |s| :: s[i] in r
    ensures |r| <= |s|
  {
    if |s| == 0 then []
    else
      var p := Distinct(s[..|s| - 1]);
      var y := s[|s| - 1];
      assert s == s[..|s| - 1] + [y];
      if y in p then p else p + [y]
  }

  /** `a` can be obtained from `b` by deleting elements; order is kept. */
  predicate IsSubsequence<T(==)>(a: seq<T>, b: seq<T>)
    decreases |b|
  {
    if |b| == 0 then |a| == 0
    else IsSubsequence(a, b[1..]) || (|a| > 0 && a[0] == b[0] && IsSubsequence(a[1..], b[1..]))
  }

  /** A first position found in a prefix is the first position in any extension. */
  lemma IndexOfPrefix<T>(s: seq<T>, t: seq<T>, x: T)
    requires x in s
    ensures IndexOf(s + t, x) == IndexOf(s, x)
  {
    var i := IndexOf(s, x);
    var k := IndexOf(s + t, x);
    assert (s + t)[i] == x;
    if k < i {
      assert s[k] == (s + t)[k];
    }
  }

  /** A value appended to a sequence that lacked it is first found at the end. */
  lemma IndexOfAppendAbsent<T>(s: seq<T>, x: T)
    requires x !in s
    ensures IndexOf(s + [x], x) == |s|
  {
  }

  /** `Distinct` lists values in strictly increasing order of first occurrence. */
  lemma {:induction false} DistinctOrder<T>(s: seq<T>)
    ensures forall k, k' | 0 <= k < k' < |Distinct(s)| ::
              IndexOf(s, Distinct(s)[k]) < IndexOf(s, Distinct(s)[k'])
  {
    if |s| > 0 {
      var s', y := s[..|s| - 1], s[|s| - 1];
      assert s == s' + [y];
      DistinctOrder(s');
      var p, r := Distinct(s'), Distinct(s);
      forall k, k' | 0 <= k < k' < |r|
        ensures IndexOf(s, r[k]) < IndexOf(s, r[k'])
      {
        IndexOfPrefix(s', [y], r[k]);
        if k' < |p| {
          IndexOfPrefix(s', [y], r[k']);
        } else {
          assert r[k'] == y && y !in s';
        }
      }
    }
  }

  /** On a duplicate-free sequence `Distinct` is the identity. */
  lemma {:induction false} DistinctOfNoDups<T>(s: seq<T>)
    requires NoDups(s)
    ensures Distinct(s) == s
  {
    if |s| > 0 {
      var s' := s[..|s| - 1];
      DistinctOfNoDups(s');
      assert s[|s| - 1] !in s';
    }
  }

  /** One more element adds one occurrence of itself and none of anything else. */
  lemma CountSnoc<T>(s: seq<T>, c: T)
    ensures forall n :: Count(s + [c], n) == Count(s, n) + (if n == c then 1 else 0)
  {
    assert (s + [c])[..|s|] == s;
  }

  /** One more element joins `Distinct` at the end exactly when it is new. */
  lemma DistinctSnoc<T>(s: seq<T>, c: T)
    ensures Distinct(s + [c]) == if c in s then Distinct(s) else Distinct(s) + [c]
  {
    assert (s + [c])[..|s|] == s;
  }

  /** Appending the same element to both, or only to the longer one, keeps a subsequence. */
  lemma {:induction false} SubsequenceSnoc<T>(a: seq<T>, b: seq<T>, x: T, both: bool)
    requires IsSubsequence(a, b)
    ensures IsSubsequence(if both then a + [x] else a, b + [x])
    decreases |b|
  {
    var a1 := if both then a + [x] else a;
    if |b| == 0 {
      assert a == [];
      assert IsSubsequence(a, b);
      assert [x][1..] == [];
      if both {
        assert a1 == [x] && a1[1..] == [];
      }
    } else {
      assert (b + [x])[1..] == b[1..] + [x];
      if IsSubsequence(a, b[1..]) {
        SubsequenceSnoc(a, b[1..], x, both);
      } else {
        assert |a| > 0 && a[0] == b[0] && IsSubsequence(a[1..], b[1..]);
        SubsequenceSnoc(a[1..], b[1..], x, both);
        assert a1[1..] == (if both then a[1..] + [x] else a[1..]);
      }
    }
  }
}
