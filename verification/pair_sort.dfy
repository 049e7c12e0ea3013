/**
 * Python's `sorted` on the `(distance, row, column)` tuples that both
 * trackers build before their greedy matching. Tuples compare
 * lexicographically, so ties on the distance fall back to the row and
 * then the column.
 */
module PairSort {

  /** The tuple `(score, row, col)`: a distance between detection `row` and track (or gallery column) `col`. */
  datatype ScoredPair = ScoredPair(score: real, row: nat, col: nat)

  /** Python's strict tuple order. */
  predicate Below(a: ScoredPair, b: ScoredPair) {
    a.score < b.score || (a.score == b.score && (a.row < b.row || (a.row == b.row && a.col < b.col)))
  }

  predicate NotAbove(a: ScoredPair, b: ScoredPair) {
    a == b || Below(a, b)
  }

  predicate Sorted(s: seq<ScoredPair>) {
    forall p, q :: 0 <= p < q < |s| ==> NotAbove(s[p], s[q])
  }

  /** The tuple order is total: of two different tuples one is below the other. */
  lemma BelowTotal(a: ScoredPair, b: ScoredPair)
    ensures a == b || Below(a, b) || Below(b, a)
    ensures !(Below(a, b) && Below(b, a))
  {
  }

  function Insert(x: ScoredPair, s: seq<ScoredPair>): (r: seq<ScoredPair>)
    requires Sorted(s)
    ensures Sorted(r)
    ensures multiset(r) == multiset(s) + multiset{x}
    decreases |s|
  {
    if s == [] then [x]
    else if NotAbove(x, s[0]) then [x] + s
    else
      var rest := Insert(x, s[1..]);
      assert s == [s[0]] + s[1..];
      BelowTotal(x, s[0]);
      HeadBelowAll(s[0], s[1..], x, rest);
      [s[0]] + rest
  }

  /** Prepending a tuple below every element of a sorted sequence keeps it sorted. */
  lemma HeadBelowAll(h: ScoredPair, tail: seq<ScoredPair>, x: ScoredPair, rest: seq<ScoredPair>)
    requires Sorted(rest)
    requires forall k :: 0 <= k < |tail| ==> NotAbove(h, tail[k])
    requires NotAbove(h, x)
    requires multiset(rest) == multiset(tail) + multiset{x}
    ensures Sorted([h] + rest)
  {
    forall k | 0 <= k < |rest|
      ensures NotAbove(h, rest[k])
    {
      assert rest[k] in multiset(rest);
      if rest[k] != x {
        assert rest[k] in multiset(tail);
        var i :| 0 <= i < |tail| && tail[i] == rest[k];
      }
    }
  }

  /** `sorted(pairs)`: an insertion sort; by SortedUnique it is the only sorted permutation. */
  function Sort(s: seq<ScoredPair>): (r: seq<ScoredPair>)
    ensures Sorted(r)
    ensures multiset(r) == multiset(s)
    decreases |s|
  {
    if s == [] then []
    else
      assert s == [s[0]] + s[1..];
      Insert(s[0], Sort(s[1..]))
  }

  /** The head of a sorted sequence is not above any of its elements. */
  lemma SortedHeadLeast(s: seq<ScoredPair>, y: ScoredPair)
    requires Sorted(s)
    requires y in multiset(s)
    ensures NotAbove(s[0], y)
  {
    var i :| 0 <= i < |s| && s[i] == y;
    if i > 0 {
      assert NotAbove(s[0], s[i]);
    }
  }

  /** Two sorted sequences with the same elements are equal: sorting has exactly one result. */
  lemma {:induction false} SortedUnique(a: seq<ScoredPair>, b: seq<ScoredPair>)
    requires Sorted(a) && Sorted(b)
    requires multiset(a) == multiset(b)
    ensures a == b
    decreases |a|
  {
    if a == [] {
      assert |b| == |multiset(b)| == 0;
    } else {
      assert |b| == |multiset(b)| == |multiset(a)| == |a|;
      assert a[0] in multiset(a);
      assert b[0] in multiset(b);
      SortedHeadLeast(b, a[0]);
      SortedHeadLeast(a, b[0]);
      BelowTotal(a[0], b[0]);
      assert a[0] == b[0];
      var a', b' := a[1..], b[1..];
      assert a == [a[0]] + a';
      assert b == [b[0]] + b';
      assert multiset(a') == multiset(b') by {
        assert multiset(a) == multiset{a[0]} + multiset(a');
        assert multiset(b) == multiset{b[0]} + multiset(b');
        forall z
          ensures multiset(a')[z] == multiset(b')[z]
        {
          assert multiset(a)[z] == multiset(b)[z];
        }
      }
      SortedUnique(a', b');
    }
  }

  /** A sorted sequence without repeated tuples is strictly increasing. */
  lemma SortedDistinctIncreasing(s: seq<ScoredPair>, p: nat, q: nat)
    requires Sorted(s)
    requires forall x, y :: 0 <= x < y < |s| ==> s[x] != s[y]
    requires p < q < |s|
    ensures Below(s[p], s[q])
  {
  }
}
