/**
 * The box-ranking step of the opponent's turn: the pooled boxes are grouped
 * (`GroupBy`), turned into a count per box (`ToDictionary`) and the entry with
 * the largest count is taken (`MaxBy`). The grouping lists its keys in the order
 * they are first met, and `MaxBy` keeps the first entry that reaches the
 * maximum, so ties go to the box discovered earliest.
 */
module Grouping {

  /** How often `x` occurs in `pool`. */
  function Count<T(==)>(pool: seq<T>, x: T): nat {
    multiset(pool)[x]
  }

  /** The position of the first occurrence of `x` in `s`. */
  function FirstIndex<T(==)>(s: seq<T>, x: T): (r: nat)
    requires x in s
    ensures r < |s| && s[r] == x
    ensures forall q :: 0 <= q < r ==> s[q] != x
  {
    if s[0] == x then 0 else 1 + FirstIndex(s[1..], x)
  }

  /** The distinct elements of `s` in order of first occurrence: the keys of `GroupBy`. */
  function Distinct<T(==,!new)>(s: seq<T>): (r: seq<T>)
    ensures forall x :: x in r <==> x in s
    ensures forall i, j :: 0 <= i < j < |r| ==> r[i] != r[j]
    decreases |s|
  {
    if s == [] then []
    else
      var init, last := s[..|s| - 1], s[|s| - 1];
      if last in init then Distinct(init) else Distinct(init) + [last]
  }

  /** A key listed before another occurs in `s` before every occurrence of the other. */
  lemma {:induction false} DistinctOrder<T(!new)>(s: seq<T>, i: nat, j: nat, p: nat)
    requires i < j < |Distinct(s)|
    requires p < |s| && s[p] == Distinct(s)[j]
    ensures Distinct(s)[i] in s[..p]
    decreases |s|
  {
    var init, last := s[..|s| - 1], s[|s| - 1];
    assert s == init + [last];
    if last in init {
      if p < |s| - 1 {
        DistinctOrder(init, i, j, p);
        assert init[..p] == s[..p];
      } else {
        var q :| 0 <= q < |init| && init[q] == last;
        DistinctOrder(init, i, j, q);
        assert init[..q] <= s[..p];
      }
    } else if j < |Distinct(init)| {
      assert Distinct(init)[j] in init;
      assert p < |s| - 1;
      DistinctOrder(init, i, j, p);
      assert init[..p] == s[..p];
    } else {
      assert p == |s| - 1;
      assert Distinct(s)[i] == Distinct(init)[i];
      assert Distinct(init)[i] in init;
    }
  }

  /** Keys listed earlier were first met earlier. */
  lemma DistinctFirstIndex<T(!new)>(s: seq<T>, i: nat, j: nat)
    requires i < j < |Distinct(s)|
    ensures FirstIndex(s, Distinct(s)[i]) < FirstIndex(s, Distinct(s)[j])
  {
    var p := FirstIndex(s, Distinct(s)[j]);
    DistinctOrder(s, i, j, p);
    var q :| 0 <= q < p && s[q] == Distinct(s)[i];
  }

  /**
   * `x` is what `MaxBy` picks from the count table of `pool`: it occurs in
   * `pool`, no element occurs more often, and among the elements that occur as
   * often, `x` is the one met first.
   */
  ghost predicate IsMostFrequent<T(!new)>(pool: seq<T>, x: T) {
    && x in pool
    && (forall y :: y in pool ==> Count(pool, y) <= Count(pool, x))
    && (forall y :: y in pool && Count(pool, y) == Count(pool, x) ==> FirstIndex(pool, x) <= FirstIndex(pool, y))
  }

  /** The ranking has a single answer: the tie-break leaves no choice. */
  lemma MostFrequentIsUnique<T(!new)>(pool: seq<T>, x: T, y: T)
    requires IsMostFrequent(pool, x) && IsMostFrequent(pool, y)
    ensures x == y
  {
    assert FirstIndex(pool, x) == FirstIndex(pool, y);
  }

  /** Extending a prefix of `pool` by its next element. */
  lemma PrefixStep<T(!new)>(pool: seq<T>, i: nat)
    requires i < |pool|
    ensures Distinct(pool[..i + 1])
      == if pool[i] in pool[..i] then Distinct(pool[..i]) else Distinct(pool[..i]) + [pool[i]]
    ensures forall x :: x in pool[..i + 1] <==> x in pool[..i] || x == pool[i]
    ensures multiset(pool[..i + 1]) == multiset(pool[..i]) + multiset{pool[i]}
  {
    assert pool[..i + 1] == pool[..i] + [pool[i]];
    assert pool[..i + 1][..i] == pool[..i];
  }

  /**
   * `GroupBy` followed by `ToDictionary`: the table's keys in enumeration
   * order and the count of each key.
   */
  method CountTable<T(==,!new)>(pool: seq<T>) returns (keys: seq<T>, counts: map<T, nat>)
    ensures keys == Distinct(pool)
    ensures forall x :: x in counts <==> x in pool
    ensures forall x :: x in counts ==> counts[x] == Count(pool, x)
  {
    keys, counts := [], map[];
    for i := 0 to |pool|
      invariant keys == Distinct(pool[..i])
      invariant forall x :: x in counts <==> x in pool[..i]
      invariant forall x :: x in counts ==> counts[x] == Count(pool[..i], x)
    {
      var x := pool[i];
      PrefixStep(pool, i);
      if x in counts {
        counts := counts[x := counts[x] + 1];
      } else {
        keys := keys + [x];
        counts := counts[x := 1];
      }
    }
    assert pool[..|pool|] == pool;
  }

  /**
   * Builds the count table of `pool`, then scans its entries in order and
   * keeps the first one whose count is strictly larger than all before it.
   */
  method MostFrequent<T(==,!new)>(pool: seq<T>) returns (best: T)
    requires pool != []
    ensures IsMostFrequent(pool, best)
  {
    var keys, counts := CountTable(pool);
    assert pool[0] in keys;

    best := keys[0];
    var bestCount := counts[best];
    ghost var m := 0;
    for j := 1 to |keys|
      invariant m < j && best == keys[m] && bestCount == counts[best]
      invariant forall k :: 0 <= k < j ==> counts[keys[k]] <= bestCount
      invariant forall k :: 0 <= k < m ==> counts[keys[k]] < bestCount
    {
      if counts[keys[j]] > bestCount {
        best, bestCount, m := keys[j], counts[keys[j]], j;
      }
    }

    MaxByIsMostFrequent(pool, m);
  }

  /**
   * The key `MaxBy` stops at — no key counts more, every earlier key counts
   * less — is the most frequent element.
   */
  lemma MaxByIsMostFrequent<T(!new)>(pool: seq<T>, m: nat)
    requires m < |Distinct(pool)|
    requires forall k :: 0 <= k < |Distinct(pool)| ==> Count(pool, Distinct(pool)[k]) <= Count(pool, Distinct(pool)[m])
    requires forall k :: 0 <= k < m ==> Count(pool, Distinct(pool)[k]) < Count(pool, Distinct(pool)[m])
    ensures IsMostFrequent(pool, Distinct(pool)[m])
  {
    forall y | y in pool
      ensures Count(pool, y) <= Count(pool, Distinct(pool)[m])
      ensures Count(pool, y) == Count(pool, Distinct(pool)[m]) ==> FirstIndex(pool, Distinct(pool)[m]) <= FirstIndex(pool, y)
    {
      assert y in Distinct(pool);
      var k :| 0 <= k < |Distinct(pool)| && Distinct(pool)[k] == y;
      MaxByBeats(pool, m, k);
    }
  }

  /** The key `MaxBy` stops at against any other key. */
  lemma MaxByBeats<T(!new)>(pool: seq<T>, m: nat, k: nat)
    requires m < |Distinct(pool)| && k < |Distinct(pool)|
    requires Count(pool, Distinct(pool)[k]) <= Count(pool, Distinct(pool)[m])
    requires k < m ==> Count(pool, Distinct(pool)[k]) < Count(pool, Distinct(pool)[m])
    ensures Count(pool, Distinct(pool)[k]) == Count(pool, Distinct(pool)[m])
      ==> FirstIndex(pool, Distinct(pool)[m]) <= FirstIndex(pool, Distinct(pool)[k])
  {
    if k > m {
      DistinctFirstIndex(pool, m, k);
    }
  }
}
