/**
 * Stable descending ranking, as Python's `list.sort(key=k, reverse=True)` and
 * `sorted(xs, key=lambda x: -k(x))` produce it: higher keys first, and items
 * with equal keys keep their original relative order. A ranking is given as the
 * sequence of original positions in ranked order; `Arrange` applies it.
 * Also Python's prefix slice `xs[:k]`, negative `k` included.
 */
module Ranking {

  /** Position `i` is ranked before position `j`: a higher key, or an equal key and an earlier position. */
  predicate RanksBefore(keys: seq<real>, i: nat, j: nat)
    requires i < |keys| && j < |keys|
  {
    keys[i] > keys[j] || (keys[i] == keys[j] && i < j)
  }

  /** Every earlier entry of `order` is ranked before every later one. */
  ghost predicate Ordered(keys: seq<real>, order: seq<nat>)
    requires forall k :: 0 <= k < |order| ==> order[k] < |keys|
  {
    forall k, l :: 0 <= k < l < |order| ==> RanksBefore(keys, order[k], order[l])
  }

  /** `order` ranks exactly the positions `0..n-1` of `keys`, strictly in `RanksBefore` order. */
  ghost predicate RanksPrefix(keys: seq<real>, order: seq<nat>, n: nat)
    requires n <= |keys|
  {
    && |order| == n
    && (forall k :: 0 <= k < |order| ==> order[k] < n)
    && Ordered(keys, order)
  }

  /** `order` is the stable descending ranking of all of `keys`. */
  ghost predicate IsStableRanking(keys: seq<real>, order: seq<nat>) {
    RanksPrefix(keys, order, |keys|)
  }

  /** Inserts position `i` into a ranking, after every position ranked before it. */
  function InsertRanked(keys: seq<real>, order: seq<nat>, i: nat): (r: seq<nat>)
    requires i < |keys| && forall k :: 0 <= k < |order| ==> order[k] < |keys|
    ensures |r| == |order| + 1
    ensures forall x :: x in r <==> x in order || x == i
    ensures forall k :: 0 <= k < |r| ==> r[k] < |keys|
  {
    if order == [] then [i]
    else if keys[order[0]] < keys[i] then [i] + order
    else [order[0]] + InsertRanked(keys, order[1..], i)
  }

  /** The ranking of the first `n` positions, built by insertion: the specification of the sort. */
  function RankOrderUpTo(keys: seq<real>, n: nat): (r: seq<nat>)
    requires n <= |keys|
    ensures |r| == n && forall k :: 0 <= k < |r| ==> r[k] < n
  {
    if n == 0 then []
    else
      var prev := RankOrderUpTo(keys, n - 1);
      var r := InsertRanked(keys, prev, n - 1);
      assert forall k :: 0 <= k < |r| ==> r[k] < n by {
        forall k | 0 <= k < |r| ensures r[k] < n {
          assert r[k] in r;
        }
      }
      r
  }

  function RankOrder(keys: seq<real>): seq<nat> {
    RankOrderUpTo(keys, |keys|)
  }

  /** Inserting the next position keeps a ranking of a prefix a ranking of the longer prefix. */
  lemma {:induction false} InsertRankedKeepsRanking(keys: seq<real>, order: seq<nat>, m: nat, n: nat)
    requires n < |keys| && m <= n
    requires |order| == m && forall k :: 0 <= k < m ==> order[k] < n
    requires Ordered(keys, order)
    ensures Ordered(keys, InsertRanked(keys, order, n))
    decreases m
  {
    var r := InsertRanked(keys, order, n);
    if order == [] {
    } else if keys[order[0]] < keys[n] {
      forall k, l | 0 <= k < l < |r| ensures RanksBefore(keys, r[k], r[l]) {
        if k == 0 {
          assert r[l] == order[l - 1];
          if l - 1 > 0 {
            assert RanksBefore(keys, order[0], order[l - 1]);
          }
        } else {
          assert r[k] == order[k - 1] && r[l] == order[l - 1];
        }
      }
    } else {
      var tail := order[1..];
      InsertRankedKeepsRanking(keys, tail, m - 1, n);
      var rt := InsertRanked(keys, tail, n);
      assert r == [order[0]] + rt;
      forall k, l | 0 <= k < l < |r| ensures RanksBefore(keys, r[k], r[l]) {
        if k == 0 {
          assert r[0] == order[0];
          assert r[l] == rt[l - 1];
          assert r[l] in rt;
          if r[l] != n {
            assert r[l] in tail;
            var j :| 0 <= j < |tail| && tail[j] == r[l];
            assert tail[j] == order[j + 1];
            assert RanksBefore(keys, order[0], order[j + 1]);
          } else {
            assert keys[order[0]] >= keys[n] && order[0] < n;
          }
        } else {
          assert r[k] == rt[k - 1] && r[l] == rt[l - 1];
        }
      }
    }
  }

  /** The insertion specification is a stable descending ranking of every prefix. */
  lemma {:induction false} RankOrderUpToRanks(keys: seq<real>, n: nat)
    requires n <= |keys|
    ensures RanksPrefix(keys, RankOrderUpTo(keys, n), n)
  {
    if n > 0 {
      RankOrderUpToRanks(keys, n - 1);
      var prev := RankOrderUpTo(keys, n - 1);
      InsertRankedKeepsRanking(keys, prev, n - 1, n - 1);
      assert RankOrderUpTo(keys, n) == InsertRanked(keys, prev, n - 1);
    }
  }

  /** `RankOrder` is a stable descending ranking of all keys. */
  lemma RankOrderIsStableRanking(keys: seq<real>)
    ensures IsStableRanking(keys, RankOrder(keys))
  {
    RankOrderUpToRanks(keys, |keys|);
  }

  /** A ranking lists every position exactly once. */
  lemma {:induction false} RankingIsPermutation(keys: seq<real>, order: seq<nat>)
    requires IsStableRanking(keys, order)
    ensures forall i :: 0 <= i < |keys| ==> i in order
    ensures forall k, l :: 0 <= k < l < |order| ==> order[k] != order[l]
  {
    forall k, l | 0 <= k < l < |order| ensures order[k] != order[l] {
      assert RanksBefore(keys, order[k], order[l]);
    }
    DistinctBelowCoversAll(order, |keys|);
  }

  /** `n` distinct naturals below `n` are all of `0..n-1`. */
  lemma DistinctBelowCoversAll(order: seq<nat>, n: nat)
    requires |order| == n && forall k :: 0 <= k < |order| ==> order[k] < n
    requires forall k, l :: 0 <= k < l < |order| ==> order[k] != order[l]
    ensures forall i :: 0 <= i < n ==> i in order
  {
    var elems := set k | 0 <= k < |order| :: order[k];
    var below := Below(n);
    DistinctElementsCount(order);
    assert elems <= below;
    SubsetOfSameSize(elems, below);
    forall i | 0 <= i < n ensures i in order {
      assert i in below;
    }
  }

  /** The naturals below `n`. */
  function Below(n: nat): (r: set<nat>)
    ensures |r| == n && forall i :: i in r <==> 0 <= i < n
  {
    if n == 0 then {}
    else
      var b := Below(n - 1);
      assert n - 1 !in b;
      b + {n - 1}
  }

  lemma SubsetOfSameSize<T>(a: set<T>, b: set<T>)
    requires a <= b && |a| == |b|
    ensures a == b
  {
    assert |b - a| == |b| - |a|;
  }

  lemma {:induction false} DistinctElementsCount(xs: seq<nat>)
    requires forall k, l :: 0 <= k < l < |xs| ==> xs[k] != xs[l]
    ensures |set k | 0 <= k < |xs| :: xs[k]| == |xs|
  {
    if xs != [] {
      var init := xs[..|xs| - 1];
      DistinctElementsCount(init);
      var s := set k | 0 <= k < |init| :: init[k];
      var t := set k | 0 <= k < |xs| :: xs[k];
      assert t == s + {xs[|xs| - 1]};
      assert xs[|xs| - 1] !in s;
    }
  }

  /** In a ranking, the entry at `k` is ranked before every position not listed before `k`. */
  lemma HeadOfRest(keys: seq<real>, o: seq<nat>, k: nat, x: nat)
    requires IsStableRanking(keys, o) && k < |keys| && x < |keys| && x !in o[..k]
    ensures x == o[k] || RanksBefore(keys, o[k], x)
  {
    RankingIsPermutation(keys, o);
    assert x in o;
    var i :| 0 <= i < |o| && o[i] == x;
    assert forall m :: 0 <= m < k ==> o[m] == o[..k][m];
    assert k < i ==> RanksBefore(keys, o[k], o[i]);
  }

  /** Two rankings of the same keys that agree before position `k` agree at `k`. */
  lemma RankingsAgreeAt(keys: seq<real>, o1: seq<nat>, o2: seq<nat>, k: nat)
    requires IsStableRanking(keys, o1) && IsStableRanking(keys, o2)
    requires k < |keys| && forall m :: 0 <= m < k ==> o1[m] == o2[m]
    ensures o1[k] == o2[k]
  {
    RankingIsPermutation(keys, o1);
    RankingIsPermutation(keys, o2);
    var a, b := o1[k], o2[k];
    assert o1[..k] == o2[..k];
    assert forall m :: 0 <= m < k ==> o1[..k][m] != a;
    assert forall m :: 0 <= m < k ==> o2[..k][m] != b;
    HeadOfRest(keys, o2, k, a);
    HeadOfRest(keys, o1, k, b);
  }

  lemma {:induction false} RankingsAgreeFrom(keys: seq<real>, o1: seq<nat>, o2: seq<nat>, k: nat)
    requires IsStableRanking(keys, o1) && IsStableRanking(keys, o2)
    requires k <= |keys| && forall m :: 0 <= m < k ==> o1[m] == o2[m]
    ensures o1 == o2
    decreases |keys| - k
  {
    if k < |keys| {
      RankingsAgreeAt(keys, o1, o2, k);
      RankingsAgreeFrom(keys, o1, o2, k + 1);
    }
  }

  /** The stable descending ranking is unique: sorting is deterministic. */
  lemma StableRankingUnique(keys: seq<real>, o1: seq<nat>, o2: seq<nat>)
    requires IsStableRanking(keys, o1) && IsStableRanking(keys, o2)
    ensures o1 == o2
  {
    RankingsAgreeFrom(keys, o1, o2, 0);
  }

  /**
   * The sort itself: insertion of each position after all positions ranked
   * before it. The result is the stable descending ranking of `keys`.
   */
  method StableRankDescending(keys: seq<real>) returns (order: seq<nat>)
    ensures IsStableRanking(keys, order)
    ensures order == RankOrder(keys)
  {
    order := [];
    var i := 0;
    while i < |keys|
      invariant 0 <= i <= |keys|
      invariant RanksPrefix(keys, order, i)
    {
      var p := 0;
      while p < |order| && keys[order[p]] >= keys[i]
        invariant 0 <= p <= |order|
        invariant forall k :: 0 <= k < p ==> keys[order[k]] >= keys[i]
      {
        p := p + 1;
      }
      InsertAtKeepsRanking(keys, order, i, p);
      order := order[..p] + [i] + order[p..];
      i := i + 1;
    }
    RankOrderIsStableRanking(keys);
    StableRankingUnique(keys, order, RankOrder(keys));
  }

  lemma {:induction false} InsertAtKeepsRanking(keys: seq<real>, order: seq<nat>, i: nat, p: nat)
    requires i < |keys| && RanksPrefix(keys, order, i)
    requires p <= |order| && forall k :: 0 <= k < p ==> keys[order[k]] >= keys[i]
    requires p < |order| ==> keys[order[p]] < keys[i]
    ensures RanksPrefix(keys, order[..p] + [i] + order[p..], i + 1)
  {
    var r := order[..p] + [i] + order[p..];
    forall k, l | 0 <= k < l < |r| ensures RanksBefore(keys, r[k], r[l]) {
      if l < p {
        assert r[k] == order[k] && r[l] == order[l];
      } else if l == p {
        assert r[k] == order[k];
      } else if k == p {
        assert r[l] == order[l - 1];
        if l - 1 > p {
          assert RanksBefore(keys, order[p], order[l - 1]);
        }
      } else if k < p {
        assert r[k] == order[k] && r[l] == order[l - 1];
      } else {
        assert r[k] == order[k - 1] && r[l] == order[l - 1];
      }
    }
  }

  /** Applies a ranking: the items in ranked order. */
  function Arrange<T>(items: seq<T>, order: seq<nat>): (r: seq<T>)
    requires forall k :: 0 <= k < |order| ==> order[k] < |items|
    ensures |r| == |order| && forall k :: 0 <= k < |r| ==> r[k] == items[order[k]]
  {
    seq(|order|, k requires 0 <= k < |order| => items[order[k]])
  }

  /** Python's `xs[:k]`: a prefix whose length follows Python's slice rules, negative `k` counting from the end. */
  function PyPrefix<T>(xs: seq<T>, k: int): (r: seq<T>)
    ensures r <= xs
    ensures |r| == if k >= 0 then (if k < |xs| then k else |xs|) else (if |xs| + k > 0 then |xs| + k else 0)
  {
    if k >= 0 then (if k < |xs| then xs[..k] else xs)
    else (if |xs| + k > 0 then xs[..|xs| + k] else [])
  }
}
