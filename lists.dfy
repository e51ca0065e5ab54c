/**
 * Sequence helpers shared by the pipeline stages: distinctness, the position
 * of the first occurrence of a value, and order-preserving de-duplication
 * (the key order of a Python dict built by insertion, or a `list` filled
 * with `if x not in seen: seen.append(x)`).
 */
module Lists {

  predicate Distinct<T(==)>(xs: seq<T>) {
    forall i, j :: 0 <= i < j < |xs| ==> xs[i] != xs[j]
  }

  /** The position of the first occurrence of `x` in `xs`. */
  function FirstIndex<T(==)>(xs: seq<T>, x: T): (i: nat)
    requires x in xs
    ensures i < |xs| && xs[i] == x
    ensures forall k :: 0 <= k < i ==> xs[k] != x
  {
    if xs[0] == x then 0 else 1 + FirstIndex(xs[1..], x)
  }

  /** The distinct values of `xs`, each once, in the order of their first occurrence. */
  function Dedup<T(==,!new)>(xs: seq<T>): (r: seq<T>)
    ensures Distinct(r)
    ensures forall x :: x in r <==> x in xs
    ensures |r| <= |xs|
  {
    if xs == [] then []
    else
      var prev := Dedup(xs[..|xs| - 1]);
      var x := xs[|xs| - 1];
      assert forall y :: y in xs <==> y in xs[..|xs| - 1] || y == x by {
        assert xs == xs[..|xs| - 1] + [x];
      }
      if x in prev then prev else prev + [x]
  }

  /** An occurrence in a prefix is the first occurrence in the whole sequence too. */
  lemma {:induction false} FirstIndexOfPrefix<T>(xs: seq<T>, ys: seq<T>, x: T)
    requires x in xs
    ensures x in xs + ys && FirstIndex(xs + ys, x) == FirstIndex(xs, x)
  {
    assert (xs + ys)[0] == xs[0];
    if xs[0] != x {
      assert (xs + ys)[1..] == xs[1..] + ys;
      FirstIndexOfPrefix(xs[1..], ys, x);
    }
  }

  /** The values of `r`, all taken from `xs`, appear in the order of their first occurrence in `xs`. */
  predicate InFirstOccurrenceOrder<T(==)>(xs: seq<T>, r: seq<T>)
    requires forall k :: 0 <= k < |r| ==> r[k] in xs
  {
    forall i, j :: 0 <= i < j < |r| ==> FirstIndex(xs, r[i]) < FirstIndex(xs, r[j])
  }

  /** `Dedup` lists values in the order of their first occurrence in the input. */
  lemma {:induction false} DedupKeepsFirstOccurrenceOrder<T(!new)>(xs: seq<T>)
    ensures InFirstOccurrenceOrder(xs, Dedup(xs))
  {
    if xs != [] {
      var init := xs[..|xs| - 1];
      var x := xs[|xs| - 1];
      assert xs == init + [x];
      DedupKeepsFirstOccurrenceOrder(init);
      var prev := Dedup(init);
      var r := Dedup(xs);
      forall i, j | 0 <= i < j < |r| ensures FirstIndex(xs, r[i]) < FirstIndex(xs, r[j]) {
        assert r[i] == prev[i] && r[i] in init;
        FirstIndexOfPrefix(init, [x], r[i]);
        if j < |prev| {
          assert r[j] == prev[j] && r[j] in init;
          FirstIndexOfPrefix(init, [x], r[j]);
          assert FirstIndex(init, prev[i]) < FirstIndex(init, prev[j]);
        } else {
          assert r[j] == x && x !in init;
          assert FirstIndex(xs, x) == |init|;
        }
      }
    }
  }

  /**
   * The dictionary `{k: v for (k, v) in pairs}`: every key of `pairs` is
   * present, and a later pair overrides an earlier one with the same key.
   */
  function LastWins<K(==), V>(pairs: seq<(K, V)>): (m: map<K, V>)
    ensures m.Keys == set k | 0 <= k < |pairs| :: pairs[k].0
  {
    if pairs == [] then map[]
    else
      var init := pairs[..|pairs| - 1];
      var last := pairs[|pairs| - 1];
      var m := LastWins(init)[last.0 := last.1];
      assert pairs == init + [last];
      m
  }

  /** The value under a key is the one of its last pair. */
  lemma {:induction false} LastWinsValue<K, V>(pairs: seq<(K, V)>, k: nat)
    requires k < |pairs| && forall l :: k < l < |pairs| ==> pairs[l].0 != pairs[k].0
    ensures pairs[k].0 in LastWins(pairs) && LastWins(pairs)[pairs[k].0] == pairs[k].1
  {
    var init := pairs[..|pairs| - 1];
    if k < |pairs| - 1 {
      assert init[k] == pairs[k];
      LastWinsValue(init, k);
    }
  }

  /** The position of the last occurrence of `x` in `xs`. */
  lemma {:induction false} LastOccurrence<T>(xs: seq<T>, x: T) returns (j: nat)
    requires x in xs
    ensures j < |xs| && xs[j] == x && forall l :: j < l < |xs| ==> xs[l] != x
  {
    if xs[|xs| - 1] == x {
      j := |xs| - 1;
    } else {
      assert x in xs[..|xs| - 1];
      j := LastOccurrence(xs[..|xs| - 1], x);
    }
  }

  /** Pairs whose keys are never looked up do not change the value under any other key. */
  lemma {:induction false} LastWinsIgnores<K, V>(pairs: seq<(K, V)>, extra: seq<(K, V)>, key: K)
    requires forall l :: 0 <= l < |extra| ==> extra[l].0 != key
    ensures key in LastWins(pairs + extra) <==> key in LastWins(pairs)
    ensures key in LastWins(pairs) ==> LastWins(pairs + extra)[key] == LastWins(pairs)[key]
    decreases |extra|
  {
    if extra == [] {
      assert pairs + extra == pairs;
    } else {
      var e := extra[..|extra| - 1];
      assert (pairs + extra)[..|pairs + extra| - 1] == pairs + e;
      assert (pairs + extra)[|pairs + extra| - 1] == extra[|extra| - 1];
      LastWinsIgnores(pairs, e, key);
    }
  }

  /** `[f(x) for x in xs]`. */
  function MapSeq<T, U>(xs: seq<T>, f: T -> U): (r: seq<U>)
    ensures |r| == |xs| && forall k :: 0 <= k < |xs| ==> r[k] == f(xs[k])
  {
    seq(|xs|, k requires 0 <= k < |xs| => f(xs[k]))
  }

  /** The concatenation of a sequence of sequences, in order. */
  function Flatten<T>(xss: seq<seq<T>>): seq<T> {
    if xss == [] then [] else Flatten(xss[..|xss| - 1]) + xss[|xss| - 1]
  }

  lemma {:induction false} FlattenConcat<T>(a: seq<seq<T>>, b: seq<seq<T>>)
    ensures Flatten(a + b) == Flatten(a) + Flatten(b)
    decreases |b|
  {
    if b == [] {
      assert a + b == a;
    } else {
      var b' := b[..|b| - 1];
      assert (a + b)[..|a + b| - 1] == a + b';
      assert (a + b)[|a + b| - 1] == b[|b| - 1];
      FlattenConcat(a, b');
    }
  }

  /** Flattening the images of a concatenation concatenates the flattened images. */
  lemma FlattenMapConcat<T, U>(a: seq<T>, b: seq<T>, f: T -> seq<U>)
    ensures Flatten(MapSeq(a + b, f)) == Flatten(MapSeq(a, f)) + Flatten(MapSeq(b, f))
  {
    assert MapSeq(a + b, f) == MapSeq(a, f) + MapSeq(b, f);
    FlattenConcat(MapSeq(a, f), MapSeq(b, f));
  }

  lemma FlattenMapSnoc<T, U>(a: seq<T>, x: T, f: T -> seq<U>)
    ensures Flatten(MapSeq(a + [x], f)) == Flatten(MapSeq(a, f)) + f(x)
  {
    assert MapSeq(a + [x], f)[..|a|] == MapSeq(a, f);
  }

  /** An element whose image is empty contributes nothing to the flattened images. */
  lemma FlattenMapSkip<T, U>(a: seq<T>, x: T, b: seq<T>, f: T -> seq<U>)
    requires f(x) == []
    ensures Flatten(MapSeq(a + [x] + b, f)) == Flatten(MapSeq(a + b, f))
  {
    FlattenMapSnoc(a, x, f);
    FlattenMapConcat(a + [x], b, f);
    FlattenMapConcat(a, b, f);
  }

  /** `[x for x in xs if p(x)]`. */
  function Filter<T(!new)>(xs: seq<T>, p: T -> bool): (r: seq<T>)
    ensures |r| <= |xs|
    ensures forall x :: x in r <==> x in xs && p(x)
  {
    if xs == [] then []
    else
      var init, x := xs[..|xs| - 1], xs[|xs| - 1];
      assert xs == init + [x];
      Filter(init, p) + (if p(x) then [x] else [])
  }

  lemma MapSeqSnoc<T, U>(xs: seq<T>, x: T, f: T -> U)
    ensures MapSeq(xs + [x], f) == MapSeq(xs, f) + [f(x)]
  {
  }

  /** De-duplicating one more element appends it unless it is already present. */
  lemma DedupSnoc<T(!new)>(xs: seq<T>, x: T)
    ensures Dedup(xs + [x]) == if x in Dedup(xs) then Dedup(xs) else Dedup(xs) + [x]
  {
    assert (xs + [x])[..|xs|] == xs;
  }

  lemma PrefixSnoc<T>(xs: seq<T>, i: nat)
    requires i < |xs|
    ensures xs[..i + 1] == xs[..i] + [xs[i]]
  {
  }

  /** In a sequence without repeats, an element does not occur before its own position. */
  lemma DistinctNotEarlier<T>(xs: seq<T>, i: nat)
    requires Distinct(xs) && i < |xs|
    ensures xs[i] !in xs[..i]
  {
    forall j | 0 <= j < i ensures xs[..i][j] != xs[i] {
      assert xs[..i][j] == xs[j];
    }
  }

  /** Filtering one more element of a prefix. */
  lemma FilterStep<T(!new)>(xs: seq<T>, i: nat, p: T -> bool)
    requires i < |xs|
    ensures Filter(xs[..i + 1], p) == Filter(xs[..i], p) + (if p(xs[i]) then [xs[i]] else [])
  {
    assert xs[..i + 1][..i] == xs[..i];
  }

  /** Appending three pieces at once or one after another gives the same sequence. */
  lemma AppendThree<T>(a: seq<T>, x: seq<T>, y: seq<T>, z: seq<T>)
    ensures a + (x + y + z) == a + x + y + z
  {
  }
}
