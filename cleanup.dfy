/**
 * Retention of query outputs: every managed output directory lists entry
 * names; the query ids found in those names are collected, and when there
 * are more than three, every name mentioning one of the other ids is
 * removed, so only the three lexicographically greatest ids keep their
 * files.
 *
 * The file system is a map from an existing directory to the names it
 * lists; a directory absent from the map does not exist. Removing a file or
 * a directory tree is removing its name from that list; a removal that
 * fails (the exception the removal loop catches) is decided by a parameter.
 */
module Cleanup {
  import opened Wrappers
  import opened Text
  import opened Lists

  const OutputDirs: seq<string> := [
    "outputs/bm25",
    "outputs/documents",
    "outputs/explainability_faiss",
    "outputs/faiss",
    "outputs/fusion",
    "outputs/inference",
    "outputs/sentences"
  ]

  const MaxQueriesToKeep: nat := 3

  // ---------------------------------------------------------------------------
  // The pattern q_\d{8}_\d{6}_[a-f0-9]+
  // ---------------------------------------------------------------------------

  /** Length of the fixed part `q_DDDDDDDD_DDDDDD_` of a query id. */
  const HeadLength: nat := 18

  predicate IsHex(c: char) {
    '0' <= c <= '9' || 'a' <= c <= 'f'
  }

  /** Length of the longest run of `[a-f0-9]` at the start of `s` (the greedy `+`). */
  function HexRun(s: string): (n: nat)
    ensures n <= |s|
    ensures forall k :: 0 <= k < n ==> IsHex(s[k])
    ensures n < |s| ==> !IsHex(s[n])
  {
    if s != [] && IsHex(s[0]) then 1 + HexRun(s[1..]) else 0
  }

  /** The pattern matches `s` at position `i`: the fixed part, then at least one hex character. */
  predicate MatchesAt(s: string, i: nat) {
    && i + HeadLength < |s|
    && s[i] == 'q' && s[i + 1] == '_'
    && AllDigits(s[i + 2..i + 10])
    && s[i + 10] == '_'
    && AllDigits(s[i + 11..i + 17])
    && s[i + 17] == '_'
    && IsHex(s[i + HeadLength])
  }

  /** The text the greedy pattern matches at `i`. */
  function MatchAt(s: string, i: nat): (q: string)
    requires MatchesAt(s, i)
  {
    s[i..i + HeadLength + HexRun(s[i + HeadLength..])]
  }

  /** `QUERY_ID_PATTERN.search(s)`, scanning from position `i`. */
  function SearchFrom(s: string, i: nat): Option<string>
    requires i <= |s|
    decreases |s| - i
  {
    if i == |s| then None
    else if MatchesAt(s, i) then Some(MatchAt(s, i))
    else SearchFrom(s, i + 1)
  }

  /** `QUERY_ID_PATTERN.search(s)`, giving the text of the match (its only group). */
  function Search(s: string): Option<string> {
    SearchFrom(s, 0)
  }

  /** `q` is, as a whole, a query id: `q_`, 8 digits, `_`, 6 digits, `_`, one or more of `[a-f0-9]`. */
  predicate IsQueryId(q: string) {
    && |q| > HeadLength
    && q[..2] == "q_"
    && AllDigits(q[2..10])
    && q[10] == '_'
    && AllDigits(q[11..17])
    && q[17] == '_'
    && forall k :: HeadLength <= k < |q| ==> IsHex(q[k])
  }

  /** The match at `i` is a whole query id, occurs in `s` there, and cannot be extended. */
  predicate FoundAt(s: string, i: nat, q: string) {
    && i + |q| <= |s|
    && s[i..i + |q|] == q
    && IsQueryId(q)
    && (i + |q| == |s| || !IsHex(s[i + |q|]))
  }

  lemma MatchIsFound(s: string, i: nat)
    requires MatchesAt(s, i)
    ensures FoundAt(s, i, MatchAt(s, i))
  {
    var q := MatchAt(s, i);
    var run := HexRun(s[i + HeadLength..]);
    assert |q| == HeadLength + run;
    assert q[..2] == s[i..i + 2] == ['q', '_'];
    assert q[2..10] == s[i + 2..i + 10] by {
      forall k | 0 <= k < 8 ensures q[2..10][k] == s[i + 2..i + 10][k] {
        assert q[2 + k] == s[i + 2 + k];
      }
    }
    assert q[11..17] == s[i + 11..i + 17] by {
      forall k | 0 <= k < 6 ensures q[11..17][k] == s[i + 11..i + 17][k] {
        assert q[11 + k] == s[i + 11 + k];
      }
    }
    forall k | HeadLength <= k < |q| ensures IsHex(q[k]) {
      assert q[k] == s[i + HeadLength..][k - HeadLength];
    }
    if i + |q| < |s| {
      assert s[i + |q|] == s[i + HeadLength..][run];
    }
  }

  /** The search reports no match exactly when the pattern matches nowhere at or after `i`. */
  lemma {:induction false} SearchFromNone(s: string, i: nat)
    requires i <= |s|
    ensures SearchFrom(s, i).None? <==> forall j :: i <= j < |s| ==> !MatchesAt(s, j)
    decreases |s| - i
  {
    if i < |s| && !MatchesAt(s, i) {
      SearchFromNone(s, i + 1);
    }
  }

  /** A successful search returns the match at the leftmost matching position at or after `i`. */
  lemma {:induction false} SearchFromLeftmost(s: string, i: nat) returns (j: nat)
    requires i <= |s| && SearchFrom(s, i).Some?
    ensures i <= j < |s| && MatchesAt(s, j) && SearchFrom(s, i).value == MatchAt(s, j)
    ensures forall j' :: i <= j' < j ==> !MatchesAt(s, j')
    decreases |s| - i
  {
    if MatchesAt(s, i) {
      j := i;
    } else {
      j := SearchFromLeftmost(s, i + 1);
    }
  }

  /**
   * `Search(s)` is `None` exactly when the pattern matches nowhere in `s`;
   * otherwise it is the longest query id starting at the leftmost position
   * where the pattern matches.
   */
  lemma SearchFinds(s: string) returns (j: nat)
    ensures Search(s).None? <==> forall j :: 0 <= j < |s| ==> !MatchesAt(s, j)
    ensures Search(s).Some? ==>
      && j < |s| && FoundAt(s, j, Search(s).value)
      && forall j' :: 0 <= j' < j ==> !MatchesAt(s, j')
  {
    j := 0;
    SearchFromNone(s, 0);
    if Search(s).Some? {
      j := SearchFromLeftmost(s, 0);
      MatchIsFound(s, j);
    }
  }

  /** A found id occurs in the name it was found in (Python's `qid in name`). */
  lemma SearchedIdOccurs(s: string)
    requires Search(s).Some?
    ensures IsQueryId(Search(s).value) && Contains(s, Search(s).value)
  {
    var j := SearchFinds(s);
    ContainsAt(s, j, Search(s).value);
  }

  lemma {:induction false} ContainsAt(s: string, i: nat, sub: string)
    requires i + |sub| <= |s| && s[i..i + |sub|] == sub
    ensures Contains(s, sub)
  {
    if i > 0 {
      assert s[1..][i - 1..i - 1 + |sub|] == s[i..i + |sub|];
      ContainsAt(s[1..], i - 1, sub);
    } else {
      assert sub <= s;
    }
  }

  /** A whole query id searched on its own is found in full. */
  lemma QueryIdFindsItself(q: string)
    requires IsQueryId(q)
    ensures Search(q) == Some(q)
  {
    assert q[..2] == "q_";
    assert q[0] == 'q' && q[1] == '_';
    assert MatchesAt(q, 0);
    assert HexRun(q[HeadLength..]) == |q| - HeadLength;
    assert q[0..|q|] == q;
  }

  /** A run of hex characters followed by a non-hex character (or nothing) is taken whole. */
  lemma {:induction false} HexRunStops(h: string, t: string)
    requires forall k :: 0 <= k < |h| ==> IsHex(h[k])
    requires t == [] || !IsHex(t[0])
    ensures HexRun(h + t) == |h|
  {
    if h == [] {
      assert h + t == t;
    } else {
      assert (h + t)[1..] == h[1..] + t;
      HexRunStops(h[1..], t);
    }
  }

  /** With no match in `[i, j)`, scanning from `i` finds what scanning from `j` finds. */
  lemma {:induction false} SearchFromSkips(s: string, i: nat, j: nat)
    requires i <= j <= |s|
    requires forall k :: i <= k < j ==> !MatchesAt(s, k)
    ensures SearchFrom(s, i) == SearchFrom(s, j)
    decreases j - i
  {
    if i < j {
      SearchFromSkips(s, i + 1, j);
    }
  }

  /**
   * A query id written into a file name after a prefix without the letter
   * `q` and before a non-hex character (such as the `.` of `.json`) is the
   * id the search finds in that name.
   */
  lemma SearchFindsEmbeddedId(prefix: string, q: string, suffix: string)
    requires IsQueryId(q)
    requires forall k :: 0 <= k < |prefix| ==> prefix[k] != 'q'
    requires suffix == [] || !IsHex(suffix[0])
    ensures Search(prefix + q + suffix) == Some(q)
  {
    var s := prefix + q + suffix;
    assert forall k :: 0 <= k < |prefix| ==> s[k] == prefix[k];
    SearchFromSkips(s, 0, |prefix|);
    EmbeddedIdMatches(prefix, q, suffix);
  }

  /** The pattern matches where the embedded id starts, and the match is the whole id. */
  lemma EmbeddedIdMatches(prefix: string, q: string, suffix: string)
    requires IsQueryId(q)
    requires suffix == [] || !IsHex(suffix[0])
    ensures MatchesAt(prefix + q + suffix, |prefix|)
    ensures MatchAt(prefix + q + suffix, |prefix|) == q
  {
    var s, p := prefix + q + suffix, |prefix|;
    assert s[p..p + |q|] == q;
    assert q[..2] == "q_";
    assert s[p] == q[0] == 'q' && s[p + 1] == q[1] == '_';
    assert s[p + 2..p + 10] == q[2..10];
    assert s[p + 11..p + 17] == q[11..17];
    assert s[p + HeadLength..] == q[HeadLength..] + suffix;
    HexRunStops(q[HeadLength..], suffix);
  }

  // ---------------------------------------------------------------------------
  // Timestamps and string order
  // ---------------------------------------------------------------------------

  /** The 14 digits `YYYYMMDDHHMMSS` of a query id. */
  function TimeDigits(q: string): (t: string)
    requires IsQueryId(q)
    ensures |t| == 14 && AllDigits(t)
  {
    q[2..10] + q[11..17]
  }

  /** The creation time of a query id, read as the number `YYYYMMDDHHMMSS`. */
  function Timestamp(q: string): nat
    requires IsQueryId(q)
  {
    DecimalValue(TimeDigits(q))
  }

  /** A number written as `a * 10 + c` with a last digit `c` determines `a` and `c`. */
  lemma LastDigitSplit(a: nat, b: nat, c: nat, d: nat)
    requires c < 10 && d < 10
    ensures a * 10 + c == b * 10 + d ==> a == b && c == d
    ensures a * 10 + c < b * 10 + d ==> a <= b
  {
  }

  /** Digit strings of one length with equal values are equal. */
  lemma {:induction false} DecimalValueInjective(x: string, y: string)
    requires |x| == |y| && AllDigits(x) && AllDigits(y) && DecimalValue(x) == DecimalValue(y)
    ensures x == y
  {
    if x != [] {
      var n := |x| - 1;
      var x', y' := x[..n], y[..n];
      LastDigitSplit(DecimalValue(x'), DecimalValue(y'), DigitValue(x[n]), DigitValue(y[n]));
      DecimalValueInjective(x', y');
      assert x == x' + [x[n]] && y == y' + [y[n]];
    }
  }

  /** Of two digit strings of one length, the smaller value has the smaller digit at the first difference. */
  lemma {:induction false} DigitOrder(x: string, y: string) returns (p: nat)
    requires |x| == |y| && AllDigits(x) && AllDigits(y) && DecimalValue(x) < DecimalValue(y)
    ensures p < |x| && x[..p] == y[..p] && x[p] < y[p]
  {
    var n := |x| - 1;
    var x', y' := x[..n], y[..n];
    LastDigitSplit(DecimalValue(x'), DecimalValue(y'), DigitValue(x[n]), DigitValue(y[n]));
    if DecimalValue(x') < DecimalValue(y') {
      p := DigitOrder(x', y');
      assert x[..p] == x'[..p] && y[..p] == y'[..p];
    } else {
      DecimalValueInjective(x', y');
      p := n;
    }
  }

  /** For query ids, an earlier timestamp sorts first as a string, as the retention rule relies on. */
  lemma TimestampOrderIsStringOrder(a: string, b: string)
    requires IsQueryId(a) && IsQueryId(b) && Timestamp(a) < Timestamp(b)
    ensures LexLess(a, b)
  {
    var ta, tb := TimeDigits(a), TimeDigits(b);
    var p := DigitOrder(ta, tb);
    var pos := if p < 8 then 2 + p else p + 3;
    assert a[0] == a[..2][0] == 'q' && b[0] == b[..2][0] == 'q';
    assert a[1] == a[..2][1] == '_' && b[1] == b[..2][1] == '_';
    forall k | 0 <= k < pos ensures a[k] == b[k] {
      if 2 <= k < 10 {
        assert ta[k - 2] == a[k] && tb[k - 2] == b[k];
        assert ta[..p][k - 2] == tb[..p][k - 2];
      } else if 11 <= k {
        assert ta[k - 3] == a[k] && tb[k - 3] == b[k];
        assert ta[..p][k - 3] == tb[..p][k - 3];
      }
    }
    assert a[..pos] == b[..pos];
    assert ta[p] == a[pos] && tb[p] == b[pos];
    LexLessAtFirstDifference(a, b, pos);
  }

  /** Conversely, string order never puts a later timestamp first. */
  lemma StringOrderFollowsTimestamps(a: string, b: string)
    requires IsQueryId(a) && IsQueryId(b) && LexLess(a, b)
    ensures Timestamp(a) <= Timestamp(b)
  {
    if Timestamp(b) < Timestamp(a) {
      TimestampOrderIsStringOrder(b, a);
      LexLessAsymmetric(a, b);
    }
  }

  // ---------------------------------------------------------------------------
  // Collected ids
  // ---------------------------------------------------------------------------

  /** The id found in one name, if any. */
  function FoundIds(name: string): set<string> {
    match Search(name) case Some(q) => {q} case None => {}
  }

  /** The ids found, one per matching name, in a directory listing. */
  function NameIds(names: seq<string>): set<string> {
    if names == [] then {}
    else NameIds(names[..|names| - 1]) + FoundIds(names[|names| - 1])
  }

  /** The ids found in the listings of those `managed` directories that exist. */
  function QueryIdsIn(dirs: map<string, seq<string>>, managed: seq<string>): set<string> {
    if managed == [] then {}
    else
      var d := managed[|managed| - 1];
      QueryIdsIn(dirs, managed[..|managed| - 1]) + (if d in dirs then NameIds(dirs[d]) else {})
  }

  lemma {:induction false} NameIdsFound(names: seq<string>)
    ensures forall q :: q in NameIds(names) <==> exists k :: 0 <= k < |names| && Search(names[k]) == Some(q)
  {
    if names != [] {
      var init := names[..|names| - 1];
      NameIdsFound(init);
      assert forall k :: 0 <= k < |init| ==> init[k] == names[k];
    }
  }

  /**
   * An id is collected exactly when it is the match found in some name of an
   * existing managed directory; a managed directory that does not exist is
   * skipped.
   */
  lemma {:induction false} QueryIdsInFound(dirs: map<string, seq<string>>, managed: seq<string>)
    ensures forall q :: q in QueryIdsIn(dirs, managed) <==>
      exists i, k :: 0 <= i < |managed| && managed[i] in dirs && 0 <= k < |dirs[managed[i]]|
        && Search(dirs[managed[i]][k]) == Some(q)
  {
    if managed != [] {
      var init, d := managed[..|managed| - 1], managed[|managed| - 1];
      QueryIdsInFound(dirs, init);
      if d in dirs {
        NameIdsFound(dirs[d]);
      }
      assert forall i :: 0 <= i < |init| ==> init[i] == managed[i];
    }
  }

  /** Every collected id is a whole query id. */
  lemma CollectedIdsAreQueryIds(dirs: map<string, seq<string>>, managed: seq<string>, q: string)
    requires q in QueryIdsIn(dirs, managed)
    ensures IsQueryId(q)
  {
    QueryIdsInFound(dirs, managed);
    var i, k :| 0 <= i < |managed| && managed[i] in dirs && 0 <= k < |dirs[managed[i]]|
      && Search(dirs[managed[i]][k]) == Some(q);
    SearchedIdOccurs(dirs[managed[i]][k]);
  }

  // ---------------------------------------------------------------------------
  // sorted(query_ids) and the retention split
  // ---------------------------------------------------------------------------

  predicate IsLeast(m: string, ids: set<string>) {
    forall p :: p in ids ==> p == m || LexLess(m, p)
  }

  predicate StrictlyAscending(s: seq<string>) {
    forall i, j :: 0 <= i < j < |s| ==> LexLess(s[i], s[j])
  }

  lemma {:induction false} LeastExists(ids: set<string>) returns (m: string)
    requires ids != {}
    ensures m in ids && IsLeast(m, ids)
    decreases |ids|
  {
    var x :| x in ids;
    var rest := ids - {x};
    if rest == {} {
      m := x;
      forall p | p in ids ensures p == m {
        assert p !in rest;
      }
    } else {
      var y := LeastExists(rest);
      assert forall p :: p in ids ==> p == x || p in rest;
      if LexLess(y, x) {
        m := y;
        forall p | p in ids ensures p == m || LexLess(m, p) {
          if p != x {
            assert p in rest;
          }
        }
      } else {
        m := x;
        if x != y {
          LexLessTotal(x, y);
        }
        forall p | p in ids && p != m ensures LexLess(m, p) {
          if p != y {
            LexLessTransitive(x, y, p);
          }
        }
      }
    }
  }

  lemma HasLeast(ids: set<string>)
    requires ids != {}
    ensures exists m :: m in ids && IsLeast(m, ids)
  {
    var m := LeastExists(ids);
  }

  lemma LeastUnique(ids: set<string>)
    ensures forall m, m' :: m in ids && m' in ids && IsLeast(m, ids) && IsLeast(m', ids) ==> m == m'
  {
    forall m, m' | m in ids && m' in ids && IsLeast(m, ids) && IsLeast(m', ids) ensures m == m' {
      if m != m' {
        LexLessAsymmetric(m, m');
      }
    }
  }

  /** The least id followed by the sorted others is sorted and has the same members. */
  lemma LeastFirst(m: string, ids: set<string>, rest: seq<string>)
    requires m in ids && IsLeast(m, ids)
    requires (forall q :: q in rest <==> q in ids - {m}) && StrictlyAscending(rest)
    ensures (forall q :: q in [m] + rest <==> q in ids) && StrictlyAscending([m] + rest)
  {
    var s := [m] + rest;
    forall i, j | 0 <= i < j < |s| ensures LexLess(s[i], s[j]) {
      if i == 0 {
        assert s[j] == rest[j - 1] && s[j] in ids - {m};
      } else {
        assert s[i] == rest[i - 1] && s[j] == rest[j - 1];
      }
    }
  }

  /** Python's `sorted(ids)`: the ids in ascending string order. */
  function SortedIds(ids: set<string>): (s: seq<string>)
    ensures |s| == |ids|
    ensures forall q :: q in s <==> q in ids
    ensures StrictlyAscending(s)
    decreases |ids|
  {
    if ids == {} then []
    else
      HasLeast(ids);
      LeastUnique(ids);
      var m :| m in ids && IsLeast(m, ids);
      var rest := SortedIds(ids - {m});
      LeastFirst(m, ids, rest);
      [m] + rest
  }

  /** `sorted_query_ids[:-3]`: all ids but the three greatest, in ascending order. */
  function DeleteList(ids: set<string>): seq<string>
    requires |ids| > MaxQueriesToKeep
  {
    SortedIds(ids)[..|ids| - MaxQueriesToKeep]
  }

  /** The three greatest ids, which are kept. */
  function KeepList(ids: set<string>): seq<string>
    requires |ids| > MaxQueriesToKeep
  {
    SortedIds(ids)[|ids| - MaxQueriesToKeep..]
  }

  /**
   * The retention split: with more than three ids, the delete list holds
   * all but three of them, each once; the kept three are the greatest; and
   * together the two lists hold every id exactly once.
   */
  lemma RetentionSplit(ids: set<string>)
    requires |ids| > MaxQueriesToKeep
    ensures |DeleteList(ids)| == |ids| - MaxQueriesToKeep && |KeepList(ids)| == MaxQueriesToKeep
    ensures Distinct(DeleteList(ids) + KeepList(ids))
    ensures forall q :: q in ids <==> q in DeleteList(ids) || q in KeepList(ids)
    ensures forall i, j :: 0 <= i < |DeleteList(ids)| && 0 <= j < |KeepList(ids)| ==>
      LexLess(DeleteList(ids)[i], KeepList(ids)[j])
  {
    var s := SortedIds(ids);
    assert DeleteList(ids) + KeepList(ids) == s;
    forall i, j | 0 <= i < j < |s| ensures s[i] != s[j] {
      LexLessIrreflexive(s[i]);
    }
    forall q | q in ids ensures q in DeleteList(ids) || q in KeepList(ids) {
      assert q in s;
    }
  }

  /** In a strictly ascending sequence each value sits at one position. */
  lemma AscendingPositionUnique(s: seq<string>, i: nat, j: nat)
    requires StrictlyAscending(s) && i < |s| && j < |s| && s[i] == s[j]
    ensures i == j
  {
    if i != j {
      LexLessIrreflexive(s[i]);
    }
  }

  /** The ids that sort after `q`. */
  function Greater(ids: set<string>, q: string): set<string> {
    set p | p in ids && LexLess(q, p)
  }

  /** An id is deleted exactly when at least three collected ids are greater. */
  lemma DeletedIffThreeGreater(ids: set<string>, q: string)
    requires |ids| > MaxQueriesToKeep && q in ids
    ensures q in DeleteList(ids) <==> |Greater(ids, q)| >= MaxQueriesToKeep
  {
    var s := SortedIds(ids);
    var n := |s|;
    var i :| 0 <= i < n && s[i] == q;
    GreaterAreLaterEntries(s, ids, i);
    var del := DeleteList(ids);
    assert i < n - MaxQueriesToKeep ==> del[i] == q;
    forall i' | 0 <= i' < |del| && del[i'] == q ensures i' == i {
      AscendingPositionUnique(s, i, i');
    }
  }

  /** In the sorted ids, the ids greater than entry `i` are exactly the entries after it. */
  lemma GreaterAreLaterEntries(s: seq<string>, ids: set<string>, i: nat)
    requires StrictlyAscending(s) && (forall x :: x in s <==> x in ids) && i < |s|
    ensures |Greater(ids, s[i])| == |s| - 1 - i
  {
    var q := s[i];
    var tail := s[i + 1..];
    var greater := Greater(ids, q);
    forall p | p in greater ensures p in tail {
      var k :| 0 <= k < |s| && s[k] == p;
      if k <= i {
        if k < i {
          LexLessAsymmetric(s[k], q);
        } else {
          LexLessIrreflexive(q);
        }
      }
      assert tail[k - i - 1] == p;
    }
    forall p | p in tail ensures p in greater {
      var k :| 0 <= k < |tail| && tail[k] == p;
      assert s[i + 1 + k] == p;
    }
    assert greater == set x | x in tail;
    assert StrictlyAscending(tail) by {
      forall k, l | 0 <= k < l < |tail| ensures LexLess(tail[k], tail[l]) {
        assert tail[k] == s[i + 1 + k] && tail[l] == s[i + 1 + l];
      }
    }
    DistinctCount(tail);
  }

  /** A strictly ascending sequence has as many distinct elements as entries. */
  lemma {:induction false} DistinctCount(s: seq<string>)
    requires StrictlyAscending(s)
    ensures |set x | x in s| == |s|
  {
    if s != [] {
      var rest := s[1..];
      DistinctCount(rest);
      assert (set x | x in s) == {s[0]} + (set x | x in rest);
      if s[0] in rest {
        var k :| 0 <= k < |rest| && rest[k] == s[0];
        assert LexLess(s[0], s[k + 1]);
        LexLessIrreflexive(s[0]);
      }
    }
  }

  // ---------------------------------------------------------------------------
  // Removing names
  // ---------------------------------------------------------------------------

  /** Some id of `toDelete` occurs in `name` (the `qid in name` test of the removal loop). */
  predicate Doomed(name: string, toDelete: seq<string>) {
    exists j :: 0 <= j < |toDelete| && Contains(name, toDelete[j])
  }

  /** A name of directory `d` stays unless it is doomed and its removal succeeds. */
  function Survives(d: string, toDelete: seq<string>, canDelete: (string, string) -> bool): string -> bool {
    name => !(Doomed(name, toDelete) && canDelete(d, name))
  }

  /** The directory map once the `managed` directories are pruned of names mentioning `toDelete`. */
  function PrunedDirs(
    dirs: map<string, seq<string>>, managed: seq<string>, toDelete: seq<string>,
    canDelete: (string, string) -> bool): map<string, seq<string>>
  {
    map d | d in dirs :: if d in managed then Filter(dirs[d], Survives(d, toDelete, canDelete)) else dirs[d]
  }

  /** What `cleanup_old_queries` leaves behind. */
  function CleanupResult(dirs: map<string, seq<string>>, canDelete: (string, string) -> bool): map<string, seq<string>> {
    var ids := QueryIdsIn(dirs, OutputDirs);
    if |ids| <= MaxQueriesToKeep then dirs
    else PrunedDirs(dirs, OutputDirs, DeleteList(ids), canDelete)
  }

  /** `q` is a collected id with at least three greater ones: an id whose files go. */
  predicate Stale(ids: set<string>, q: string) {
    q in ids && |Greater(ids, q)| >= MaxQueriesToKeep
  }

  /**
   * A cleanup creates and removes no directory; with at most three ids it
   * changes nothing, and it never touches a directory outside the managed list.
   */
  lemma CleanupKeepsDirectories(dirs: map<string, seq<string>>, canDelete: (string, string) -> bool, d: string)
    requires d in dirs
    ensures CleanupResult(dirs, canDelete).Keys == dirs.Keys
    ensures |QueryIdsIn(dirs, OutputDirs)| <= MaxQueriesToKeep || d !in OutputDirs ==>
      CleanupResult(dirs, canDelete)[d] == dirs[d]
  {
  }

  /** The delete list holds exactly the stale ids. */
  lemma DeleteListIsStale(ids: set<string>)
    requires |ids| > MaxQueriesToKeep
    ensures forall q :: q in DeleteList(ids) <==> Stale(ids, q)
  {
    RetentionSplit(ids);
    forall q | q in ids {
      DeletedIffThreeGreater(ids, q);
    }
  }

  /**
   * With more than three ids, a name of an existing managed directory is
   * gone after a cleanup exactly when it contains a stale id and its
   * removal succeeds; every other name remains.
   */
  lemma CleanupRemovesStaleNames(dirs: map<string, seq<string>>, canDelete: (string, string) -> bool, d: string, name: string)
    requires d in dirs && d in OutputDirs && |QueryIdsIn(dirs, OutputDirs)| > MaxQueriesToKeep
    ensures name in CleanupResult(dirs, canDelete)[d] <==>
      name in dirs[d] && !(canDelete(d, name) && exists q :: Stale(QueryIdsIn(dirs, OutputDirs), q) && Contains(name, q))
  {
    var ids := QueryIdsIn(dirs, OutputDirs);
    var del := DeleteList(ids);
    assert CleanupResult(dirs, canDelete)[d] == Filter(dirs[d], Survives(d, del, canDelete));
    DoomedIffStale(ids, name);
  }

  /** A name is doomed by the delete list exactly when it contains a stale id. */
  lemma DoomedIffStale(ids: set<string>, name: string)
    requires |ids| > MaxQueriesToKeep
    ensures Doomed(name, DeleteList(ids)) <==> exists q :: Stale(ids, q) && Contains(name, q)
  {
    var del := DeleteList(ids);
    DeleteListIsStale(ids);
    if Doomed(name, del) {
      var j :| 0 <= j < |del| && Contains(name, del[j]);
      assert Stale(ids, del[j]);
    }
    if q :| Stale(ids, q) && Contains(name, q) {
      var j :| 0 <= j < |del| && del[j] == q;
    }
  }


  /** Pruning one more directory `d` replaces its listing and leaves the rest of the map. */
  lemma PrunedDirsStep(
    dirs: map<string, seq<string>>, managed: seq<string>, d: string, toDelete: seq<string>,
    canDelete: (string, string) -> bool)
    ensures var before, after := PrunedDirs(dirs, managed, toDelete, canDelete), PrunedDirs(dirs, managed + [d], toDelete, canDelete);
      after == if d in dirs && d !in managed then before[d := Filter(dirs[d], Survives(d, toDelete, canDelete))] else before
  {
  }

  /** A directory not yet visited keeps its listing. */
  lemma PrunedDirsUntouched(
    dirs: map<string, seq<string>>, managed: seq<string>, d: string, toDelete: seq<string>,
    canDelete: (string, string) -> bool)
    requires d !in managed
    ensures var pruned := PrunedDirs(dirs, managed, toDelete, canDelete);
      (d in pruned <==> d in dirs) && (d in dirs ==> pruned[d] == dirs[d])
  {
  }

  lemma OutputDirsDistinct()
    ensures Distinct(OutputDirs)
  {
  }

  /** The names of one directory that survive, in listing order (the inner loops of the removal pass). */
  method PruneNames(d: string, names: seq<string>, toDelete: seq<string>, canDelete: (string, string) -> bool)
    returns (remaining: seq<string>)
    ensures remaining == Filter(names, Survives(d, toDelete, canDelete))
  {
    remaining := [];
    for k := 0 to |names|
      invariant remaining == Filter(names[..k], Survives(d, toDelete, canDelete))
    {
      var name := names[k];
      var removed := false;
      for j := 0 to |toDelete|
        invariant removed == (Doomed(name, toDelete[..j]) && canDelete(d, name))
      {
        if Contains(name, toDelete[j]) {
          // A second attempt on a name already removed, or whose removal failed, fails and is caught.
          if !removed {
            removed := canDelete(d, name);
          }
        }
        assert toDelete[..j + 1] == toDelete[..j] + [toDelete[j]];
      }
      assert toDelete[..|toDelete|] == toDelete;
      if !removed {
        remaining := remaining + [name];
      }
      assert names[..k + 1] == names[..k] + [name];
    }
    assert names[..|names|] == names;
  }

  // ---------------------------------------------------------------------------
  // Writing outputs
  // ---------------------------------------------------------------------------

  /**
   * The directory map once `name` is written into `d` (`os.makedirs(d,
   * exist_ok=True)`, then opening the file for writing).
   */
  function WithFile(dirs: map<string, seq<string>>, d: string, name: string): map<string, seq<string>> {
    var before := if d in dirs then dirs[d] else [];
    dirs[d := if name in before then before else before + [name]]
  }

  /**
   * After a write the directory exists and lists the name, beside what it
   * listed before, and lists no name twice that it did not list twice
   * before; every other directory is unchanged.
   */
  lemma WithFileListing(dirs: map<string, seq<string>>, d: string, name: string)
    ensures var r := WithFile(dirs, d, name);
      && r.Keys == dirs.Keys + {d}
      && (forall n :: n in r[d] <==> n == name || (d in dirs && n in dirs[d]))
      && (d in dirs && Distinct(dirs[d]) ==> Distinct(r[d]))
      && (forall e :: e in dirs && e != d ==> r[e] == dirs[e])
  {
  }

  /** The directory map once each `(directory, name)` of `files` is written, in order. */
  function WithFiles(dirs: map<string, seq<string>>, files: seq<(string, string)>): map<string, seq<string>>
    decreases |files|
  {
    if files == [] then dirs else WithFiles(WithFile(dirs, files[0].0, files[0].1), files[1..])
  }

  /** A listing that gains one name (unless it already lists it) gains that name's id. */
  lemma NameIdsWithName(names: seq<string>, name: string)
    ensures NameIds(if name in names then names else names + [name]) == NameIds(names) + FoundIds(name)
  {
    if name in names {
      NameIdsFound(names);
      var k :| 0 <= k < |names| && names[k] == name;
    } else {
      assert (names + [name])[..|names|] == names;
    }
  }

  /**
   * Writing a name into a directory adds the id found in that name to the
   * collected ids when the directory is managed, and otherwise collects the
   * same ids as before.
   */
  lemma {:induction false} QueryIdsInWithFile(dirs: map<string, seq<string>>, managed: seq<string>, d: string, name: string)
    ensures QueryIdsIn(WithFile(dirs, d, name), managed) ==
      QueryIdsIn(dirs, managed) + (if d in managed then FoundIds(name) else {})
  {
    if managed != [] {
      var init, e := managed[..|managed| - 1], managed[|managed| - 1];
      QueryIdsInWithFile(dirs, init, d, name);
      DirIdsWithFile(dirs, d, name, e);
      assert d in managed <==> d in init || d == e;
    }
  }

  /** Writing `name` into `d` adds the id found in it to the ids of `d`'s listing, and to no other directory's. */
  lemma DirIdsWithFile(dirs: map<string, seq<string>>, d: string, name: string, e: string)
    ensures var r := WithFile(dirs, d, name);
      (if e in r then NameIds(r[e]) else {}) ==
      (if e in dirs then NameIds(dirs[e]) else {}) + (if e == d then FoundIds(name) else {})
  {
    if e == d {
      NameIdsWithName(if d in dirs then dirs[d] else [], name);
    }
  }

  /** Writing files never loses a collected id. */
  lemma {:induction false} QueryIdsInWithFiles(dirs: map<string, seq<string>>, files: seq<(string, string)>)
    ensures QueryIdsIn(dirs, OutputDirs) <= QueryIdsIn(WithFiles(dirs, files), OutputDirs)
    decreases |files|
  {
    if files != [] {
      QueryIdsInWithFile(dirs, OutputDirs, files[0].0, files[0].1);
      QueryIdsInWithFiles(WithFile(dirs, files[0].0, files[0].1), files[1..]);
    }
  }

  /** The output directories, as a map from each existing directory to the names it lists. */
  class OutputStore {
    var dirs: map<string, seq<string>>

    constructor (dirs: map<string, seq<string>>)
      ensures this.dirs == dirs
    {
      this.dirs := dirs;
    }

    /** Saving one output file `name` into directory `d`, creating the directory when it is missing. */
    method WriteFile(d: string, name: string)
      modifies this
      ensures dirs == WithFile(old(dirs), d, name)
    {
      var before := if d in dirs then dirs[d] else [];
      if name !in before {
        before := before + [name];
      }
      dirs := dirs[d := before];
    }

    /** Saving the output files `files`, one after the other. */
    method WriteFiles(files: seq<(string, string)>)
      modifies this
      ensures dirs == WithFiles(old(dirs), files)
      decreases |files|
    {
      if files != [] {
        WriteFile(files[0].0, files[0].1);
        WriteFiles(files[1..]);
      }
    }

    /** The first pass: the set of ids found in the names of the existing managed directories. */
    method CollectQueryIds() returns (ids: set<string>)
      ensures ids == QueryIdsIn(dirs, OutputDirs)
    {
      ids := {};
      for i := 0 to |OutputDirs|
        invariant ids == QueryIdsIn(dirs, OutputDirs[..i])
      {
        var d := OutputDirs[i];
        assert OutputDirs[..i + 1][..i] == OutputDirs[..i];
        if d in dirs {
          var names := dirs[d];
          var found := {};
          for k := 0 to |names|
            invariant found == NameIds(names[..k])
          {
            assert names[..k + 1][..k] == names[..k];
            match Search(names[k])
            case Some(q) => found := found + {q};
            case None =>
          }
          assert names[..|names|] == names;
          ids := ids + found;
        }
      }
      assert OutputDirs[..|OutputDirs|] == OutputDirs;
    }

    /** `cleanup_old_queries`: keep the files of the three greatest ids, remove the others' names. */
    method CleanupOldQueries(canDelete: (string, string) -> bool)
      modifies this
      ensures dirs == CleanupResult(old(dirs), canDelete)
    {
      var ids := CollectQueryIds();
      if |ids| <= MaxQueriesToKeep {
        return;
      }
      var sorted := SortedIds(ids);
      var toDelete := sorted[..|sorted| - MaxQueriesToKeep];
      assert toDelete == DeleteList(ids);
      OutputDirsDistinct();
      for i := 0 to |OutputDirs|
        invariant dirs == PrunedDirs(old(dirs), OutputDirs[..i], toDelete, canDelete)
      {
        var d := OutputDirs[i];
        DistinctNotEarlier(OutputDirs, i);
        PrefixSnoc(OutputDirs, i);
        PrunedDirsStep(old(dirs), OutputDirs[..i], d, toDelete, canDelete);
        PrunedDirsUntouched(old(dirs), OutputDirs[..i], d, toDelete, canDelete);
        if d in dirs {
          var remaining := PruneNames(d, dirs[d], toDelete, canDelete);
          dirs := dirs[d := remaining];
        }
      }
      assert OutputDirs[..|OutputDirs|] == OutputDirs;
    }
  }
}
