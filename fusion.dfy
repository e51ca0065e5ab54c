/**
 * Hybrid fusion of the lexical (BM25) and dense (FAISS) sentence scores:
 * both signals are min-max normalised over the lexical sentence ids, blended
 * as `alpha * x + (1 - alpha) * y`, ranked by the blend (highest first, ties
 * in lexical order) and cut to the `topK` best.
 */
module Fusion {
  import opened Wrappers
  import opened Lists
  import opened Ranking
  import opened Schemas

  /** One `{"sentence_id": ..., "bm25_score" | "faiss_score": ...}` record of a score file. */
  datatype ScoreEntry = ScoreEntry(sentenceId: string, score: real)

  /** One ranked evidence record. */
  datatype FusedResult = FusedResult(
    queryId: string,
    sentenceId: string,
    finalScore: real,
    bm25Score: real,
    faissScore: real,
    sentenceText: string,
    docId: string,
    source: string,
    title: string,
    url: string)

  datatype FusionError =
    | EmptyScoreList                     // `min()` of an empty list raises
    | UnknownSentence(sentenceId: string) // `sentences[sid]` raises for an id missing from the sentence file

  // ---------------------------------------------------------------------------
  // Min-max normalisation
  // ---------------------------------------------------------------------------

  function SeqMin(xs: seq<real>): (m: real)
    requires xs != []
    ensures m in xs && forall k :: 0 <= k < |xs| ==> m <= xs[k]
  {
    if |xs| == 1 then xs[0]
    else
      var t := SeqMin(xs[1..]);
      assert forall k :: 1 <= k < |xs| ==> xs[k] == xs[1..][k - 1];
      if xs[0] <= t then xs[0] else t
  }

  function SeqMax(xs: seq<real>): (m: real)
    requires xs != []
    ensures m in xs && forall k :: 0 <= k < |xs| ==> xs[k] <= m
  {
    if |xs| == 1 then xs[0]
    else
      var t := SeqMax(xs[1..]);
      assert forall k :: 1 <= k < |xs| ==> xs[k] == xs[1..][k - 1];
      if xs[0] >= t then xs[0] else t
  }

  /**
   * `min_max_normalize`: `None` where `min()` raises on an empty list, all
   * zeros when every value is equal, `(v - min) / (max - min)` otherwise.
   */
  function MinMaxNormalize(values: seq<real>): (r: Option<seq<real>>)
    ensures r.None? <==> values == []
    ensures r.Some? ==> |r.value| == |values|
  {
    if values == [] then None
    else
      var lo, hi := SeqMin(values), SeqMax(values);
      if hi - lo == 0.0 then Some(seq(|values|, _ => 0.0))
      else Some(seq(|values|, k requires 0 <= k < |values| => Rescale(values[k], lo, hi)))
  }

  function Rescale(v: real, lo: real, hi: real): real
    requires hi - lo != 0.0
  {
    (v - lo) / (hi - lo)
  }

  predicate AllEqual(values: seq<real>) {
    forall i, j :: 0 <= i < |values| && 0 <= j < |values| ==> values[i] == values[j]
  }

  /** Equal values normalise to zeros; unequal ones never all do, since the maximum becomes 1. */
  lemma NormalizeAllZeroIffAllEqual(values: seq<real>)
    requires values != []
    ensures MinMaxNormalize(values).value == seq(|values|, _ => 0.0) <==> AllEqual(values)
  {
    var lo, hi := SeqMin(values), SeqMax(values);
    var r := MinMaxNormalize(values).value;
    if !AllEqual(values) {
      var i, j :| 0 <= i < |values| && 0 <= j < |values| && values[i] != values[j];
      assert lo < hi;
      var top :| 0 <= top < |values| && values[top] == hi;
      DivideSelf(hi - lo);
      assert r[top] == Rescale(hi, lo, hi) == 1.0;
    }
  }

  /** Every normalised value lies in [0, 1]. */
  lemma NormalizeInUnitInterval(values: seq<real>)
    requires values != []
    ensures forall k :: 0 <= k < |values| ==> 0.0 <= MinMaxNormalize(values).value[k] <= 1.0
  {
    var lo, hi := SeqMin(values), SeqMax(values);
    if hi - lo != 0.0 {
      forall k | 0 <= k < |values| ensures 0.0 <= Rescale(values[k], lo, hi) <= 1.0 {
        DivideWithin(values[k] - lo, hi - lo);
      }
    }
  }

  lemma DivideWithin(a: real, d: real)
    requires d > 0.0 && 0.0 <= a <= d
    ensures 0.0 <= a / d <= 1.0
  {
    assert a / d * d == a;
  }

  /** When the values differ, the minimum maps to 0 and the maximum to 1. */
  lemma NormalizeExtremes(values: seq<real>)
    requires values != [] && !AllEqual(values)
    ensures forall k :: 0 <= k < |values| && values[k] == SeqMin(values) ==> MinMaxNormalize(values).value[k] == 0.0
    ensures forall k :: 0 <= k < |values| && values[k] == SeqMax(values) ==> MinMaxNormalize(values).value[k] == 1.0
  {
    var i, j :| 0 <= i < |values| && 0 <= j < |values| && values[i] != values[j];
    var lo, hi := SeqMin(values), SeqMax(values);
    assert lo < hi;
    var r := MinMaxNormalize(values).value;
    assert forall k :: 0 <= k < |values| ==> r[k] == Rescale(values[k], lo, hi);
    RescaleEnds(lo, hi);
    forall k | 0 <= k < |values| && values[k] == lo ensures r[k] == 0.0 {
      assert r[k] == Rescale(lo, lo, hi);
    }
    forall k | 0 <= k < |values| && values[k] == hi ensures r[k] == 1.0 {
      assert r[k] == Rescale(hi, lo, hi);
    }
  }

  lemma RescaleEnds(lo: real, hi: real)
    requires lo < hi
    ensures Rescale(lo, lo, hi) == 0.0 && Rescale(hi, lo, hi) == 1.0
  {
    DivideSelf(hi - lo);
  }

  /** Normalisation preserves order, and strict order too when the values differ. */
  lemma NormalizeMonotone(values: seq<real>, i: nat, j: nat)
    requires i < |values| && j < |values| && values[i] <= values[j]
    ensures MinMaxNormalize(values).value[i] <= MinMaxNormalize(values).value[j]
    ensures values[i] < values[j] ==> MinMaxNormalize(values).value[i] < MinMaxNormalize(values).value[j]
  {
    var lo, hi := SeqMin(values), SeqMax(values);
    if hi - lo != 0.0 {
      DivideMonotone(values[i] - lo, values[j] - lo, hi - lo);
    }
  }

  lemma DivideSelf(d: real)
    requires d != 0.0
    ensures d / d == 1.0 && 0.0 / d == 0.0
  {
  }

  lemma DivideMonotone(a: real, b: real, d: real)
    requires d > 0.0 && a <= b
    ensures a / d <= b / d && (a < b ==> a / d < b / d)
  {
    assert a / d * d == a && b / d * d == b;
  }

  // ---------------------------------------------------------------------------
  // The score maps and the canonical id list
  // ---------------------------------------------------------------------------

  /** `{s["sentence_id"]: s[score] for s in scores}`: a later duplicate id wins. */
  function ScoreMap(entries: seq<ScoreEntry>): map<string, real> {
    LastWins(Pairs(entries))
  }

  function EntryIds(entries: seq<ScoreEntry>): (ids: seq<string>)
    ensures |ids| == |entries| && forall k :: 0 <= k < |ids| ==> ids[k] == entries[k].sentenceId
  {
    seq(|entries|, k requires 0 <= k < |entries| => entries[k].sentenceId)
  }

  /** `list(bm25_map.keys())`: the lexical ids, each once, in first-insertion order. */
  function CanonicalIds(lexical: seq<ScoreEntry>): (ids: seq<string>)
    ensures Distinct(ids)
    ensures forall id :: id in ids <==> id in ScoreMap(lexical)
    ensures ids == [] <==> lexical == []
  {
    var ids := Dedup(EntryIds(lexical));
    assert forall id :: id in ScoreMap(lexical) <==> id in EntryIds(lexical) by {
      forall id ensures id in ScoreMap(lexical) <==> id in EntryIds(lexical) {
        var pairs := Pairs(lexical);
        if id in EntryIds(lexical) {
          var k :| 0 <= k < |lexical| && EntryIds(lexical)[k] == id;
          assert pairs[k].0 == id;
        }
      }
    }
    assert lexical != [] ==> EntryIds(lexical)[0] in ids;
    ids
  }

  /** `faiss_map.get(sid, 0.0)`. */
  function DenseOrZero(dense: map<string, real>, id: string): real {
    if id in dense then dense[id] else 0.0
  }

  /** `bm25_values`: the raw lexical score of each canonical id. */
  function LexicalValues(lexical: seq<ScoreEntry>): (xs: seq<real>)
    ensures |xs| == |CanonicalIds(lexical)|
  {
    var ids := CanonicalIds(lexical);
    var m := ScoreMap(lexical);
    seq(|ids|, k requires 0 <= k < |ids| => m[ids[k]])
  }

  /** `faiss_values`: the raw dense score of each canonical id, with a raw 0.0 where it has none. */
  function DenseValues(lexical: seq<ScoreEntry>, dense: seq<ScoreEntry>): (ys: seq<real>)
    ensures |ys| == |CanonicalIds(lexical)|
  {
    var ids := CanonicalIds(lexical);
    seq(|ids|, k requires 0 <= k < |ids| => DenseOrZero(ScoreMap(dense), ids[k]))
  }

  /** The first canonical id, in order, that the sentence map lacks. */
  function FirstUnknown(ids: seq<string>, sentences: map<string, Sentence>): (r: Option<string>)
    ensures r.None? <==> forall k :: 0 <= k < |ids| ==> ids[k] in sentences
    ensures r.Some? ==> exists i :: 0 <= i < |ids| && ids[i] == r.value && ids[i] !in sentences
                                     && forall k :: 0 <= k < i ==> ids[k] in sentences
  {
    if ids == [] then None
    else if ids[0] !in sentences then Some(ids[0])
    else
      var r := FirstUnknown(ids[1..], sentences);
      assert forall k :: 1 <= k < |ids| ==> ids[k] == ids[1..][k - 1];
      r
  }

  // ---------------------------------------------------------------------------
  // The fused records and the ranking
  // ---------------------------------------------------------------------------

  /** The blend of a normalised lexical score `x` and a normalised dense score `y`. */
  function Blend(alpha: real, x: real, y: real): real {
    alpha * x + (1.0 - alpha) * y
  }

  /** The record appended for one sentence id: its blended score, its raw scores and its sentence's fields. */
  function FuseRecord(queryId: string, id: string, alpha: real, x: real, y: real,
                      bm25: real, faiss: real, s: Sentence): FusedResult
  {
    FusedResult(queryId, id, Blend(alpha, x, y), bm25, faiss, s.sentenceText, s.docId, s.source, s.title, s.url)
  }

  /** The records for the ids `ids`, given their score maps and normalised scores. */
  function FuseAll(queryId: string, ids: seq<string>, bm25Map: map<string, real>, faissMap: map<string, real>,
                   xs: seq<real>, ys: seq<real>, sentences: map<string, Sentence>, alpha: real): (f: seq<FusedResult>)
    requires |xs| == |ids| == |ys|
    requires forall k :: 0 <= k < |ids| ==> ids[k] in bm25Map && ids[k] in sentences
    ensures |f| == |ids|
  {
    seq(|ids|, k requires 0 <= k < |ids| =>
      FuseRecord(queryId, ids[k], alpha, xs[k], ys[k], bm25Map[ids[k]], DenseOrZero(faissMap, ids[k]), sentences[ids[k]]))
  }

  function Finals(fused: seq<FusedResult>): (fs: seq<real>)
    ensures |fs| == |fused| && forall k :: 0 <= k < |fs| ==> fs[k] == fused[k].finalScore
  {
    seq(|fused|, k requires 0 <= k < |fused| => fused[k].finalScore)
  }

  /** Every sentence of the canonical ids is known. */
  predicate AllKnown(lexical: seq<ScoreEntry>, sentences: map<string, Sentence>) {
    forall k :: 0 <= k < |CanonicalIds(lexical)| ==> CanonicalIds(lexical)[k] in sentences
  }

  /** The list `fused` before sorting: one record per canonical id, in canonical order. */
  function Unranked(queryId: string, lexical: seq<ScoreEntry>, dense: seq<ScoreEntry>,
                    sentences: map<string, Sentence>, alpha: real): (f: seq<FusedResult>)
    requires lexical != [] && AllKnown(lexical, sentences)
    ensures |f| == |CanonicalIds(lexical)|
  {
    FuseAll(queryId, CanonicalIds(lexical), ScoreMap(lexical), ScoreMap(dense),
            MinMaxNormalize(LexicalValues(lexical)).value, MinMaxNormalize(DenseValues(lexical, dense)).value,
            sentences, alpha)
  }

  /** `fuse_and_rank`, stated as a value: the error it raises, or the ranked and truncated records. */
  function FuseAndRankSpec(queryId: string, lexical: seq<ScoreEntry>, dense: seq<ScoreEntry>,
                           sentences: map<string, Sentence>, alpha: real, topK: int): (r: Result<seq<FusedResult>, FusionError>)
    ensures r == Failure(EmptyScoreList) <==> lexical == []
    ensures r.Success? <==> lexical != [] && AllKnown(lexical, sentences)
    ensures r.Failure? && r.error.UnknownSentence? ==>
              r.error.sentenceId in ScoreMap(lexical) && r.error.sentenceId !in sentences
  {
    if lexical == [] then Failure(EmptyScoreList)
    else
      match FirstUnknown(CanonicalIds(lexical), sentences)
      case Some(id) => Failure(UnknownSentence(id))
      case None =>
        var f := Unranked(queryId, lexical, dense, sentences, alpha);
        Success(PyPrefix(Arrange(f, RankOrder(Finals(f))), topK))
  }

  /**
   * `fuse_and_rank` on loaded inputs: builds the records with an append loop,
   * ranks them with the stable descending sort and keeps the first `topK`.
   */
  method FuseAndRank(queryId: string, lexical: seq<ScoreEntry>, dense: seq<ScoreEntry>,
                     sentences: map<string, Sentence>, alpha: real, topK: int)
    returns (r: Result<seq<FusedResult>, FusionError>)
    ensures r == FuseAndRankSpec(queryId, lexical, dense, sentences, alpha, topK)
  {
    var bm25Map := ScoreMap(lexical);
    var faissMap := ScoreMap(dense);
    var ids := CanonicalIds(lexical);
    var bm25Norm := MinMaxNormalize(LexicalValues(lexical));
    var faissNorm := MinMaxNormalize(DenseValues(lexical, dense));
    if bm25Norm.None? || faissNorm.None? {
      return Failure(EmptyScoreList);
    }
    var built := BuildFused(queryId, ids, bm25Map, faissMap, bm25Norm.value, faissNorm.value, sentences, alpha);
    if built.Failure? {
      return Failure(built.error);
    }
    var fused := built.value;
    var order := StableRankDescending(Finals(fused));
    return Success(PyPrefix(Arrange(fused, order), topK));
  }

  /** The append loop of `fuse_and_rank`, stopping at the first id without a sentence. */
  method BuildFused(queryId: string, ids: seq<string>, bm25Map: map<string, real>, faissMap: map<string, real>,
                    bm25Norm: seq<real>, faissNorm: seq<real>, sentences: map<string, Sentence>, alpha: real)
    returns (r: Result<seq<FusedResult>, FusionError>)
    requires |bm25Norm| == |ids| == |faissNorm|
    requires forall k :: 0 <= k < |ids| ==> ids[k] in bm25Map
    ensures r.Success? <==> FirstUnknown(ids, sentences).None?
    ensures r.Success? ==> r.value == FuseAll(queryId, ids, bm25Map, faissMap, bm25Norm, faissNorm, sentences, alpha)
    ensures r.Failure? ==> r.error == UnknownSentence(FirstUnknown(ids, sentences).value)
  {
    var fused: seq<FusedResult> := [];
    var i := 0;
    while i < |ids|
      invariant 0 <= i <= |ids| && |fused| == i
      invariant forall k :: 0 <= k < i ==> ids[k] in sentences
      invariant forall k :: 0 <= k < i ==>
        fused[k] == FuseRecord(queryId, ids[k], alpha, bm25Norm[k], faissNorm[k], bm25Map[ids[k]],
                               DenseOrZero(faissMap, ids[k]), sentences[ids[k]])
    {
      var sid := ids[i];
      if sid !in sentences {
        FirstUnknownAt(ids, sentences, i);
        return Failure(UnknownSentence(sid));
      }
      var sent := sentences[sid];
      var finalScore := alpha * bm25Norm[i] + (1.0 - alpha) * faissNorm[i];
      fused := fused + [FusedResult(queryId, sid, finalScore, bm25Map[sid], DenseOrZero(faissMap, sid),
                                    sent.sentenceText, sent.docId, sent.source, sent.title, sent.url)];
      i := i + 1;
    }
    return Success(fused);
  }

  /** The first unknown id is the one at the first position whose sentence is missing. */
  lemma FirstUnknownAt(ids: seq<string>, sentences: map<string, Sentence>, i: nat)
    requires i < |ids| && ids[i] !in sentences && forall k :: 0 <= k < i ==> ids[k] in sentences
    ensures FirstUnknown(ids, sentences) == Some(ids[i])
  {
    var r := FirstUnknown(ids, sentences);
    var j :| 0 <= j < |ids| && ids[j] == r.value && ids[j] !in sentences
             && forall k :: 0 <= k < j ==> ids[k] in sentences;
    assert !(j < i) && !(i < j);
  }

  // ---------------------------------------------------------------------------
  // Properties of the ranked result
  // ---------------------------------------------------------------------------

  /** The `k`-th unranked record is the one of the `k`-th canonical id. */
  lemma UnrankedAt(queryId: string, lexical: seq<ScoreEntry>, dense: seq<ScoreEntry>,
                   sentences: map<string, Sentence>, alpha: real, k: nat)
    requires lexical != [] && AllKnown(lexical, sentences) && k < |CanonicalIds(lexical)|
    ensures var id := CanonicalIds(lexical)[k];
      Unranked(queryId, lexical, dense, sentences, alpha)[k] ==
        FuseRecord(queryId, id, alpha, MinMaxNormalize(LexicalValues(lexical)).value[k],
                   MinMaxNormalize(DenseValues(lexical, dense)).value[k],
                   ScoreMap(lexical)[id], DenseOrZero(ScoreMap(dense), id), sentences[id])
  {
  }

  /** A successful result lists unranked records in the stable descending order of their final scores. */
  lemma ResultIsRanked(queryId: string, lexical: seq<ScoreEntry>, dense: seq<ScoreEntry>,
                       sentences: map<string, Sentence>, alpha: real, topK: int)
    requires FuseAndRankSpec(queryId, lexical, dense, sentences, alpha, topK).Success?
    ensures var f := Unranked(queryId, lexical, dense, sentences, alpha);
      var order := RankOrder(Finals(f));
      && IsStableRanking(Finals(f), order)
      && FuseAndRankSpec(queryId, lexical, dense, sentences, alpha, topK).value == PyPrefix(Arrange(f, order), topK)
  {
    var f := Unranked(queryId, lexical, dense, sentences, alpha);
    RankOrderIsStableRanking(Finals(f));
  }

  lemma BlendWithin(alpha: real, x: real, y: real)
    requires 0.0 <= alpha <= 1.0 && 0.0 <= x <= 1.0 && 0.0 <= y <= 1.0
    ensures 0.0 <= Blend(alpha, x, y) <= 1.0
  {
    ScaledWithin(alpha, x);
    ScaledWithin(1.0 - alpha, y);
    SumWithin(alpha * x, (1.0 - alpha) * y, alpha);
  }

  /** A weight times a value in [0, 1] lies between 0 and the weight. */
  lemma ScaledWithin(w: real, x: real)
    requires 0.0 <= w && 0.0 <= x <= 1.0
    ensures 0.0 <= w * x <= w
  {
    assert w * (1.0 - x) == w - w * x;
    assert w * (1.0 - x) >= 0.0;
  }

  lemma SumWithin(a: real, b: real, alpha: real)
    requires 0.0 <= a <= alpha && 0.0 <= b <= 1.0 - alpha
    ensures 0.0 <= a + b <= 1.0
  {
  }

  /** With `alpha` in [0, 1], every final score lies in [0, 1]. */
  lemma FinalScoresInUnitInterval(queryId: string, lexical: seq<ScoreEntry>, dense: seq<ScoreEntry>,
                                  sentences: map<string, Sentence>, alpha: real, topK: int)
    requires 0.0 <= alpha <= 1.0
    ensures var r := FuseAndRankSpec(queryId, lexical, dense, sentences, alpha, topK);
      r.Success? ==> forall k :: 0 <= k < |r.value| ==> 0.0 <= r.value[k].finalScore <= 1.0
  {
    var r := FuseAndRankSpec(queryId, lexical, dense, sentences, alpha, topK);
    if r.Success? {
      var f := Unranked(queryId, lexical, dense, sentences, alpha);
      var xs := MinMaxNormalize(LexicalValues(lexical)).value;
      var ys := MinMaxNormalize(DenseValues(lexical, dense)).value;
      NormalizeInUnitInterval(LexicalValues(lexical));
      NormalizeInUnitInterval(DenseValues(lexical, dense));
      ResultIsRanked(queryId, lexical, dense, sentences, alpha, topK);
      forall j | 0 <= j < |f| ensures 0.0 <= f[j].finalScore <= 1.0 {
        UnrankedAt(queryId, lexical, dense, sentences, alpha, j);
        BlendWithin(alpha, xs[j], ys[j]);
      }
      var arranged := Arrange(f, RankOrder(Finals(f)));
      assert r.value <= arranged;
      forall k | 0 <= k < |r.value| ensures 0.0 <= r.value[k].finalScore <= 1.0 {
        assert r.value[k] == arranged[k];
      }
    }
  }

  /** The `j`-th unranked record belongs to the `j`-th canonical id. */
  lemma UnrankedIds(queryId: string, lexical: seq<ScoreEntry>, dense: seq<ScoreEntry>,
                    sentences: map<string, Sentence>, alpha: real)
    requires lexical != [] && AllKnown(lexical, sentences)
    ensures var f := Unranked(queryId, lexical, dense, sentences, alpha);
      forall j :: 0 <= j < |f| ==> f[j].sentenceId == CanonicalIds(lexical)[j]
  {
  }

  /**
   * The result is non-increasing in final score, and records with equal
   * scores keep the order of their ids in the lexical score list.
   */
  lemma ResultOrderedByScore(queryId: string, lexical: seq<ScoreEntry>, dense: seq<ScoreEntry>,
                             sentences: map<string, Sentence>, alpha: real, topK: int)
    ensures var r := FuseAndRankSpec(queryId, lexical, dense, sentences, alpha, topK);
      r.Success? ==> RankedById(r.value, CanonicalIds(lexical))
  {
    var r := FuseAndRankSpec(queryId, lexical, dense, sentences, alpha, topK);
    if r.Success? {
      var f := Unranked(queryId, lexical, dense, sentences, alpha);
      ResultIsRanked(queryId, lexical, dense, sentences, alpha, topK);
      UnrankedIds(queryId, lexical, dense, sentences, alpha);
      ArrangedRecordsRanked(f, CanonicalIds(lexical), RankOrder(Finals(f)), topK);
    }
  }

  /**
   * Every record's id is in `ids`, and each record comes before a later one by
   * a higher final score, or by an equal score and an earlier id in `ids`.
   */
  ghost predicate RankedById(rs: seq<FusedResult>, ids: seq<string>) {
    forall k, l :: 0 <= k < l < |rs| ==>
      && rs[k].sentenceId in ids && rs[l].sentenceId in ids
      && (rs[k].finalScore > rs[l].finalScore
          || (rs[k].finalScore == rs[l].finalScore
              && FirstIndex(ids, rs[k].sentenceId) < FirstIndex(ids, rs[l].sentenceId)))
  }

  lemma ArrangedRecordsRanked(f: seq<FusedResult>, ids: seq<string>, order: seq<nat>, topK: int)
    requires Distinct(ids) && |f| == |ids| && forall j :: 0 <= j < |f| ==> f[j].sentenceId == ids[j]
    requires IsStableRanking(Finals(f), order)
    ensures RankedById(PyPrefix(Arrange(f, order), topK), ids)
  {
    var rs := PyPrefix(Arrange(f, order), topK);
    forall k, l | 0 <= k < l < |rs|
      ensures rs[k].sentenceId in ids && rs[l].sentenceId in ids
      ensures rs[k].finalScore > rs[l].finalScore
          || (rs[k].finalScore == rs[l].finalScore
              && FirstIndex(ids, rs[k].sentenceId) < FirstIndex(ids, rs[l].sentenceId))
    {
      var i, j := order[k], order[l];
      assert rs[k] == f[i] && rs[l] == f[j];
      assert RanksBefore(Finals(f), i, j);
      DistinctFirstIndex(ids, i);
      DistinctFirstIndex(ids, j);
    }
  }

  lemma DistinctFirstIndex(ids: seq<string>, i: nat)
    requires Distinct(ids) && i < |ids|
    ensures FirstIndex(ids, ids[i]) == i
  {
  }

  /**
   * For `topK >= 0` the result has `min(topK, n)` records for `n` canonical
   * ids, and it is the first `topK` records of the result with no limit.
   */
  lemma ResultIsTopKPrefix(queryId: string, lexical: seq<ScoreEntry>, dense: seq<ScoreEntry>,
                           sentences: map<string, Sentence>, alpha: real, topK: int)
    requires topK >= 0
    ensures var r := FuseAndRankSpec(queryId, lexical, dense, sentences, alpha, topK);
      var all := FuseAndRankSpec(queryId, lexical, dense, sentences, alpha, |lexical|);
      r.Success? ==>
        && all.Success?
        && |r.value| == (if topK < |CanonicalIds(lexical)| then topK else |CanonicalIds(lexical)|)
        && |all.value| == |CanonicalIds(lexical)|
        && r.value <= all.value
  {
  }

  /** With no effective limit, the result holds every lexical id exactly once. */
  lemma ResultCoversLexicalIds(queryId: string, lexical: seq<ScoreEntry>, dense: seq<ScoreEntry>,
                               sentences: map<string, Sentence>, alpha: real, topK: int)
    requires topK >= |lexical|
    ensures var r := FuseAndRankSpec(queryId, lexical, dense, sentences, alpha, topK);
      r.Success? ==> CoversOnce(r.value, CanonicalIds(lexical))
  {
    var r := FuseAndRankSpec(queryId, lexical, dense, sentences, alpha, topK);
    if r.Success? {
      var f := Unranked(queryId, lexical, dense, sentences, alpha);
      ResultIsRanked(queryId, lexical, dense, sentences, alpha, topK);
      UnrankedIds(queryId, lexical, dense, sentences, alpha);
      ArrangedRecordsCover(f, CanonicalIds(lexical), RankOrder(Finals(f)), topK);
    }
  }

  /** `rs` holds a record for each id of `ids`, and no two records share an id. */
  ghost predicate CoversOnce(rs: seq<FusedResult>, ids: seq<string>) {
    && (forall k, l :: 0 <= k < l < |rs| ==> rs[k].sentenceId != rs[l].sentenceId)
    && (forall id :: id in ids <==> exists k :: 0 <= k < |rs| && rs[k].sentenceId == id)
  }

  lemma ArrangedRecordsCover(f: seq<FusedResult>, ids: seq<string>, order: seq<nat>, topK: int)
    requires Distinct(ids) && |f| == |ids| && forall j :: 0 <= j < |f| ==> f[j].sentenceId == ids[j]
    requires IsStableRanking(Finals(f), order) && topK >= |f|
    ensures CoversOnce(PyPrefix(Arrange(f, order), topK), ids)
  {
    var rs := PyPrefix(Arrange(f, order), topK);
    RankingIsPermutation(Finals(f), order);
    assert rs == Arrange(f, order);
    forall id | id in ids ensures exists k :: 0 <= k < |rs| && rs[k].sentenceId == id {
      var i :| 0 <= i < |ids| && ids[i] == id;
      assert i in order;
      var k :| 0 <= k < |order| && order[k] == i;
      assert rs[k].sentenceId == id;
    }
  }

  /**
   * Each record carries the query id, the raw lexical score, the raw dense
   * score or 0.0, and the text, document id, source, title and url of its
   * sentence.
   */
  /** A record carries the query id, its id's raw scores (dense defaulting to 0.0) and its sentence's fields. */
  predicate FieldsFromInputs(e: FusedResult, queryId: string, lexicalMap: map<string, real>,
                             denseMap: map<string, real>, sentences: map<string, Sentence>) {
    && e.queryId == queryId
    && e.sentenceId in lexicalMap && e.sentenceId in sentences
    && e.bm25Score == lexicalMap[e.sentenceId]
    && e.faissScore == DenseOrZero(denseMap, e.sentenceId)
    && var s := sentences[e.sentenceId];
       e.sentenceText == s.sentenceText && e.docId == s.docId && e.source == s.source
       && e.title == s.title && e.url == s.url
  }

  lemma ResultFieldsFromInputs(queryId: string, lexical: seq<ScoreEntry>, dense: seq<ScoreEntry>,
                               sentences: map<string, Sentence>, alpha: real, topK: int)
    ensures var r := FuseAndRankSpec(queryId, lexical, dense, sentences, alpha, topK);
      r.Success? ==> forall k :: 0 <= k < |r.value| ==>
        FieldsFromInputs(r.value[k], queryId, ScoreMap(lexical), ScoreMap(dense), sentences)
  {
    var r := FuseAndRankSpec(queryId, lexical, dense, sentences, alpha, topK);
    if r.Success? {
      var f := Unranked(queryId, lexical, dense, sentences, alpha);
      var order := RankOrder(Finals(f));
      ResultIsRanked(queryId, lexical, dense, sentences, alpha, topK);
      forall j | 0 <= j < |f| ensures FieldsFromInputs(f[j], queryId, ScoreMap(lexical), ScoreMap(dense), sentences) {
        UnrankedAt(queryId, lexical, dense, sentences, alpha, j);
      }
      var arranged := Arrange(f, order);
      assert r.value <= arranged;
      forall k | 0 <= k < |r.value|
        ensures FieldsFromInputs(r.value[k], queryId, ScoreMap(lexical), ScoreMap(dense), sentences)
      {
        assert r.value[k] == arranged[k] == f[order[k]];
      }
    }
  }


  function Pairs(entries: seq<ScoreEntry>): seq<(string, real)> {
    seq(|entries|, k requires 0 <= k < |entries| => (entries[k].sentenceId, entries[k].score))
  }

  /** Dense scores of ids that have no lexical score change nothing: only lexical ids are ranked. */
  lemma DenseOnlyIdsIgnored(queryId: string, lexical: seq<ScoreEntry>, dense: seq<ScoreEntry>, extra: seq<ScoreEntry>,
                            sentences: map<string, Sentence>, alpha: real, topK: int)
    requires forall l :: 0 <= l < |extra| ==> extra[l].sentenceId !in ScoreMap(lexical)
    ensures FuseAndRankSpec(queryId, lexical, dense + extra, sentences, alpha, topK)
         == FuseAndRankSpec(queryId, lexical, dense, sentences, alpha, topK)
  {
    DenseValuesIgnoreExtra(lexical, dense, extra);
    if lexical != [] && AllKnown(lexical, sentences) {
      assert Unranked(queryId, lexical, dense + extra, sentences, alpha) == Unranked(queryId, lexical, dense, sentences, alpha);
    }
  }

  /** The dense column read for the lexical ids ignores dense-only entries. */
  lemma DenseValuesIgnoreExtra(lexical: seq<ScoreEntry>, dense: seq<ScoreEntry>, extra: seq<ScoreEntry>)
    requires forall l :: 0 <= l < |extra| ==> extra[l].sentenceId !in ScoreMap(lexical)
    ensures DenseValues(lexical, dense + extra) == DenseValues(lexical, dense)
  {
    var ids := CanonicalIds(lexical);
    assert Pairs(dense + extra) == Pairs(dense) + Pairs(extra);
    forall k | 0 <= k < |ids|
      ensures DenseOrZero(ScoreMap(dense + extra), ids[k]) == DenseOrZero(ScoreMap(dense), ids[k])
    {
      LastWinsIgnores(Pairs(dense), Pairs(extra), ids[k]);
    }
  }

  // ---------------------------------------------------------------------------
  // Worked examples
  // ---------------------------------------------------------------------------

  function ExampleSentence(id: string): Sentence {
    Sentence("q", id, "wiki_1", "wikipedia", "Title", "https://example.org", 0, "Text " + id)
  }

  function ExampleLexical(): seq<ScoreEntry> {
    [ScoreEntry("a", 2.0), ScoreEntry("b", 4.0), ScoreEntry("c", 4.0)]
  }

  function ExampleDense(): seq<ScoreEntry> {
    [ScoreEntry("a", 0.5), ScoreEntry("b", 0.5), ScoreEntry("c", 1.0)]
  }

  function ExampleSentences(): map<string, Sentence> {
    map["a" := ExampleSentence("a"), "b" := ExampleSentence("b"), "c" := ExampleSentence("c")]
  }

  lemma ThreePairs(p: seq<(string, real)>, x: real, y: real, z: real)
    requires p == [("a", x), ("b", y), ("c", z)]
    ensures LastWins(p) == map["a" := x, "b" := y, "c" := z]
  {
    assert p[..2] == [("a", x), ("b", y)] && p[..2][..1] == [("a", x)];
    assert LastWins(p[..2][..1]) == map["a" := x];
  }

  lemma ExampleMaps()
    ensures CanonicalIds(ExampleLexical()) == ["a", "b", "c"]
    ensures ScoreMap(ExampleLexical()) == map["a" := 2.0, "b" := 4.0, "c" := 4.0]
    ensures ScoreMap(ExampleDense()) == map["a" := 0.5, "b" := 0.5, "c" := 1.0]
  {
    ExampleIds();
    assert Pairs(ExampleLexical()) == [("a", 2.0), ("b", 4.0), ("c", 4.0)];
    ThreePairs(Pairs(ExampleLexical()), 2.0, 4.0, 4.0);
    assert Pairs(ExampleDense()) == [("a", 0.5), ("b", 0.5), ("c", 1.0)];
    ThreePairs(Pairs(ExampleDense()), 0.5, 0.5, 1.0);
  }

  lemma ExampleIds()
    ensures CanonicalIds(ExampleLexical()) == ["a", "b", "c"]
  {
    assert EntryIds(ExampleLexical()) == ["a", "b", "c"];
    assert Dedup(["a", "b"]) == ["a", "b"] by { assert Dedup(["a"]) == ["a"]; assert ["a", "b"][..1] == ["a"]; }
    assert ["a", "b", "c"][..2] == ["a", "b"];
  }

  lemma ExampleValues()
    ensures LexicalValues(ExampleLexical()) == [2.0, 4.0, 4.0]
    ensures DenseValues(ExampleLexical(), ExampleDense()) == [0.5, 0.5, 1.0]
  {
    ExampleMaps();
    ExampleLexicalValues(CanonicalIds(ExampleLexical()), ScoreMap(ExampleLexical()));
    ExampleDenseValues(CanonicalIds(ExampleLexical()), ScoreMap(ExampleDense()));
  }

  lemma ExampleLexicalValues(ids: seq<string>, m: map<string, real>)
    requires ids == ["a", "b", "c"] && m == map["a" := 2.0, "b" := 4.0, "c" := 4.0]
    ensures seq(|ids|, k requires 0 <= k < |ids| => m[ids[k]]) == [2.0, 4.0, 4.0]
  {
  }

  lemma ExampleDenseValues(ids: seq<string>, m: map<string, real>)
    requires ids == ["a", "b", "c"] && m == map["a" := 0.5, "b" := 0.5, "c" := 1.0]
    ensures seq(|ids|, k requires 0 <= k < |ids| => DenseOrZero(m, ids[k])) == [0.5, 0.5, 1.0]
  {
  }

  lemma ExampleNormalised()
    ensures MinMaxNormalize([2.0, 4.0, 4.0]).value == [0.0, 1.0, 1.0]
    ensures MinMaxNormalize([0.5, 0.5, 1.0]).value == [0.0, 0.0, 1.0]
  {
    NormalisedThree(2.0, 4.0, 4.0);
    NormalisedThree(0.5, 0.5, 1.0);
  }

  /** Three values whose minimum comes first and maximum last normalise through `Rescale`. */
  lemma NormalisedThree(x: real, y: real, z: real)
    requires x <= y <= z && x < z && (y == x || y == z)
    ensures MinMaxNormalize([x, y, z]).value == [0.0, if y == x then 0.0 else 1.0, 1.0]
  {
    var xs := [x, y, z];
    ExtremesOfThree(x, y, z);
    RescaleEnds(x, z);
    var r := MinMaxNormalize(xs).value;
    assert r[0] == 0.0 && r[2] == 1.0;
    if y == x {
      assert r[1] == 0.0;
    } else {
      assert r[1] == 1.0;
    }
  }

  lemma ExtremesOfThree(x: real, y: real, z: real)
    requires x <= y <= z
    ensures SeqMin([x, y, z]) == x && SeqMax([x, y, z]) == z
  {
    assert [x, y, z][1..] == [y, z] && [x, y, z][1..][1..] == [z];
  }

  lemma ExampleUnranked()
    ensures AllKnown(ExampleLexical(), ExampleSentences())
    ensures var f := Unranked("q", ExampleLexical(), ExampleDense(), ExampleSentences(), 0.6);
      && |f| == 3 && Finals(f) == [0.0, 0.6, 1.0]
      && f[0].sentenceId == "a" && f[1].sentenceId == "b" && f[2].sentenceId == "c"
  {
    ExampleMaps();
    var f := Unranked("q", ExampleLexical(), ExampleDense(), ExampleSentences(), 0.6);
    ExampleRecord(0);
    ExampleRecord(1);
    ExampleRecord(2);
    FinalsOfThree(f);
  }

  lemma ExampleRecord(k: nat)
    requires k < 3
    ensures AllKnown(ExampleLexical(), ExampleSentences())
    ensures var f := Unranked("q", ExampleLexical(), ExampleDense(), ExampleSentences(), 0.6);
      |f| == 3 && f[k].sentenceId == ["a", "b", "c"][k] && f[k].finalScore == [0.0, 0.6, 1.0][k]
  {
    ExampleRecordId(k);
    ExampleRecordScore(k);
    ExampleBlend(k);
  }

  lemma ExampleRecordId(k: nat)
    requires k < 3
    ensures AllKnown(ExampleLexical(), ExampleSentences())
    ensures var f := Unranked("q", ExampleLexical(), ExampleDense(), ExampleSentences(), 0.6);
      |f| == 3 && f[k].sentenceId == ["a", "b", "c"][k]
  {
    ExampleMaps();
    var ids := CanonicalIds(ExampleLexical());
    assert AllKnown(ExampleLexical(), ExampleSentences()) by {
      forall j | 0 <= j < |ids| ensures ids[j] in ExampleSentences() {
        assert ids[j] in ["a", "b", "c"];
      }
    }
    UnrankedAt("q", ExampleLexical(), ExampleDense(), ExampleSentences(), 0.6, k);
  }

  lemma ExampleRecordScore(k: nat)
    requires k < 3 && AllKnown(ExampleLexical(), ExampleSentences())
    ensures var f := Unranked("q", ExampleLexical(), ExampleDense(), ExampleSentences(), 0.6);
      |f| == 3 && f[k].finalScore == Blend(0.6, [0.0, 1.0, 1.0][k], [0.0, 0.0, 1.0][k])
  {
    ExampleNorms();
    UnrankedAt("q", ExampleLexical(), ExampleDense(), ExampleSentences(), 0.6, k);
  }

  lemma ExampleNorms()
    ensures MinMaxNormalize(LexicalValues(ExampleLexical())).value == [0.0, 1.0, 1.0]
    ensures MinMaxNormalize(DenseValues(ExampleLexical(), ExampleDense())).value == [0.0, 0.0, 1.0]
  {
    ExampleValues();
    ExampleNormalised();
  }

  lemma ExampleBlend(k: nat)
    requires k < 3
    ensures Blend(0.6, [0.0, 1.0, 1.0][k], [0.0, 0.0, 1.0][k]) == [0.0, 0.6, 1.0][k]
  {
  }

  lemma FinalsOfThree(f: seq<FusedResult>)
    requires |f| == 3
    ensures Finals(f) == [f[0].finalScore, f[1].finalScore, f[2].finalScore]
  {
  }

  lemma ExampleOrder()
    ensures RankOrder([0.0, 0.6, 1.0]) == [2, 1, 0]
  {
    var finals := [0.0, 0.6, 1.0];
    assert RankOrderUpTo(finals, 1) == [0];
    assert InsertRanked(finals, [0], 1) == [1, 0];
    assert RankOrderUpTo(finals, 2) == [1, 0];
    assert InsertRanked(finals, [1, 0], 2) == [2, 1, 0];
  }

  /**
   * Lexical {a: 2, b: 4, c: 4} and dense {a: 0.5, b: 0.5, c: 1} with alpha 0.6
   * normalise to [0, 1, 1] and [0, 0, 1], blend to a: 0, b: 0.6, c: 1, and rank c, b, a.
   */
  lemma FusionExample()
    ensures var r := FuseAndRankSpec("q", ExampleLexical(), ExampleDense(), ExampleSentences(), 0.6, 10);
      && r.Success? && |r.value| == 3
      && r.value[0].sentenceId == "c" && r.value[0].finalScore == 1.0
      && r.value[1].sentenceId == "b" && r.value[1].finalScore == 0.6
      && r.value[2].sentenceId == "a" && r.value[2].finalScore == 0.0
  {
    ExampleUnranked();
    var f := Unranked("q", ExampleLexical(), ExampleDense(), ExampleSentences(), 0.6);
    ExampleOrder();
    ResultIsRanked("q", ExampleLexical(), ExampleDense(), ExampleSentences(), 0.6, 10);
    ReverseThree(f);
  }

  lemma ReverseThree(f: seq<FusedResult>)
    requires |f| == 3
    ensures PyPrefix(Arrange(f, [2, 1, 0]), 10) == [f[2], f[1], f[0]]
  {
  }

  /**
   * A lexical id with no dense score gets the raw dense value 0.0 before
   * normalising: with dense {a: -0.5} only, the missing `b` is the dense
   * maximum and normalises to 1, not to 0.
   */
  lemma MissingDenseScoreIsRawZero()
    ensures DenseValues([ScoreEntry("a", 1.0), ScoreEntry("b", 2.0)], [ScoreEntry("a", -0.5)]) == [-0.5, 0.0]
    ensures MinMaxNormalize(DenseValues([ScoreEntry("a", 1.0), ScoreEntry("b", 2.0)], [ScoreEntry("a", -0.5)])).value == [0.0, 1.0]
  {
    ExampleMissingDense();
    NormaliseTwo(-0.5, 0.0);
  }

  lemma ExampleMissingDense()
    ensures DenseValues([ScoreEntry("a", 1.0), ScoreEntry("b", 2.0)], [ScoreEntry("a", -0.5)]) == [-0.5, 0.0]
  {
    var lexical := [ScoreEntry("a", 1.0), ScoreEntry("b", 2.0)];
    var dense := [ScoreEntry("a", -0.5)];
    assert EntryIds(lexical) == ["a", "b"];
    assert Dedup(["a", "b"]) == ["a", "b"] by { assert Dedup(["a"]) == ["a"]; assert ["a", "b"][..1] == ["a"]; }
    assert CanonicalIds(lexical) == ["a", "b"];
    assert ScoreMap(dense) == map["a" := -0.5];
  }

  /** Two distinct values normalise to 0 and 1. */
  lemma NormaliseTwo(x: real, y: real)
    requires x < y
    ensures MinMaxNormalize([x, y]).value == [0.0, 1.0]
  {
    assert [x, y][1..] == [y];
    assert SeqMin([x, y]) == x && SeqMax([x, y]) == y;
    RescaleEnds(x, y);
  }
}
