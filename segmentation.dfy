/**
 * Sentence segmentation: every document's text is cut into spans by a
 * sentence tokenizer, each span is stripped, blank ones are dropped, and each
 * remaining span becomes a sentence record with id `s_<doc_id>_<idx>`, where
 * `idx` is the span's position in the tokenizer output (counted before blank
 * spans are dropped, so indices may skip).
 */
module Segmentation {
  import opened Wrappers
  import opened Text
  import opened Lists
  import opened Schemas

  /** The sentence tokenizer: the spans of a text, or `None` where it raises. */
  type Tokenizer = string -> Option<seq<string>>

  /** `f"s_{doc_id}_{idx}"`. */
  function SentenceId(docId: string, idx: nat): string {
    "s_" + docId + "_" + NatToDecimal(idx)
  }

  /** What the inner loop appends for span `i`: nothing for a blank span, else one record. */
  function Emit(queryId: string, doc: Document, spans: seq<string>, i: nat): seq<Sentence>
    requires i < |spans|
  {
    var text := Strip(spans[i]);
    if text == [] then []
    else [Sentence(queryId, SentenceId(doc.docId, i), doc.docId, doc.source, doc.title, doc.url, i, text)]
  }

  /** The records of the first `n` spans of one document. */
  function SpanSentences(queryId: string, doc: Document, spans: seq<string>, n: nat): seq<Sentence>
    requires n <= |spans|
  {
    if n == 0 then [] else SpanSentences(queryId, doc, spans, n - 1) + Emit(queryId, doc, spans, n - 1)
  }

  /** The positions among the first `n` spans that are not blank after stripping, in order. */
  function NonBlankIndices(spans: seq<string>, n: nat): (r: seq<nat>)
    requires n <= |spans|
    ensures forall k :: 0 <= k < |r| ==> r[k] < n
  {
    if n == 0 then []
    else NonBlankIndices(spans, n - 1) + (if Strip(spans[n - 1]) == [] then [] else [n - 1])
  }

  /**
   * The records of one document; none when the tokenizer raises on its text.
   * (A document without a query id never gets here: reading its query id
   * aborts the whole call first.)
   */
  function DocumentSentences(doc: Document, tokenize: Tokenizer): seq<Sentence> {
    match tokenize(doc.text)
    case None => []
    case Some(spans) => SpanSentences(doc.queryId.GetOr(""), doc, spans, |spans|)
  }

  function PerDocument(tokenize: Tokenizer): Document -> seq<Sentence> {
    doc => DocumentSentences(doc, tokenize)
  }

  predicate AllStamped(docs: seq<Document>) {
    forall k :: 0 <= k < |docs| ==> docs[k].queryId.Some?
  }

  /** The records of all documents, document after document. */
  function SentencesOfDocuments(docs: seq<Document>, tokenize: Tokenizer): seq<Sentence> {
    Flatten(MapSeq(docs, PerDocument(tokenize)))
  }

  /**
   * `split_documents_into_sentences` as a value: reading `doc["query_id"]`
   * raises for a document without one, which aborts the whole call.
   */
  function SplitSpec(docs: seq<Document>, tokenize: Tokenizer): (r: Option<seq<Sentence>>)
    ensures r.None? <==> exists k :: 0 <= k < |docs| && docs[k].queryId.None?
  {
    if AllStamped(docs) then Some(SentencesOfDocuments(docs, tokenize)) else None
  }

  /** `split_documents_into_sentences`: a loop over documents and, inside it, over their spans. */
  method SplitDocumentsIntoSentences(documents: seq<Document>, tokenize: Tokenizer) returns (r: Option<seq<Sentence>>)
    ensures r == SplitSpec(documents, tokenize)
  {
    var sentences: seq<Sentence> := [];
    for i := 0 to |documents|
      invariant AllStamped(documents[..i])
      invariant sentences == SentencesOfDocuments(documents[..i], tokenize)
    {
      var doc := documents[i];
      if doc.queryId.None? {
        return None;
      }
      PrefixStep(documents, i, tokenize);
      var tokenized := tokenize(doc.text);
      if tokenized.None? {
        continue;
      }
      sentences := AppendSpanSentences(sentences, doc.queryId.value, doc, tokenized.value);
    }
    assert documents[..|documents|] == documents;
    return Some(sentences);
  }

  /** The inner loop: appends the record of every non-blank span of one document. */
  method AppendSpanSentences(sentences: seq<Sentence>, queryId: string, doc: Document, spans: seq<string>)
    returns (out: seq<Sentence>)
    ensures out == sentences + SpanSentences(queryId, doc, spans, |spans|)
  {
    out := sentences;
    var idx := 0;
    while idx < |spans|
      invariant idx <= |spans|
      invariant out == sentences + SpanSentences(queryId, doc, spans, idx)
    {
      out := AppendIfNonBlank(out, queryId, doc, spans, idx);
      SpanSentencesStep(sentences, queryId, doc, spans, idx);
      idx := idx + 1;
    }
  }

  /** The inner loop's body: append the record of span `idx` unless it strips to nothing. */
  method AppendIfNonBlank(sentences: seq<Sentence>, queryId: string, doc: Document, spans: seq<string>, idx: nat)
    returns (out: seq<Sentence>)
    requires idx < |spans|
    ensures out == sentences + Emit(queryId, doc, spans, idx)
  {
    out := sentences;
    var docId := doc.docId;
    var sent := Strip(spans[idx]);
    if sent != [] {
      out := out + [Sentence(queryId, SentenceId(docId, idx), docId, doc.source, doc.title, doc.url, idx, sent)];
    }
  }

  lemma SpanSentencesStep(sentences: seq<Sentence>, queryId: string, doc: Document, spans: seq<string>, idx: nat)
    requires idx < |spans|
    ensures sentences + SpanSentences(queryId, doc, spans, idx + 1)
         == sentences + SpanSentences(queryId, doc, spans, idx) + Emit(queryId, doc, spans, idx)
  {
  }

  lemma PrefixStep(docs: seq<Document>, i: nat, tokenize: Tokenizer)
    requires i < |docs| && AllStamped(docs[..i]) && docs[i].queryId.Some?
    ensures AllStamped(docs[..i + 1])
    ensures SentencesOfDocuments(docs[..i + 1], tokenize)
         == SentencesOfDocuments(docs[..i], tokenize) + DocumentSentences(docs[i], tokenize)
  {
    assert docs[..i + 1] == docs[..i] + [docs[i]];
    FlattenMapSnoc(docs[..i], docs[i], PerDocument(tokenize));
  }

  // ---------------------------------------------------------------------------
  // Properties
  // ---------------------------------------------------------------------------

  /** The record a non-blank span at position `idx` yields: the parent's fields, the id, the index and the stripped text. */
  function SpanRecord(queryId: string, doc: Document, spans: seq<string>, idx: nat): Sentence
    requires idx < |spans|
  {
    Sentence(queryId, SentenceId(doc.docId, idx), doc.docId, doc.source, doc.title, doc.url, idx, Strip(spans[idx]))
  }

  /** `ss` is, position by position, the record of each index in `ix`. */
  predicate RecordsAt(queryId: string, doc: Document, spans: seq<string>, ss: seq<Sentence>, ix: seq<nat>)
    requires forall k :: 0 <= k < |ix| ==> ix[k] < |spans|
  {
    |ss| == |ix| && forall k :: 0 <= k < |ss| ==> ss[k] == SpanRecord(queryId, doc, spans, ix[k])
  }

  /** The first `n` spans yield exactly one record per non-blank span, in span order. */
  lemma {:induction false} SpanSentencesAreNonBlankSpans(queryId: string, doc: Document, spans: seq<string>, n: nat)
    requires n <= |spans|
    ensures RecordsAt(queryId, doc, spans, SpanSentences(queryId, doc, spans, n), NonBlankIndices(spans, n))
  {
    if n > 0 {
      SpanSentencesAreNonBlankSpans(queryId, doc, spans, n - 1);
      var prev, ix := SpanSentences(queryId, doc, spans, n - 1), NonBlankIndices(spans, n - 1);
      if Strip(spans[n - 1]) == [] {
        assert SpanSentences(queryId, doc, spans, n) == prev && NonBlankIndices(spans, n) == ix;
      } else {
        var ss, ix' := SpanSentences(queryId, doc, spans, n), NonBlankIndices(spans, n);
        assert ss == prev + [SpanRecord(queryId, doc, spans, n - 1)] && ix' == ix + [n - 1];
        forall k | 0 <= k < |ss| ensures ss[k] == SpanRecord(queryId, doc, spans, ix'[k]) {
          if k < |prev| {
            assert ss[k] == prev[k] && ix'[k] == ix[k];
          }
        }
      }
    }
  }

  /** The kept positions are strictly increasing, and a position is kept exactly when its span is not blank. */
  lemma {:induction false} NonBlankIndicesSpec(spans: seq<string>, n: nat)
    requires n <= |spans|
    ensures var ix := NonBlankIndices(spans, n);
      && (forall k, l :: 0 <= k < l < |ix| ==> ix[k] < ix[l])
      && (forall i :: 0 <= i < n ==> (i in ix <==> Strip(spans[i]) != []))
  {
    NonBlankIndicesIncrease(spans, n);
    NonBlankIndicesMembers(spans, n);
  }

  predicate StrictlyIncreasing(xs: seq<nat>) {
    forall k, l :: 0 <= k < l < |xs| ==> xs[k] < xs[l]
  }

  lemma {:induction false} NonBlankIndicesIncrease(spans: seq<string>, n: nat)
    requires n <= |spans|
    ensures StrictlyIncreasing(NonBlankIndices(spans, n))
  {
    if n > 0 {
      NonBlankIndicesIncrease(spans, n - 1);
      var prev := NonBlankIndices(spans, n - 1);
      var ix := NonBlankIndices(spans, n);
      if Strip(spans[n - 1]) != [] {
        assert ix == prev + [n - 1];
        forall k, l | 0 <= k < l < |ix| ensures ix[k] < ix[l] {
          assert ix[k] == prev[k];
          if l < |prev| {
            assert ix[l] == prev[l];
          }
        }
      } else {
        assert ix == prev;
      }
    }
  }

  /** `ix` lists, among the first `n` spans, exactly those that are not blank after stripping. */
  predicate ListsNonBlank(ix: seq<nat>, spans: seq<string>, n: nat)
    requires n <= |spans|
  {
    forall i :: 0 <= i < n ==> (i in ix <==> Strip(spans[i]) != [])
  }

  lemma {:induction false} NonBlankIndicesMembers(spans: seq<string>, n: nat)
    requires n <= |spans|
    ensures ListsNonBlank(NonBlankIndices(spans, n), spans, n)
  {
    if n > 0 {
      NonBlankIndicesMembers(spans, n - 1);
      ListsNonBlankStep(NonBlankIndices(spans, n - 1), spans, n);
    }
  }

  /** Extending the list by the next span, when it is not blank, keeps it exact. */
  lemma ListsNonBlankStep(prev: seq<nat>, spans: seq<string>, n: nat)
    requires 0 < n <= |spans| && ListsNonBlank(prev, spans, n - 1)
    requires forall k :: 0 <= k < |prev| ==> prev[k] < n - 1
    ensures ListsNonBlank(prev + (if Strip(spans[n - 1]) == [] then [] else [n - 1]), spans, n)
  {
    var ix := prev + (if Strip(spans[n - 1]) == [] then [] else [n - 1]);
    forall i | 0 <= i < n ensures (i in ix <==> Strip(spans[i]) != []) {
      if i < n - 1 {
        assert i in ix <==> i in prev;
      } else {
        assert n - 1 !in prev;
      }
    }
  }

  /** Every emitted sentence text is a stripped span and is not empty. */
  lemma EmittedTextsAreStrippedAndNonEmpty(queryId: string, doc: Document, spans: seq<string>)
    ensures var ss := SpanSentences(queryId, doc, spans, |spans|);
      forall k :: 0 <= k < |ss| ==>
        && ss[k].sentenceIndex < |spans|
        && ss[k].sentenceText == Strip(spans[ss[k].sentenceIndex]) && ss[k].sentenceText != []
  {
    var ix := NonBlankIndices(spans, |spans|);
    SpanSentencesAreNonBlankSpans(queryId, doc, spans, |spans|);
    NonBlankIndicesSpec(spans, |spans|);
    forall k | 0 <= k < |ix| ensures Strip(spans[ix[k]]) != [] {
      assert ix[k] in ix;
    }
  }

  /** Documents are processed one after another: the output of a concatenation is the concatenation of outputs. */
  lemma SentencesOfConcatenation(a: seq<Document>, b: seq<Document>, tokenize: Tokenizer)
    ensures SentencesOfDocuments(a + b, tokenize) == SentencesOfDocuments(a, tokenize) + SentencesOfDocuments(b, tokenize)
  {
    FlattenMapConcat(a, b, PerDocument(tokenize));
  }

  /** A document the tokenizer fails on contributes nothing, and the documents after it are still processed. */
  lemma FailedDocumentIsSkipped(a: seq<Document>, d: Document, b: seq<Document>, tokenize: Tokenizer)
    requires tokenize(d.text).None?
    ensures SentencesOfDocuments(a + [d] + b, tokenize) == SentencesOfDocuments(a + b, tokenize)
  {
    FailedDocumentYieldsNothing(d, tokenize);
    FlattenMapSkip(a, d, b, PerDocument(tokenize));
  }

  lemma FailedDocumentYieldsNothing(d: Document, tokenize: Tokenizer)
    requires tokenize(d.text).None?
    ensures PerDocument(tokenize)(d) == []
  {
  }

  /** The number of non-blank spans of a document, zero when the tokenizer fails on it. */
  function NonBlankSpanCount(doc: Document, tokenize: Tokenizer): nat {
    match tokenize(doc.text)
    case None => 0
    case Some(spans) => |NonBlankIndices(spans, |spans|)|
  }

  function TotalNonBlankSpans(docs: seq<Document>, tokenize: Tokenizer): nat {
    if docs == [] then 0
    else TotalNonBlankSpans(docs[..|docs| - 1], tokenize) + NonBlankSpanCount(docs[|docs| - 1], tokenize)
  }

  /** The output has one sentence per non-blank span of every successfully tokenised document. */
  lemma {:induction false} SentenceCount(docs: seq<Document>, tokenize: Tokenizer)
    ensures |SentencesOfDocuments(docs, tokenize)| == TotalNonBlankSpans(docs, tokenize)
  {
    if docs != [] {
      var d := docs[|docs| - 1];
      SentenceCount(docs[..|docs| - 1], tokenize);
      assert docs == docs[..|docs| - 1] + [d];
      FlattenMapSnoc(docs[..|docs| - 1], d, PerDocument(tokenize));
      if tokenize(d.text).Some? {
        var spans := tokenize(d.text).value;
        SpanSentencesAreNonBlankSpans(d.queryId.GetOr(""), d, spans, |spans|);
      }
    }
  }

  /** `TrailingDigits(s)`: the length of the longest suffix of `s` made of decimal digits. */
  function TrailingDigits(s: string): (n: nat)
    ensures n <= |s|
  {
    if s == [] || !IsDigit(s[|s| - 1]) then 0 else 1 + TrailingDigits(s[..|s| - 1])
  }

  lemma {:induction false} TrailingDigitsAfterSeparator(x: string, y: string)
    requires x != [] && !IsDigit(x[|x| - 1]) && AllDigits(y)
    ensures TrailingDigits(x + y) == |y|
    decreases |y|
  {
    if y == [] {
      assert x + y == x;
    } else {
      assert (x + y)[..|x + y| - 1] == x + y[..|y| - 1];
      assert (x + y)[|x + y| - 1] == y[|y| - 1];
      TrailingDigitsAfterSeparator(x, y[..|y| - 1]);
    }
  }

  /**
   * Sentence ids are injective in (document id, index): the index is all
   * digits after the last `_`, so the id determines both parts.
   */
  lemma SentenceIdInjective(d1: string, i1: nat, d2: string, i2: nat)
    requires SentenceId(d1, i1) == SentenceId(d2, i2)
    ensures d1 == d2 && i1 == i2
  {
    var id := SentenceId(d1, i1);
    var y1, y2 := NatToDecimal(i1), NatToDecimal(i2);
    var x1, x2 := "s_" + d1 + "_", "s_" + d2 + "_";
    TrailingDigitsAfterSeparator(x1, y1);
    TrailingDigitsAfterSeparator(x2, y2);
    assert |y1| == |y2|;
    assert x1 == id[..|id| - |y1|] == x2;
    assert y1 == id[|id| - |y1|..] == y2;
    assert d1 == x1[2..|x1| - 1] == x2[2..|x2| - 1] == d2;
    NatToDecimalInjective(i1, i2);
  }

  function DocIds(docs: seq<Document>): (ids: seq<string>)
    ensures |ids| == |docs| && forall k :: 0 <= k < |docs| ==> ids[k] == docs[k].docId
  {
    seq(|docs|, k requires 0 <= k < |docs| => docs[k].docId)
  }

  /** Every record's id is built from its own document id and index, and its document id is one of `ids`. */
  predicate IdsFromDocuments(ss: seq<Sentence>, ids: seq<string>) {
    forall k :: 0 <= k < |ss| ==>
      ss[k].sentenceId == SentenceId(ss[k].docId, ss[k].sentenceIndex) && ss[k].docId in ids
  }

  predicate DistinctSentenceIds(ss: seq<Sentence>) {
    forall k, l :: 0 <= k < l < |ss| ==> ss[k].sentenceId != ss[l].sentenceId
  }

  /** Within one document, the records carry its id and strictly increasing indices. */
  lemma {:induction false} DocumentRecords(doc: Document, tokenize: Tokenizer)
    ensures var ss := DocumentSentences(doc, tokenize);
      && IdsFromDocuments(ss, [doc.docId])
      && (forall k, l :: 0 <= k < l < |ss| ==> ss[k].sentenceIndex < ss[l].sentenceIndex)
  {
    var ss := DocumentSentences(doc, tokenize);
    if tokenize(doc.text).Some? {
      var spans := tokenize(doc.text).value;
      SpanSentencesAreNonBlankSpans(doc.queryId.GetOr(""), doc, spans, |spans|);
      NonBlankIndicesSpec(spans, |spans|);
    }
  }

  lemma {:induction false} SentencesFromDocuments(docs: seq<Document>, tokenize: Tokenizer)
    ensures IdsFromDocuments(SentencesOfDocuments(docs, tokenize), DocIds(docs))
  {
    if docs != [] {
      var init, d := docs[..|docs| - 1], docs[|docs| - 1];
      assert docs == init + [d];
      SentencesFromDocuments(init, tokenize);
      DocumentRecords(d, tokenize);
      FlattenMapSnoc(init, d, PerDocument(tokenize));
      var prev, cur := SentencesOfDocuments(init, tokenize), DocumentSentences(d, tokenize);
      assert SentencesOfDocuments(docs, tokenize) == prev + cur;
      assert DocIds(docs) == DocIds(init) + [d.docId];
      IdsFromAppend(prev, cur, DocIds(init), d.docId);
    }
  }

  /** Records from earlier documents followed by one more document's records come from all of them. */
  lemma IdsFromAppend(prev: seq<Sentence>, cur: seq<Sentence>, ids: seq<string>, docId: string)
    requires IdsFromDocuments(prev, ids) && IdsFromDocuments(cur, [docId])
    ensures IdsFromDocuments(prev + cur, ids + [docId])
  {
    var ss := prev + cur;
    forall k | 0 <= k < |ss|
      ensures ss[k].sentenceId == SentenceId(ss[k].docId, ss[k].sentenceIndex) && ss[k].docId in ids + [docId]
    {
      if k < |prev| {
        assert ss[k] == prev[k];
      } else {
        assert ss[k] == cur[k - |prev|];
      }
    }
  }

  /** A new document's records, with increasing indices, keep the ids of earlier documents' records distinct. */
  lemma DistinctAfterAppend(prev: seq<Sentence>, cur: seq<Sentence>, ids: seq<string>, docId: string)
    requires DistinctSentenceIds(prev) && IdsFromDocuments(prev, ids) && docId !in ids
    requires IdsFromDocuments(cur, [docId])
    requires forall k, l :: 0 <= k < l < |cur| ==> cur[k].sentenceIndex < cur[l].sentenceIndex
    ensures DistinctSentenceIds(prev + cur)
  {
    var ss := prev + cur;
    forall k, l | 0 <= k < l < |ss| ensures ss[k].sentenceId != ss[l].sentenceId {
      if l < |prev| {
        assert ss[k] == prev[k] && ss[l] == prev[l];
      } else if k >= |prev| {
        var a, b := cur[k - |prev|], cur[l - |prev|];
        assert ss[k] == a && ss[l] == b;
        if a.sentenceId == b.sentenceId {
          SentenceIdInjective(a.docId, a.sentenceIndex, b.docId, b.sentenceIndex);
        }
      } else {
        var a, b := prev[k], cur[l - |prev|];
        assert ss[k] == a && ss[l] == b;
        if a.sentenceId == b.sentenceId {
          SentenceIdInjective(a.docId, a.sentenceIndex, b.docId, b.sentenceIndex);
        }
      }
    }
  }

  /**
   * With distinct document ids, every emitted sentence id is distinct: the
   * uniqueness the sentence record promises for `sentence_id`.
   */
  lemma {:induction false} SentenceIdsUnique(docs: seq<Document>, tokenize: Tokenizer)
    requires Distinct(DocIds(docs))
    ensures DistinctSentenceIds(SentencesOfDocuments(docs, tokenize))
  {
    if docs != [] {
      var init, d := docs[..|docs| - 1], docs[|docs| - 1];
      assert docs == init + [d];
      assert DocIds(init) == DocIds(docs)[..|init|];
      SentenceIdsUnique(init, tokenize);
      SentencesFromDocuments(init, tokenize);
      DocumentRecords(d, tokenize);
      FlattenMapSnoc(init, d, PerDocument(tokenize));
      var prev, cur := SentencesOfDocuments(init, tokenize), DocumentSentences(d, tokenize);
      var ss := SentencesOfDocuments(docs, tokenize);
      assert ss == prev + cur;
      assert d.docId !in DocIds(init) by {
        forall j | 0 <= j < |init| ensures DocIds(init)[j] != d.docId {
          assert DocIds(docs)[j] == DocIds(init)[j] && DocIds(docs)[|docs| - 1] == d.docId;
        }
      }
      DistinctAfterAppend(prev, cur, DocIds(init), d.docId);
    }
  }
}
