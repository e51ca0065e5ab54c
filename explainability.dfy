// Bookkeeping of the explainability assistant (`app/explainability_chatbot.py`):
// which documents go into the per-query vector index, the one-slot
// "active query" state, and the early answers of the chat entry point.
// The embedding model, the vector store and the language model are
// parameters; the index directory is a map from query id to stored index.

module Explainability {
  import opened Wrappers
  import opened Text
  import opened Lists
  import opened Ranking
  import opened Schemas

  /** The metadata stored beside each indexed text. */
  datatype Metadata = Metadata(docId: string, source: string, title: string, url: string)

  /** A saved vector index: the indexed texts and their metadata, aligned. */
  datatype StoredIndex = StoredIndex(texts: seq<string>, metadatas: seq<Metadata>)

  /** A document returned by the retriever. */
  datatype Retrieved = Retrieved(content: string, meta: Metadata)

  /** How `build_explainability_index` ends: index saved, nothing to index, or an input file could not be read. */
  datatype BuildOutcome = Built | NoEvidence | InputsMissing

  const NotAvailable: string := "Explainability index not available for this query."
  const IndexNotFound: string := "Explainability index not found."
  const NoAnswer: string := "The available evidence does not answer this question."

  // ---------------------------------------------------------------------------
  // Document selection
  // ---------------------------------------------------------------------------

  /** The doc ids of the fused results that are present and non-empty, in order. */
  function PresentIds(docIds: seq<Option<string>>): (r: seq<string>)
    ensures forall x :: x in r <==> Some(x) in docIds && x != ""
  {
    if docIds == [] then []
    else
      var init, last := docIds[..|docIds| - 1], docIds[|docIds| - 1];
      assert docIds == init + [last];
      PresentIds(init) + (if last.Some? && last.value != "" then [last.value] else [])
  }

  /** `top_doc_ids`: the distinct present doc ids among the first `topK` fused results. */
  function TopDocIds(docIds: seq<Option<string>>, topK: int): seq<string> {
    Dedup(PresentIds(PyPrefix(docIds, topK)))
  }

  /** The loop that fills `top_doc_ids`. */
  method SelectTopDocIds(docIds: seq<Option<string>>, topK: int) returns (ids: seq<string>)
    ensures ids == TopDocIds(docIds, topK)
    ensures Distinct(ids)
    ensures forall x :: x in ids <==> Some(x) in PyPrefix(docIds, topK) && x != ""
    ensures InFirstOccurrenceOrder(PresentIds(PyPrefix(docIds, topK)), ids)
  {
    var top := PyPrefix(docIds, topK);
    ids := [];
    for i := 0 to |top|
      invariant ids == Dedup(PresentIds(top[..i]))
    {
      var prev := PresentIds(top[..i]);
      assert top[..i + 1][..i] == top[..i];
      var docId := top[i];
      if docId.Some? && docId.value != "" {
        assert PresentIds(top[..i + 1]) == prev + [docId.value];
        DedupSnoc(prev, docId.value);
        if docId.value !in ids {
          ids := ids + [docId.value];
        }
      } else {
        assert PresentIds(top[..i + 1]) == prev;
      }
    }
    assert top[..|top|] == top;
    DedupKeepsFirstOccurrenceOrder(PresentIds(top));
  }

  predicate Selected(ids: seq<string>, d: Document) {
    d.docId in ids
  }

  function MetadataOf(d: Document): Metadata {
    Metadata(d.docId, d.source, d.title, d.url)
  }

  /** The documents, in file order, whose id was selected. */
  function MatchingDocuments(documents: seq<Document>, ids: seq<string>): seq<Document> {
    Filter(documents, (d: Document) => Selected(ids, d))
  }

  /** The loop that fills `texts` and `metadatas`. */
  method CollectIndexInputs(documents: seq<Document>, ids: seq<string>) returns (texts: seq<string>, metadatas: seq<Metadata>)
    ensures var m := MatchingDocuments(documents, ids);
      && |texts| == |metadatas| == |m|
      && forall k :: 0 <= k < |m| ==> texts[k] == m[k].text && metadatas[k] == MetadataOf(m[k])
  {
    texts, metadatas := [], [];
    for i := 0 to |documents|
      invariant var m := MatchingDocuments(documents[..i], ids);
        |texts| == |metadatas| == |m|
        && forall k :: 0 <= k < |m| ==> texts[k] == m[k].text && metadatas[k] == MetadataOf(m[k])
    {
      assert documents[..i + 1][..i] == documents[..i];
      var doc := documents[i];
      if doc.docId in ids {
        texts := texts + [doc.text];
        metadatas := metadatas + [MetadataOf(doc)];
      }
    }
    assert documents[..|documents|] == documents;
  }

  function IndexOf(matching: seq<Document>): StoredIndex {
    StoredIndex(MapSeq(matching, (d: Document) => d.text), MapSeq(matching, MetadataOf))
  }

  // ---------------------------------------------------------------------------
  // State transitions
  // ---------------------------------------------------------------------------

  /** The index directory after removing the previously active query's index (`if ACTIVE_QUERY_ID:`). */
  function Cleared(active: Option<string>, indexes: map<string, StoredIndex>): map<string, StoredIndex> {
    if active.Some? && active.value != "" then indexes - {active.value} else indexes
  }

  /** The outcome and the index directory after `build_explainability_index`. */
  function BuildSpec(active: Option<string>, indexes: map<string, StoredIndex>, queryId: string, topK: int,
                     fusion: Option<seq<Option<string>>>, documents: Option<seq<Document>>): (BuildOutcome, map<string, StoredIndex>)
  {
    var cleared := Cleared(active, indexes);
    if fusion.None? || documents.None? then (InputsMissing, cleared)
    else
      var matching := MatchingDocuments(documents.value, TopDocIds(fusion.value, topK));
      if matching == [] then (NoEvidence, cleared)
      else (Built, cleared[queryId := IndexOf(matching)])
  }

  /** Retrieved documents as the numbered context entries `i. text (Source, Title)`, starting at 1. */
  function ContextEntry(i: nat, d: Retrieved): string {
    NatToDecimal(i) + ". " + d.content + "\n(Source: " + d.meta.source + ", Title: " + d.meta.title + ")\n\n"
  }

  function Entries(docs: seq<Retrieved>): (r: seq<string>)
    ensures |r| == |docs|
  {
    seq(|docs|, k requires 0 <= k < |docs| => ContextEntry(k + 1, docs[k]))
  }

  /** The retriever (at most 3 hits) and the language model, which sees the decision, the context and the question. */
  type Retriever = (StoredIndex, string) -> seq<Retrieved>
  type Llm = (string, real, string, string) -> string

  /** `answer_user_question` as a value of the state it reads. */
  function AnswerSpec(active: Option<string>, indexes: map<string, StoredIndex>, queryId: string, question: string,
                      finalLabel: string, confidence: real, retrieve: Retriever, llm: Llm): string
  {
    if active != Some(queryId) then NotAvailable
    else if queryId !in indexes then IndexNotFound
    else
      var relevant := retrieve(indexes[queryId], question);
      if relevant == [] then NoAnswer
      else llm(finalLabel, confidence, Concat(Entries(relevant)), question)
  }

  /**
   * The assistant's state: the query whose index is active and the saved
   * indexes under the index base directory, by query id.
   */
  class Explainer {
    var activeQueryId: Option<string>
    var indexes: map<string, StoredIndex>

    /** The process starts with no active query and whatever indexes are on disk. */
    constructor (onDisk: map<string, StoredIndex>)
      ensures activeQueryId == None && indexes == onDisk
    {
      activeQueryId := None;
      indexes := onDisk;
    }

    /**
     * `build_explainability_index`: drops the previous active index, makes
     * `queryId` active, then reads the fused ranking and the documents (`None`
     * when a file cannot be read) and saves an index of the selected documents.
     */
    method BuildExplainabilityIndex(queryId: string, topK: int, fusion: Option<seq<Option<string>>>, documents: Option<seq<Document>>)
      returns (outcome: BuildOutcome)
      modifies this
      ensures activeQueryId == Some(queryId)
      ensures (outcome, indexes) == BuildSpec(old(activeQueryId), old(indexes), queryId, topK, fusion, documents)
    {
      if activeQueryId.Some? && activeQueryId.value != "" {
        indexes := indexes - {activeQueryId.value};
      }
      activeQueryId := Some(queryId);
      if fusion.None? || documents.None? {
        return InputsMissing;
      }
      var topDocIds := SelectTopDocIds(fusion.value, topK);
      var texts, metadatas := CollectIndexInputs(documents.value, topDocIds);
      ghost var m := MatchingDocuments(documents.value, topDocIds);
      if texts == [] {
        return NoEvidence;
      }
      assert StoredIndex(texts, metadatas) == IndexOf(m);
      indexes := indexes[queryId := StoredIndex(texts, metadatas)];
      outcome := Built;
    }

    /** `answer_user_question`; it changes nothing. */
    method AnswerUserQuestion(queryId: string, question: string, finalLabel: string, confidence: real,
                              retrieve: Retriever, llm: Llm) returns (answer: string)
      ensures answer == AnswerSpec(activeQueryId, indexes, queryId, question, finalLabel, confidence, retrieve, llm)
    {
      if activeQueryId != Some(queryId) {
        return NotAvailable;
      }
      if queryId !in indexes {
        return IndexNotFound;
      }
      var relevantDocs := retrieve(indexes[queryId], question);
      if relevantDocs == [] {
        return NoAnswer;
      }
      var context := "";
      for i := 0 to |relevantDocs|
        invariant context == Concat(Entries(relevantDocs[..i]))
      {
        assert Entries(relevantDocs[..i + 1])[..i] == Entries(relevantDocs[..i]);
        context := context + ContextEntry(i + 1, relevantDocs[i]);
      }
      assert relevantDocs[..|relevantDocs|] == relevantDocs;
      answer := llm(finalLabel, confidence, context, question);
    }
  }

  // ---------------------------------------------------------------------------
  // Properties
  // ---------------------------------------------------------------------------

  /**
   * A build always removes the previously active index (unless it is rebuilt
   * under the same id), leaves every other query's index as it was, and
   * saves an index exactly when some selected document exists; the saved
   * texts and metadata are aligned and come from those documents in order.
   */
  lemma BuildTransitions(active: Option<string>, indexes: map<string, StoredIndex>, queryId: string, topK: int,
                         fusion: Option<seq<Option<string>>>, documents: Option<seq<Document>>)
    ensures var (outcome, after) := BuildSpec(active, indexes, queryId, topK, fusion, documents);
      && (forall k :: k != queryId && (active.None? || k != active.value) ==>
            (k in after <==> k in indexes) && (k in after ==> after[k] == indexes[k]))
      && (active.Some? && active.value != "" && active.value != queryId ==> active.value !in after)
      && (outcome == Built <==>
            fusion.Some? && documents.Some? && MatchingDocuments(documents.value, TopDocIds(fusion.value, topK)) != [])
      && (outcome == Built ==>
            var m := MatchingDocuments(documents.value, TopDocIds(fusion.value, topK));
            && queryId in after
            && |after[queryId].texts| == |after[queryId].metadatas| == |m| > 0
            && forall k :: 0 <= k < |m| ==>
                 after[queryId].texts[k] == m[k].text && after[queryId].metadatas[k].docId == m[k].docId
                 && m[k].docId in TopDocIds(fusion.value, topK) && m[k] in documents.value)
      && (outcome != Built ==> after == Cleared(active, indexes))
  {
    var (outcome, after) := BuildSpec(active, indexes, queryId, topK, fusion, documents);
    if outcome == Built {
      var m := MatchingDocuments(documents.value, TopDocIds(fusion.value, topK));
      forall k | 0 <= k < |m| ensures m[k].docId in TopDocIds(fusion.value, topK) && m[k] in documents.value {
        assert m[k] in m;
      }
    }
  }

  /**
   * After a build that saved an index, a question about that query gets past
   * both guards and reaches retrieval, and a question about any other query
   * is refused as not available.
   */
  lemma AnswerAfterBuild(active: Option<string>, indexes: map<string, StoredIndex>, queryId: string, topK: int,
                         fusion: Option<seq<Option<string>>>, documents: Option<seq<Document>>,
                         other: string, question: string, finalLabel: string, confidence: real,
                         retrieve: Retriever, llm: Llm)
    requires BuildSpec(active, indexes, queryId, topK, fusion, documents).0 == Built
    ensures var after := BuildSpec(active, indexes, queryId, topK, fusion, documents).1;
      var a := AnswerSpec(Some(queryId), after, queryId, question, finalLabel, confidence, retrieve, llm);
      && queryId in after
      && (retrieve(after[queryId], question) == [] ==> a == NoAnswer)
      && (retrieve(after[queryId], question) != [] ==>
            a == llm(finalLabel, confidence, Concat(Entries(retrieve(after[queryId], question))), question))
      && (other != queryId ==>
            AnswerSpec(Some(queryId), after, other, question, finalLabel, confidence, retrieve, llm) == NotAvailable)
  {
  }

  /** A build that saved nothing leaves a question about its query without an index, unless one was left on disk. */
  lemma AnswerAfterEmptyBuild(active: Option<string>, indexes: map<string, StoredIndex>, queryId: string, topK: int,
                              fusion: Option<seq<Option<string>>>, documents: Option<seq<Document>>,
                              question: string, finalLabel: string, confidence: real, retrieve: Retriever, llm: Llm)
    requires BuildSpec(active, indexes, queryId, topK, fusion, documents).0 != Built
    requires queryId !in indexes || (active == Some(queryId) && queryId != "")
    ensures var after := BuildSpec(active, indexes, queryId, topK, fusion, documents).1;
      AnswerSpec(Some(queryId), after, queryId, question, finalLabel, confidence, retrieve, llm) == IndexNotFound
  {
    BuildTransitions(active, indexes, queryId, topK, fusion, documents);
  }

  /** The digits at the start of a string. */
  function LeadingDigits(s: string): (r: string)
    ensures r <= s && AllDigits(r)
  {
    if s == [] || !IsDigit(s[0]) then [] else [s[0]] + LeadingDigits(s[1..])
  }

  lemma {:induction false} LeadingDigitsOf(ds: string, rest: string)
    requires AllDigits(ds) && (rest == [] || !IsDigit(rest[0]))
    ensures LeadingDigits(ds + rest) == ds
    decreases |ds|
  {
    if ds == [] {
      assert ds + rest == rest;
    } else {
      assert (ds + rest)[1..] == ds[1..] + rest;
      LeadingDigitsOf(ds[1..], rest);
    }
  }

  /** The `k`-th context entry (from 0) reads back as number `k + 1`: entries are numbered 1, 2, ... in retrieval order. */
  lemma EntriesNumbered(docs: seq<Retrieved>, k: nat)
    requires k < |docs|
    ensures LeadingDigits(Entries(docs)[k]) == NatToDecimal(k + 1)
    ensures DecimalValue(LeadingDigits(Entries(docs)[k])) == k + 1
  {
    var d := docs[k];
    var rest := ". " + d.content + "\n(Source: " + d.meta.source + ", Title: " + d.meta.title + ")\n\n";
    assert Entries(docs)[k] == NatToDecimal(k + 1) + rest;
    LeadingDigitsOf(NatToDecimal(k + 1), rest);
    DecimalRoundTrip(k + 1);
  }
}
