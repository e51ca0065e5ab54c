/**
 * The two records every stage exchanges: a retrieved document and a sentence
 * cut from it. A document gets its `queryId` only when the pipeline stamps it,
 * so the field is optional; reading it before that fails.
 */
module Schemas {
  import opened Wrappers
  import opened Lists

  datatype Document = Document(
    queryId: Option<string>,
    docId: string,
    source: string,
    title: string,
    url: string,
    text: string)

  datatype Sentence = Sentence(
    queryId: string,
    sentenceId: string,
    docId: string,
    source: string,
    title: string,
    url: string,
    sentenceIndex: nat,
    sentenceText: string)

  /** `{s["sentence_id"]: s for s in sentences}`, keyed by sentence id; a later duplicate id wins. */
  function SentencesById(ss: seq<Sentence>): map<string, Sentence> {
    LastWins(seq(|ss|, k requires 0 <= k < |ss| => (ss[k].sentenceId, ss[k])))
  }
}
