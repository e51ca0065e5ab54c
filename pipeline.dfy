/**
 * The deterministic steps of the claim-verification request: the query id
 * built from the clock and a random UUID, the documents gathered from the
 * three retrieval sources and stamped with that id, the error response for
 * a failed NLI run, and the evidence list joined against the sentence
 * records. Retrieval, scoring and NLI themselves are inputs.
 */
module Pipeline {
  import opened Wrappers
  import opened Text
  import opened Lists
  import opened Schemas
  import Segmentation
  import Cleanup
  import Explainability

  // ---------------------------------------------------------------------------
  // Query id
  // ---------------------------------------------------------------------------

  /** The reading of `datetime.now()` used for the id. */
  datatype Clock = Clock(year: nat, month: nat, day: nat, hour: nat, minute: nat, second: nat)

  /** A date and time `strftime` writes with four-digit years. */
  predicate ValidClock(c: Clock) {
    && 1000 <= c.year <= 9999
    && 1 <= c.month <= 12
    && 1 <= c.day <= 31
    && c.hour < 24
    && c.minute < 60
    && c.second < 60
  }

  /** `strftime('%Y%m%d')`. */
  function DateDigits(c: Clock): (r: string)
    requires ValidClock(c)
  {
    ZeroPadded(c.year, 4) + ZeroPadded(c.month, 2) + ZeroPadded(c.day, 2)
  }

  /** `strftime('%H%M%S')`. */
  function TimeDigits(c: Clock): (r: string)
    requires ValidClock(c)
  {
    ZeroPadded(c.hour, 2) + ZeroPadded(c.minute, 2) + ZeroPadded(c.second, 2)
  }

  /** `uuid4().hex`: 32 lower-case hex digits. */
  predicate IsUuidHex(u: string) {
    |u| == 32 && forall k :: 0 <= k < |u| ==> Cleanup.IsHex(u[k])
  }

  /** `f"q_{datetime.now().strftime('%Y%m%d_%H%M%S')}_{uuid4().hex[:6]}"`. */
  function QueryId(c: Clock, uuidHex: string): string
    requires ValidClock(c) && IsUuidHex(uuidHex)
  {
    "q_" + DateDigits(c) + "_" + TimeDigits(c) + "_" + uuidHex[..6]
  }

  /**
   * A query id is 24 characters long and is, as a whole, what the cleanup
   * pattern finds in it, so every output file named after it is seen by the
   * retention pass.
   */
  lemma QueryIdMatchesCleanupPattern(c: Clock, uuidHex: string)
    requires ValidClock(c) && IsUuidHex(uuidHex)
    ensures |QueryId(c, uuidHex)| == 24
    ensures Cleanup.IsQueryId(QueryId(c, uuidHex))
    ensures Cleanup.Search(QueryId(c, uuidHex)) == Some(QueryId(c, uuidHex))
  {
    var q := QueryId(c, uuidHex);
    var date, time := DateDigits(c), TimeDigits(c);
    assert q[..2] == "q_";
    assert q[2..10] == date;
    assert q[11..17] == time;
    assert AllDigits(date) by {
      DecimalValueConcat(ZeroPadded(c.year, 4), ZeroPadded(c.month, 2));
      DecimalValueConcat(ZeroPadded(c.year, 4) + ZeroPadded(c.month, 2), ZeroPadded(c.day, 2));
    }
    assert AllDigits(time) by {
      DecimalValueConcat(ZeroPadded(c.hour, 2), ZeroPadded(c.minute, 2));
      DecimalValueConcat(ZeroPadded(c.hour, 2) + ZeroPadded(c.minute, 2), ZeroPadded(c.second, 2));
    }
    forall k | Cleanup.HeadLength <= k < |q| ensures Cleanup.IsHex(q[k]) {
      assert q[k] == uuidHex[k - Cleanup.HeadLength];
    }
    Cleanup.QueryIdFindsItself(q);
  }

  /** The clock reading as the number `YYYYMMDDHHMMSS`. */
  function ClockNumber(c: Clock): nat {
    ((((c.year * 100 + c.month) * 100 + c.day) * 100 + c.hour) * 100 + c.minute) * 100 + c.second
  }

  /** `c1` is strictly earlier than `c2`. */
  predicate Before(c1: Clock, c2: Clock) {
    || c1.year < c2.year
    || (c1.year == c2.year && c1.month < c2.month)
    || (c1.year == c2.year && c1.month == c2.month && c1.day < c2.day)
    || (c1.year == c2.year && c1.month == c2.month && c1.day == c2.day && c1.hour < c2.hour)
    || (c1.year == c2.year && c1.month == c2.month && c1.day == c2.day && c1.hour == c2.hour
        && c1.minute < c2.minute)
    || (c1.year == c2.year && c1.month == c2.month && c1.day == c2.day && c1.hour == c2.hour
        && c1.minute == c2.minute && c1.second < c2.second)
  }

  lemma AppendTwoDigits(a: string, n: nat)
    requires AllDigits(a) && n < 100
    ensures AllDigits(a + ZeroPadded(n, 2))
    ensures DecimalValue(a + ZeroPadded(n, 2)) == DecimalValue(a) * 100 + n
  {
    DecimalValueConcat(a, ZeroPadded(n, 2));
  }

  /** The timestamp the cleanup reads back from a query id is the clock reading it was built from. */
  lemma QueryIdTimestamp(c: Clock, uuidHex: string)
    requires ValidClock(c) && IsUuidHex(uuidHex)
    ensures Cleanup.IsQueryId(QueryId(c, uuidHex))
    ensures Cleanup.Timestamp(QueryId(c, uuidHex)) == ClockNumber(c)
  {
    QueryIdMatchesCleanupPattern(c, uuidHex);
    var q := QueryId(c, uuidHex);
    assert q[2..10] == DateDigits(c) && q[11..17] == TimeDigits(c);
    StampValue(c);
  }

  /** `YYYYMMDD` read as a number. */
  lemma DateValue(c: Clock)
    requires ValidClock(c)
    ensures AllDigits(DateDigits(c)) && DecimalValue(DateDigits(c)) == (c.year * 100 + c.month) * 100 + c.day
  {
    var y := ZeroPadded(c.year, 4);
    AppendTwoDigits(y, c.month);
    AppendTwoDigits(y + ZeroPadded(c.month, 2), c.day);
  }

  /** `YYYYMMDD` followed by `HHMMSS`, read as a number, is the clock number. */
  lemma StampValue(c: Clock)
    requires ValidClock(c)
    ensures DecimalValue(DateDigits(c) + TimeDigits(c)) == ClockNumber(c)
  {
    DateValue(c);
    AppendSixDigits(DateDigits(c), c.hour, c.minute, c.second);
  }

  /** Appending three two-digit fields shifts a numeral six places left and adds them. */
  lemma AppendSixDigits(a: string, x: nat, y: nat, z: nat)
    requires AllDigits(a) && x < 100 && y < 100 && z < 100
    ensures DecimalValue(a + (ZeroPadded(x, 2) + ZeroPadded(y, 2) + ZeroPadded(z, 2)))
      == ((DecimalValue(a) * 100 + x) * 100 + y) * 100 + z
  {
    var ax := a + ZeroPadded(x, 2);
    AppendTwoDigits(a, x);
    var axy := ax + ZeroPadded(y, 2);
    AppendTwoDigits(ax, y);
    AppendTwoDigits(axy, z);
    AppendThree(a, ZeroPadded(x, 2), ZeroPadded(y, 2), ZeroPadded(z, 2));
  }

  /** Appending a smaller two-digit field never overtakes a greater prefix. */
  lemma ShiftKeepsOrder(a: nat, b: nat, x: nat, y: nat)
    requires x < 100 && y < 100
    ensures a < b ==> a * 100 + x < b * 100 + y
    ensures a == b && x < y ==> a * 100 + x < b * 100 + y
  {
  }

  /** An earlier clock gives a smaller number. */
  lemma ClockNumberMonotone(c1: Clock, c2: Clock)
    requires ValidClock(c1) && ValidClock(c2) && Before(c1, c2)
    ensures ClockNumber(c1) < ClockNumber(c2)
  {
    var day1, day2 := (c1.year * 100 + c1.month) * 100 + c1.day, (c2.year * 100 + c2.month) * 100 + c2.day;
    var time1, time2 := (c1.hour * 100 + c1.minute) * 100 + c1.second, (c2.hour * 100 + c2.minute) * 100 + c2.second;
    assert ClockNumber(c1) == day1 * 1000000 + time1;
    assert ClockNumber(c2) == day2 * 1000000 + time2;
    ThreeFieldOrder(c1.year, c1.month, c1.day, c2.year, c2.month, c2.day);
    ThreeFieldOrder(c1.hour, c1.minute, c1.second, c2.hour, c2.minute, c2.second);
  }

  /** Three two-digit-bounded fields compare like the number they spell. */
  lemma ThreeFieldOrder(a1: nat, b1: nat, x1: nat, a2: nat, b2: nat, x2: nat)
    requires b1 < 100 && x1 < 100 && b2 < 100 && x2 < 100
    ensures (a1 < a2 || (a1 == a2 && (b1 < b2 || (b1 == b2 && x1 < x2))))
      ==> (a1 * 100 + b1) * 100 + x1 < (a2 * 100 + b2) * 100 + x2
  {
    ShiftKeepsOrder(a1, a2, b1, b2);
    ShiftKeepsOrder(a1 * 100 + b1, a2 * 100 + b2, x1, x2);
  }

  /**
   * A query made at a strictly earlier clock second sorts before a later
   * one, whatever their random suffixes. Within one second the suffixes
   * decide the order, and a clock set back gives an earlier-sorting id.
   */
  lemma LaterQuerySortsLater(c1: Clock, u1: string, c2: Clock, u2: string)
    requires ValidClock(c1) && IsUuidHex(u1) && ValidClock(c2) && IsUuidHex(u2) && Before(c1, c2)
    ensures LexLess(QueryId(c1, u1), QueryId(c2, u2))
  {
    QueryIdTimestamp(c1, u1);
    QueryIdTimestamp(c2, u2);
    ClockNumberMonotone(c1, c2);
    Cleanup.TimestampOrderIsStringOrder(QueryId(c1, u1), QueryId(c2, u2));
  }

  // ---------------------------------------------------------------------------
  // Documents
  // ---------------------------------------------------------------------------

  /** `all_docs`: an empty list extended with the Wikipedia, Scholar and GNews results in turn. */
  method GatherDocuments(wiki: seq<Document>, scholar: seq<Document>, gnews: seq<Document>)
    returns (allDocs: array<Document>)
    ensures fresh(allDocs)
    ensures allDocs[..] == wiki + scholar + gnews
  {
    var gathered: seq<Document> := [];
    gathered := gathered + wiki;
    gathered := gathered + scholar;
    gathered := gathered + gnews;
    allDocs := new Document[|gathered|](k requires 0 <= k < |gathered| => gathered[k]);
  }

  /** `doc["query_id"] = query_id` for every document, in place. */
  method StampQueryId(docs: array<Document>, queryId: string)
    modifies docs
    ensures forall k :: 0 <= k < docs.Length ==> docs[k].queryId == Some(queryId)
    ensures forall k :: 0 <= k < docs.Length ==> docs[k].(queryId := old(docs[k].queryId)) == old(docs[k])
  {
    for k := 0 to docs.Length
      invariant forall j :: 0 <= j < k ==> docs[j] == old(docs[j]).(queryId := Some(queryId))
      invariant forall j :: k <= j < docs.Length ==> docs[j] == old(docs[j])
    {
      docs[k] := docs[k].(queryId := Some(queryId));
    }
  }

  /** A document with the query id stamped on it. */
  function StampWith(queryId: string): Document -> Document {
    (d: Document) => d.(queryId := Some(queryId))
  }

  /** Once stamped, every document can be split, and every sentence carries the query id. */
  lemma {:induction false} StampedDocumentsSplit(docs: seq<Document>, queryId: string, tokenize: Segmentation.Tokenizer)
    requires forall k :: 0 <= k < |docs| ==> docs[k].queryId == Some(queryId)
    ensures Segmentation.SplitSpec(docs, tokenize).Some?
    ensures forall s :: s in Segmentation.SentencesOfDocuments(docs, tokenize) ==> s.queryId == queryId
  {
    if docs != [] {
      var init, d := docs[..|docs| - 1], docs[|docs| - 1];
      assert docs == init + [d];
      StampedDocumentsSplit(init, queryId, tokenize);
      FlattenMapSnoc(init, d, Segmentation.PerDocument(tokenize));
      match tokenize(d.text)
      case None =>
      case Some(spans) =>
        Segmentation.SpanSentencesAreNonBlankSpans(queryId, d, spans, |spans|);
    }
  }

  // ---------------------------------------------------------------------------
  // Response
  // ---------------------------------------------------------------------------

  /** What the NLI stage returns: a label (the verdict), an optional confidence and the evidence sentence ids. */
  datatype NliResult = NliResult(verdict: string, confidence: Option<real>, evidences: seq<string>)

  datatype Evidence = Evidence(
    sentenceId: string,
    sentenceText: string,
    documentId: string,
    source: string,
    title: string,
    url: string)

  datatype Response =
    | Failed(queryId: string, claim: string, error: string)
    | Verdict(queryId: string, claim: string, verdict: string, confidence: Option<real>, evidence: seq<Evidence>)

  const NliFailure := "NLI inference failed"

  /** The evidence entry built from a sentence record. */
  function EvidenceFrom(sid: string, meta: Sentence): (e: Evidence) {
    Evidence(sid, meta.sentenceText, meta.docId, meta.source, meta.title, meta.url)
  }

  function EvidenceIds(evidence: seq<Evidence>): (ids: seq<string>) {
    MapSeq(evidence, (e: Evidence) => e.sentenceId)
  }

  function Known(lookup: map<string, Sentence>): string -> bool {
    sid => sid in lookup
  }

  /**
   * The enrichment loop: the evidence ids that have a sentence record, in
   * NLI order, each joined with the fields of its record; ids without a
   * record are dropped.
   */
  method EnrichEvidence(evidences: seq<string>, lookup: map<string, Sentence>) returns (enriched: seq<Evidence>)
    ensures enriched == Enriched(evidences, lookup)
  {
    enriched := [];
    for i := 0 to |evidences|
      invariant enriched == Enriched(evidences[..i], lookup)
    {
      var sid := evidences[i];
      assert evidences[..i + 1][..i] == evidences[..i];
      if sid in lookup {
        var meta := lookup[sid];
        enriched := enriched + [EvidenceFrom(sid, meta)];
      }
    }
    assert evidences[..|evidences|] == evidences;
  }

  /** The enriched evidence of `evidences`, as a value. */
  function Enriched(evidences: seq<string>, lookup: map<string, Sentence>): seq<Evidence> {
    if evidences == [] then []
    else
      var init, sid := evidences[..|evidences| - 1], evidences[|evidences| - 1];
      Enriched(init, lookup) + (if sid in lookup then [EvidenceFrom(sid, lookup[sid])] else [])
  }

  /** Every enriched entry is its id joined with that id's record. */
  predicate EnrichedFrom(enriched: seq<Evidence>, lookup: map<string, Sentence>) {
    forall k :: 0 <= k < |enriched| ==>
      enriched[k].sentenceId in lookup && enriched[k] == EvidenceFrom(enriched[k].sentenceId, lookup[enriched[k].sentenceId])
  }

  /**
   * The enriched evidence keeps, in NLI order, exactly the ids that have a
   * record, and joins each with that record's fields.
   */
  lemma {:induction false} EnrichedSpec(evidences: seq<string>, lookup: map<string, Sentence>)
    ensures EvidenceIds(Enriched(evidences, lookup)) == Filter(evidences, Known(lookup))
    ensures EnrichedFrom(Enriched(evidences, lookup), lookup)
  {
    if evidences != [] {
      var init, sid := evidences[..|evidences| - 1], evidences[|evidences| - 1];
      assert evidences == init + [sid];
      EnrichedSpec(init, lookup);
      var prev := Enriched(init, lookup);
      if sid in lookup {
        var e := EvidenceFrom(sid, lookup[sid]);
        MapSeqSnoc(prev, e, (e: Evidence) => e.sentenceId);
        var all := prev + [e];
        forall k | 0 <= k < |all|
          ensures all[k].sentenceId in lookup && all[k] == EvidenceFrom(all[k].sentenceId, lookup[all[k].sentenceId])
        {
          if k < |prev| {
            assert all[k] == prev[k];
          }
        }
      }
    }
  }



  /**
   * The response once the sentence records are known: the error response
   * when NLI returned nothing, otherwise the label, the confidence and the
   * enriched evidence. The sentence lookup keeps the last record of each id.
   */
  method Respond(queryId: string, claim: string, nli: Option<NliResult>, sentences: seq<Sentence>)
    returns (r: Response)
    ensures nli.None? <==> r.Failed?
    ensures r.queryId == queryId && r.claim == claim
    ensures r.Failed? ==> r.error == NliFailure
    ensures r.Verdict? ==> r.verdict == nli.value.verdict && r.confidence == nli.value.confidence
    ensures r.Verdict? ==> EvidenceIds(r.evidence) == Filter(nli.value.evidences, Known(SentencesById(sentences)))
    ensures r.Verdict? ==> forall k :: 0 <= k < |r.evidence| ==> FromLastRecord(sentences, r.evidence[k])
  {
    if nli.None? {
      return Failed(queryId, claim, NliFailure);
    }
    var lookup := SentencesById(sentences);
    var enriched := EnrichEvidence(nli.value.evidences, lookup);
    EnrichedSpec(nli.value.evidences, lookup);
    r := Verdict(queryId, claim, nli.value.verdict, nli.value.confidence, enriched);
    forall k | 0 <= k < |enriched| ensures FromLastRecord(sentences, enriched[k]) {
      var j := LookupHolds(sentences, enriched[k].sentenceId);
      assert enriched[k] == EvidenceFrom(sentences[j].sentenceId, sentences[j]);
    }
  }

  /** `ss[j]` is the last record with its sentence id. */
  predicate IsLastRecord(ss: seq<Sentence>, j: nat) {
    j < |ss| && forall j' :: j < j' < |ss| ==> ss[j'].sentenceId != ss[j].sentenceId
  }

  /** `e` is built from the last record carrying its sentence id. */
  predicate FromLastRecord(ss: seq<Sentence>, e: Evidence) {
    exists j :: 0 <= j < |ss| && IsLastRecord(ss, j) && e == EvidenceFrom(ss[j].sentenceId, ss[j])
  }

  /** An id in the lookup maps to its last record in the list. */
  lemma LookupHolds(ss: seq<Sentence>, sid: string) returns (j: nat)
    requires sid in SentencesById(ss)
    ensures IsLastRecord(ss, j) && ss[j].sentenceId == sid && SentencesById(ss)[sid] == ss[j]
  {
    var pairs := seq(|ss|, k requires 0 <= k < |ss| => (ss[k].sentenceId, ss[k]));
    var ids := seq(|ss|, k requires 0 <= k < |ss| => ss[k].sentenceId);
    assert sid in ids by {
      var k :| 0 <= k < |pairs| && pairs[k].0 == sid;
      assert ids[k] == sid;
    }
    j := LastOccurrence(ids, sid);
    assert forall l :: 0 <= l < |ss| ==> ids[l] == pairs[l].0 == ss[l].sentenceId;
    LastWinsValue(pairs, j);
  }

  // ---------------------------------------------------------------------------
  // Output files
  // ---------------------------------------------------------------------------

  const DocumentsDir: string := "outputs/documents"
  const SentencesDir: string := "outputs/sentences"

  /** The name `save_docs_to_json` gives the request's documents file. */
  function DocumentsFile(queryId: string): string {
    "documents_" + queryId + ".json"
  }

  /** The name `save_sentences_to_json` gives the request's sentences file. */
  function SentencesFile(queryId: string): string {
    "sentences_" + queryId + ".json"
  }

  /**
   * The directory listings once a request has saved its documents, then its
   * sentences, then the files `stageOutputs` of its retrieval, fusion and
   * NLI stages.
   */
  function RequestOutputs(dirs: map<string, seq<string>>, queryId: string, stageOutputs: seq<(string, string)>)
    : map<string, seq<string>>
  {
    var withDocuments := Cleanup.WithFile(dirs, DocumentsDir, DocumentsFile(queryId));
    var withSentences := Cleanup.WithFile(withDocuments, SentencesDir, SentencesFile(queryId));
    Cleanup.WithFiles(withSentences, stageOutputs)
  }

  /**
   * Once a request has saved its outputs, the retention pass collects the
   * request's own id beside every id it collected before: the current query
   * counts toward the three that are kept.
   */
  lemma RequestQueryCollected(dirs: map<string, seq<string>>, c: Clock, uuidHex: string, stageOutputs: seq<(string, string)>)
    requires ValidClock(c) && IsUuidHex(uuidHex)
    ensures var after := Cleanup.QueryIdsIn(RequestOutputs(dirs, QueryId(c, uuidHex), stageOutputs), Cleanup.OutputDirs);
      && QueryId(c, uuidHex) in after
      && Cleanup.QueryIdsIn(dirs, Cleanup.OutputDirs) <= after
  {
    var q := QueryId(c, uuidHex);
    QueryIdMatchesCleanupPattern(c, uuidHex);
    Cleanup.SearchFindsEmbeddedId("documents_", q, ".json");
    assert Cleanup.FoundIds(DocumentsFile(q)) == {q};
    assert DocumentsDir in Cleanup.OutputDirs && SentencesDir in Cleanup.OutputDirs;
    var withDocuments := Cleanup.WithFile(dirs, DocumentsDir, DocumentsFile(q));
    Cleanup.QueryIdsInWithFile(dirs, Cleanup.OutputDirs, DocumentsDir, DocumentsFile(q));
    var withSentences := Cleanup.WithFile(withDocuments, SentencesDir, SentencesFile(q));
    Cleanup.QueryIdsInWithFile(withDocuments, Cleanup.OutputDirs, SentencesDir, SentencesFile(q));
    Cleanup.QueryIdsInWithFiles(withSentences, stageOutputs);
  }

  /** The sentence records the request produces from its gathered, stamped documents. */
  function RequestSentences(
    queryId: string, wiki: seq<Document>, scholar: seq<Document>, gnews: seq<Document>,
    tokenize: Segmentation.Tokenizer): seq<Sentence>
  {
    Segmentation.SentencesOfDocuments(MapSeq(wiki + scholar + gnews, StampWith(queryId)), tokenize)
  }

  /**
   * What the retrieval, fusion and NLI stages did: the output files they
   * saved, in order, and whether every stage returned (`completed`) or one
   * raised and ended the request there (fusion's `min()` over an empty
   * score list, for one).
   */
  datatype StageRun = StageRun(saved: seq<(string, string)>, completed: bool)

  /**
   * `verify_claim_pipeline` over its deterministic steps: build the query
   * id, gather and stamp the documents and save them, split them into
   * sentences and save those, record the files the later stages save and
   * stop (with no response) if one of them raised; otherwise build the
   * explainability index (before the NLI outcome is inspected), answer from
   * the NLI outcome and, only when that outcome exists, run the retention
   * pass over the output directories as they now stand. Retrieval results,
   * the doc ids of the fused ranking, the tokenizer, the run of the
   * retrieval, fusion and NLI stages, the NLI outcome and the clock and UUID
   * are inputs.
   */
  method VerifyClaimPipeline(
    claim: string, clock: Clock, uuidHex: string,
    wiki: seq<Document>, scholar: seq<Document>, gnews: seq<Document>,
    tokenize: Segmentation.Tokenizer, stages: StageRun,
    fusedDocIds: seq<Option<string>>, nli: Option<NliResult>,
    store: Cleanup.OutputStore, explainer: Explainability.Explainer, canDelete: (string, string) -> bool)
    returns (r: Option<Response>)
    requires ValidClock(clock) && IsUuidHex(uuidHex)
    modifies store, explainer
    ensures r.Some? <==> stages.completed
    ensures r.None? ==>
      && store.dirs == RequestOutputs(old(store.dirs), QueryId(clock, uuidHex), stages.saved)
      && unchanged(explainer)
    ensures r.Some? ==> r.value.queryId == QueryId(clock, uuidHex) && r.value.claim == claim
    ensures r.Some? ==> (nli.None? <==> r.value.Failed?)
    ensures r.Some? && r.value.Failed? ==>
      r.value.error == NliFailure && store.dirs == RequestOutputs(old(store.dirs), QueryId(clock, uuidHex), stages.saved)
    ensures r.Some? && r.value.Verdict? ==> r.value.verdict == nli.value.verdict && r.value.confidence == nli.value.confidence
    ensures r.Some? && r.value.Verdict? ==>
      var sentences := RequestSentences(QueryId(clock, uuidHex), wiki, scholar, gnews, tokenize);
      && EvidenceIds(r.value.evidence) == Filter(nli.value.evidences, Known(SentencesById(sentences)))
      && (forall k :: 0 <= k < |r.value.evidence| ==> FromLastRecord(sentences, r.value.evidence[k]))
    ensures r.Some? && r.value.Verdict? ==>
      store.dirs == Cleanup.CleanupResult(RequestOutputs(old(store.dirs), QueryId(clock, uuidHex), stages.saved), canDelete)
    ensures r.Some? ==> explainer.activeQueryId == Some(QueryId(clock, uuidHex))
    ensures r.Some? ==> explainer.indexes == Explainability.BuildSpec(
      old(explainer.activeQueryId), old(explainer.indexes), QueryId(clock, uuidHex), 5,
      Some(fusedDocIds), Some(MapSeq(wiki + scholar + gnews, StampWith(QueryId(clock, uuidHex))))).1
  {
    var queryId := QueryId(clock, uuidHex);
    var stamped := StampedDocuments(wiki, scholar, gnews, queryId);
    store.WriteFile(DocumentsDir, DocumentsFile(queryId));
    StampedDocumentsSplit(stamped, queryId, tokenize);
    var split := Segmentation.SplitDocumentsIntoSentences(stamped, tokenize);
    ghost var sentences := RequestSentences(queryId, wiki, scholar, gnews, tokenize);
    assert split.value == sentences;
    store.WriteFile(SentencesDir, SentencesFile(queryId));
    store.WriteFiles(stages.saved);
    ghost var dirs0 := store.dirs;
    assert dirs0 == RequestOutputs(old(store.dirs), queryId, stages.saved);
    if !stages.completed {
      return None;
    }
    var _ := explainer.BuildExplainabilityIndex(queryId, 5, Some(fusedDocIds), Some(stamped));
    ghost var active, indexes := explainer.activeQueryId, explainer.indexes;
    assert store.dirs == dirs0;
    var response := Respond(queryId, claim, nli, split.value);
    if response.Verdict? {
      store.CleanupOldQueries(canDelete);
    }
    assert explainer.activeQueryId == active && explainer.indexes == indexes;
    r := Some(response);
  }

  /** `all_docs`: the three sources' documents gathered into one list, each stamped with the query id in place. */
  method StampedDocuments(wiki: seq<Document>, scholar: seq<Document>, gnews: seq<Document>, queryId: string)
    returns (stamped: seq<Document>)
    ensures stamped == MapSeq(wiki + scholar + gnews, StampWith(queryId))
    ensures forall k :: 0 <= k < |stamped| ==> stamped[k].queryId == Some(queryId)
  {
    var docs := GatherDocuments(wiki, scholar, gnews);
    StampQueryId(docs, queryId);
    stamped := docs[..];
  }
}
