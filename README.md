# Evidence-Retrieval claim verification, modelled in Dafny

Evidence-Retrieval checks a user's claim against retrieved evidence. For one
request it does the following:

- builds a query id;
- gathers documents from Wikipedia, scholarly search (OpenAlex with
  Semantic Scholar as the fallback) and GNews;
- stamps the documents with the query id and splits them into sentence
  records;
- ranks the sentences by fusing a lexical (BM25) score with a dense
  (FAISS) score;
- asks an NLI model for a verdict and joins the evidence ids it cites back
  to their sentence records;
- builds a per-query index for the explainability assistant;
- finally removes the output names that mention any query id except the three that sort last.

This project models the deterministic logic of that backend. Each module
follows one source file:

| module | models |
|---|---|
| `Fusion` (fusion.dfy) | `min_max_normalize` and `fuse_and_rank`: canonical ids, raw `0.0` fill, blend, stable descending sort, `top_k` cut |
| `Segmentation` (segmentation.dfy) | `split_documents_into_sentences`, with the sentence tokenizer as a parameter |
| `Cleanup` (cleanup.dfy) | `cleanup_old_queries`: the query-id pattern, id collection, keep-3 selection, removal of names from a map of directory listings (class `OutputStore`), and the saving of output files into those listings |
| `Pipeline` (pipeline.dfy) | `verify_claim_pipeline`: query-id format, document gathering, in-place stamping (an `array`), the NLI error path, evidence enrichment, the explainability build and the cleanup call |
| `Scholar` (scholar.dfy) | `scholar_pipeline`: abstract reconstruction from an inverted index, title de-duplication, `scholar_N` numbering, the fallback limit, the 3-attempt retry loop |
| `Gnews` (gnews.dfy) | `generate_ngrams`, the ranking contract of `select_relevant_ngrams`, the budgeted `expand_query` assembly, and the article mapping of `gnews_pipeline` |
| `Explainability` (explainability.dfy) | `build_explainability_index` and `answer_user_question` over the one-slot `ACTIVE_QUERY_ID` state (class `Explainer`) |

Shared modules:

- `Wrappers` holds `Option` and `Result`.
- `Lists` covers:
  - distinctness;
  - first-occurrence de-duplication, i.e. dict key order;
  - last-wins dictionaries;
  - list comprehensions.
- `Text` covers:
  - Python's `str.strip`, `split` and ASCII `lower`;
  - decimal numerals;
  - string order;
  - `in` on strings and `join`.
- `Ranking` holds Python's stable descending sort and `xs[:k]`.
- `Schemas` holds the document and sentence records.

Scores are exact `real`s.

Retrieved documents, tokenizers, learned scores, the NLI outcome, the clock,
the UUID and the success of a file removal are all parameters.

Where the code and its design description disagree, the model follows the
code:

- **Empty lexical scores.** Fusing an empty lexical score list is an error (`min()` raises), not an empty result.
- **Missing dense score.** A lexical id with no dense score is filled with raw `0.0` before normalising. Its normalised dense value can therefore be non-zero (`Fusion.MissingDenseScoreIsRawZero`).
- **`sentence_index`.** It is the tokenizer position counted before blank spans are dropped, so it can have gaps.
- **When cleanup runs.** Cleanup runs only on the success path of the pipeline.
- **In-place update.** Documents are updated in place when stamped.

## Model

| member | source | states |
|---|---|---|
| Fusion.MinMaxNormalize | Evidence-Retrieval/Retrieval/fusion_and_ranking.py:27-32 | fails exactly on the empty list (where `min()` raises); otherwise keeps the length |
| Fusion.NormalizeAllZeroIffAllEqual | Evidence-Retrieval/Retrieval/fusion_and_ranking.py:29-31 | the result is all zeros if and only if all values are equal |
| Fusion.NormalizeInUnitInterval | Evidence-Retrieval/Retrieval/fusion_and_ranking.py:32 | every normalised value lies in [0, 1] |
| Fusion.NormalizeExtremes | Evidence-Retrieval/Retrieval/fusion_and_ranking.py:32 | for unequal values the minimum maps to 0 and the maximum to 1 |
| Fusion.NormalizeMonotone | Evidence-Retrieval/Retrieval/fusion_and_ranking.py:32 | normalisation preserves order and strict order |
| Fusion.CanonicalIds | Evidence-Retrieval/Retrieval/fusion_and_ranking.py:40-43 | the canonical ids are distinct, are exactly the lexical map's keys, and are empty only for empty input |
| Fusion.FirstUnknown | Evidence-Retrieval/Retrieval/fusion_and_ranking.py:53-55 | names the first id without a sentence record, or none when all have one |
| Fusion.FuseAndRankSpec | Evidence-Retrieval/Retrieval/fusion_and_ranking.py:35-71 | fails with the empty-list error exactly on empty lexical input; succeeds exactly when every lexical id has a sentence; an unknown-sentence error names a lexical id missing from the sentence map |
| Fusion.FuseAndRank | Evidence-Retrieval/Retrieval/fusion_and_ranking.py:35-71 | the append loop, sort and slice compute the fused ranking |
| Fusion.BuildFused | Evidence-Retrieval/Retrieval/fusion_and_ranking.py:51-68 | the append loop stops at the first id without a sentence and otherwise yields one record per canonical id |
| Fusion.UnrankedAt | Evidence-Retrieval/Retrieval/fusion_and_ranking.py:53-68 | record `k` blends the `k`-th normalised scores and carries the raw lexical score, the raw dense score (or 0.0) and the sentence's fields |
| Fusion.ResultIsRanked | Evidence-Retrieval/Retrieval/fusion_and_ranking.py:70-71 | the result is the first `top_k` records in a stable descending ranking of the final scores |
| Fusion.FinalScoresInUnitInterval | Evidence-Retrieval/Retrieval/fusion_and_ranking.py:48-54 | with `alpha` in [0, 1] every final score lies in [0, 1] |
| Fusion.ResultOrderedByScore | Evidence-Retrieval/Retrieval/fusion_and_ranking.py:70 | scores are non-increasing along the result, and equal scores keep canonical order |
| Fusion.ResultIsTopKPrefix | Evidence-Retrieval/Retrieval/fusion_and_ranking.py:71 | the result has min(`top_k`, #ids) records and is a prefix of the untruncated ranking |
| Fusion.ResultCoversLexicalIds | Evidence-Retrieval/Retrieval/fusion_and_ranking.py:43-71 | with a large enough `top_k`, every lexical id appears exactly once |
| Fusion.ResultFieldsFromInputs | Evidence-Retrieval/Retrieval/fusion_and_ranking.py:57-68 | each record carries the query id, the raw scores (dense defaulting to 0.0) and text, doc id, source, title and url from the sentence map |
| Fusion.DenseOnlyIdsIgnored | Evidence-Retrieval/Retrieval/fusion_and_ranking.py:43-46 | dense scores for ids without a lexical score change nothing |
| Fusion.FusionExample | Evidence-Retrieval/Retrieval/fusion_and_ranking.py:35-71 | lexical {a:2, b:4, c:4} and dense {a:.5, b:.5, c:1} with alpha .6 rank [c:1.0, b:0.6, a:0.0] |
| Fusion.MissingDenseScoreIsRawZero | Evidence-Retrieval/Retrieval/fusion_and_ranking.py:46-49 | a missing dense score is the raw value 0.0 and can normalise to 1 |
| Ranking.StableRankDescending | Evidence-Retrieval/Retrieval/fusion_and_ranking.py:70 | the in-place stable sort with `reverse=True` as a permutation of indices: descending keys, with ties in original order |
| Ranking.StableRankingUnique | Evidence-Retrieval/Retrieval/fusion_and_ranking.py:70 | there is only one stable descending ranking of a key list |
| Ranking.RankingIsPermutation | Evidence-Retrieval/Retrieval/fusion_and_ranking.py:70 | a stable ranking lists every index exactly once |
| Ranking.PyPrefix | Evidence-Retrieval/Retrieval/fusion_and_ranking.py:71 | `xs[:k]` is a prefix whose length follows Python's slice rules |
| Lists.Dedup | Evidence-Retrieval/Retrieval/fusion_and_ranking.py:40-43 | dict key order: distinct, the same values as the input |
| Lists.DedupKeepsFirstOccurrenceOrder | Evidence-Retrieval/Retrieval/fusion_and_ranking.py:40-43 | the keys are in order of first insertion |
| Lists.LastWins | Evidence-Retrieval/app/pipeline.py:127-130 | a dict built from pairs has exactly the pairs' keys |
| Lists.LastWinsValue | Evidence-Retrieval/app/pipeline.py:127-130 | a later pair with the same key overrides an earlier one |
| Segmentation.SplitSpec | Evidence-Retrieval/Pipelines/sentence_splitter.py:10-38 | the split fails exactly when some document has no `query_id` |
| Segmentation.SplitDocumentsIntoSentences | Evidence-Retrieval/Pipelines/sentence_splitter.py:10-38 | the nested loop computes the sentence records of all documents, in order |
| Segmentation.AppendSpanSentences | Evidence-Retrieval/Pipelines/sentence_splitter.py:22-36 | the inner loop appends one record per non-blank span |
| Segmentation.AppendIfNonBlank | Evidence-Retrieval/Pipelines/sentence_splitter.py:23-36 | one span adds its record, with the stripped text, exactly when it is not blank |
| Segmentation.SpanSentencesAreNonBlankSpans | Evidence-Retrieval/Pipelines/sentence_splitter.py:22-36 | the records are those of the non-blank spans, with id, index, stripped text and parent fields |
| Segmentation.NonBlankIndicesSpec | Evidence-Retrieval/Pipelines/sentence_splitter.py:22-25 | the kept indices increase strictly and are exactly the spans that are non-empty after stripping |
| Segmentation.EmittedTextsAreStrippedAndNonEmpty | Evidence-Retrieval/Pipelines/sentence_splitter.py:23-25 | every `sentence_text` is its span stripped and is non-empty |
| Segmentation.SentencesOfConcatenation | Evidence-Retrieval/Pipelines/sentence_splitter.py:13 | output order is document order |
| Segmentation.FailedDocumentIsSkipped | Evidence-Retrieval/Pipelines/sentence_splitter.py:17-20 | a document whose tokenizer call raises contributes nothing, and later documents are still processed |
| Segmentation.SentenceCount | Evidence-Retrieval/Pipelines/sentence_splitter.py:11-38 | the output length is the number of non-blank spans over all tokenised documents |
| Segmentation.SentenceIdInjective | Evidence-Retrieval/Pipelines/sentence_splitter.py:29 | `s_<doc_id>_<idx>` determines both the doc id and the index |
| Segmentation.DocumentRecords | Evidence-Retrieval/Pipelines/sentence_splitter.py:22-34 | within a document the records carry its id, and `sentence_index` increases strictly |
| Segmentation.SentencesFromDocuments | Evidence-Retrieval/Pipelines/sentence_splitter.py:27-34 | every record's id is built from its own doc id and index, and that doc id belongs to an input document |
| Segmentation.SentenceIdsUnique | Evidence-Retrieval/Schemas/sentence_schema.py:16 | with distinct doc ids, all sentence ids are distinct |
| Cleanup.HexRun | Evidence-Retrieval/app/output_cleanup.py:20 | the greedy `[a-f0-9]+` takes the longest run of hex characters |
| Cleanup.SearchFinds | Evidence-Retrieval/app/output_cleanup.py:20 | `search` finds nothing exactly when no position matches; otherwise it returns a maximal whole query id at the leftmost match |
| Cleanup.SearchedIdOccurs | Evidence-Retrieval/app/output_cleanup.py:36-38 | a found id has the query-id shape and occurs in the name |
| Cleanup.QueryIdFindsItself | Evidence-Retrieval/app/output_cleanup.py:20 | searching a query id finds itself |
| Cleanup.TimestampOrderIsStringOrder | Evidence-Retrieval/app/output_cleanup.py:43-44 | for well-formed ids, an earlier timestamp sorts first as a string |
| Cleanup.StringOrderFollowsTimestamps | Evidence-Retrieval/app/output_cleanup.py:43-44 | string order never puts a later timestamp first |
| Cleanup.QueryIdsInFound | Evidence-Retrieval/app/output_cleanup.py:29-38 | the collected ids are exactly the first matches of the names in existing managed directories |
| Cleanup.CollectedIdsAreQueryIds | Evidence-Retrieval/app/output_cleanup.py:29-38 | every collected id has the query-id shape |
| Cleanup.SortedIds | Evidence-Retrieval/app/output_cleanup.py:44 | `sorted(set)`: same members, strictly ascending |
| Cleanup.RetentionSplit | Evidence-Retrieval/app/output_cleanup.py:44-47 | with more than 3 ids, the delete list has n−3 ids, the 3 greatest are kept, the two parts partition the ids, and every deleted id sorts before every kept one |
| Cleanup.DeletedIffThreeGreater | Evidence-Retrieval/app/output_cleanup.py:44-47 | an id is deleted exactly when at least three collected ids are greater |
| Cleanup.CleanupKeepsDirectories | Evidence-Retrieval/app/output_cleanup.py:40-51 | no directory is created or removed; with at most 3 ids, or outside the managed list, nothing changes |
| Cleanup.CleanupRemovesStaleNames | Evidence-Retrieval/app/output_cleanup.py:49-64 | a name is gone exactly when it contains a stale id and its removal succeeds; all other names remain |
| Cleanup.PruneNames | Evidence-Retrieval/app/output_cleanup.py:53-64 | the inner loops keep exactly the names that mention no stale id or whose removal failed |
| Cleanup.OutputStore.CollectQueryIds | Evidence-Retrieval/app/output_cleanup.py:29-38 | the collection loop computes the collected id set |
| Cleanup.OutputStore.CleanupOldQueries | Evidence-Retrieval/app/output_cleanup.py:22-64 | the new listings are the cleanup result of the old ones |
| Cleanup.SearchFindsEmbeddedId | Evidence-Retrieval/app/output_cleanup.py:36-38 | an id written into a name after a prefix without `q` and before a non-hex character is the id the search finds there |
| Cleanup.WithFileListing | Evidence-Retrieval/app/pipeline.py:32-44 | saving a file creates its directory if missing; the directory then lists the name beside its earlier names, adds no duplicate, and leaves other directories unchanged |
| Cleanup.OutputStore.WriteFile | Evidence-Retrieval/app/pipeline.py:32-44 | saving one file changes the listings as `WithFile` says |
| Cleanup.OutputStore.WriteFiles | Evidence-Retrieval/app/pipeline.py:96-111 | saving several files, in order, changes the listings as `WithFiles` says |
| Cleanup.QueryIdsInWithFile | Evidence-Retrieval/app/output_cleanup.py:29-38 | saving a name into a managed directory adds exactly the id found in that name to the collected ids; elsewhere the collected ids stay the same |
| Cleanup.QueryIdsInWithFiles | Evidence-Retrieval/app/output_cleanup.py:29-38 | saving files never loses a collected id |
| Pipeline.QueryIdMatchesCleanupPattern | Evidence-Retrieval/app/pipeline.py:57 | the query id has 24 characters, has the cleanup pattern's shape, and is found whole by the pattern |
| Pipeline.QueryIdTimestamp | Evidence-Retrieval/app/pipeline.py:57 | the digits of the query id read back as the clock's date and time |
| Pipeline.ClockNumberMonotone | Evidence-Retrieval/app/pipeline.py:57 | a strictly later clock gives a strictly greater timestamp |
| Pipeline.LaterQuerySortsLater | Evidence-Retrieval/app/pipeline.py:57 | an id from a strictly earlier clock second sorts first, whatever the random suffixes |
| Pipeline.GatherDocuments | Evidence-Retrieval/app/pipeline.py:60-79 | `all_docs` is Wikipedia, then Scholar, then GNews documents |
| Pipeline.StampQueryId | Evidence-Retrieval/app/pipeline.py:84-85 | every document gets the query id, and no other field changes |
| Pipeline.StampedDocumentsSplit | Evidence-Retrieval/app/pipeline.py:84-92 | stamped documents always split, and every sentence carries the query id |
| Pipeline.EnrichEvidence | Evidence-Retrieval/app/pipeline.py:133-146 | the enrichment loop computes `Enriched` of the NLI evidence and the lookup |
| Pipeline.EnrichedSpec | Evidence-Retrieval/app/pipeline.py:133-146 | the enriched evidence ids are the NLI evidence ids present in the lookup, in NLI order, and each entry carries its record's text, doc id, source, title and url |
| Pipeline.StampedDocuments | Evidence-Retrieval/app/pipeline.py:60-85 | the gathered documents are Wikipedia's, then Scholar's, then GNews', in order, each with its query id set to this query's id |
| Pipeline.Respond | Evidence-Retrieval/app/pipeline.py:114-161 | a missing NLI result gives the fixed error response, otherwise the verdict, confidence and enriched evidence |
| Pipeline.LookupHolds | Evidence-Retrieval/app/pipeline.py:127-130 | a looked-up sentence is the last record with that id |
| Pipeline.RequestQueryCollected | Evidence-Retrieval/app/pipeline.py:86-153 | after the request saves its documents, sentences and stage files, the retention pass collects the request's own id and every id it collected before |
| Pipeline.VerifyClaimPipeline | Evidence-Retrieval/app/pipeline.py:52-161 | query id; documents and sentences files saved on every path; a stage that raises ends the request with no response, the explainability state untouched and only the saved files added; otherwise the NLI error path whose only output changes are the saved files, or the verdict with evidence from the request's own sentences; the explainability build whenever the stages complete; and, only after a verdict, the cleanup over the listings that include this request's files |
| Scholar.Extent | Evidence-Retrieval/Pipelines/Scholar.py:155-158 | the word list's length is one more than the largest position seen |
| Scholar.SlotWordIsLastListing | Evidence-Retrieval/Pipelines/Scholar.py:155-159 | slot `p` holds the word of the last key listing `p`, and is empty when none does |
| Scholar.ReconstructWords | Evidence-Retrieval/Pipelines/Scholar.py:154-159 | the growable-list loop yields `Extent` slots, each holding its last listed word |
| Scholar.WritePositions | Evidence-Retrieval/Pipelines/Scholar.py:156-159 | writing one key's positions extends the list with `None` and overwrites exactly those positions |
| Scholar.IndexStep | Evidence-Retrieval/Pipelines/Scholar.py:155-159 | one more key raises the extent to its positions and overrides their slots |
| Scholar.FilledWords | Evidence-Retrieval/Pipelines/Scholar.py:160 | only non-empty slots take part in the join |
| Scholar.AbstractTextSplitsIntoSlots | Evidence-Retrieval/Pipelines/Scholar.py:160 | splitting the abstract on whitespace gives back the filled slots in position order |
| Scholar.FilledWordsFrom | Evidence-Retrieval/Pipelines/Scholar.py:160 | every joined word comes from a slot |
| Scholar.FetchPapers | Evidence-Retrieval/Pipelines/Scholar.py:197-210 | at most 3 attempts; 429 retries; 200 keeps the papers; another status keeps none; three 429s leave the fallback with nothing |
| Scholar.FetchedIsOutcome | Evidence-Retrieval/Pipelines/Scholar.py:197-212 | the loop's outcome is that of the first reply that is not a rate limit |
| Scholar.ScholarPipeline | Evidence-Retrieval/Pipelines/Scholar.py:114-238 | the two append loops compute the Scholar results |
| Scholar.OpenAlexPass | Evidence-Retrieval/Pipelines/Scholar.py:148-175 | the OpenAlex append loop computes `OpenAlexLoop` from an empty start |
| Scholar.FallbackPass | Evidence-Retrieval/Pipelines/Scholar.py:212-233 | the Semantic Scholar append loop continues the numbering and seen titles and computes `PaperLoop` from the OpenAlex results |
| Scholar.ScholarResultsConsistent | Evidence-Retrieval/Pipelines/Scholar.py:162-175 | ids are `scholar_1..n` in append order across both sources; stored titles match pairwise-distinct keys `strip().lower()`; the seen set is exactly those keys |
| Scholar.OpenAlexLoopConsistent | Evidence-Retrieval/Pipelines/Scholar.py:148-175 | the OpenAlex loop keeps the numbering and de-duplication invariant |
| Scholar.PaperLoopConsistent | Evidence-Retrieval/Pipelines/Scholar.py:212-233 | the Semantic Scholar loop keeps the numbering and de-duplication invariant |
| Scholar.FallbackRespectsLimit | Evidence-Retrieval/Pipelines/Scholar.py:183-233 | with `limit` OpenAlex results the result is exactly those; otherwise OpenAlex results come first, fallback results follow, and the total is at most `limit` |
| Scholar.PaperLoopExtends | Evidence-Retrieval/Pipelines/Scholar.py:212-233 | the fallback only appends Semantic Scholar documents and stops at `limit` |
| Scholar.WorkWithoutIndexIgnored | Evidence-Retrieval/Pipelines/Scholar.py:149-151 | a work without an abstract index changes nothing, even with a null title |
| Scholar.PaperWithoutAbstractIgnored | Evidence-Retrieval/Pipelines/Scholar.py:213-215 | a paper without an abstract changes nothing, even with a null title |
| Gnews.Preprocess | Evidence-Retrieval/Pipelines/Gnews.py:28-33 | tokens come from the letters-only lower-cased text, and stopwords are removed |
| Gnews.Ngrams | Evidence-Retrieval/Pipelines/Gnews.py:39-40 | there are max(0, len−n+1) n-grams |
| Gnews.NgramsSplitBack | Evidence-Retrieval/Pipelines/Gnews.py:39-40 | n-gram `i` splits back into `tokens[i..i+n]` |
| Gnews.CandidateHeuristic | Evidence-Retrieval/Pipelines/Gnews.py:62 | the heuristic score is 1 for trigrams, 2/3 for bigrams and 1/3 for tokens |
| Gnews.Combined | Evidence-Retrieval/Pipelines/Gnews.py:64-67 | there is one combined score per zipped triple, as many as the shortest input |
| Gnews.SelectRelevant | Evidence-Retrieval/Pipelines/Gnews.py:46-70 | an empty list gives `[]`; there are at most `top_k` results, all of them candidates |
| Gnews.SelectionIsStableRanking | Evidence-Retrieval/Pipelines/Gnews.py:69-70 | the selection is the first `top_k` of the stable descending ranking of combined scores |
| Gnews.QuotedLengthIsConcatLength | Evidence-Retrieval/Pipelines/Gnews.py:93-96 | the running `current_length` equals the length of the concatenated parts |
| Gnews.FitCount | Evidence-Retrieval/Pipelines/Gnews.py:91-97 | the first `m` parts fit the budget and the next one would overflow |
| Gnews.FitCountUnique | Evidence-Retrieval/Pipelines/Gnews.py:94-95 | that stopping point is unique, so the loop stops at the first overflowing term |
| Gnews.AssembleParts | Evidence-Retrieval/Pipelines/Gnews.py:88-97 | the loop builds the quoted parts of the terms that fit |
| Gnews.QuotedPartsJoin | Evidence-Retrieval/Pipelines/Gnews.py:91-93 | the parts, concatenated, are the terms quoted and joined by ` OR ` |
| Gnews.ExpandQuery | Evidence-Retrieval/Pipelines/Gnews.py:76-99 | the method computes the expanded query |
| Gnews.ExpandedQueryShape | Evidence-Retrieval/Pipelines/Gnews.py:77-99 | with no tokens, the query is unchanged; otherwise `("tok0" AND ("t1" OR ... "tm"))` with the `m ≤ 6` terms that fit |
| Gnews.GnewsDocuments | Evidence-Retrieval/Pipelines/Gnews.py:129-146 | there is one document per article with a non-empty description |
| Gnews.ArticlesToDocuments | Evidence-Retrieval/Pipelines/Gnews.py:121-146 | the append loop computes the documents, none on a failed request |
| Gnews.GnewsDocumentsNumbered | Evidence-Retrieval/Pipelines/Gnews.py:132-144 | ids are `gnews_1..` in order and distinct; the source is `gnews`; the text is the non-empty description |
| Explainability.PresentIds | Evidence-Retrieval/app/explainability_chatbot.py:73-75 | exactly the present, non-empty doc ids |
| Explainability.SelectTopDocIds | Evidence-Retrieval/app/explainability_chatbot.py:72-76 | `top_doc_ids` is distinct, in first-occurrence order, and holds exactly the non-empty doc ids of the first `top_k` results |
| Explainability.CollectIndexInputs | Evidence-Retrieval/app/explainability_chatbot.py:78-89 | `texts` and `metadatas` are aligned and hold the selected documents in file order |
| Explainability.Explainer.constructor | Evidence-Retrieval/app/explainability_chatbot.py:26 | no query is active at start |
| Explainability.Explainer.BuildExplainabilityIndex | Evidence-Retrieval/app/explainability_chatbot.py:50-105 | the query becomes active before any file is read, and the index directory follows the build transition |
| Explainability.BuildTransitions | Evidence-Retrieval/app/explainability_chatbot.py:53-105 | the old active index is removed, others are untouched, and an aligned index of the selected documents is saved exactly when one exists |
| Explainability.Explainer.AnswerUserQuestion | Evidence-Retrieval/app/explainability_chatbot.py:110-171 | the answer follows the guards and the numbered context, and the state is unchanged |
| Explainability.AnswerAfterBuild | Evidence-Retrieval/app/explainability_chatbot.py:116-145 | after a saving build, its query reaches retrieval and every other query is "not available" |
| Explainability.AnswerAfterEmptyBuild | Evidence-Retrieval/app/explainability_chatbot.py:91-121 | after a build that saved nothing, its query gets "index not found" |
| Explainability.EntriesNumbered | Evidence-Retrieval/app/explainability_chatbot.py:139-145 | context entries read back as numbers 1, 2, ... in retrieval order |

## Left out

- Wikipedia retrieval (`Pipelines/Wiki.py`) is not part of this model. Its query expansion depends on WordNet, fuzzy matching and set iteration order. Its documents are an input.
- HTTP requests, JSON decoding and file I/O are replaced by their decoded results: `Option` for "raised or absent", and maps for directories.
- Saved files are names in a directory listing. Their contents are not modelled.
- Pipeline.VerifyClaimPipeline: the documents and sentences files are saved by name. The run of the BM25, FAISS, fusion and NLI stages is an input (`StageRun`: the files they saved and whether one raised), because those stages are outside the model. Which inputs make a stage raise is therefore not derived: for example, zero sentences make fusion's `min()` raise, which `Fusion.FuseAndRankSpec` models as `EmptyScoreList`, but the pipeline takes that outcome from `StageRun`.
- `os.remove`/`shutil.rmtree` are a parameter that says whether a removal succeeds.
- The explainability index directory is also a directory that cleanup manages. The two are kept as separate states here. The cleanup's listing of `outputs/explainability_faiss` does not follow the index the request builds or removes.
- BM25, FAISS, the sentence encoder, TF-IDF and the NLI and chat models are left out:
  - their scores and outputs are parameters;
  - the doc ids of the fused ranking are an input to the pipeline's explainability build.
- NLTK `sent_tokenize`/`word_tokenize` and the stopword list are parameters.
- `TfidfVectorizer` raises on duplicate vocabulary terms. That failure is inside the left-out score computation.
- The chat prompt text, the float formatting of `confidence` and the content of the LLM answer are not modelled. The LLM is a function of the label, the confidence, the context and the question.
- Floating point: all scores are exact reals, so no rounding is modelled.
- Sleeps and back-off timing in `Scholar.py` are not modelled. The process-wide model singletons are not modelled either.
- Printing and logging are not modelled.
- Text handling:
  - `str.lower()` is modelled for ASCII letters only.
  - The regular expressions' `\d` is modelled for ASCII digits only.
  - `\s` is modelled as `str.isspace`.
- Gnews.Ngrams: requires `n ≥ 1`. The source calls it with 2 and 3 only.
- Pipeline.QueryId: `%Y` is modelled for years 1000 to 9999, where it has four digits.
- Pipeline.LaterQuerySortsLater: only covers ids from different clock seconds. Within one second the random suffix decides the order. A local clock that is set back gives a later request a smaller id. So the three ids that cleanup keeps need not belong to the three most recent requests.
- Scholar inputs:
  - Inverted-index positions are natural numbers. Negative or non-integer positions are not modelled.
  - Null `url`/`id` values are not modelled; only a missing key defaults to `""`.
  - A null title raises in `.strip()`. The model ends that source's loop there, keeping earlier results.
- Article, document and sentence fields are strings. JSON `null` values passed through by `.get` are not modelled.
- The fused-result and sentence records are only as wide as this model reads. The saved JSON wrappers are left out.

## Findings

None.
