/**
 * Assembly of scholarly documents from two sources: OpenAlex first, whose
 * abstracts arrive as an inverted index (each word with the positions it
 * occupies), then Semantic Scholar as a fallback while fewer than `limit`
 * documents have been found, fetched with up to three attempts when rate
 * limited. Titles are de-duplicated across both sources and kept documents
 * are numbered `scholar_1`, `scholar_2`, ... in the order they are added.
 */
module Scholar {
  import opened Wrappers
  import opened Text
  import opened Lists
  import opened Schemas

  // ---------------------------------------------------------------------------
  // Abstract reconstruction
  // ---------------------------------------------------------------------------

  /** An OpenAlex `abstract_inverted_index`: words with their positions, in key order. */
  type InvertedIndex = seq<(string, seq<nat>)>

  function Max(a: nat, b: nat): nat {
    if a < b then b else a
  }

  /** One more than the largest of `ps` (0 when there is none). */
  function PositionsExtent(ps: seq<nat>): (n: nat)
    ensures forall k :: 0 <= k < |ps| ==> ps[k] < n
    ensures n == 0 || exists k :: 0 <= k < |ps| && ps[k] + 1 == n
  {
    if ps == [] then 0 else Max(PositionsExtent(ps[..|ps| - 1]), ps[|ps| - 1] + 1)
  }

  /** One more than the largest position in the index (0 when there is none). */
  function Extent(index: InvertedIndex): (n: nat)
    ensures forall i, k :: 0 <= i < |index| && 0 <= k < |index[i].1| ==> index[i].1[k] < n
    ensures n == 0 || exists i, k :: 0 <= i < |index| && 0 <= k < |index[i].1| && index[i].1[k] + 1 == n
  {
    if index == [] then 0
    else
      var init, last := index[..|index| - 1], index[|index| - 1];
      assert forall i :: 0 <= i < |init| ==> init[i] == index[i];
      Max(Extent(init), PositionsExtent(last.1))
  }

  /** The word written last at position `p`: that of the last key listing `p`, if any. */
  function SlotWord(index: InvertedIndex, p: nat): Option<string> {
    if index == [] then None
    else if p in index[|index| - 1].1 then Some(index[|index| - 1].0)
    else SlotWord(index[..|index| - 1], p)
  }

  /**
   * The slot at `p` holds the word of the last key, in iteration order,
   * whose positions include `p`, and is empty when no key lists `p`.
   */
  lemma {:induction false} SlotWordIsLastListing(index: InvertedIndex, p: nat)
    ensures SlotWord(index, p).None? <==> forall i :: 0 <= i < |index| ==> p !in index[i].1
    ensures SlotWord(index, p).Some? ==>
      exists i :: 0 <= i < |index| && index[i].0 == SlotWord(index, p).value && p in index[i].1
        && forall i' :: i < i' < |index| ==> p !in index[i'].1
  {
    if index != [] {
      var init := index[..|index| - 1];
      SlotWordIsLastListing(init, p);
      assert forall i :: 0 <= i < |init| ==> init[i] == index[i];
    }
  }

  /** The reconstruction loop: for each key, in order, every position it lists takes its word. */
  method ReconstructWords(index: InvertedIndex) returns (words: seq<Option<string>>)
    ensures |words| == Extent(index)
    ensures forall p :: 0 <= p < |words| ==> words[p] == SlotWord(index, p)
  {
    words := [];
    for i := 0 to |index|
      invariant |words| == Extent(index[..i])
      invariant forall p :: 0 <= p < |words| ==> words[p] == SlotWord(index[..i], p)
    {
      var (w, ps) := index[i];
      SlotsBeyondExtent(index[..i], |words|);
      words := WritePositions(words, w, ps);
      IndexStep(index, i);
    }
    assert index[..|index|] == index;
  }

  /** Adding one key to the index: its positions now hold its word. */
  lemma IndexStep(index: InvertedIndex, i: nat)
    requires i < |index|
    ensures Extent(index[..i + 1]) == Max(Extent(index[..i]), PositionsExtent(index[i].1))
    ensures forall p :: SlotWord(index[..i + 1], p) == if p in index[i].1 then Some(index[i].0) else SlotWord(index[..i], p)
  {
    assert index[..i + 1][..i] == index[..i];
  }

  /** `out` is `words` after writing `w` at every position in `done`. */
  predicate WrittenAt(out: seq<Option<string>>, words: seq<Option<string>>, w: string, done: seq<nat>) {
    && |out| == Max(|words|, PositionsExtent(done))
    && forall p :: 0 <= p < |out| ==> out[p] == if p in done then Some(w) else if p < |words| then words[p] else None
  }

  /** One write of the inner loop: pad with `None` up to `p`, then store the word there. */
  lemma PlaceWord(out: seq<Option<string>>, words: seq<Option<string>>, w: string, done: seq<nat>, p: nat)
    requires WrittenAt(out, words, w, done)
    ensures var padded := if p >= |out| then out + seq(p - |out| + 1, _ => None) else out;
      WrittenAt(padded[p := Some(w)], words, w, done + [p])
  {
    assert (done + [p])[..|done|] == done;
    assert PositionsExtent(done + [p]) == Max(PositionsExtent(done), p + 1);
    var padded := if p >= |out| then out + seq(p - |out| + 1, _ => None) else out;
    assert forall q :: |out| <= q < |padded| ==> padded[q] == None;
    var r := padded[p := Some(w)];
    forall q | 0 <= q < |r|
      ensures r[q] == if q in done + [p] then Some(w) else if q < |words| then words[q] else None
    {
      if q != p && q < |out| {
        assert r[q] == out[q];
      }
    }
  }

  /**
   * The inner loop for one key: slots are appended, empty, up to each
   * position beyond the end, and every listed position takes the word.
   */
  method WritePositions(words: seq<Option<string>>, w: string, ps: seq<nat>) returns (out: seq<Option<string>>)
    ensures |out| == Max(|words|, PositionsExtent(ps))
    ensures forall p :: 0 <= p < |out| ==>
      out[p] == if p in ps then Some(w) else if p < |words| then words[p] else None
  {
    out := words;
    for j := 0 to |ps|
      invariant WrittenAt(out, words, w, ps[..j])
    {
      var p := ps[j];
      assert ps[..j + 1] == ps[..j] + [p];
      PlaceWord(out, words, w, ps[..j], p);
      if p >= |out| {
        out := out + seq(p - |out| + 1, _ => None);
      }
      out := out[p := Some(w)];
    }
    assert ps[..|ps|] == ps;
  }

  /** Positions at or past the extent hold no word. */
  lemma SlotsBeyondExtent(index: InvertedIndex, from: nat)
    requires from >= Extent(index)
    ensures forall p :: p >= from ==> SlotWord(index, p) == None
  {
    forall p | p >= from ensures SlotWord(index, p) == None {
      SlotWordIsLastListing(index, p);
    }
  }

  /** The filled, non-empty slots, in position order. */
  function FilledWords(words: seq<Option<string>>): (r: seq<string>)
    ensures forall k :: 0 <= k < |r| ==> r[k] != []
  {
    if words == [] then []
    else
      var init, last := words[..|words| - 1], words[|words| - 1];
      FilledWords(init) + (if last.Some? && last.value != [] then [last.value] else [])
  }

  /** `" ".join(w for w in words if w)`. */
  function AbstractText(words: seq<Option<string>>): string {
    Join(" ", FilledWords(words))
  }

  /**
   * When the index holds whitespace-free words, splitting the reconstructed
   * abstract on whitespace gives back the filled slots in position order.
   */
  lemma AbstractTextSplitsIntoSlots(words: seq<Option<string>>)
    requires forall p :: 0 <= p < |words| && words[p].Some? ==> NoWhitespace(words[p].value)
    ensures Words(AbstractText(words)) == FilledWords(words)
  {
    FilledWordsFrom(words);
    WordsOfJoin(FilledWords(words));
  }

  lemma {:induction false} FilledWordsFrom(words: seq<Option<string>>)
    ensures forall k :: 0 <= k < |FilledWords(words)| ==>
      exists p :: 0 <= p < |words| && words[p] == Some(FilledWords(words)[k])
  {
    if words != [] {
      var init := words[..|words| - 1];
      FilledWordsFrom(init);
      var r := FilledWords(words);
      var last := words[|words| - 1];
      assert r == FilledWords(init) + (if last.Some? && last.value != [] then [last.value] else []);
      forall k | 0 <= k < |r| ensures exists p :: 0 <= p < |words| && words[p] == Some(r[k]) {
        if k < |FilledWords(init)| {
          var p :| 0 <= p < |init| && init[p] == Some(FilledWords(init)[k]);
          assert words[p] == init[p] && r[k] == FilledWords(init)[k];
        } else {
          assert r[k] == last.value && words[|words| - 1] == Some(r[k]);
        }
      }
      assert forall k :: 0 <= k < |FilledWords(words)| ==>
        exists p :: 0 <= p < |words| && words[p] == Some(FilledWords(words)[k]);
    } else {
      assert FilledWords(words) == [];
    }
  }

  /** The reconstructed slots of an index, position by position. */
  function Slots(index: InvertedIndex): (words: seq<Option<string>>) {
    seq(Extent(index), p requires 0 <= p => SlotWord(index, p))
  }

  // ---------------------------------------------------------------------------
  // Items of the two sources
  // ---------------------------------------------------------------------------

  /** A JSON `title` field: absent, `null`, or a string. */
  datatype TitleField = Missing | Null | Given(text: string)

  /** An OpenAlex work: its inverted-index abstract (absent or null as `None`), title and `id` URL. */
  datatype OpenAlexWork = OpenAlexWork(abstractIndex: Option<InvertedIndex>, title: TitleField, id: Option<string>)

  /** A Semantic Scholar paper: its `abstract` (absent or null as `None`), title and URL. */
  datatype Paper = Paper(summary: Option<string>, title: TitleField, url: Option<string>)

  const OpenAlexSource := "semantic_scholar OpenAlex"
  const SemanticScholarSource := "semantic_scholar SS"

  /** `item.get("title", "").strip().lower()`; `None` for a null title, on which `.strip()` raises. */
  function TitleKey(t: TitleField): Option<string> {
    match t
    case Missing => Some("")
    case Null => None
    case Given(s) => Some(LowerAscii(Strip(s)))
  }

  /** `item.get("title", "N/A")`, for a title that is not null. */
  function StoredTitle(t: TitleField): string
    requires !t.Null?
  {
    match t
    case Missing => "N/A"
    case Given(s) => s
  }

  /** `f"scholar_{doc_counter}"`. */
  function ScholarDocId(n: nat): string {
    "scholar_" + NatToDecimal(n)
  }

  /** The state the two loops share: `final_results`, `seen_titles`, and the title keys in the order added. */
  datatype Acc = Acc(results: seq<Document>, seen: set<string>, keys: seq<string>)

  /** What one item does: nothing, add a document under a title key, or raise and end the loop. */
  datatype Step = Skip | Add(key: string, doc: Document) | Abort

  function Apply(acc: Acc, key: string, doc: Document): Acc {
    Acc(acc.results + [doc], acc.seen + {key}, acc.keys + [key])
  }

  /** `not abstract_inverted`: an absent, null or empty index. */
  predicate NoIndex(item: OpenAlexWork) {
    item.abstractIndex.None? || item.abstractIndex.value == []
  }

  /** `not abstract`: an absent, null or empty abstract. */
  predicate NoAbstract(item: Paper) {
    item.summary.None? || item.summary.value == []
  }

  function OpenAlexStep(acc: Acc, item: OpenAlexWork): Step {
    if NoIndex(item) then Skip
    else match TitleKey(item.title)
      case None => Abort
      case Some(key) =>
        if key in acc.seen then Skip
        else Add(key, Document(None, ScholarDocId(|acc.results| + 1), OpenAlexSource, StoredTitle(item.title),
                               item.id.GetOr(""), AbstractText(Slots(item.abstractIndex.value))))
  }

  function PaperStep(acc: Acc, item: Paper): Step {
    if NoAbstract(item) then Skip
    else match TitleKey(item.title)
      case None => Abort
      case Some(key) =>
        if key in acc.seen then Skip
        else Add(key, Document(None, ScholarDocId(|acc.results| + 1), SemanticScholarSource, StoredTitle(item.title),
                               item.url.GetOr(""), item.summary.value))
  }

  /** The OpenAlex loop over `items`, ending early when an item raises. */
  function OpenAlexLoop(acc: Acc, items: seq<OpenAlexWork>): Acc
    decreases |items|
  {
    if items == [] then acc
    else match OpenAlexStep(acc, items[0])
      case Abort => acc
      case Skip => OpenAlexLoop(acc, items[1..])
      case Add(key, doc) => OpenAlexLoop(Apply(acc, key, doc), items[1..])
  }

  /** The Semantic Scholar loop, ending early when an item raises or `limit` documents are held. */
  function PaperLoop(acc: Acc, items: seq<Paper>, limit: int): Acc
    decreases |items|
  {
    if items == [] then acc
    else match PaperStep(acc, items[0])
      case Abort => acc
      case Skip => PaperLoop(acc, items[1..], limit)
      case Add(key, doc) =>
        var next := Apply(acc, key, doc);
        if |next.results| >= limit then next else PaperLoop(next, items[1..], limit)
  }

  // ---------------------------------------------------------------------------
  // Retries
  // ---------------------------------------------------------------------------

  /** The answer to one request: a status with the parsed `data` list, or an exception. */
  datatype Reply = Reply(status: int, items: seq<Paper>) | Raised

  /** What the retry loop leaves: a list of papers, nothing after three rate limits, or an exception. */
  datatype Fetched = Items(papers: seq<Paper>) | RateLimited | Failed

  const Retries: nat := 3

  predicate IsRateLimited(r: Reply) {
    r.Reply? && r.status == 429
  }

  /** The outcome of the attempt that ended the loop. */
  function Settle(r: Reply): Fetched {
    match r
    case Raised => Failed
    case Reply(status, items) => if status == 200 then Items(items) else Items([])
  }

  /**
   * The retry loop: attempt `a` gets `replies[a]`. A 429 tries again, up to
   * three attempts; 200 keeps the papers; any other status keeps none; an
   * exception ends the Semantic Scholar step. After three 429s `data` is not
   * reassigned: the fallback loop then reads the OpenAlex reply, which has no
   * `"data"` key, or, when OpenAlex raised before decoding, an unbound name
   * whose `NameError` is caught; either way no paper is added.
   */
  method FetchPapers(replies: seq<Reply>) returns (fetched: Fetched, attempts: nat)
    requires |replies| == Retries
    ensures 1 <= attempts <= Retries
    ensures forall a :: 0 <= a < attempts - 1 ==> IsRateLimited(replies[a])
    ensures IsRateLimited(replies[attempts - 1]) ==> attempts == Retries && fetched == RateLimited
    ensures !IsRateLimited(replies[attempts - 1]) ==> fetched == Settle(replies[attempts - 1])
  {
    fetched := RateLimited;
    attempts := 0;
    for attempt := 0 to Retries
      invariant attempts == attempt
      invariant forall a :: 0 <= a < attempt ==> IsRateLimited(replies[a])
      invariant fetched == RateLimited
    {
      attempts := attempts + 1;
      var r := replies[attempt];
      if r.Raised? {
        fetched := Failed;
        return;
      } else if r.status == 200 {
        fetched := Items(r.items);
        return;
      } else if r.status == 429 {
        continue;
      } else {
        fetched := Items([]);
        return;
      }
    }
  }

  // ---------------------------------------------------------------------------
  // The whole pipeline
  // ---------------------------------------------------------------------------

  /** The first index with a reply that is not a rate limit, or `Retries` when there is none. */
  function FirstSettled(replies: seq<Reply>, a: nat): (k: nat)
    requires a <= |replies|
    decreases |replies| - a
  {
    if a == |replies| then a else if IsRateLimited(replies[a]) then FirstSettled(replies, a + 1) else a
  }

  function FetchOutcome(replies: seq<Reply>): Fetched {
    var k := FirstSettled(replies, 0);
    if k < |replies| then Settle(replies[k]) else RateLimited
  }

  const Start := Acc([], {}, [])

  /**
   * `scholar_pipeline` as a value: `openAlex` is the list of works, or
   * `None` when the request or its decoding raised; `replies` are the
   * answers the three Semantic Scholar attempts would get. Three rate
   * limits in a row add nothing (see `FetchPapers`).
   */
  function ScholarState(openAlex: Option<seq<OpenAlexWork>>, replies: seq<Reply>, limit: int): Acc {
    var primary := OpenAlexLoop(Start, openAlex.GetOr([]));
    if |primary.results| < limit then
      match FetchOutcome(replies)
      case Items(papers) => PaperLoop(primary, papers, limit)
      case _ => primary
    else primary
  }

  /** The settled reply is the first one that is not a rate limit. */
  lemma {:induction false} FirstSettledAfter(replies: seq<Reply>, n: nat)
    requires n <= |replies| && forall a :: 0 <= a < n ==> IsRateLimited(replies[a])
    ensures FirstSettled(replies, 0) == FirstSettled(replies, n)
  {
    if n > 0 {
      FirstSettledAfter(replies, n - 1);
    }
  }

  /** The retry loop's result is the outcome the specification takes. */
  lemma FetchedIsOutcome(replies: seq<Reply>, fetched: Fetched, attempts: nat)
    requires |replies| == Retries && 1 <= attempts <= Retries
    requires forall a :: 0 <= a < attempts - 1 ==> IsRateLimited(replies[a])
    requires IsRateLimited(replies[attempts - 1]) ==> attempts == Retries && fetched == RateLimited
    requires !IsRateLimited(replies[attempts - 1]) ==> fetched == Settle(replies[attempts - 1])
    ensures fetched == FetchOutcome(replies)
  {
    FirstSettledAfter(replies, attempts - 1);
    if IsRateLimited(replies[attempts - 1]) {
      FirstSettledAfter(replies, attempts);
    }
  }

  /**
   * `scholar_pipeline`: the OpenAlex loop, then, while fewer than `limit`
   * documents are held, the Semantic Scholar retries and loop. An
   * exception inside either loop ends that loop and keeps what it added.
   */
  method ScholarPipeline(openAlex: Option<seq<OpenAlexWork>>, replies: seq<Reply>, limit: int)
    returns (results: seq<Document>)
    requires |replies| == Retries
    ensures results == ScholarState(openAlex, replies, limit).results
  {
    var seenTitles: set<string>;
    ghost var keys: seq<string>;
    results, seenTitles, keys := OpenAlexPass(openAlex.GetOr([]));
    if |results| < limit {
      var fetched, attempts := FetchPapers(replies);
      FetchedIsOutcome(replies, fetched, attempts);
      if fetched.Items? {
        results, seenTitles, keys := FallbackPass(results, seenTitles, keys, fetched.papers, limit);
      }
    }
  }

  /** The OpenAlex loop: skips works without an index, de-duplicates titles, and ends where a title raises. */
  method OpenAlexPass(works: seq<OpenAlexWork>)
    returns (results: seq<Document>, seenTitles: set<string>, ghost keys: seq<string>)
    ensures results == OpenAlexLoop(Start, works).results && seenTitles == OpenAlexLoop(Start, works).seen
    ensures Acc(results, seenTitles, keys) == OpenAlexLoop(Start, works)
  {
    results, seenTitles, keys := [], {}, [];
    var docCounter: nat := 0;
    var i := 0;
    var raised := false;
    while i < |works| && !raised
      invariant 0 <= i <= |works|
      invariant docCounter == |results|
      invariant !raised ==> OpenAlexLoop(Acc(results, seenTitles, keys), works[i..]) == OpenAlexLoop(Start, works)
      invariant raised ==> Acc(results, seenTitles, keys) == OpenAlexLoop(Start, works)
      decreases |works| - i, if raised then 0 else 1
    {
      var item := works[i];
      assert works[i..] == [item] + works[i + 1..];
      if !NoIndex(item) {
        var words := ReconstructWords(item.abstractIndex.value);
        assert words == Slots(item.abstractIndex.value);
        var abstractText := AbstractText(words);
        match TitleKey(item.title) {
          case None =>
            raised := true;
          case Some(title) =>
            if title !in seenTitles {
              seenTitles := seenTitles + {title};
              docCounter := docCounter + 1;
              results := results + [Document(None, ScholarDocId(docCounter), OpenAlexSource,
                                             StoredTitle(item.title), item.id.GetOr(""), abstractText)];
              keys := keys + [title];
            }
        }
      }
      if !raised {
        i := i + 1;
      }
    }
  }

  /**
   * The Semantic Scholar loop, continuing the numbering and the seen titles
   * of the OpenAlex pass: skips papers without an abstract and stops at `limit`
   * documents or where a title raises.
   */
  method FallbackPass(results0: seq<Document>, seen0: set<string>, ghost keys0: seq<string>, papers: seq<Paper>, limit: int)
    returns (results: seq<Document>, seenTitles: set<string>, ghost keys: seq<string>)
    ensures results == PaperLoop(Acc(results0, seen0, keys0), papers, limit).results
    ensures seenTitles == PaperLoop(Acc(results0, seen0, keys0), papers, limit).seen
    ensures Acc(results, seenTitles, keys) == PaperLoop(Acc(results0, seen0, keys0), papers, limit)
  {
    results, seenTitles, keys := results0, seen0, keys0;
    var docCounter: nat := |results|;
    var j := 0;
    var stop := false;
    while j < |papers| && !stop
      invariant 0 <= j <= |papers|
      invariant docCounter == |results|
      invariant !stop ==> PaperLoop(Acc(results, seenTitles, keys), papers[j..], limit) == PaperLoop(Acc(results0, seen0, keys0), papers, limit)
      invariant stop ==> Acc(results, seenTitles, keys) == PaperLoop(Acc(results0, seen0, keys0), papers, limit)
      decreases |papers| - j, if stop then 0 else 1
    {
      var item := papers[j];
      assert papers[j..] == [item] + papers[j + 1..];
      if !NoAbstract(item) {
        match TitleKey(item.title) {
          case None =>
            stop := true;
          case Some(title) =>
            if title !in seenTitles {
              seenTitles := seenTitles + {title};
              docCounter := docCounter + 1;
              results := results + [Document(None, ScholarDocId(docCounter), SemanticScholarSource,
                                             StoredTitle(item.title), item.url.GetOr(""), item.summary.value)];
              keys := keys + [title];
              if |results| >= limit {
                stop := true;
              }
            }
        }
      }
      if !stop {
        j := j + 1;
      }
    }
  }


  // ---------------------------------------------------------------------------
  // Properties
  // ---------------------------------------------------------------------------

  /** A stored title agrees with its de-duplication key: a missing title is stored as `N/A` under the key "". */
  predicate TitleMatchesKey(title: string, key: string) {
    (key == "" && title == "N/A") || key == LowerAscii(Strip(title))
  }

  /**
   * What both loops maintain: one distinct title key per document, the
   * seen set is exactly those keys, and documents are numbered
   * `scholar_1`, `scholar_2`, ... in order.
   */
  ghost predicate Consistent(acc: Acc) {
    && |acc.keys| == |acc.results|
    && Distinct(acc.keys)
    && (forall t :: t in acc.seen <==> t in acc.keys)
    && (forall k :: 0 <= k < |acc.results| ==> acc.results[k].docId == ScholarDocId(k + 1))
    && (forall k :: 0 <= k < |acc.results| ==> TitleMatchesKey(acc.results[k].title, acc.keys[k]))
  }

  lemma ApplyConsistent(acc: Acc, key: string, doc: Document, title: TitleField)
    requires Consistent(acc) && key !in acc.seen
    requires doc.docId == ScholarDocId(|acc.results| + 1)
    requires !title.Null? && TitleKey(title) == Some(key) && doc.title == StoredTitle(title)
    ensures Consistent(Apply(acc, key, doc))
  {
    var next := Apply(acc, key, doc);
    var n := |acc.keys|;
    assert TitleMatchesKey(doc.title, key) by {
      if title.Missing? {
        assert key == "";
      }
    }
    assert key !in acc.keys;
    forall i, j | 0 <= i < j < |next.keys| ensures next.keys[i] != next.keys[j] {
      if j == n {
        assert next.keys[i] == acc.keys[i];
      } else {
        assert next.keys[i] == acc.keys[i] && next.keys[j] == acc.keys[j];
      }
    }
    forall t ensures t in next.seen <==> t in next.keys {
      assert t in next.keys <==> t in acc.keys || t == key;
    }
    forall k | 0 <= k < |next.results|
      ensures next.results[k].docId == ScholarDocId(k + 1)
      ensures TitleMatchesKey(next.results[k].title, next.keys[k])
    {
      if k < n {
        assert next.results[k] == acc.results[k] && next.keys[k] == acc.keys[k];
      }
    }
  }

  lemma {:induction false} OpenAlexLoopConsistent(acc: Acc, items: seq<OpenAlexWork>)
    requires Consistent(acc)
    ensures Consistent(OpenAlexLoop(acc, items))
    decreases |items|
  {
    if items != [] {
      match OpenAlexStep(acc, items[0])
      case Abort =>
      case Skip => OpenAlexLoopConsistent(acc, items[1..]);
      case Add(key, doc) =>
        ApplyConsistent(acc, key, doc, items[0].title);
        OpenAlexLoopConsistent(Apply(acc, key, doc), items[1..]);
    }
  }

  lemma {:induction false} PaperLoopConsistent(acc: Acc, items: seq<Paper>, limit: int)
    requires Consistent(acc)
    ensures Consistent(PaperLoop(acc, items, limit))
    decreases |items|
  {
    if items != [] {
      match PaperStep(acc, items[0])
      case Abort =>
      case Skip => PaperLoopConsistent(acc, items[1..], limit);
      case Add(key, doc) =>
        ApplyConsistent(acc, key, doc, items[0].title);
        PaperLoopConsistent(Apply(acc, key, doc), items[1..], limit);
    }
  }

  /**
   * Across both sources, the documents are numbered `scholar_1` to
   * `scholar_n` in the order added, and their normalised titles are
   * pairwise distinct.
   */
  lemma ScholarResultsConsistent(openAlex: Option<seq<OpenAlexWork>>, replies: seq<Reply>, limit: int)
    ensures Consistent(ScholarState(openAlex, replies, limit))
  {
    var primary := OpenAlexLoop(Start, openAlex.GetOr([]));
    OpenAlexLoopConsistent(Start, openAlex.GetOr([]));
    if |primary.results| < limit && FetchOutcome(replies).Items? {
      PaperLoopConsistent(primary, FetchOutcome(replies).papers, limit);
    }
  }

  /** Every document the Semantic Scholar loop adds follows those already held and carries its source. */
  lemma {:induction false} PaperLoopExtends(acc: Acc, items: seq<Paper>, limit: int)
    ensures var r := PaperLoop(acc, items, limit).results;
      && acc.results <= r
      && forall k :: |acc.results| <= k < |r| ==> r[k].source == SemanticScholarSource
    ensures |acc.results| < limit ==> |PaperLoop(acc, items, limit).results| <= limit
    decreases |items|
  {
    if items != [] {
      match PaperStep(acc, items[0])
      case Abort =>
      case Skip => PaperLoopExtends(acc, items[1..], limit);
      case Add(key, doc) =>
        var next := Apply(acc, key, doc);
        if |next.results| < limit {
          PaperLoopExtends(next, items[1..], limit);
        }
    }
  }

  lemma {:induction false} OpenAlexLoopSources(acc: Acc, items: seq<OpenAlexWork>)
    ensures var r := OpenAlexLoop(acc, items).results;
      && acc.results <= r
      && forall k :: |acc.results| <= k < |r| ==> r[k].source == OpenAlexSource
    decreases |items|
  {
    if items != [] {
      match OpenAlexStep(acc, items[0])
      case Abort =>
      case Skip => OpenAlexLoopSources(acc, items[1..]);
      case Add(key, doc) => OpenAlexLoopSources(Apply(acc, key, doc), items[1..]);
    }
  }

  /**
   * The fallback: when OpenAlex already gave `limit` documents the result
   * is exactly those; otherwise the OpenAlex documents come first, every
   * later one is from Semantic Scholar, and there are at most `limit`.
   */
  lemma FallbackRespectsLimit(openAlex: Option<seq<OpenAlexWork>>, replies: seq<Reply>, limit: int)
    ensures var primary := OpenAlexLoop(Start, openAlex.GetOr([])).results;
      var r := ScholarState(openAlex, replies, limit).results;
      && (forall k :: 0 <= k < |primary| ==> primary[k].source == OpenAlexSource)
      && (|primary| >= limit ==> r == primary)
      && (|primary| < limit ==>
            primary <= r && |r| <= limit
            && forall k :: |primary| <= k < |r| ==> r[k].source == SemanticScholarSource)
  {
    var primary := OpenAlexLoop(Start, openAlex.GetOr([]));
    OpenAlexLoopSources(Start, openAlex.GetOr([]));
    if |primary.results| < limit && FetchOutcome(replies).Items? {
      PaperLoopExtends(primary, FetchOutcome(replies).papers, limit);
    }
  }

  /**
   * A work without an abstract index is skipped before its title is read:
   * it neither raises (even with a null title) nor marks its title as seen,
   * so removing it changes nothing.
   */
  lemma {:induction false} WorkWithoutIndexIgnored(acc: Acc, a: seq<OpenAlexWork>, x: OpenAlexWork, b: seq<OpenAlexWork>)
    requires NoIndex(x)
    ensures OpenAlexLoop(acc, a + [x] + b) == OpenAlexLoop(acc, a + b)
    decreases |a|
  {
    if a == [] {
      assert [x] + b == a + [x] + b;
      assert (a + [x] + b)[1..] == b == a + b;
    } else {
      assert (a + [x] + b)[0] == a[0] && (a + b)[0] == a[0];
      assert (a + [x] + b)[1..] == a[1..] + [x] + b && (a + b)[1..] == a[1..] + b;
      match OpenAlexStep(acc, a[0])
      case Abort =>
      case Skip => WorkWithoutIndexIgnored(acc, a[1..], x, b);
      case Add(key, doc) => WorkWithoutIndexIgnored(Apply(acc, key, doc), a[1..], x, b);
    }
  }

  /** Likewise a paper without an abstract is skipped before its title is read. */
  lemma {:induction false} PaperWithoutAbstractIgnored(acc: Acc, a: seq<Paper>, x: Paper, b: seq<Paper>, limit: int)
    requires NoAbstract(x)
    ensures PaperLoop(acc, a + [x] + b, limit) == PaperLoop(acc, a + b, limit)
    decreases |a|
  {
    if a == [] {
      assert (a + [x] + b)[1..] == b == a + b;
    } else {
      assert (a + [x] + b)[0] == a[0] && (a + b)[0] == a[0];
      assert (a + [x] + b)[1..] == a[1..] + [x] + b && (a + b)[1..] == a[1..] + b;
      match PaperStep(acc, a[0])
      case Abort =>
      case Skip => PaperWithoutAbstractIgnored(acc, a[1..], x, b, limit);
      case Add(key, doc) =>
        if |Apply(acc, key, doc).results| < limit {
          PaperWithoutAbstractIgnored(Apply(acc, key, doc), a[1..], x, b, limit);
        }
    }
  }
}
