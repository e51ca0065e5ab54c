// GNews query expansion and article mapping (`Pipelines/Gnews.py`).
// The word tokenizer, the stopword list and the two learned scores
// (embedding similarity and TF-IDF) are parameters; the HTTP request is
// replaced by its decoded reply.

module Gnews {
  import opened Wrappers
  import opened Text
  import opened Lists
  import opened Ranking
  import opened Schemas

  // ---------------------------------------------------------------------------
  // Preprocessing and n-grams
  // ---------------------------------------------------------------------------

  /** The characters `re.sub(r"[^a-z\s]", "", ...)` keeps. */
  predicate KeptChar(c: char) {
    'a' <= c <= 'z' || IsWhitespace(c)
  }

  /** `preprocess_query`: lower-case, drop every other character, tokenize, remove stopwords. */
  function Preprocess(text: string, tokenize: string -> seq<string>, stopwords: set<string>): (r: seq<string>)
    ensures forall t :: t in r <==> t in tokenize(Filter(LowerAscii(text), KeptChar)) && t !in stopwords
  {
    Filter(tokenize(Filter(LowerAscii(text), KeptChar)), (t: string) => t !in stopwords)
  }

  /** `generate_ngrams`: every window of `n` consecutive tokens, joined by single spaces. */
  function Ngrams(tokens: seq<string>, n: nat): (r: seq<string>)
    requires n >= 1
    ensures |r| == if |tokens| >= n then |tokens| - n + 1 else 0
  {
    if |tokens| < n then []
    else seq(|tokens| - n + 1, i requires 0 <= i <= |tokens| - n => Join(" ", tokens[i..i + n]))
  }

  /** What a word tokenizer produces: non-empty tokens without whitespace. */
  predicate WordTokens(tokens: seq<string>) {
    forall i :: 0 <= i < |tokens| ==> tokens[i] != [] && NoWhitespace(tokens[i])
  }

  /** Splitting an n-gram on whitespace gives back its `n` tokens. */
  lemma NgramsSplitBack(tokens: seq<string>, n: nat, i: nat)
    requires n >= 1 && WordTokens(tokens) && i + n <= |tokens|
    ensures i < |Ngrams(tokens, n)| && Words(Ngrams(tokens, n)[i]) == tokens[i..i + n]
  {
    WordsOfJoin(tokens[i..i + n]);
  }

  /** `expand_query`'s candidate list: trigrams, then bigrams, then single tokens. */
  function Candidates(tokens: seq<string>): seq<string> {
    Ngrams(tokens, 3) + Ngrams(tokens, 2) + tokens
  }

  // ---------------------------------------------------------------------------
  // Ranked selection
  // ---------------------------------------------------------------------------

  /** The heuristic score `len(term.split()) / 3`. */
  function Heuristic(term: string): real {
    |Words(term)| as real / 3.0
  }

  function Min3(a: nat, b: nat, c: nat): nat {
    if a <= b && a <= c then a else if b <= c then b else c
  }

  /** The combined scores `0.6*s + 0.3*t + 0.1*h`, as long as the shortest of the three inputs (`zip`). */
  function Combined(candidates: seq<string>, semantic: seq<real>, tfidf: seq<real>): (r: seq<real>)
    ensures |r| == Min3(|candidates|, |semantic|, |tfidf|)
  {
    seq(Min3(|candidates|, |semantic|, |tfidf|),
        i requires 0 <= i < Min3(|candidates|, |semantic|, |tfidf|) =>
          0.6 * semantic[i] + 0.3 * tfidf[i] + 0.1 * Heuristic(candidates[i]))
  }

  /**
   * For candidates built from word tokens, the heuristic part of the score
   * depends only on the block: 1 for trigrams, 2/3 for bigrams, 1/3 for tokens.
   */
  lemma CandidateHeuristic(tokens: seq<string>, i: nat)
    requires WordTokens(tokens) && i < |Candidates(tokens)|
    ensures var c := Candidates(tokens);
      var t := |Ngrams(tokens, 3)|;
      var b := |Ngrams(tokens, 2)|;
      && (i < t ==> Heuristic(c[i]) == 1.0)
      && (t <= i < t + b ==> Heuristic(c[i]) == 2.0 / 3.0)
      && (t + b <= i ==> Heuristic(c[i]) == 1.0 / 3.0)
  {
    var t, b := |Ngrams(tokens, 3)|, |Ngrams(tokens, 2)|;
    CandidateAt(tokens, i);
    if i < t {
      NgramHeuristic(tokens, 3, i);
    } else if i < t + b {
      NgramHeuristic(tokens, 2, i - t);
    } else {
      NgramHeuristic(tokens, 1, i - t - b);
    }
  }

  /** The `i`-th candidate, read off its block. */
  lemma CandidateAt(tokens: seq<string>, i: nat)
    requires i < |Candidates(tokens)|
    ensures var tri, bi := Ngrams(tokens, 3), Ngrams(tokens, 2);
      Candidates(tokens)[i] ==
        if i < |tri| then tri[i]
        else if i < |tri| + |bi| then bi[i - |tri|]
        else tokens[i - |tri| - |bi|]
  {
  }

  /** An n-gram, or a token when `n` is 1, scores `n / 3`. */
  lemma NgramHeuristic(tokens: seq<string>, n: nat, i: nat)
    requires 1 <= n <= 3 && WordTokens(tokens)
    requires if n == 1 then i < |tokens| else i < |Ngrams(tokens, n)|
    ensures Heuristic(if n == 1 then tokens[i] else Ngrams(tokens, n)[i]) == n as real / 3.0
  {
    if n == 1 {
      WordsOfJoin([tokens[i]]);
      assert Join(" ", [tokens[i]]) == tokens[i];
    } else {
      NgramsSplitBack(tokens, n, i);
    }
  }

  /**
   * `select_relevant_ngrams`: the candidates sorted by descending combined
   * score (stable, so ties keep candidate order), cut to `topK`.
   */
  function SelectRelevant(candidates: seq<string>, semantic: seq<real>, tfidf: seq<real>, topK: int): (r: seq<string>)
    ensures candidates == [] ==> r == []
    ensures forall t :: t in r ==> t in candidates
    ensures topK >= 0 ==> |r| <= topK
    ensures candidates != [] && topK >= 0 ==>
              |r| == (if topK < |Combined(candidates, semantic, tfidf)| then topK else |Combined(candidates, semantic, tfidf)|)
  {
    if candidates == [] then []
    else
      var keys := Combined(candidates, semantic, tfidf);
      var ranked := Arrange(candidates[..|keys|], RankOrder(keys));
      assert forall t :: t in ranked ==> t in candidates by {
        forall t | t in ranked ensures t in candidates {
          var k :| 0 <= k < |ranked| && ranked[k] == t;
          assert candidates[..|keys|][RankOrder(keys)[k]] in candidates[..|keys|];
        }
      }
      PyPrefix(ranked, topK)
  }

  /**
   * The selection is the stable descending ranking of the combined scores:
   * scores are non-increasing along the result and equal scores keep the
   * candidates' order.
   */
  lemma SelectionIsStableRanking(candidates: seq<string>, semantic: seq<real>, tfidf: seq<real>, topK: int)
    requires candidates != []
    ensures var keys := Combined(candidates, semantic, tfidf);
      var order := RankOrder(keys);
      && IsStableRanking(keys, order)
      && SelectRelevant(candidates, semantic, tfidf, topK) == PyPrefix(Arrange(candidates[..|keys|], order), topK)
  {
    RankOrderIsStableRanking(Combined(candidates, semantic, tfidf));
  }

  // ---------------------------------------------------------------------------
  // Query assembly under a length budget
  // ---------------------------------------------------------------------------

  /** One part of the expanded query: the quoted term, after ` OR ` unless it is the first. */
  function Part(first: bool, term: string): string {
    (if first then "" else " OR ") + "\"" + term + "\""
  }

  function QuotedParts(terms: seq<string>): (r: seq<string>)
    ensures |r| == |terms|
  {
    seq(|terms|, i requires 0 <= i < |terms| => Part(i == 0, terms[i]))
  }

  lemma QuotedPartsPrefix(terms: seq<string>, j: nat)
    requires j <= |terms|
    ensures QuotedParts(terms)[..j] == QuotedParts(terms[..j])
  {
  }

  /** `current_length` after the first `n` terms: the summed lengths of their quoted parts. */
  function QuotedLength(terms: seq<string>, n: nat): nat
    requires n <= |terms|
  {
    if n == 0 then 0 else QuotedLength(terms, n - 1) + |Part(n == 1, terms[n - 1])|
  }

  /** The running length is the length of the concatenated parts. */
  lemma {:induction false} QuotedLengthIsConcatLength(terms: seq<string>, n: nat)
    requires n <= |terms|
    ensures QuotedLength(terms, n) == |Concat(QuotedParts(terms[..n]))|
  {
    if n > 0 {
      QuotedLengthIsConcatLength(terms, n - 1);
      var q := QuotedParts(terms[..n]);
      assert q[..n - 1] == QuotedParts(terms[..n - 1]);
    }
  }

  /** Longer prefixes of the terms take strictly more room. */
  lemma {:induction false} QuotedLengthGrows(terms: seq<string>, i: nat, j: nat)
    requires i < j <= |terms|
    ensures QuotedLength(terms, i) < QuotedLength(terms, j)
    decreases j - i
  {
    if i < j - 1 {
      QuotedLengthGrows(terms, i, j - 1);
    }
  }

  lemma QuotedLengthMonotone(terms: seq<string>, i: nat, j: nat)
    requires i <= j <= |terms|
    ensures QuotedLength(terms, i) <= QuotedLength(terms, j)
  {
    if i < j {
      QuotedLengthGrows(terms, i, j);
    }
  }

  /**
   * How many terms fit: the parts of the first `m` terms fit in `maxLength`
   * (or `m` is 0) and adding the next part would overflow.
   */
  function FitCount(terms: seq<string>, maxLength: int): (m: nat)
    ensures m <= |terms|
    ensures m == 0 || QuotedLength(terms, m) <= maxLength
    ensures m < |terms| ==> QuotedLength(terms, m + 1) > maxLength
  {
    FitFrom(terms, maxLength, 0)
  }

  /** The scan behind `FitCount`, from `i` terms that already fit. */
  function FitFrom(terms: seq<string>, maxLength: int, i: nat): (m: nat)
    requires i <= |terms| && (i == 0 || QuotedLength(terms, i) <= maxLength)
    ensures i <= m <= |terms|
    ensures m == 0 || QuotedLength(terms, m) <= maxLength
    ensures m < |terms| ==> QuotedLength(terms, m + 1) > maxLength
    decreases |terms| - i
  {
    if i == |terms| then i
    else if QuotedLength(terms, i + 1) > maxLength then i
    else FitFrom(terms, maxLength, i + 1)
  }

  /** The stopping point is unique: the loop stops at the first term that would overflow. */
  lemma FitCountUnique(terms: seq<string>, maxLength: int, m: nat)
    requires m <= |terms|
    requires m == 0 || QuotedLength(terms, m) <= maxLength
    requires m < |terms| ==> QuotedLength(terms, m + 1) > maxLength
    ensures m == FitCount(terms, maxLength)
  {
    FitsUnique(terms, maxLength, m, FitCount(terms, maxLength));
  }

  /** The first `m` parts fit and the next one would not. */
  predicate FitsExactly(terms: seq<string>, maxLength: int, m: nat) {
    && m <= |terms|
    && (m == 0 || QuotedLength(terms, m) <= maxLength)
    && (m < |terms| ==> QuotedLength(terms, m + 1) > maxLength)
  }

  /** At most one count satisfies the fit conditions. */
  lemma FitsUnique(terms: seq<string>, maxLength: int, m: nat, f: nat)
    requires FitsExactly(terms, maxLength, m) && FitsExactly(terms, maxLength, f)
    ensures m == f
  {
    if m < f {
      FitsBelow(terms, maxLength, m, f);
    } else if f < m {
      FitsBelow(terms, maxLength, f, m);
    }
  }

  /** If the first `b` parts fit, so do the first `a + 1` for any `a < b`. */
  lemma FitsBelow(terms: seq<string>, maxLength: int, a: nat, b: nat)
    requires a < b <= |terms|
    requires QuotedLength(terms, b) <= maxLength
    ensures QuotedLength(terms, a + 1) <= maxLength
  {
    QuotedLengthMonotone(terms, a + 1, b);
  }

  /** The assembly loop of `expand_query`. */
  method AssembleParts(terms: seq<string>, maxLength: int) returns (parts: seq<string>)
    ensures parts == QuotedParts(terms[..FitCount(terms, maxLength)])
  {
    parts := [];
    var currentLength := 0;
    var i := 0;
    while i < |terms|
      invariant 0 <= i <= |terms|
      invariant parts == QuotedParts(terms[..i])
      invariant currentLength == QuotedLength(terms, i)
      invariant i == 0 || currentLength <= maxLength
    {
      var connector := if parts != [] then " OR " else "";
      var part := connector + "\"" + terms[i] + "\"";
      assert part == Part(i == 0, terms[i]);
      if currentLength + |part| > maxLength {
        FitCountUnique(terms, maxLength, i);
        return;
      }
      parts := parts + [part];
      currentLength := currentLength + |part|;
      assert QuotedParts(terms[..i + 1]) == QuotedParts(terms[..i]) + [part];
      i := i + 1;
    }
    FitCountUnique(terms, maxLength, i);
  }

  /** The concatenated parts are the terms, quoted and joined by ` OR `. */
  lemma {:induction false} QuotedPartsJoin(terms: seq<string>)
    requires terms != []
    ensures Concat(QuotedParts(terms)) == "\"" + Join("\" OR \"", terms) + "\""
    decreases |terms|
  {
    if |terms| == 1 {
      assert QuotedParts(terms)[..0] == [];
    } else {
      var init, last := terms[..|terms| - 1], terms[|terms| - 1];
      var sep := "\" OR \"";
      ConcatQuotedSnoc(terms);
      QuotedPartsJoin(init);
      assert init + [last] == terms;
      JoinAppend(sep, init, last);
      QuoteAround(Join(sep, init), last);
    }
  }

  /** The last quoted part is the next term with its ` OR ` connector. */
  lemma ConcatQuotedSnoc(terms: seq<string>)
    requires |terms| > 1
    ensures Concat(QuotedParts(terms))
      == Concat(QuotedParts(terms[..|terms| - 1])) + (" OR \"" + terms[|terms| - 1] + "\"")
  {
    var q := QuotedParts(terms);
    assert q[..|q| - 1] == QuotedParts(terms[..|terms| - 1]);
    assert q[|q| - 1] == " OR \"" + terms[|terms| - 1] + "\"";
  }

  /** Re-bracketing a quoted join followed by one more quoted term. */
  lemma QuoteAround(j: string, last: string)
    ensures ("\"" + j + "\"") + (" OR \"" + last + "\"") == "\"" + (j + "\" OR \"" + last) + "\""
  {
  }

  /** The expanded query built from the tokens and the selected terms. */
  function Wrapped(mainTopic: string, parts: seq<string>): string {
    "(\"" + mainTopic + "\" AND (" + Concat(parts) + "))"
  }

  /** The semantic and TF-IDF scorers, given the user query and the candidates. */
  type Scorer = (string, seq<string>) -> seq<real>

  /** `expand_query` as a value. */
  function ExpandedQuery(userQuery: string, tokenize: string -> seq<string>, stopwords: set<string>,
                         semantic: Scorer, tfidf: Scorer, maxLength: int): string
  {
    var tokens := Preprocess(userQuery, tokenize, stopwords);
    if tokens == [] then userQuery
    else
      var c := Candidates(tokens);
      var top := SelectRelevant(c, semantic(userQuery, c), tfidf(userQuery, c), 6);
      Wrapped(tokens[0], QuotedParts(top[..FitCount(top, maxLength)]))
  }

  /** `expand_query`. */
  method ExpandQuery(userQuery: string, tokenize: string -> seq<string>, stopwords: set<string>,
                     semantic: Scorer, tfidf: Scorer, maxLength: int) returns (r: string)
    ensures r == ExpandedQuery(userQuery, tokenize, stopwords, semantic, tfidf, maxLength)
  {
    var tokens := Preprocess(userQuery, tokenize, stopwords);
    if tokens == [] {
      return userQuery;
    }
    var candidates := Ngrams(tokens, 3) + Ngrams(tokens, 2) + tokens;
    var topTerms := SelectRelevant(candidates, semantic(userQuery, candidates), tfidf(userQuery, candidates), 6);
    var parts := AssembleParts(topTerms, maxLength);
    r := "(\"" + tokens[0] + "\" AND (" + Concat(parts) + "))";
  }

  /**
   * The shape of the expanded query: the user query itself when no token
   * survives preprocessing, otherwise the first token quoted and AND-ed with
   * the first `m` selected terms, quoted and OR-ed, where `m` is the number
   * that fit the budget (at most 6).
   */
  lemma ExpandedQueryShape(userQuery: string, tokenize: string -> seq<string>, stopwords: set<string>,
                           semantic: Scorer, tfidf: Scorer, maxLength: int)
    ensures var tokens := Preprocess(userQuery, tokenize, stopwords);
      var r := ExpandedQuery(userQuery, tokenize, stopwords, semantic, tfidf, maxLength);
      && (tokens == [] ==> r == userQuery)
      && (tokens != [] ==>
            var c := Candidates(tokens);
            var top := SelectRelevant(c, semantic(userQuery, c), tfidf(userQuery, c), 6);
            var m := FitCount(top, maxLength);
            && m <= 6
            && (m == 0 ==> r == "(\"" + tokens[0] + "\" AND ())")
            && (m > 0 ==> r == "(\"" + tokens[0] + "\" AND (\"" + Join("\" OR \"", top[..m]) + "\"))"))
  {
    var tokens := Preprocess(userQuery, tokenize, stopwords);
    if tokens != [] {
      var c := Candidates(tokens);
      var top := SelectRelevant(c, semantic(userQuery, c), tfidf(userQuery, c), 6);
      WrappedParts(tokens[0], top, FitCount(top, maxLength));
    }
  }

  lemma WrappedParts(mainTopic: string, top: seq<string>, m: nat)
    requires m <= |top|
    ensures m == 0 ==> Wrapped(mainTopic, QuotedParts(top[..m])) == "(\"" + mainTopic + "\" AND ())"
    ensures m > 0 ==> Wrapped(mainTopic, QuotedParts(top[..m])) == "(\"" + mainTopic + "\" AND (\"" + Join("\" OR \"", top[..m]) + "\"))"
  {
    if m > 0 {
      QuotedPartsJoin(top[..m]);
    } else {
      assert QuotedParts(top[..m]) == [];
    }
  }

  // ---------------------------------------------------------------------------
  // Articles to documents
  // ---------------------------------------------------------------------------

  /** A GNews article; `None` stands for an absent key (or a null description). */
  datatype Article = Article(description: Option<string>, title: Option<string>, url: Option<string>)

  const GnewsSource: string := "gnews"

  /** `if not description: continue` keeps only articles with a non-empty description. */
  predicate HasDescription(a: Article) {
    a.description.Some? && a.description.value != ""
  }

  function GnewsDocId(n: nat): string {
    "gnews_" + NatToDecimal(n)
  }

  function ArticleDocument(a: Article, n: nat): Document
    requires HasDescription(a)
  {
    Document(None, GnewsDocId(n), GnewsSource, a.title.GetOr("N/A"), a.url.GetOr(""), a.description.value)
  }

  /** The documents `gnews_pipeline` returns for a decoded reply; a failed request gives none. */
  function GnewsDocuments(reply: Option<seq<Article>>): (docs: seq<Document>)
    ensures |docs| == |Filter(reply.GetOr([]), HasDescription)|
  {
    var kept := Filter(reply.GetOr([]), HasDescription);
    seq(|kept|, k requires 0 <= k < |kept| => ArticleDocument(kept[k], k + 1))
  }

  /** The append loop of `gnews_pipeline`. */
  method ArticlesToDocuments(reply: Option<seq<Article>>) returns (docs: seq<Document>)
    ensures docs == GnewsDocuments(reply)
  {
    if reply.None? {
      return [];
    }
    var articles := reply.value;
    docs := [];
    var docCounter := 0;
    for i := 0 to |articles|
      invariant docCounter == |docs|
      invariant docs == GnewsDocuments(Some(articles[..i]))
    {
      assert articles[..i + 1][..i] == articles[..i];
      var article := articles[i];
      if !HasDescription(article) {
        continue;
      }
      docCounter := docCounter + 1;
      docs := docs + [ArticleDocument(article, docCounter)];
    }
    assert articles[..|articles|] == articles;
  }

  lemma GnewsDocIdInjective(m: nat, n: nat)
    requires GnewsDocId(m) == GnewsDocId(n)
    ensures m == n
  {
    assert GnewsDocId(m)[6..] == NatToDecimal(m);
    NatToDecimalInjective(m, n);
  }

  /**
   * Kept articles become documents `gnews_1`, `gnews_2`, ... in order, with
   * source `gnews` and the (non-empty) description as text; ids are distinct.
   */
  lemma GnewsDocumentsNumbered(reply: Option<seq<Article>>)
    ensures var docs := GnewsDocuments(reply);
      && (forall k :: 0 <= k < |docs| ==>
            docs[k].docId == GnewsDocId(k + 1) && docs[k].source == GnewsSource
            && docs[k].text != [] && docs[k].queryId.None?)
      && (forall k, l :: 0 <= k < l < |docs| ==> docs[k].docId != docs[l].docId)
      && (reply.None? ==> docs == [])
  {
    var docs := GnewsDocuments(reply);
    var kept := Filter(reply.GetOr([]), HasDescription);
    forall k | 0 <= k < |docs| ensures docs[k].text != [] {
      assert kept[k] in kept;
    }
    forall k, l | 0 <= k < l < |docs| ensures docs[k].docId != docs[l].docId {
      if docs[k].docId == docs[l].docId {
        GnewsDocIdInjective(k + 1, l + 1);
      }
    }
  }
}
