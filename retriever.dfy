/** `ConstitutionRetriever.retrieve` and `get_context_for_llm`. The embedding
    model and the Chroma query are outside the model: their answer for the
    query is the `QueryResult` parameter, and the cross-encoder's answer for
    the candidates is the `scores` parameter. */
module Retriever {
  import opened Wrappers
  import opened Text
  import opened Documents
  import opened Reranker

  /** The parts of a Chroma query answer that `retrieve` reads:
      `results["documents"][0]`, `results["metadatas"][0]` and
      `results["distances"][0]`. */
  datatype QueryResult = QueryResult(documents: seq<string>, metadatas: seq<Metadata>, distances: seq<real>)

  /** The candidate loop reads position `i` of all three lists for every
      `i < len(documents)`. */
  predicate Readable(res: QueryResult) {
    |res.documents| <= |res.metadatas| && |res.documents| <= |res.distances|
  }

  /** The default `relevance_threshold` and `n_final` of `retrieve`. */
  const DefaultThreshold: real := 0.5
  const DefaultNFinal: int := 5

  /** The candidate dict built from index hit `i`. */
  function Candidate(res: QueryResult, i: nat): Doc
    requires Readable(res) && i < |res.documents|
  {
    Doc(res.documents[i], res.metadatas[i], res.distances[i], None, None)
  }

  function Candidates(res: QueryResult): (docs: seq<Doc>)
    requires Readable(res)
    ensures |docs| == |res.documents|
    ensures forall i :: 0 <= i < |docs| ==>
      docs[i].text == res.documents[i] && docs[i].metadata == res.metadatas[i] &&
      docs[i].distance == res.distances[i] && docs[i].rerankScore.None?
  {
    seq(|res.documents|, i requires 0 <= i < |res.documents| => Candidate(res, i))
  }

  /** Python's slice `s[:n]`: the first `n` elements, or all but the last `-n`
      when `n` is negative. */
  function Take(s: seq<Doc>, n: int): (r: seq<Doc>)
    ensures r <= s
    ensures n >= 0 ==> |r| == Min(n, |s|)
    ensures n < 0 ==> |r| == if |s| + n >= 0 then |s| + n else 0
  {
    if n >= 0 then (if n <= |s| then s[..n] else s)
    else if |s| + n >= 0 then s[..|s| + n] else []
  }

  /** The candidates scored by the cross-encoder, before sorting. */
  function Scored(res: QueryResult, scores: seq<real>): (r: seq<Doc>)
    requires Readable(res) && |scores| == |res.documents|
  {
    WithScores(Candidates(res), scores)
  }

  /** What `retrieve` returns: `None` is the implicit `None` of the
      reranker-disabled path, which has no `return` statement. */
  function Retrieval(res: QueryResult, useReranker: bool, scores: seq<real>, nFinal: int, threshold: real): Option<seq<Doc>>
    requires Readable(res)
    requires useReranker ==> |scores| == |res.documents|
  {
    if |res.documents| == 0 then Some([])
    else if !useReranker then None
    else
      var filtered := AtLeast(SortDesc(Scored(res, scores)), threshold);
      if |filtered| == 0 then Some([]) else Some(Take(filtered, nFinal))
  }

  /** `retrieve(query, n_initial, n_final, relevance_threshold)`. Builds one
      candidate per index hit, in index order; stops with `[]` before reaching
      the reranker when there is none; reranks a copy of the candidate list;
      keeps the candidates scoring at least the threshold and cuts the list to
      `n_final`. `invokedReranker` tells whether the cross-encoder was asked. */
  method Retrieve(query: string, res: QueryResult, useReranker: bool, scores: seq<real>, nFinal: int, threshold: real)
    returns (r: Option<seq<Doc>>, invokedReranker: bool)
    requires Readable(res)
    requires useReranker ==> |scores| == |res.documents|
    ensures r == Retrieval(res, useReranker, scores, nFinal, threshold)
    ensures invokedReranker <==> useReranker && |res.documents| > 0
    ensures |res.documents| == 0 ==> r == Some([])
    ensures r.None? <==> !useReranker && |res.documents| > 0
  {
    var retrieved: seq<Doc> := [];
    var i := 0;
    while i < |res.documents|
      invariant 0 <= i <= |res.documents|
      invariant retrieved == Candidates(res)[..i]
    {
      var doc := Doc(res.documents[i], res.metadatas[i], res.distances[i], None, None);
      retrieved := retrieved + [doc];
      i := i + 1;
    }
    assert retrieved == Candidates(res);
    if |retrieved| == 0 {
      return Some([]), false;
    }
    if !useReranker {
      return None, false;
    }
    var copy := new Doc[|retrieved|](k requires 0 <= k < |retrieved| => retrieved[k]);
    assert copy[..] == retrieved;
    var reranked := Rerank(query, copy, scores);
    var filtered := AtLeast(reranked[..], threshold);
    if |filtered| == 0 {
      return Some([]), true;
    }
    return Some(Take(filtered, nFinal)), true;
  }

  /** Every document `retrieve` returns scores at least the threshold; a score
      equal to the threshold passes. */
  lemma RetrievalAboveThreshold(res: QueryResult, useReranker: bool, scores: seq<real>, nFinal: int, threshold: real)
    requires Readable(res) && (useReranker ==> |scores| == |res.documents|)
    ensures var r := Retrieval(res, useReranker, scores, nFinal, threshold);
      r.Some? ==> forall i :: 0 <= i < |r.value| ==> Key(r.value[i]) >= threshold
  {
    if useReranker && |res.documents| > 0 {
      var sorted := SortDesc(Scored(res, scores));
      var filtered := AtLeast(sorted, threshold);
      AtLeastMembers(sorted, threshold);
      var r := Retrieval(res, useReranker, scores, nFinal, threshold);
      forall i | 0 <= i < |r.value| ensures Key(r.value[i]) >= threshold {
        assert r.value[i] == filtered[i];
        assert filtered[i] in filtered;
      }
    }
  }

  /** With `n_final >= 0` the result has `min(n_final, k)` documents, where `k`
      is the number of candidates whose score reaches the threshold. */
  lemma RetrievalLength(res: QueryResult, scores: seq<real>, nFinal: int, threshold: real)
    requires Readable(res) && |scores| == |res.documents|
    requires |res.documents| > 0 && nFinal >= 0
    ensures var r := Retrieval(res, true, scores, nFinal, threshold);
      r.Some? && |r.value| == Min(nFinal, |AtLeast(Scored(res, scores), threshold)|)
  {
    AtLeastSortDesc(Scored(res, scores), threshold);
  }

  /** The result is ordered by non-increasing score and is the head of the
      whole reranked candidate list: no candidate left out outranks one kept. */
  lemma RetrievalIsTopOfRanking(res: QueryResult, scores: seq<real>, nFinal: int, threshold: real)
    requires Readable(res) && |scores| == |res.documents| && |res.documents| > 0
    ensures var r := Retrieval(res, true, scores, nFinal, threshold);
      var ranking := SortDesc(Scored(res, scores));
      r.Some? && SortedDesc(r.value) && r.value <= ranking
  {
    var ranking := SortDesc(Scored(res, scores));
    SortDescSorted(Scored(res, scores));
    AtLeastPrefix(ranking, threshold);
    var r := Retrieval(res, true, scores, nFinal, threshold);
    assert r.value <= ranking;
    assert forall i, j :: 0 <= i < j < |r.value| ==> r.value[i] == ranking[i] && r.value[j] == ranking[j];
  }

  /** Python's message for iterating over `None`. */
  const NotIterable: string := "'NoneType' object is not iterable"

  /** The `i`-th part of the LLM context: `doc['metadata']['article_number']`
      is read before `doc['metadata']['chapter']`, and a missing one raises
      `KeyError`. */
  function ContextPart(i: nat, d: Doc): Result<string> {
    match d.metadata.articleNumber
    case None => Failure(KeyErrorMessage("article_number"))
    case Some(a) =>
      match d.metadata.chapter
      case None => Failure(KeyErrorMessage("chapter"))
      case Some(c) => Success("Источник " + NatToString(i) + " (" + a + ", " + c + "):\n" + d.text + "\n")
  }

  /** The context parts of `docs`, numbered from 1, or the first `KeyError`. */
  function ContextParts(docs: seq<Doc>): Result<seq<string>> {
    if |docs| == 0 then Success([])
    else
      match ContextParts(docs[..|docs| - 1])
      case Failure(e) => Failure(e)
      case Success(parts) =>
        match ContextPart(|docs|, docs[|docs| - 1])
        case Failure(e) => Failure(e)
        case Success(p) => Success(parts + [p])
  }

  /** The parts are built exactly when every document has both metadata keys;
      then there is one part per document, part `k` carrying number `k + 1`. */
  lemma {:induction false} ContextPartsSucceed(docs: seq<Doc>)
    ensures ContextParts(docs).Success? <==> forall k :: 0 <= k < |docs| ==> HasKeys(docs[k])
    ensures ContextParts(docs).Success? ==>
      var parts := ContextParts(docs).value;
      |parts| == |docs| &&
      forall k :: 0 <= k < |docs| ==>
        parts[k] == ContextPart(k + 1, docs[k]).value &&
        StartsWith(parts[k], "Источник " + NatToString(k + 1) + " (")
    decreases |docs|
  {
    if |docs| > 0 {
      var init := docs[..|docs| - 1];
      ContextPartsSucceed(init);
      assert forall k :: 0 <= k < |init| ==> init[k] == docs[k];
    }
  }

  /** Once a `KeyError` is raised, later documents do not matter. */
  lemma {:induction false} ContextPartsFailureStays(docs: seq<Doc>, n: nat)
    requires n <= |docs| && ContextParts(docs[..n]).Failure?
    ensures ContextParts(docs) == ContextParts(docs[..n])
    decreases |docs| - n
  {
    if n < |docs| {
      assert docs[..n + 1][..n] == docs[..n];
      ContextPartsFailureStays(docs, n + 1);
    } else {
      assert docs[..n] == docs;
    }
  }

  /** What `get_context_for_llm` returns or raises for a `retrieve` result:
      iterating over `None` raises `TypeError`. */
  function ContextForLlm(retrieved: Option<seq<Doc>>): Result<string> {
    match retrieved
    case None => Failure(NotIterable)
    case Some(docs) =>
      match ContextParts(docs)
      case Failure(e) => Failure(e)
      case Success(parts) => Success(Join(parts, "\n\n"))
  }

  /** `get_context_for_llm(query, n_initial, n_final)`: retrieves with the
      default threshold, then joins one numbered part per document with blank
      lines. */
  method GetContextForLlm(query: string, res: QueryResult, useReranker: bool, scores: seq<real>, nFinal: int)
    returns (r: Result<string>)
    requires Readable(res)
    requires useReranker ==> |scores| == |res.documents|
    ensures r == ContextForLlm(Retrieval(res, useReranker, scores, nFinal, DefaultThreshold))
  {
    var documents, _ := Retrieve(query, res, useReranker, scores, nFinal, DefaultThreshold);
    if documents.None? {
      return Failure(NotIterable);
    }
    var docs := documents.value;
    var parts: seq<string> := [];
    for i := 0 to |docs|
      invariant ContextParts(docs[..i]) == Success(parts)
    {
      assert docs[..i + 1][..i] == docs[..i];
      var part := ContextPart(i + 1, docs[i]);
      if part.Failure? {
        ContextPartsFailureStays(docs, i + 1);
        return Failure(part.error);
      }
      parts := parts + [part.value];
    }
    assert docs[..|docs|] == docs;
    return Success(Join(parts, "\n\n"));
  }
}
