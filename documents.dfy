/** The candidate dictionaries that flow from the vector index through the
    reranker to the prompt and to the answer's source list. */
module Documents {
  import opened Wrappers

  /** The metadata dictionary stored with an article in the index; a key that
      the dictionary lacks is `None`. */
  datatype Metadata = Metadata(chapter: Option<string>, articleNumber: Option<string>, source: Option<string>)

  /** A candidate dictionary: the article text, its metadata and its cosine
      distance from the query, as the index returned them; `rerankScore` is the
      `"rerank_score"` key the reranker adds, and `score` an optional `"score"`
      key that the answer step falls back to when `"rerank_score"` is absent. */
  datatype Doc = Doc(text: string, metadata: Metadata, distance: real, rerankScore: Option<real>, score: Option<real>)

  /** The reranker's sort key `doc["rerank_score"]`. The reranker sorts only
      documents it has just scored (`Reranker.WithScores`), so the default is
      never read there. */
  function Key(d: Doc): real {
    d.rerankScore.GetOr(0.0)
  }

  /** Whether `doc["metadata"]["article_number"]` and `doc["metadata"]["chapter"]`
      can both be read without a `KeyError`. */
  predicate HasKeys(d: Doc) {
    d.metadata.articleNumber.Some? && d.metadata.chapter.Some?
  }

  /** Python's message for a `KeyError` on `key`. */
  function KeyErrorMessage(key: string): string {
    "'" + key + "'"
  }
}
