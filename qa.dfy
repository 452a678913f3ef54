/** `ConstitutionQA.answer_question` and `answer_batch`. The retriever's
    outcome for a query and the language model chain are oracles: the
    retriever either raises (`Failure`) or returns what `retrieve` returns,
    and `llm(prompt, k)` is what the `k`-th invocation of the chain (numbered
    from 0) on `prompt` replies or raises. */
module QA {
  import opened Wrappers
  import opened Text
  import opened Documents
  import opened PromptEngineering
  import opened Retriever

  /** One invocation of the chain: the reply text or the exception message. */
  datatype Attempt = Reply(text: string) | Raise(message: string)

  /** How the retry loop ends: with the stripped reply, by re-raising the last
      failure, or without a single attempt when `max_retries <= 0`. */
  datatype RetryOutcome = Replied(text: string) | GaveUp(message: string) | NotTried

  /** The retry loop from attempt `k` on. */
  function RetryFrom(llm: (PromptVars, nat) -> Attempt, prompt: PromptVars, maxRetries: int, k: nat): RetryOutcome
    decreases maxRetries - k
  {
    if k >= maxRetries then NotTried
    else
      match llm(prompt, k)
      case Reply(t) => Replied(Strip(t))
      case Raise(m) => if k == maxRetries - 1 then GaveUp(m) else RetryFrom(llm, prompt, maxRetries, k + 1)
  }

  function Retry(llm: (PromptVars, nat) -> Attempt, prompt: PromptVars, maxRetries: int): RetryOutcome {
    RetryFrom(llm, prompt, maxRetries, 0)
  }

  /** The `for attempt in range(max_retries)` loop: invokes the chain until it
      replies, sleeping `attempt + 1` seconds after every failure but the last,
      and re-raises the last failure. `calls` counts the invocations and
      `sleeps` lists the sleep durations in order. */
  method InvokeWithRetries(llm: (PromptVars, nat) -> Attempt, prompt: PromptVars, maxRetries: int)
    returns (outcome: RetryOutcome, calls: nat, sleeps: seq<nat>)
    ensures outcome == Retry(llm, prompt, maxRetries)
    ensures maxRetries <= 0 ==> calls == 0
    ensures maxRetries > 0 ==> 1 <= calls <= maxRetries
    ensures forall k :: 0 <= k < calls - 1 ==> llm(prompt, k).Raise?
    ensures outcome.Replied? ==> llm(prompt, calls - 1).Reply? && outcome.text == Strip(llm(prompt, calls - 1).text)
    ensures outcome.GaveUp? ==> calls == maxRetries && llm(prompt, calls - 1) == Raise(outcome.message)
    ensures outcome.NotTried? <==> calls == 0
    ensures |sleeps| == (if calls == 0 then 0 else calls - 1)
    ensures forall k :: 0 <= k < |sleeps| ==> sleeps[k] == k + 1
  {
    calls, sleeps := 0, [];
    var attempt: nat := 0;
    while attempt < maxRetries
      invariant attempt == 0 || attempt < maxRetries
      invariant calls == attempt
      invariant forall k :: 0 <= k < attempt ==> llm(prompt, k).Raise?
      invariant Retry(llm, prompt, maxRetries) == RetryFrom(llm, prompt, maxRetries, attempt)
      invariant |sleeps| == attempt && forall k :: 0 <= k < attempt ==> sleeps[k] == k + 1
      decreases maxRetries - attempt
    {
      calls := calls + 1;
      match llm(prompt, attempt)
      case Reply(t) =>
        return Replied(Strip(t)), calls, sleeps;
      case Raise(m) =>
        if attempt == maxRetries - 1 {
          return GaveUp(m), calls, sleeps;
        }
        sleeps := sleeps + [attempt + 1];
      attempt := attempt + 1;
    }
    return NotTried, calls, sleeps;
  }

  /** The loop re-raises exactly when every one of at least one attempt
      fails, and makes no attempt exactly when `max_retries <= 0`. */
  lemma RetryGivesUp(llm: (PromptVars, nat) -> Attempt, prompt: PromptVars, maxRetries: int)
    ensures Retry(llm, prompt, maxRetries).GaveUp? <==>
      maxRetries > 0 && forall k :: 0 <= k < maxRetries ==> llm(prompt, k).Raise?
    ensures Retry(llm, prompt, maxRetries).NotTried? <==> maxRetries <= 0
  {
    RetryFromGivesUp(llm, prompt, maxRetries, 0);
  }

  lemma {:induction false} RetryFromGivesUp(llm: (PromptVars, nat) -> Attempt, prompt: PromptVars, maxRetries: int, j: nat)
    requires j < maxRetries || j == 0
    ensures RetryFrom(llm, prompt, maxRetries, j).GaveUp? <==>
      maxRetries > 0 && forall k :: j <= k < maxRetries ==> llm(prompt, k).Raise?
    ensures RetryFrom(llm, prompt, maxRetries, j).NotTried? <==> maxRetries <= 0
    decreases maxRetries - j
  {
    if j < maxRetries && llm(prompt, j).Raise? && j < maxRetries - 1 {
      RetryFromGivesUp(llm, prompt, maxRetries, j + 1);
    }
  }

  /** The loop stops at the first attempt that replies, and its answer is that
      reply, stripped. */
  lemma RetryStopsAtFirstReply(llm: (PromptVars, nat) -> Attempt, prompt: PromptVars, maxRetries: int, j: nat)
    requires j < maxRetries && llm(prompt, j).Reply?
    requires forall k :: 0 <= k < j ==> llm(prompt, k).Raise?
    ensures Retry(llm, prompt, maxRetries) == Replied(Strip(llm(prompt, j).text))
  {
    RetryFromFirstReply(llm, prompt, maxRetries, 0, j);
  }

  lemma {:induction false} RetryFromFirstReply(llm: (PromptVars, nat) -> Attempt, prompt: PromptVars, maxRetries: int, i: nat, j: nat)
    requires i <= j < maxRetries && llm(prompt, j).Reply?
    requires forall k :: i <= k < j ==> llm(prompt, k).Raise?
    ensures RetryFrom(llm, prompt, maxRetries, i) == Replied(Strip(llm(prompt, j).text))
    decreases j - i
  {
    if i < j {
      RetryFromFirstReply(llm, prompt, maxRetries, i + 1, j);
    }
  }

  /** An entry of the answer's `sources` list. */
  datatype Source = Source(articleNumber: string, chapter: string, textExcerpt: string, score: real)

  /** The first 200 characters of `text` followed by "..." when it is longer,
      otherwise `text` itself. */
  function Excerpt(text: string): (r: string)
    ensures |r| <= 203
    ensures StartsWith(text, r) || (|r| == 203 && StartsWith(text, r[..200]) && r[200..] == "...")
    ensures |text| <= 200 ==> r == text
    ensures |text| > 200 ==> |r| == 203 && r[..200] == text[..200] && r[200..] == "..."
  {
    if |text| > 200 then text[..200] + "..." else text
  }

  /** The `sources` entry of a document; the `score` is `rerank_score` if the
      document has one, else its `score`, else 0. */
  function SourceOf(d: Doc): (r: Result<Source>)
    ensures r.Success? <==> HasKeys(d)
    ensures r.Failure? ==> r.error == KeyErrorMessage(if d.metadata.articleNumber.None? then "article_number" else "chapter")
    ensures r.Success? ==>
      r.value.articleNumber == d.metadata.articleNumber.value &&
      r.value.chapter == d.metadata.chapter.value &&
      r.value.textExcerpt == Excerpt(d.text)
    ensures r.Success? && d.rerankScore.Some? ==> r.value.score == d.rerankScore.value
    ensures r.Success? && d.rerankScore.None? && d.score.Some? ==> r.value.score == d.score.value
    ensures r.Success? && d.rerankScore.None? && d.score.None? ==> r.value.score == 0.0
  {
    match d.metadata.articleNumber
    case None => Failure(KeyErrorMessage("article_number"))
    case Some(a) =>
      match d.metadata.chapter
      case None => Failure(KeyErrorMessage("chapter"))
      case Some(c) =>
        var score := match d.rerankScore case Some(s) => s case None => d.score.GetOr(0.0);
        Success(Source(a, c, Excerpt(d.text), score))
  }

  /** The `sources` list comprehension, or the first `KeyError` it raises. */
  function Sources(docs: seq<Doc>): Result<seq<Source>> {
    if |docs| == 0 then Success([])
    else
      match Sources(docs[..|docs| - 1])
      case Failure(e) => Failure(e)
      case Success(ss) =>
        match SourceOf(docs[|docs| - 1])
        case Failure(e) => Failure(e)
        case Success(s) => Success(ss + [s])
  }

  /** The list is built exactly when every document has both metadata keys;
      then it has one entry per document, in order. */
  lemma {:induction false} SourcesInOrder(docs: seq<Doc>)
    ensures Sources(docs).Success? <==> forall k :: 0 <= k < |docs| ==> HasKeys(docs[k])
    ensures Sources(docs).Success? ==>
      |Sources(docs).value| == |docs| &&
      forall k :: 0 <= k < |docs| ==> Sources(docs).value[k] == SourceOf(docs[k]).value
    decreases |docs|
  {
    if |docs| > 0 {
      var init, d := docs[..|docs| - 1], docs[|docs| - 1];
      SourcesInOrder(init);
      assert forall k :: 0 <= k < |init| ==> init[k] == docs[k];
      if Sources(docs).Success? {
        assert Sources(docs).value == Sources(init).value + [SourceOf(d).value];
      }
    }
  }

  /** The model settings of a `ConstitutionQA`. */
  datatype QAConfig = QAConfig(modelName: string, temperature: real, maxRetries: int)

  /** The defaults of `ConstitutionQA.__init__`. */
  function DefaultConfig(): QAConfig {
    QAConfig("mistral:instruct", 0.1, 3)
  }

  /** The dictionary `answer_question` returns: `Answered` has no `"error"`
      key, `Failed` always has one. */
  datatype QAResult =
    | Answered(query: string, answer: string, sources: seq<Source>, model: string, temperature: real)
    | Failed(query: string, answer: string, sources: seq<Source>, error: string)

  const NoAnswer: string := "Не удалось получить ответ от LLM"

  /** Python's message for `len(None)`. */
  const NoLen: string := "object of type 'NoneType' has no len()"

  function ErrorAnswer(message: string): string {
    "Произошла ошибка при обработке запроса: " + message + ". Пожалуйста, попробуйте позже."
  }

  function ErrorResult(query: string, message: string): QAResult {
    Failed(query, ErrorAnswer(message), [], message)
  }

  /** `response_text or "Не удалось получить ответ от LLM"`. */
  function AnswerText(outcome: RetryOutcome): string {
    match outcome
    case Replied(t) => if t == "" then NoAnswer else t
    case _ => NoAnswer
  }

  /** What `answer_question` returns. Any exception inside its `try` block
      (from the retriever, `len(None)`, the re-raised LLM failure or a
      `KeyError` in `sources`) becomes an error result. */
  function Answer(cfg: QAConfig, query: string, chatHistory: Option<seq<string>>,
                  retrieved: Result<Option<seq<Doc>>>, llm: (PromptVars, nat) -> Attempt): QAResult
  {
    match retrieved
    case Failure(e) => ErrorResult(query, e)
    case Success(None) => ErrorResult(query, NoLen)
    case Success(Some(docs)) =>
      var outcome := Retry(llm, CreateSystemPrompt(query, docs, chatHistory), cfg.maxRetries);
      if outcome.GaveUp? then ErrorResult(query, outcome.message)
      else
        match Sources(docs)
        case Failure(e) => ErrorResult(query, e)
        case Success(sources) => Answered(query, AnswerText(outcome), sources, cfg.modelName, cfg.temperature)
  }

  /** `answer_question(query, chat_history)`. `llmCalls` counts the chain
      invocations. */
  method AnswerQuestion(cfg: QAConfig, query: string, chatHistory: Option<seq<string>>,
                        retrieved: Result<Option<seq<Doc>>>, llm: (PromptVars, nat) -> Attempt)
    returns (r: QAResult, llmCalls: nat)
    ensures r == Answer(cfg, query, chatHistory, retrieved, llm)
    ensures !(retrieved.Success? && retrieved.value.Some?) ==> llmCalls == 0
    ensures llmCalls <= if cfg.maxRetries > 0 then cfg.maxRetries else 0
  {
    if retrieved.Failure? {
      return ErrorResult(query, retrieved.error), 0;
    }
    if retrieved.value.None? {
      return ErrorResult(query, NoLen), 0;
    }
    var documents := retrieved.value.value;
    var promptVars := CreateSystemPrompt(query, documents, chatHistory);
    var outcome, calls, _ := InvokeWithRetries(llm, promptVars, cfg.maxRetries);
    if outcome.GaveUp? {
      return ErrorResult(query, outcome.message), calls;
    }
    var sources := Sources(documents);
    if sources.Failure? {
      return ErrorResult(query, sources.error), calls;
    }
    return Answered(query, AnswerText(outcome), sources.value, cfg.modelName, cfg.temperature), calls;
  }

  /** The shape of every result: an error result has no sources and quotes its
      error in the answer; a successful one lists one source per retrieved
      document, in order, and falls back to the fixed message when the model
      was never asked or replied with blank text. */
  lemma AnswerShape(cfg: QAConfig, query: string, chatHistory: Option<seq<string>>,
                    retrieved: Result<Option<seq<Doc>>>, llm: (PromptVars, nat) -> Attempt)
    ensures var r := Answer(cfg, query, chatHistory, retrieved, llm);
      r.query == query &&
      (r.Failed? ==> r.sources == [] && r.answer == ErrorAnswer(r.error))
    ensures var r := Answer(cfg, query, chatHistory, retrieved, llm);
      r.Answered? <==>
        retrieved.Success? && retrieved.value.Some? &&
        !Retry(llm, CreateSystemPrompt(query, retrieved.value.value, chatHistory), cfg.maxRetries).GaveUp? &&
        forall k :: 0 <= k < |retrieved.value.value| ==> HasKeys(retrieved.value.value[k])
    ensures var r := Answer(cfg, query, chatHistory, retrieved, llm);
      r.Answered? ==>
        var docs := retrieved.value.value;
        var outcome := Retry(llm, CreateSystemPrompt(query, docs, chatHistory), cfg.maxRetries);
        r.model == cfg.modelName && r.temperature == cfg.temperature &&
        |r.sources| == |docs| &&
        (forall k :: 0 <= k < |docs| ==> r.sources[k] == SourceOf(docs[k]).value) &&
        (outcome.NotTried? || outcome == Replied("") ==> r.answer == NoAnswer) &&
        (outcome.Replied? && outcome.text != "" ==> r.answer == outcome.text)
  {
    if retrieved.Success? && retrieved.value.Some? {
      SourcesInOrder(retrieved.value.value);
    }
  }

  /** With the defaults of `ConstitutionQA` and of `answer_question`
      (`n_final = 5`, reranker on, threshold 0.5), an answer cites at most
      five sources and reports the default model and temperature. */
  lemma DefaultAnswerSources(query: string, chatHistory: Option<seq<string>>, res: QueryResult, scores: seq<real>,
                             llm: (PromptVars, nat) -> Attempt)
    requires Readable(res) && |scores| == |res.documents|
    ensures var r := Answer(DefaultConfig(), query, chatHistory, Success(Retrieval(res, true, scores, DefaultNFinal, DefaultThreshold)), llm);
      |r.sources| <= DefaultNFinal &&
      (r.Answered? ==> r.model == "mistral:instruct" && r.temperature == 0.1)
  {
    var retrieved := Retrieval(res, true, scores, DefaultNFinal, DefaultThreshold);
    assert retrieved.Some? && |retrieved.value| <= DefaultNFinal;
    AnswerShape(DefaultConfig(), query, chatHistory, Success(retrieved), llm);
  }

  /** `answer_batch(queries)`: one `answer_question(query)` result per query,
      in query order, with no chat history. `retrieval(q)` is the retriever's
      outcome for query `q`. */
  method AnswerBatch(cfg: QAConfig, queries: seq<string>,
                     retrieval: string -> Result<Option<seq<Doc>>>, llm: (PromptVars, nat) -> Attempt)
    returns (results: seq<QAResult>)
    ensures |results| == |queries|
    ensures forall i :: 0 <= i < |queries| ==> results[i] == Answer(cfg, queries[i], None, retrieval(queries[i]), llm)
  {
    results := [];
    for i := 0 to |queries|
      invariant |results| == i
      invariant forall j :: 0 <= j < i ==> results[j] == Answer(cfg, queries[j], None, retrieval(queries[j]), llm)
    {
      var result, _ := AnswerQuestion(cfg, queries[i], None, retrieval(queries[i]), llm);
      results := results + [result];
    }
  }
}
