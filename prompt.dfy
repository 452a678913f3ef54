/** `format_context` and `create_system_prompt`: the numbered context blocks
    shown to the language model and the variables handed to the prompt
    template. */
module PromptEngineering {
  import opened Wrappers
  import opened Text
  import opened Documents

  /** The 50 `'='` characters that close every block. */
  function Rule(): (r: string)
    ensures |r| == 50 && forall k :: 0 <= k < |r| ==> r[k] == '='
  {
    seq(50, _ => '=')
  }

  /** The block of the `i`-th document: a missing `chapter` reads
      "не указана", a missing `article_number` "не указан", and the text is
      stripped. */
  function Block(i: nat, d: Doc): string {
    Header(i) + Body(d)
  }

  /** The first line of a block, up to its colon. */
  function Header(i: nat): string {
    "Источник " + NatToString(i) + ":"
  }

  /** Everything after the colon of a block's first line. */
  function Body(d: Doc): string {
    "\n" + "Глава: " + d.metadata.chapter.GetOr("не указана") + "\n"
    + "Статья: " + d.metadata.articleNumber.GetOr("не указан") + "\n"
    + "Текст статьи:\n" + Strip(d.text) + "\n"
    + Rule()
  }

  /** The blocks of `docs`, numbered from 1 in order. */
  function Blocks(docs: seq<Doc>): seq<string> {
    if |docs| == 0 then [] else Blocks(docs[..|docs| - 1]) + [Block(|docs|, docs[|docs| - 1])]
  }

  function FormattedContext(docs: seq<Doc>): string {
    Join(Blocks(docs), "\n\n")
  }

  /** `format_context(documents)`. */
  method FormatContext(docs: seq<Doc>) returns (r: string)
    ensures r == FormattedContext(docs)
  {
    var formatted: seq<string> := [];
    for i := 0 to |docs|
      invariant formatted == Blocks(docs[..i])
    {
      assert docs[..i + 1][..i] == docs[..i];
      formatted := formatted + [Block(i + 1, docs[i])];
    }
    assert docs[..|docs|] == docs;
    return Join(formatted, "\n\n");
  }

  lemma {:induction false} BlocksLength(docs: seq<Doc>)
    ensures |Blocks(docs)| == |docs|
    decreases |docs|
  {
    if |docs| > 0 {
      BlocksLength(docs[..|docs| - 1]);
    }
  }

  /** One block per document, block `k` describing document `k` under number
      `k + 1`. */
  lemma {:induction false} BlocksInOrder(docs: seq<Doc>)
    ensures |Blocks(docs)| == |docs|
    ensures forall k :: 0 <= k < |docs| ==> Blocks(docs)[k] == Block(k + 1, docs[k])
    decreases |docs|
  {
    BlocksLength(docs);
    forall k | 0 <= k < |docs| ensures Blocks(docs)[k] == Block(k + 1, docs[k]) {
      BlockAt(docs, k);
    }
  }

  lemma {:induction false} BlockAt(docs: seq<Doc>, k: nat)
    requires k < |docs|
    ensures |Blocks(docs)| == |docs| && Blocks(docs)[k] == Block(k + 1, docs[k])
    decreases |docs|
  {
    var init := docs[..|docs| - 1];
    BlocksLength(docs);
    BlocksLength(init);
    if k < |init| {
      BlockAt(init, k);
      assert init[k] == docs[k];
    }
  }

  /** A block starts with its number and ends with exactly 50 `'='`, the last
      line of the block. */
  lemma BlockShape(i: nat, d: Doc)
    ensures StartsWith(Block(i, d), Header(i))
    ensures var b := Block(i, d);
      |b| > 51 && b[|b| - 50..] == Rule() && b[|b| - 51] == '\n'
  {
    var lines := "\n" + "Глава: " + d.metadata.chapter.GetOr("не указана") + "\n"
      + "Статья: " + d.metadata.articleNumber.GetOr("не указан") + "\n"
      + "Текст статьи:\n" + Strip(d.text) + "\n";
    assert Body(d) == lines + Rule();
    assert lines[|lines| - 1] == '\n';
    assert Block(i, d) == Header(i) + lines + Rule();
  }

  /** Blocks with different numbers differ, so no two blocks of one context
      are equal even for equal documents. */
  lemma BlockNumbersDistinct(i: nat, j: nat, d: Doc, e: Doc)
    requires Block(i, d) == Block(j, e)
    ensures i == j
  {
    assert Block(i, d) == "Источник " + NatToString(i) + [':'] + Body(d);
    assert Block(j, e) == "Источник " + NatToString(j) + [':'] + Body(e);
    NumberedInjective("Источник ", i, j, ':', Body(d), Body(e));
  }

  /** The context is empty exactly when there are no documents. */
  lemma FormattedContextEmpty(docs: seq<Doc>)
    ensures FormattedContext(docs) == "" <==> |docs| == 0
  {
    if |docs| > 0 {
      BlocksInOrder(docs);
      BlockShape(1, docs[0]);
    }
  }

  /** A non-empty context begins with the block of the first document. */
  lemma FormattedContextFirst(docs: seq<Doc>)
    requires |docs| > 0
    ensures StartsWith(FormattedContext(docs), Block(1, docs[0]))
  {
    BlocksInOrder(docs);
  }

  /** A non-empty context ends with the closing rule of the last block. */
  lemma FormattedContextLast(docs: seq<Doc>)
    requires |docs| > 0
    ensures var c := FormattedContext(docs); |c| >= 50 && c[|c| - 50..] == Rule()
  {
    BlockAt(docs, |docs| - 1);
    var last := Blocks(docs)[|docs| - 1];
    BlockShape(|docs|, docs[|docs| - 1]);
    SuffixOfSuffix(FormattedContext(docs), last, 50);
  }

  /** Appending a document appends its block after a blank line. */
  lemma FormattedContextAppend(docs: seq<Doc>, d: Doc)
    requires |docs| > 0
    ensures FormattedContext(docs + [d]) == FormattedContext(docs) + "\n\n" + Block(|docs| + 1, d)
  {
    assert (docs + [d])[..|docs|] == docs;
    assert Blocks(docs + [d]) == Blocks(docs) + [Block(|docs| + 1, d)];
    BlocksLength(docs);
    JoinAppend(Blocks(docs), Block(|docs| + 1, d), "\n\n");
  }

  /** The dictionary `create_system_prompt` returns; `chatHistory` is `None`
      when the `"chat_history"` key is absent. */
  datatype PromptVars = PromptVars(query: string, context: string, chatHistory: Option<seq<string>>)

  /** `create_system_prompt(query, retrieved_docs, chat_history)`: a history is
      passed on only when it is truthy, i.e. given and non-empty. */
  function CreateSystemPrompt(query: string, docs: seq<Doc>, chatHistory: Option<seq<string>>): (r: PromptVars)
    ensures r.query == query && r.context == FormattedContext(docs)
    ensures r.chatHistory.Some? <==> chatHistory.Some? && |chatHistory.value| > 0
    ensures r.chatHistory.Some? ==> r.chatHistory == chatHistory
  {
    var history := if chatHistory.Some? && |chatHistory.value| > 0 then chatHistory else None;
    PromptVars(query, FormattedContext(docs), history)
  }
}
