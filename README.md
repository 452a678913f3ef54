# RAG over the Constitution of the Russian Federation — Dafny model

This project models the core of a retrieval-augmented question-answering system
over the Constitution of the Russian Federation.

- **Ingestion.** The constitution's Word file is scanned paragraph by paragraph
  (`load_docx_convert_to_txt.py`). Chapters and article headings are grouped,
  and a clean text is written out. `chunk_constitution` (`chunking.py`) splits
  that text into one chunk per article. The chunks are deduplicated by
  `(chapter, article_number)`, turned into metadata records and counted per
  chapter. `initialize_vector_db` (`init_db.py`) derives ids, documents and
  metadata dictionaries from the records. It hands them to the vector
  collection in batches of 50.
- **Retrieval.** `retrieve` (`retriever.py`) turns the vector index's hits into
  candidate dictionaries. These are scored by the cross-encoder
  (`CrossEncoderReranker.rerank`, `reranker.py`) and sorted by score, highest
  first, keeping the order of equal scores. The candidates below the relevance
  threshold are dropped and the list is cut to `n_final`.
  `get_context_for_llm` renders the result as numbered source parts.
- **Answering.** `format_context` and `create_system_prompt`
  (`prompt_engineering.py`) build the prompt variables.
  `ConstitutionQA.answer_question` (`applying_to_LLM.py`) calls the language
  model with up to `max_retries` attempts. It then builds either a result
  dictionary with the answer and one source entry per document, or an error
  dictionary. `answer_batch` answers a list of queries in order.

Outside components become parameters of the model:

- the embedding model and the vector index (`Retriever.QueryResult`);
- the cross-encoder (a sequence of scores);
- the language model (a function from prompt variables and attempt number to a
  reply or an exception);
- the regular expressions of `chunk_constitution` (`Chunking.Patterns`);
- the Word file (its paragraph texts).

Python string operations are modelled in `Text`:

- `str.strip` with Python's whitespace set;
- `startswith`;
- the `in` substring test;
- `sep.join`;
- decimal rendering of numbers.

Python semantics are followed wherever they matter:

- a slice `s[:n]` with a negative `n`;
- a clamped slice `s[a:b]`;
- a stable sort with `reverse=True`;
- dictionary insertion order;
- a `defaultdict` key created on first access;
- the `KeyError` and `TypeError` messages that become the `"error"` of a
  result.

Two paths of `retrieve` worth noting:

- **`retrieve` falls through only with the reranker disabled.** In the code, a
  reranking that keeps nothing returns `[]`. The implicit `None` comes only
  from the reranker-disabled path with at least one hit
  (`src/rag_pipeline/retriever.py:82-92`).
- **`Retriever.Retrieval` keeps that `None`.** `QA.Answer` turns it into the
  error result of `len(None)`, and `Retriever.ContextForLlm` into the error of
  iterating over `None`.

Modules, one file each:

| module | file |
|---|---|
| `Wrappers` | `wrappers.dfy` |
| `Text` | `text.dfy` |
| `Groups` | `groups.dfy` |
| `Documents` | `documents.dfy` |
| `Reranker` | `reranker.dfy` |
| `Retriever` | `retriever.dfy` |
| `PromptEngineering` | `prompt.dfy` |
| `QA` | `qa.dfy` |
| `Chunking` | `chunking.dfy` |
| `InitDb` | `initdb.dfy` |
| `Docx` | `docx.dfy` |

`Groups` holds the shared dictionary-order and counting lemmas.

## Model

| member | source | states |
|---|---|---|
| Text.StripSpec | src/rag_pipeline/prompt_engineering.py:60 | `strip()` yields the part of the string between a whitespace prefix and a whitespace suffix, with no whitespace at either end; the result is empty exactly when the string is all whitespace |
| Text.StripIdempotent | src/data_processing/chunking.py:32 | stripping an already stripped string changes nothing |
| Text.Join | src/rag_pipeline/retriever.py:115 | a join of parts starts with the first part and ends with the last |
| Text.JoinAppend | src/rag_pipeline/prompt_engineering.py:70 | joining one more part appends the separator and that part |
| Text.NatToString | src/rag_pipeline/prompt_engineering.py:63 | a number is rendered as a non-empty run of decimal digits that spells it, most significant first, with a leading `0` only for 0 itself, and of length one exactly below 10 |
| Text.NatToStringInjective | src/chroma_db/init_db.py:42 | different numbers render differently |
| Text.NumberedInjective | src/rag_pipeline/prompt_engineering.py:63 | a prefix, a number, then a non-digit determine the number |
| Groups.Distinct | src/data_processing/chunking.py:89-93 | the keys of a dictionary filled in sequence order: each key of the sequence, once, and nothing else |
| Groups.DistinctCovers | src/data_processing/chunking.py:89-93 | every key that was inserted is a key of the dictionary |
| Groups.DistinctOrder | src/data_processing/chunking.py:93 | dictionary keys come in the order of their first insertion |
| Groups.DistinctSnoc | src/data_processing/chunking.py:92 | inserting a new key appends it; re-inserting an existing key leaves the key order unchanged |
| Groups.DistinctMembers | src/data_processing/chunking.py:92 | a key is in the dictionary exactly when it was inserted |
| Groups.Count | src/data_processing/chunking.py:111 | the count of a key is positive exactly when the key occurs |
| Groups.CountSnoc | src/data_processing/chunking.py:111 | one more element raises only its own key's count, by one |
| Groups.SumCountsSnoc | src/data_processing/chunking.py:109-111 | one more element raises the sum of the counts over distinct keys by one exactly when its key is among them |
| Groups.CountsSumToLength | src/data_processing/chunking.py:108-111 | the counts over all keys add up to the number of elements counted |
| Reranker.Pairs | src/rag_pipeline/reranker.py:8 | one `(query, text)` pair per document, in document order |
| Reranker.WithScores | src/rag_pipeline/reranker.py:11-12 | each document gets the score at its position as `rerank_score`, and nothing else about it changes |
| Reranker.InsertDescPerm | src/rag_pipeline/reranker.py:14 | one insertion step adds exactly the inserted element |
| Reranker.SortDescPerm | src/rag_pipeline/reranker.py:14 | the sort is a permutation of its input |
| Reranker.InsertDescSorted | src/rag_pipeline/reranker.py:14 | inserting into a list sorted by descending score keeps it sorted |
| Reranker.SortDescSorted | src/rag_pipeline/reranker.py:14 | the sorted list is non-increasing by `rerank_score` |
| Reranker.InsertDescStable | src/rag_pipeline/reranker.py:14 | an insertion step places the new element after every element with the same score |
| Reranker.SortDescStable | src/rag_pipeline/reranker.py:14 | for each score, the documents with that score keep their input order; the sort is stable |
| Reranker.AtLeastMembers | src/rag_pipeline/retriever.py:84-87 | a document survives the filter exactly when it was present and scores at least the threshold; equality passes |
| Reranker.AtLeastInsert | src/rag_pipeline/retriever.py:84-87 | filtering after an insertion step equals the insertion step after filtering |
| Reranker.AtLeastSortDesc | src/rag_pipeline/retriever.py:83-87 | filtering the ranking gives the ranking of the filtered candidates |
| Reranker.AtLeastAll | src/rag_pipeline/retriever.py:84-87 | when every score reaches the threshold the filter keeps everything |
| Reranker.AtLeastPrefix | src/rag_pipeline/retriever.py:84-87 | on a list sorted by descending score, the filter keeps a prefix |
| Reranker.SortInPlace | src/rag_pipeline/reranker.py:14 | the array is sorted in place into the stable descending order of its old contents |
| Reranker.InsertStep | src/rag_pipeline/reranker.py:14 | one step moves the next element into the sorted prefix and leaves the rest of the array alone |
| Reranker.InsertedAt | src/rag_pipeline/reranker.py:14 | the array after shifting is the functional insertion |
| Reranker.InsertDescAt | src/rag_pipeline/reranker.py:14 | an insertion lands right after the last element scoring at least as much |
| Reranker.Rerank | src/rag_pipeline/reranker.py:7-15 | returns the same list, now holding the scored documents sorted by descending score, stably |
| Retriever.Candidates | src/rag_pipeline/retriever.py:68-75 | one candidate per index hit; candidate `i` holds the text, metadata and distance at position `i` and has no `rerank_score` |
| Retriever.Take | src/rag_pipeline/retriever.py:92 | `s[:n]` is a prefix of length `min(n, len)`, or of `len + n` when `n` is negative |
| Retriever.Retrieve | src/rag_pipeline/retriever.py:48-92 | the result is `[]` when there is no hit; the reranker is invoked exactly when it is enabled and there are hits; `None` is returned exactly when the reranker is disabled and there are hits |
| Retriever.RetrievalAboveThreshold | src/rag_pipeline/retriever.py:84-87 | every returned document scores at least the threshold |
| Retriever.RetrievalLength | src/rag_pipeline/retriever.py:84-92 | with `n_final >= 0` the result has `min(n_final, number of candidates reaching the threshold)` documents |
| Retriever.RetrievalIsTopOfRanking | src/rag_pipeline/retriever.py:82-92 | the result is sorted by score and is a prefix of the whole ranking, so no dropped candidate outranks a kept one |
| Retriever.ContextPartsSucceed | src/rag_pipeline/retriever.py:108-113 | parts are built exactly when every document has both metadata keys; then part `k` is numbered `k + 1` |
| Retriever.ContextPartsFailureStays | src/rag_pipeline/retriever.py:109-113 | the first `KeyError` ends the loop; later documents do not matter |
| Retriever.GetContextForLlm | src/rag_pipeline/retriever.py:94-115 | calls `retrieve` with the default threshold and joins the parts with blank lines; a `None` or a missing key becomes the corresponding error |
| PromptEngineering.Rule | src/rag_pipeline/prompt_engineering.py:67 | the separator is 50 `'='` characters |
| PromptEngineering.FormatContext | src/rag_pipeline/prompt_engineering.py:45-70 | the loop returns the blocks numbered from 1, joined by blank lines |
| PromptEngineering.BlocksLength | src/rag_pipeline/prompt_engineering.py:57-68 | one block per document |
| PromptEngineering.BlocksInOrder | src/rag_pipeline/prompt_engineering.py:57-68 | block `k` is the block of document `k` with number `k + 1` |
| PromptEngineering.BlockAt | src/rag_pipeline/prompt_engineering.py:57-68 | block `k` is the block of document `k` with number `k + 1` |
| PromptEngineering.BlockShape | src/rag_pipeline/prompt_engineering.py:62-68 | a block starts with `Источник i:` and ends with a newline and the 50-character rule |
| PromptEngineering.BlockNumbersDistinct | src/rag_pipeline/prompt_engineering.py:63 | blocks with different numbers differ, even for equal documents |
| PromptEngineering.FormattedContextEmpty | src/rag_pipeline/prompt_engineering.py:70 | the context is empty exactly when there are no documents |
| PromptEngineering.FormattedContextFirst | src/rag_pipeline/prompt_engineering.py:57-70 | a non-empty context starts with the first document's block |
| PromptEngineering.FormattedContextLast | src/rag_pipeline/prompt_engineering.py:67-70 | a non-empty context ends with the 50-character rule |
| PromptEngineering.FormattedContextAppend | src/rag_pipeline/prompt_engineering.py:57-70 | adding a document appends a blank line and its block, numbered next |
| PromptEngineering.CreateSystemPrompt | src/rag_pipeline/prompt_engineering.py:72-98 | the variables carry the query and the formatted context; the history is present exactly when it was given and is non-empty, and it is then passed on unchanged |
| QA.InvokeWithRetries | src/rag_pipeline/applying_to_LLM.py:123-134 | at most `max_retries` calls; every call but the last raised; a reply ends the loop with its stripped text; giving up re-raises the last exception after exactly `max_retries` calls; the delays are 1, 2, … seconds between attempts |
| QA.RetryGivesUp | src/rag_pipeline/applying_to_LLM.py:124-133 | the loop re-raises exactly when all `max_retries` attempts raise, and makes no call exactly when `max_retries <= 0` |
| QA.RetryFromGivesUp | src/rag_pipeline/applying_to_LLM.py:124-133 | from attempt `j` on, the loop gives up exactly when every remaining attempt raises |
| QA.RetryStopsAtFirstReply | src/rag_pipeline/applying_to_LLM.py:127-129 | the answer is the stripped text of the first attempt that replies |
| QA.RetryFromFirstReply | src/rag_pipeline/applying_to_LLM.py:127-129 | from attempt `i` on, the first reply decides the outcome |
| QA.Excerpt | src/rag_pipeline/applying_to_LLM.py:141 | a text of at most 200 characters is kept whole; a longer one becomes its first 200 characters followed by `...`, 203 characters in all |
| QA.SourceOf | src/rag_pipeline/applying_to_LLM.py:138-143 | a source entry exists exactly when both metadata keys are present, and otherwise the `KeyError` names `article_number` first; the entry carries the article number, the chapter and the excerpt of the text; its score is `rerank_score` if present, else `score`, else 0 |
| QA.SourcesInOrder | src/rag_pipeline/applying_to_LLM.py:137-145 | the list is built exactly when every document has both keys; then it has one entry per document, in order |
| QA.AnswerQuestion | src/rag_pipeline/applying_to_LLM.py:92-188 | the language model is not called unless `retrieve` returned a list, and is called at most `max_retries` times |
| QA.AnswerShape | src/rag_pipeline/applying_to_LLM.py:147-178 | an error result has no sources and quotes its error in the answer; a result succeeds exactly when retrieval returned a list, the retry loop did not give up and every document has both keys; then it has one source per document and falls back to the fixed message on an empty reply |
| QA.AnswerBatch | src/rag_pipeline/applying_to_LLM.py:190-207 | one `answer_question` result per query, in query order, with no chat history |
| QA.DefaultAnswerSources | src/rag_pipeline/applying_to_LLM.py:92-113 | with the default settings (`n_final = 5`, threshold 0.5, model `mistral:instruct`, temperature 0.1) an answer cites at most five sources and reports the default model and temperature |
| Chunking.Tail | src/data_processing/chunking.py:22 | `[1:]` drops exactly one element of a non-empty list |
| Chunking.CollapseSpaces | src/data_processing/chunking.py:66 | `re.sub(r'\s+', ' ', s)` leaves no whitespace but single spaces, is empty only for the empty string, and starts (ends) with a space exactly when the input starts (ends) with whitespace |
| Chunking.CollapseKeepsNonSpace | src/data_processing/chunking.py:66 | the collapse keeps every non-whitespace character, in order |
| Chunking.CollapseRun | src/data_processing/chunking.py:66 | a non-empty run of whitespace becomes exactly one space |
| Chunking.CollapseNonSpaceChar | src/data_processing/chunking.py:66 | a non-whitespace character is kept as it is |
| Chunking.CollapseConcat | src/data_processing/chunking.py:66 | the collapse distributes over a concatenation that does not join two whitespace runs, so the string is collapsed run by run; with the two rows above this fixes the result on every string |
| Chunking.StripSingleSpaced | src/data_processing/chunking.py:66 | the cleaned article text contains no whitespace except single inner spaces |
| Chunking.ChapterLabelStripped | src/data_processing/chunking.py:28-34 | a chapter heading has no surrounding whitespace |
| Chunking.ArticleChunk | src/data_processing/chunking.py:47-78 | a (header, content) pair gives one chunk exactly when the stripped header has an article number, and none otherwise; that chunk has article number `"Статья " + number`, the current chapter, source `"Конституция РФ"` and the numbering-normalised header plus cleaned body as its text |
| Chunking.TripleChunksStep | src/data_processing/chunking.py:27-39 | one chapter iteration appends that chapter's chunks and moves on by 3 |
| Chunking.ChunkConstitution | src/data_processing/chunking.py:6-81 | the loops collect the chunks of every chapter triple, in order |
| Chunking.ChapterFromTriple | src/data_processing/chunking.py:28-41 | one triple yields its heading and, unless it is the final provisions, its articles' chunks |
| Chunking.CollectArticles | src/data_processing/chunking.py:43-78 | the stride-2 loop collects the chunks of every complete pair |
| Chunking.PairChunksStep | src/data_processing/chunking.py:43-78 | one pair iteration appends that pair's chunk and moves on by 2 |
| Chunking.ArticleFromPair | src/data_processing/chunking.py:47-78 | the loop body builds the chunk of one pair |
| Chunking.PairChunksWellFormed | src/data_processing/chunking.py:54-78 | every chunk of a chapter carries the source name and an article number starting with `Статья ` |
| Chunking.TripleChunksWellFormed | src/data_processing/chunking.py:27-39 | no chunk belongs to the final provisions, and every chapter label is stripped |
| Chunking.ChunksWellFormed | src/data_processing/chunking.py:6-81 | every chunk is well-formed |
| Chunking.ChapterChunksBound | src/data_processing/chunking.py:43-45 | a chapter yields at most one chunk per two article blocks |
| Chunking.PairChunksBound | src/data_processing/chunking.py:43-45 | at most one chunk per complete pair |
| Chunking.PairChunksComplete | src/data_processing/chunking.py:43-53 | the number of chunks equals the number of complete pairs whose header has an article number, and every such pair's chunk is among them |
| Chunking.KeysOf | src/data_processing/chunking.py:91 | one `(chapter, article_number)` key per chunk |
| Chunking.LastIndex | src/data_processing/chunking.py:92 | the position of the last chunk with a given key |
| Chunking.LastIndexSnoc | src/data_processing/chunking.py:92 | after one more chunk, the last position moves only for that chunk's key |
| Chunking.Deduplicated | src/data_processing/chunking.py:89-93 | one chunk per distinct key, each an input chunk |
| Chunking.Deduplicate | src/data_processing/chunking.py:89-93 | the dictionary loop yields the deduplicated chunks |
| Chunking.DedupStep | src/data_processing/chunking.py:90-92 | one assignment `unique_chunks[key] = chunk` keeps the dictionary equal to that of the chunks seen so far |
| Chunking.DeduplicatedKeys | src/data_processing/chunking.py:89-93 | keys are unique, every input key is kept, and keys come in order of first occurrence |
| Chunking.DeduplicatedKeepsLast | src/data_processing/chunking.py:92 | each kept chunk is the last input chunk with its key |
| Chunking.Records | src/data_processing/chunking.py:95-99 | one record per chunk, with its chapter, its article number as `article` and its text |
| Chunking.ChapterNames | src/data_processing/chunking.py:110 | the chapter of each chunk, in order |
| Chunking.ChapterStats | src/data_processing/chunking.py:108-111 | the counter's keys are the chapters in first-occurrence order, each mapped to its number of chunks |
| Chunking.StatsStep | src/data_processing/chunking.py:110-111 | one `get(chapter, 0) + 1` update keeps the counter equal to the counts of the chunks seen |
| Chunking.StatsStepCounts | src/data_processing/chunking.py:111 | the update raises only the current chapter's count |
| Chunking.ChapterStatsTotal | src/data_processing/chunking.py:108-111 | the per-chapter counts add up to the number of chunks |
| InitDb.Ids | src/chroma_db/init_db.py:42 | one id `id_i` per record |
| InitDb.IdInjective | src/chroma_db/init_db.py:42 | different indices give different ids |
| InitDb.IdsDistinct | src/chroma_db/init_db.py:42 | the ids are pairwise distinct and start with `id_` |
| InitDb.Texts | src/chroma_db/init_db.py:43 | the documents are the records' full texts, in order |
| InitDb.MetadataOf | src/chroma_db/init_db.py:65-69 | the metadata holds the record's chapter, its article as `article_number`, and the source name |
| InitDb.BuildMetadatas | src/chroma_db/init_db.py:63-70 | one metadata dictionary per record, in order |
| InitDb.TotalBatchesCeil | src/chroma_db/init_db.py:73 | `(n + 49) // 50` is the ceiling of `n / 50` |
| InitDb.BatchesCount | src/chroma_db/init_db.py:73-75 | the loop runs `total_batches` times |
| InitDb.BatchesShape | src/chroma_db/init_db.py:75-76 | each batch holds between 1 and 50 indices and only the last is short; the first starts at 0 and the last ends at `len(ids)` |
| InitDb.BatchesConsecutive | src/chroma_db/init_db.py:75-76 | each batch starts where the previous one ended |
| InitDb.Slice | src/chroma_db/init_db.py:78-80 | a Python slice within bounds is the usual subsequence |
| InitDb.GatherBatches | src/chroma_db/init_db.py:75-81 | the batches together cover every index once, in order |
| InitDb.AddCalls | src/chroma_db/init_db.py:75-81 | one `add` call per batch |
| InitDb.AddInBatches | src/chroma_db/init_db.py:75-81 | the loop makes the `add` call of each batch, in order |
| InitDb.AddCallsStep | src/chroma_db/init_db.py:75-81 | one iteration makes its batch's call and moves on by 50 |
| InitDb.AddCallsGather | src/chroma_db/init_db.py:75-81 | what the calls send, concatenated, is what the batches select |
| InitDb.AddCallsAligned | src/chroma_db/init_db.py:76-81 | each call sends the ids, documents and metadatas of the same 1 to 50 indices |
| InitDb.AddCallAt | src/chroma_db/init_db.py:77-81 | call `k` is made for batch `k` |
| InitDb.InitializeVectorDb | src/chroma_db/init_db.py:42-81 | ids, documents and metadatas are aligned per record; the `add` calls number `total_batches` and together send every id, document and metadata exactly once, in order |
| Docx.BeforeDot | src/data_processing/load_docx_convert_to_txt.py:20 | `text.split(".")[0]` is the prefix before the first `'.'`, or the whole text when there is none |
| Docx.MarksExclusive | src/data_processing/load_docx_convert_to_txt.py:15-19 | no paragraph is both a chapter heading and an article heading |
| Docx.BeforeDotKeepsMark | src/data_processing/load_docx_convert_to_txt.py:19-20 | a filed article still starts with `Статья ` |
| Docx.ScanParagraphs | src/data_processing/load_docx_convert_to_txt.py:6-22 | the loop ends in the state the paragraph scan defines |
| Docx.ChaptersOf | src/data_processing/load_docx_convert_to_txt.py:21 | the chapter under which each article was filed |
| Docx.ArticlesInCount | src/data_processing/load_docx_convert_to_txt.py:21 | a chapter's list is as long as the number of articles filed under it |
| Docx.StepFiles | src/data_processing/load_docx_convert_to_txt.py:19-21 | an article paragraph appends its prefix to the current chapter's list, creating the key on first use |
| Docx.StepOther | src/data_processing/load_docx_convert_to_txt.py:11-16 | blank, chapter and other paragraphs leave the dictionary unchanged |
| Docx.MirrorsStep | src/data_processing/load_docx_convert_to_txt.py:10-22 | each iteration keeps the dictionary equal to the articles filed so far |
| Docx.MirrorsFile | src/data_processing/load_docx_convert_to_txt.py:21 | filing one article adds it at the end of its chapter's list |
| Docx.ScanMirrors | src/data_processing/load_docx_convert_to_txt.py:10-22 | after the loop, the dictionary holds exactly the articles filed |
| Docx.ScanStructure | src/data_processing/load_docx_convert_to_txt.py:6-22 | the keys are the chapters with at least one article, in first-filing order; each list holds that chapter's articles in paragraph order and is non-empty |
| Docx.AppendedEntries | src/data_processing/load_docx_convert_to_txt.py:15-21 | every entry is an article heading cut before its first `'.'`, filed under the preamble or a chapter heading |
| Docx.ScanChapter | src/data_processing/load_docx_convert_to_txt.py:7-16 | the current chapter is always the preamble or a paragraph starting with `ГЛАВА ` |
| Docx.AppendedLength | src/data_processing/load_docx_convert_to_txt.py:19-21 | one entry per article paragraph |
| Docx.SumLengthsCounts | src/data_processing/load_docx_convert_to_txt.py:25-26 | the printed list lengths are the per-chapter counts |
| Docx.ScanTotal | src/data_processing/load_docx_convert_to_txt.py:10-26 | the list lengths add up to the number of article paragraphs |
| Docx.ScanIgnoresBlank | src/data_processing/load_docx_convert_to_txt.py:11-13 | blank paragraphs do not affect the scan |
| Docx.NonBlankKeeps | src/data_processing/load_docx_convert_to_txt.py:28 | the filter keeps only non-blank paragraphs, all from the input, and keeps none exactly when all are blank |
| Docx.CleanTextAppend | src/data_processing/load_docx_convert_to_txt.py:28 | a non-blank paragraph is appended on a new line; a blank one is skipped |
| Docx.CleanTextEmpty | src/data_processing/load_docx_convert_to_txt.py:28 | the clean text is empty exactly when every paragraph is blank |

## Left out

- Embedding model, vector index and Chroma client: the index's answer for a query is a parameter. Consequently `n_initial` only reaches the index and is not modelled. Neither are the collection's `delete_collection`, `create_collection` and `count` calls. The `add` calls are recorded as values.
- Cross-encoder model: its scores are a parameter, one per pair. `Reranker.Rerank` requires as many scores as documents. Python's `zip` would silently truncate on a length mismatch, which a cross-encoder does not produce.
- Language model and LangChain chain: the chain is a function from prompt variables and attempt number to a reply or an exception. This leaves out the prompt template objects, `load_system_prompt` and the non-`str` reply branch (`str(response)`).
- Clocks, sleeping and logging: `execution_time`, `time.sleep` (the delays are returned as numbers), `logger` calls, `_log_interaction` and any exception these raise.
- Regular expressions of `chunk_constitution`: they are parameters (`Chunking.Patterns`), because Dafny has no regular-expression engine. This covers the `\xa0` and blank-line substitutions, the chapter and article splits, the article-number search, the header and footnote substitutions and the numbering substitution. An unmatched subtitle group (`None`) is passed as `""`, which the code treats identically. `\s+` collapsing and `strip` are modelled directly.
- File input and output: reading the text file, `FileNotFoundError` for a missing path, the JSON dump, the clean-text write and all `print` output. Reading the Word file is also left out; its paragraph texts are the input.
- Aliasing: `retrieved_docs.copy()` is a shallow copy, so the reranker's `rerank_score` writes reach the same dictionaries. The model copies document values into a fresh array, which gives the same observable result of `retrieve`.
- Retriever configuration: `use_reranker and reranker is not None` is one boolean parameter.
- `embeddings.py`, `rag_api.py` and `app.py` are not part of this model.
- Integer and floating-point widths: scores and distances are reals, so no rounding is modelled.
