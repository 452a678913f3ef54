/** `chunk_constitution` and the module-level bookkeeping after it in
    `chunking.py`: the deduplication by `(chapter, article_number)`, the
    metadata records and the per-chapter counts. The regular expressions are
    oracles (`Patterns`); the grouping, labelling, whitespace collapsing,
    skipping, deduplication and counting built on them are modelled. */
module Chunking {
  import opened Wrappers
  import opened Text
  import opened Groups

  /** What the regular expressions of `chunk_constitution` compute.
      `splitChapters(text)` is `re.split(chapter_pattern, text)` on the text
      after its `\xa0` and blank-line substitutions, with an unmatched
      (`None`) subtitle group rendered as `""`; `splitArticles` is the split on
      article headers; `articleNumber(header)` is group 1 of the article-number
      search; `dropHeaderAndNotes` is the header and footnote substitutions
      applied to an article body; `spaceNumbering` is the `(\d+)\s*\.\s*`
      substitution applied to the full text. */
  datatype Patterns = Patterns(
    splitChapters: string -> seq<string>,
    splitArticles: string -> seq<string>,
    articleNumber: string -> Option<string>,
    dropHeaderAndNotes: string -> string,
    spaceNumbering: string -> string)

  /** A `Document` produced for one article. */
  datatype Chunk = Chunk(pageContent: string, chapter: string, articleNumber: string, source: string)

  const SourceName: string := "Конституция РФ"
  const FinalProvisions: string := "ЗАКЛЮЧИТЕЛЬНЫЕ И ПЕРЕХОДНЫЕ ПОЛОЖЕНИЯ"
  const ArticlePrefix: string := "Статья "

  /** Python's `s[1:]`: `re.split` puts the text before the first match first. */
  function Tail(s: seq<string>): (r: seq<string>)
    ensures |r| == if |s| > 0 then |s| - 1 else 0
  {
    if |s| > 0 then s[1..] else []
  }

  /** No whitespace other than single spaces. */
  ghost predicate SingleSpaced(s: string) {
    && (forall k :: 0 <= k < |s| && IsSpace(s[k]) ==> s[k] == ' ')
    && (forall k, m :: 0 <= k < m < |s| && m == k + 1 ==> !(s[k] == ' ' && s[m] == ' '))
  }

  /** `re.sub(r'\s+', ' ', s)`: every maximal run of whitespace becomes one
      space (Python's `\s` on `str` is the whitespace of `str.isspace`). */
  function CollapseSpaces(s: string): (r: string)
    ensures |r| <= |s|
    ensures r == "" <==> s == ""
    ensures SingleSpaced(r)
    ensures |r| > 0 ==> (r[0] == ' ' <==> IsSpace(s[0]))
    ensures |r| > 0 ==> (r[|r| - 1] == ' ' <==> IsSpace(s[|s| - 1]))
  {
    if |s| == 0 then ""
    else
      var init := s[..|s| - 1];
      var last := s[|s| - 1];
      var r := CollapseSpaces(init);
      if !IsSpace(last) then r + [last]
      else if |init| > 0 && IsSpace(init[|init| - 1]) then r
      else r + " "
  }

  /** The non-whitespace characters of `s` survive the collapse, in order. */
  function NonSpace(s: string): string {
    if |s| == 0 then ""
    else NonSpace(s[..|s| - 1]) + if IsSpace(s[|s| - 1]) then "" else [s[|s| - 1]]
  }

  lemma {:induction false} CollapseKeepsNonSpace(s: string)
    ensures NonSpace(CollapseSpaces(s)) == NonSpace(s)
    decreases |s|
  {
    if |s| > 0 {
      var init := s[..|s| - 1];
      var r := CollapseSpaces(init);
      CollapseKeepsNonSpace(init);
      var c := CollapseSpaces(s);
      if !IsSpace(s[|s| - 1]) {
        assert c == r + [s[|s| - 1]];
        assert c[..|c| - 1] == r;
      } else if |init| > 0 && IsSpace(init[|init| - 1]) {
        assert c == r;
      } else {
        assert c == r + " ";
        assert c[..|c| - 1] == r;
      }
    }
  }

  /** A non-empty run of whitespace collapses to one space. */
  lemma {:induction false} CollapseRun(w: string)
    requires |w| > 0 && AllSpace(w)
    ensures CollapseSpaces(w) == " "
    decreases |w|
  {
    if |w| > 1 {
      var init := w[..|w| - 1];
      assert init[|init| - 1] == w[|w| - 2];
      CollapseRun(init);
    }
  }

  /** A single non-whitespace character is kept. */
  lemma CollapseNonSpaceChar(c: char)
    requires !IsSpace(c)
    ensures CollapseSpaces([c]) == [c]
  {
    assert [c][..0] == "";
  }

  /** The collapse works run by run: it distributes over a concatenation that
      does not join two whitespace runs. With `CollapseRun` and
      `CollapseNonSpaceChar` this determines the function on every string. */
  lemma {:induction false} CollapseConcat(a: string, b: string)
    requires !(|a| > 0 && |b| > 0 && IsSpace(a[|a| - 1]) && IsSpace(b[0]))
    ensures CollapseSpaces(a + b) == CollapseSpaces(a) + CollapseSpaces(b)
    decreases |b|
  {
    if |b| == 0 {
      assert a + b == a;
    } else {
      var b', x := b[..|b| - 1], b[|b| - 1];
      assert b == b' + [x];
      if |b'| == 0 {
        CollapseConcatOne(a, x);
      } else {
        assert b'[0] == b[0];
        CollapseConcat(a, b');
        CollapseConcatSnoc(a, b', x);
      }
    }
  }

  /** `CollapseConcat` for a one-character right part. */
  lemma CollapseConcatOne(a: string, x: char)
    requires !(|a| > 0 && IsSpace(a[|a| - 1]) && IsSpace(x))
    ensures CollapseSpaces(a + [x]) == CollapseSpaces(a) + CollapseSpaces([x])
  {
    CollapseSnoc(a, x);
    if IsSpace(x) {
      CollapseRun([x]);
      assert CollapseSpaces(a + [x]) == CollapseSpaces(a) + " ";
    } else {
      CollapseNonSpaceChar(x);
      assert CollapseSpaces(a + [x]) == CollapseSpaces(a) + [x];
    }
  }

  /** The step of `CollapseConcat` for a right part that grows by `x`. */
  lemma CollapseConcatSnoc(a: string, b: string, x: char)
    requires |b| > 0
    requires CollapseSpaces(a + b) == CollapseSpaces(a) + CollapseSpaces(b)
    ensures CollapseSpaces(a + (b + [x])) == CollapseSpaces(a) + CollapseSpaces(b + [x])
  {
    assert a + (b + [x]) == (a + b) + [x];
    assert (a + b)[|a + b| - 1] == b[|b| - 1];
    CollapseSnocSame(a + b, b, x);
    var ca, cb := CollapseSpaces(a), CollapseSpaces(b);
    var d :| CollapseSpaces((a + b) + [x]) == CollapseSpaces(a + b) + d && CollapseSpaces(b + [x]) == cb + d;
    calc {
      CollapseSpaces((a + b) + [x]);
      (ca + cb) + d;
      { AppendAssoc(ca, cb, d); }
      ca + (cb + d);
    }
  }

  /** Two strings ending in the same character grow alike under the collapse. */
  lemma CollapseSnocSame(s: string, t: string, x: char)
    requires |s| > 0 && |t| > 0 && s[|s| - 1] == t[|t| - 1]
    ensures exists d :: CollapseSpaces(s + [x]) == CollapseSpaces(s) + d && CollapseSpaces(t + [x]) == CollapseSpaces(t) + d
  {
    CollapseSnoc(s, x);
    CollapseSnoc(t, x);
    if !IsSpace(x) {
      assert CollapseSpaces(s + [x]) == CollapseSpaces(s) + [x];
    } else if IsSpace(s[|s| - 1]) {
      assert CollapseSpaces(s + [x]) == CollapseSpaces(s) + "";
    } else {
      assert CollapseSpaces(s + [x]) == CollapseSpaces(s) + " ";
    }
  }

  /** The step of the collapse for one more character. */
  lemma CollapseSnoc(s: string, x: char)
    ensures CollapseSpaces(s + [x]) ==
      if !IsSpace(x) then CollapseSpaces(s) + [x]
      else if |s| > 0 && IsSpace(s[|s| - 1]) then CollapseSpaces(s)
      else CollapseSpaces(s) + " "
  {
    assert (s + [x])[..|s|] == s;
  }

  /** Stripping a single-spaced string leaves it single-spaced, and without a
      space at either end. */
  lemma StripSingleSpaced(s: string)
    requires SingleSpaced(s)
    ensures SingleSpaced(Strip(s))
    ensures Strip(s) != "" ==> Strip(s)[0] != ' ' && Strip(s)[|Strip(s)| - 1] != ' '
  {
    var r := Strip(s);
    var i :| 0 <= i <= |s| - |r| && r == s[i..i + |r|] && AllSpace(s[..i]) && AllSpace(s[i + |r|..]);
    assert forall k :: 0 <= k < |r| ==> r[k] == s[i + k];
  }

  /** The heading `chapter_title` / `"chapter_title chapter_subtitle"` of the
      chapter whose title is `chapters[i]`. */
  function ChapterLabel(chapters: seq<string>, i: nat): string
    requires i < |chapters|
  {
    var title := Strip(chapters[i]);
    var subtitle := if i + 1 < |chapters| && chapters[i + 1] != "" then Strip(chapters[i + 1]) else "";
    if subtitle != "" then Strip(title + " " + subtitle) else title
  }

  /** A chapter heading carries no surrounding whitespace. */
  lemma ChapterLabelStripped(chapters: seq<string>, i: nat)
    requires i < |chapters|
    ensures Strip(ChapterLabel(chapters, i)) == ChapterLabel(chapters, i)
  {
    var title := Strip(chapters[i]);
    StripIdempotent(chapters[i]);
    StripIdempotent(title + " " + if i + 1 < |chapters| && chapters[i + 1] != "" then Strip(chapters[i + 1]) else "");
  }

  function ChapterContent(chapters: seq<string>, i: nat): string {
    if i + 2 < |chapters| then chapters[i + 2] else ""
  }

  /** The text of an article after header and footnote removal, whitespace
      collapsing and stripping. */
  function CleanBody(p: Patterns, body: string): string {
    Strip(CollapseSpaces(p.dropHeaderAndNotes(Strip(body))))
  }

  /** The chunk of one (header, content) pair; a header without an article
      number gives none. */
  function ArticleChunk(p: Patterns, chapter: string, header: string, content: string): (r: seq<Chunk>)
    ensures |r| <= 1
    ensures |r| == 1 <==> p.articleNumber(Strip(header)).Some?
    ensures |r| == 1 ==>
      r[0].articleNumber == ArticlePrefix + p.articleNumber(Strip(header)).value &&
      r[0].chapter == chapter && r[0].source == SourceName &&
      r[0].pageContent == p.spaceNumbering(Strip(header) + "\n" + CleanBody(p, content))
  {
    var h := Strip(header);
    match p.articleNumber(h)
    case None => []
    case Some(number) =>
      [Chunk(p.spaceNumbering(h + "\n" + CleanBody(p, content)), chapter, ArticlePrefix + number, SourceName)]
  }

  /** The chunks of the (header, content) pairs of `blocks` from position `j`
      on; an unpaired trailing header gives none. */
  function PairChunks(p: Patterns, chapter: string, blocks: seq<string>, j: nat): seq<Chunk>
    decreases |blocks| - j
  {
    if j + 1 >= |blocks| then []
    else ArticleChunk(p, chapter, blocks[j], blocks[j + 1]) + PairChunks(p, chapter, blocks, j + 2)
  }

  /** The number of headers at positions `j`, `j + 2`, … that are followed by
      a content block and carry an article number. */
  function NumberedPairs(p: Patterns, blocks: seq<string>, j: nat): nat
    decreases |blocks| - j
  {
    if j + 1 >= |blocks| then 0
    else (if p.articleNumber(Strip(blocks[j])).Some? then 1 else 0) + NumberedPairs(p, blocks, j + 2)
  }

  /** Every numbered (header, content) pair gives its chunk, and nothing else
      does: the chunks are counted by the numbered pairs, and the chunk of
      each numbered pair at `k = j, j + 2, …` is among them. */
  lemma {:induction false} PairChunksComplete(p: Patterns, chapter: string, blocks: seq<string>, j: nat)
    ensures |PairChunks(p, chapter, blocks, j)| == NumberedPairs(p, blocks, j)
    ensures forall k :: j <= k && k + 1 < |blocks| && (k - j) % 2 == 0 && p.articleNumber(Strip(blocks[k])).Some? ==>
      ArticleChunk(p, chapter, blocks[k], blocks[k + 1])[0] in PairChunks(p, chapter, blocks, j)
    decreases |blocks| - j
  {
    if j + 1 < |blocks| {
      PairChunksComplete(p, chapter, blocks, j + 2);
      var first := ArticleChunk(p, chapter, blocks[j], blocks[j + 1]);
      var rest := PairChunks(p, chapter, blocks, j + 2);
      assert PairChunks(p, chapter, blocks, j) == first + rest;
      forall k | j <= k && k + 1 < |blocks| && (k - j) % 2 == 0 && p.articleNumber(Strip(blocks[k])).Some?
        ensures ArticleChunk(p, chapter, blocks[k], blocks[k + 1])[0] in first + rest
      {
        if k == j {
          assert first[0] in first + rest;
        } else {
          assert (k - (j + 2)) % 2 == 0;
        }
      }
    }
  }

  /** The article split of a chapter's content, without the text before the
      first header. */
  function ArticleBlocks(p: Patterns, chapters: seq<string>, i: nat): seq<string> {
    Tail(p.splitArticles(ChapterContent(chapters, i)))
  }

  /** The chunks of the chapter starting at `chapters[i]`: none for the final
      provisions; otherwise one per complete pair of its article split. */
  function ChapterChunks(p: Patterns, chapters: seq<string>, i: nat): seq<Chunk>
    requires i < |chapters|
  {
    var heading := ChapterLabel(chapters, i);
    if Contains(heading, FinalProvisions) then []
    else PairChunks(p, heading, ArticleBlocks(p, chapters, i), 0)
  }

  /** The chunks of the chapter triples starting at positions `i`, `i + 3`, … */
  function TripleChunks(p: Patterns, chapters: seq<string>, i: nat): seq<Chunk>
    decreases |chapters| - i
  {
    if i >= |chapters| then [] else ChapterChunks(p, chapters, i) + TripleChunks(p, chapters, i + 3)
  }

  lemma TripleChunksStep(p: Patterns, chapters: seq<string>, i: nat, done: seq<Chunk>, found: seq<Chunk>)
    requires i < |chapters| && found == ChapterChunks(p, chapters, i)
    ensures done + TripleChunks(p, chapters, i) == (done + found) + TripleChunks(p, chapters, i + 3)
  {
    var rest := TripleChunks(p, chapters, i + 3);
    assert TripleChunks(p, chapters, i) == found + rest;
    AppendAssoc(done, found, rest);
  }

  function Chapters(p: Patterns, text: string): seq<string> {
    Tail(p.splitChapters(text))
  }

  /** What `chunk_constitution` returns for the file contents `text`. */
  function Chunks(p: Patterns, text: string): seq<Chunk> {
    TripleChunks(p, Chapters(p, text), 0)
  }

  /** `chunk_constitution(text_path)` on the file's contents: chapter triples
      with stride 3. `current_chapter` is reassigned for every triple before
      it is read, so its initial "Преамбула" never reaches a chunk. */
  method ChunkConstitution(p: Patterns, text: string) returns (chunks: seq<Chunk>)
    ensures chunks == Chunks(p, text)
  {
    var chapters := Chapters(p, text);
    chunks := [];
    var currentChapter := "Преамбула";
    var i := 0;
    while i < |chapters|
      invariant chunks + TripleChunks(p, chapters, i) == Chunks(p, text)
    {
      var found;
      currentChapter, found := ChapterFromTriple(p, chapters, i);
      TripleChunksStep(p, chapters, i, chunks, found);
      chunks := chunks + found;
      i := i + 3;
    }
  }

  /** The body of the chapter loop for the triple at `i`: the heading, and the
      chapter's chunks unless it is the final provisions. */
  method ChapterFromTriple(p: Patterns, chapters: seq<string>, i: nat) returns (heading: string, found: seq<Chunk>)
    requires i < |chapters|
    ensures heading == ChapterLabel(chapters, i)
    ensures found == ChapterChunks(p, chapters, i)
  {
    var title := Strip(chapters[i]);
    var subtitle := if i + 1 < |chapters| && chapters[i + 1] != "" then Strip(chapters[i + 1]) else "";
    if subtitle != "" {
      heading := Strip(title + " " + subtitle);
    } else {
      heading := title;
    }
    var content := if i + 2 < |chapters| then chapters[i + 2] else "";
    found := [];
    if !Contains(heading, FinalProvisions) {
      found := CollectArticles(p, heading, Tail(p.splitArticles(content)));
    }
  }

  /** The inner `for j in range(0, len(article_blocks), 2)` loop: stride 2,
      stopping at an unpaired trailing header and skipping headers without an
      article number. */
  method CollectArticles(p: Patterns, chapter: string, blocks: seq<string>) returns (found: seq<Chunk>)
    ensures found == PairChunks(p, chapter, blocks, 0)
  {
    found := [];
    var j := 0;
    while j < |blocks|
      invariant found + PairChunks(p, chapter, blocks, j) == PairChunks(p, chapter, blocks, 0)
    {
      if j + 1 >= |blocks| {
        break;
      }
      var chunk := ArticleFromPair(p, chapter, blocks[j], blocks[j + 1]);
      PairChunksStep(p, chapter, blocks, j, found, chunk);
      found := found + chunk;
      j := j + 2;
    }
  }

  lemma PairChunksStep(p: Patterns, chapter: string, blocks: seq<string>, j: nat, done: seq<Chunk>, chunk: seq<Chunk>)
    requires j + 1 < |blocks| && chunk == ArticleChunk(p, chapter, blocks[j], blocks[j + 1])
    ensures done + PairChunks(p, chapter, blocks, j) == (done + chunk) + PairChunks(p, chapter, blocks, j + 2)
  {
    var rest := PairChunks(p, chapter, blocks, j + 2);
    assert PairChunks(p, chapter, blocks, j) == chunk + rest;
    AppendAssoc(done, chunk, rest);
  }

  /** The body of the article loop for one (header, content) pair: no chunk
      when the header has no article number, otherwise the chunk built from
      the stripped header and the cleaned content. */
  method ArticleFromPair(p: Patterns, chapter: string, headerBlock: string, contentBlock: string)
    returns (chunk: seq<Chunk>)
    ensures chunk == ArticleChunk(p, chapter, headerBlock, contentBlock)
  {
    chunk := [];
    var header := Strip(headerBlock);
    var content := Strip(contentBlock);
    var number := p.articleNumber(header);
    if number.Some? {
      var cleaned := Strip(CollapseSpaces(p.dropHeaderAndNotes(content)));
      var fullText := p.spaceNumbering(header + "\n" + cleaned);
      chunk := [Chunk(fullText, chapter, ArticlePrefix + number.value, SourceName)];
    }
  }

  /** What every chunk satisfies. */
  predicate WellFormed(c: Chunk) {
    && c.source == SourceName
    && StartsWith(c.articleNumber, ArticlePrefix)
    && !Contains(c.chapter, FinalProvisions)
    && Strip(c.chapter) == c.chapter
  }

  lemma {:induction false} PairChunksWellFormed(p: Patterns, chapter: string, blocks: seq<string>, j: nat)
    requires !Contains(chapter, FinalProvisions) && Strip(chapter) == chapter
    ensures forall n :: 0 <= n < |PairChunks(p, chapter, blocks, j)| ==>
      WellFormed(PairChunks(p, chapter, blocks, j)[n]) && PairChunks(p, chapter, blocks, j)[n].chapter == chapter
    decreases |blocks| - j
  {
    if j + 1 < |blocks| {
      PairChunksWellFormed(p, chapter, blocks, j + 2);
      var first := ArticleChunk(p, chapter, blocks[j], blocks[j + 1]);
      forall n | 0 <= n < |first| ensures WellFormed(first[n]) && first[n].chapter == chapter {
        var number := p.articleNumber(Strip(blocks[j])).value;
        assert first[n].articleNumber == ArticlePrefix + number;
        assert (ArticlePrefix + number)[..|ArticlePrefix|] == ArticlePrefix;
      }
    }
  }

  lemma {:induction false} TripleChunksWellFormed(p: Patterns, chapters: seq<string>, i: nat)
    ensures forall n :: 0 <= n < |TripleChunks(p, chapters, i)| ==> WellFormed(TripleChunks(p, chapters, i)[n])
    decreases |chapters| - i
  {
    if i < |chapters| {
      TripleChunksWellFormed(p, chapters, i + 3);
      var heading := ChapterLabel(chapters, i);
      if !Contains(heading, FinalProvisions) {
        ChapterLabelStripped(chapters, i);
        PairChunksWellFormed(p, heading, ArticleBlocks(p, chapters, i), 0);
      }
    }
  }

  /** Every chunk comes from the constitution, is labelled with an article
      number "Статья …" and a stripped chapter heading, and none comes from
      the final-provisions chapter. */
  lemma ChunksWellFormed(p: Patterns, text: string)
    ensures forall n :: 0 <= n < |Chunks(p, text)| ==> WellFormed(Chunks(p, text)[n])
  {
    TripleChunksWellFormed(p, Chapters(p, text), 0);
  }

  /** A chapter gives at most one chunk per complete (header, content) pair,
      and an unpaired trailing header gives nothing. */
  lemma ChapterChunksBound(p: Patterns, chapters: seq<string>, i: nat)
    requires i < |chapters|
    ensures 2 * |ChapterChunks(p, chapters, i)| <= |ArticleBlocks(p, chapters, i)|
  {
    var heading := ChapterLabel(chapters, i);
    if !Contains(heading, FinalProvisions) {
      PairChunksBound(p, heading, ArticleBlocks(p, chapters, i), 0);
    }
  }

  lemma {:induction false} PairChunksBound(p: Patterns, chapter: string, blocks: seq<string>, j: nat)
    requires j <= |blocks|
    ensures 2 * |PairChunks(p, chapter, blocks, j)| <= |blocks| - j
    decreases |blocks| - j
  {
    if j + 1 < |blocks| {
      PairChunksBound(p, chapter, blocks, j + 2);
      var first := ArticleChunk(p, chapter, blocks[j], blocks[j + 1]);
      assert PairChunks(p, chapter, blocks, j) == first + PairChunks(p, chapter, blocks, j + 2);
      assert |first| <= 1;
    }
  }

  // ---------------------------------------------------------------------
  // Deduplication: `unique_chunks[key] = chunk` over all chunks, then
  // `list(unique_chunks.values())`.

  datatype ChunkKey = ChunkKey(chapter: string, articleNumber: string)

  function KeyOf(c: Chunk): ChunkKey {
    ChunkKey(c.chapter, c.articleNumber)
  }

  function KeysOf(chunks: seq<Chunk>): (ks: seq<ChunkKey>)
    ensures |ks| == |chunks|
    ensures forall i :: 0 <= i < |chunks| ==> ks[i] == KeyOf(chunks[i])
  {
    seq(|chunks|, i requires 0 <= i < |chunks| => KeyOf(chunks[i]))
  }

  /** The position of the last occurrence of `k` in `ks`. */
  function LastIndex(ks: seq<ChunkKey>, k: ChunkKey): (i: nat)
    requires k in ks
    ensures i < |ks| && ks[i] == k
    ensures forall j :: i < j < |ks| ==> ks[j] != k
  {
    if ks[|ks| - 1] == k then |ks| - 1
    else
      assert k in ks[..|ks| - 1] by {
        var j :| 0 <= j < |ks| && ks[j] == k;
        assert ks[..|ks| - 1][j] == k;
      }
      LastIndex(ks[..|ks| - 1], k)
  }

  /** The deduplicated chunks: one per distinct key, in order of the key's
      first occurrence, each the last chunk with that key. */
  function Deduplicated(chunks: seq<Chunk>): (r: seq<Chunk>)
    ensures |r| == |Distinct(KeysOf(chunks))|
    ensures forall t :: 0 <= t < |r| ==> r[t] in chunks && KeyOf(r[t]) in KeysOf(chunks)
  {
    var keys := Distinct(KeysOf(chunks));
    seq(|keys|, t requires 0 <= t < |keys| => chunks[LastIndex(KeysOf(chunks), keys[t])])
  }

  /** The dictionary loop, with the dictionary as its insertion order `order`
      and its contents `unique`. */
  method Deduplicate(chunks: seq<Chunk>) returns (r: seq<Chunk>)
    ensures r == Deduplicated(chunks)
  {
    var order: seq<ChunkKey> := [];
    var unique: map<ChunkKey, Chunk> := map[];
    ghost var keys := KeysOf(chunks);
    ghost var seen: seq<ChunkKey> := [];
    for i := 0 to |chunks|
      invariant seen == keys[..i]
      invariant DedupOf(chunks, seen, order, unique)
    {
      var key := KeyOf(chunks[i]);
      assert keys[..i + 1] == keys[..i] + [key];
      DedupStep(chunks, seen, order, unique, i);
      if key !in unique {
        order := order + [key];
      }
      unique := unique[key := chunks[i]];
      seen := seen + [key];
    }
    assert seen == keys;
    r := seq(|order|, t requires 0 <= t < |order| => unique[order[t]]);
  }

  /** `order` and `unique` are the dictionary filled from the chunks whose
      keys are `seen`. */
  ghost predicate DedupOf(chunks: seq<Chunk>, seen: seq<ChunkKey>, order: seq<ChunkKey>, unique: map<ChunkKey, Chunk>) {
    && |seen| <= |chunks|
    && order == Distinct(seen)
    && (forall k :: k in unique <==> k in seen)
    && (forall k :: k in seen ==> unique[k] == chunks[LastIndex(seen, k)])
  }

  lemma DedupStep(chunks: seq<Chunk>, seen: seq<ChunkKey>, order: seq<ChunkKey>, unique: map<ChunkKey, Chunk>, i: nat)
    requires i == |seen| < |chunks| && DedupOf(chunks, seen, order, unique)
    ensures var key := KeyOf(chunks[i]);
      DedupOf(chunks, seen + [key], if key in unique then order else order + [key], unique[key := chunks[i]])
  {
    var key := KeyOf(chunks[i]);
    var seen', unique' := seen + [key], unique[key := chunks[i]];
    DistinctSnoc(seen, key);
    assert (if key in unique then order else order + [key]) == Distinct(seen');
    forall k ensures k in unique' <==> k in seen' {
      assert k in seen' <==> k in seen || k == key;
    }
    DedupStepValues(chunks, seen, unique, i);
  }

  lemma DedupStepValues(chunks: seq<Chunk>, seen: seq<ChunkKey>, unique: map<ChunkKey, Chunk>, i: nat)
    requires i == |seen| < |chunks|
    requires forall k :: k in unique <==> k in seen
    requires forall k :: k in seen ==> unique[k] == chunks[LastIndex(seen, k)]
    ensures var key := KeyOf(chunks[i]);
      forall k :: k in seen + [key] ==> unique[key := chunks[i]][k] == chunks[LastIndex(seen + [key], k)]
  {
    var key := KeyOf(chunks[i]);
    forall k | k in seen + [key] ensures unique[key := chunks[i]][k] == chunks[LastIndex(seen + [key], k)] {
      LastIndexSnoc(seen, key, k);
    }
  }

  lemma LastIndexSnoc(ks: seq<ChunkKey>, x: ChunkKey, k: ChunkKey)
    requires k in ks + [x]
    ensures k != x ==> k in ks
    ensures LastIndex(ks + [x], k) == if k == x then |ks| else LastIndex(ks, k)
  {
    assert (ks + [x])[..|ks|] == ks;
    if k != x {
      var j :| 0 <= j < |ks| + 1 && (ks + [x])[j] == k;
      assert ks[j] == k;
    }
  }

  /** After deduplication every `(chapter, article_number)` key occurs once,
      every input key occurs, and keys come in order of first occurrence. */
  lemma DeduplicatedKeys(chunks: seq<Chunk>)
    ensures var r := Deduplicated(chunks);
      forall s, t :: 0 <= s < t < |r| ==> KeyOf(r[s]) != KeyOf(r[t])
    ensures var r := Deduplicated(chunks);
      forall i :: 0 <= i < |chunks| ==> exists t :: 0 <= t < |r| && KeyOf(r[t]) == KeyOf(chunks[i])
    ensures var r := Deduplicated(chunks);
      forall s, t :: 0 <= s < t < |r| ==>
        FirstIndex(KeysOf(chunks), KeyOf(r[s])) < FirstIndex(KeysOf(chunks), KeyOf(r[t]))
  {
    var ks := KeysOf(chunks);
    var keys := Distinct(ks);
    var r := Deduplicated(chunks);
    assert forall t :: 0 <= t < |r| ==> KeyOf(r[t]) == keys[t];
    forall i | 0 <= i < |chunks| ensures exists t :: 0 <= t < |r| && KeyOf(r[t]) == KeyOf(chunks[i]) {
      DistinctCovers(ks, i);
      var t :| 0 <= t < |keys| && keys[t] == ks[i];
      assert KeyOf(r[t]) == KeyOf(chunks[i]);
    }
    forall s, t | 0 <= s < t < |r| ensures FirstIndex(ks, KeyOf(r[s])) < FirstIndex(ks, KeyOf(r[t])) {
      DistinctOrder(ks, s, t);
    }
  }

  /** Each deduplicated chunk is the last chunk seen with its key. */
  lemma DeduplicatedKeepsLast(chunks: seq<Chunk>, t: nat)
    requires t < |Deduplicated(chunks)|
    ensures var c := Deduplicated(chunks)[t];
      exists i :: 0 <= i < |chunks| && c == chunks[i] &&
        forall j :: i < j < |chunks| ==> KeyOf(chunks[j]) != KeyOf(c)
  {
    var ks := KeysOf(chunks);
    var i := LastIndex(ks, Distinct(ks)[t]);
    assert Deduplicated(chunks)[t] == chunks[i];
  }

  // ---------------------------------------------------------------------
  // The metadata records written to `chunks_metadata.json`.

  datatype ArticleRecord = ArticleRecord(chapter: string, article: string, fullText: string)

  /** One record per chunk, in order; `article_number` is renamed `article`. */
  function Records(chunks: seq<Chunk>): (r: seq<ArticleRecord>)
    ensures |r| == |chunks|
    ensures forall i :: 0 <= i < |chunks| ==>
      r[i].chapter == chunks[i].chapter && r[i].article == chunks[i].articleNumber && r[i].fullText == chunks[i].pageContent
  {
    seq(|chunks|, i requires 0 <= i < |chunks| => ArticleRecord(chunks[i].chapter, chunks[i].articleNumber, chunks[i].pageContent))
  }

  // ---------------------------------------------------------------------
  // `chapter_stats[chapter] = chapter_stats.get(chapter, 0) + 1`.

  function ChapterNames(chunks: seq<Chunk>): (cs: seq<string>)
    ensures |cs| == |chunks|
    ensures forall i :: 0 <= i < |chunks| ==> cs[i] == chunks[i].chapter
  {
    seq(|chunks|, i requires 0 <= i < |chunks| => chunks[i].chapter)
  }

  /** The counting loop; the dictionary is its key order `order` and its
      contents `stats`. */
  method ChapterStats(chunks: seq<Chunk>) returns (order: seq<string>, stats: map<string, nat>)
    ensures order == Distinct(ChapterNames(chunks))
    ensures forall c :: c in stats <==> c in order
    ensures forall c :: c in order ==> stats[c] == Count(ChapterNames(chunks), c)
  {
    order, stats := [], map[];
    ghost var names := ChapterNames(chunks);
    for i := 0 to |chunks|
      invariant StatsOf(names[..i], order, stats)
    {
      var chapter := chunks[i].chapter;
      assert names[..i + 1] == names[..i] + [chapter];
      StatsStep(names[..i], order, stats, chapter);
      var count := if chapter in stats then stats[chapter] else 0;
      if chapter !in stats {
        order := order + [chapter];
      }
      stats := stats[chapter := count + 1];
    }
    assert names[..|chunks|] == names;
  }

  /** `order` and `stats` are the counter dictionary filled from `seen`. */
  ghost predicate StatsOf(seen: seq<string>, order: seq<string>, stats: map<string, nat>) {
    && order == Distinct(seen)
    && (forall c :: c in stats <==> c in order)
    && (forall c :: c in order ==> stats[c] == Count(seen, c))
  }

  lemma StatsStep(seen: seq<string>, order: seq<string>, stats: map<string, nat>, x: string)
    requires StatsOf(seen, order, stats)
    ensures StatsOf(seen + [x],
                    if x in stats then order else order + [x],
                    stats[x := (if x in stats then stats[x] else 0) + 1])
  {
    DistinctSnoc(seen, x);
    StatsStepCounts(seen, order, stats, x);
  }

  lemma StatsStepCounts(seen: seq<string>, order: seq<string>, stats: map<string, nat>, x: string)
    requires StatsOf(seen, order, stats)
    ensures var order' := if x in stats then order else order + [x];
      var stats' := stats[x := (if x in stats then stats[x] else 0) + 1];
      forall c :: c in order' ==> stats'[c] == Count(seen + [x], c)
  {
    var order' := if x in stats then order else order + [x];
    var stats' := stats[x := (if x in stats then stats[x] else 0) + 1];
    forall c | c in order' ensures stats'[c] == Count(seen + [x], c) {
      CountSnoc(seen, x, c);
      if c != x {
        assert c in order;
      } else if x !in stats {
        DistinctMembers(seen, x);
        assert Count(seen, x) == 0;
      }
    }
  }

  /** The counts sum to the number of chunks counted. */
  lemma ChapterStatsTotal(chunks: seq<Chunk>)
    ensures SumCounts(Distinct(ChapterNames(chunks)), ChapterNames(chunks)) == |chunks|
  {
    CountsSumToLength(ChapterNames(chunks));
  }
}
