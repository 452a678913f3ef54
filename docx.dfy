/** `load_docx_convert_to_txt.py`: the scan over the paragraphs of the
    constitution's Word file that groups the article headings under their
    chapters, and the clean text written out for chunking. Reading the Word
    file is outside the model: the paragraphs' texts are the input. */
module Docx {
  import opened Wrappers
  import opened Text
  import opened Groups

  const Preamble: string := "Преамбула"
  const ChapterMark: string := "ГЛАВА "
  const ArticleMark: string := "Статья "

  /** `s.split(".")[0]`: the text before the first `'.'`, or all of `s`. */
  function BeforeDot(s: string): (r: string)
    ensures '.' !in r
    ensures StartsWith(s, r)
    ensures |r| == |s| || s[|r|] == '.'
  {
    if |s| == 0 || s[0] == '.' then ""
    else
      var r := [s[0]] + BeforeDot(s[1..]);
      assert s[|r|..] == s[1..][|r| - 1..];
      r
  }

  /** A line cannot be both a chapter heading and an article heading. */
  lemma MarksExclusive(t: string)
    ensures !(StartsWith(t, ChapterMark) && StartsWith(t, ArticleMark))
  {
    if StartsWith(t, ChapterMark) {
      assert t[0] == t[..|ChapterMark|][0] == 'Г';
    }
  }

  /** An article heading's part before the first `'.'` is still an article
      heading: `"Статья "` holds no `'.'`. */
  lemma BeforeDotKeepsMark(t: string)
    requires StartsWith(t, ArticleMark)
    ensures StartsWith(BeforeDot(t), ArticleMark)
  {
    var r := BeforeDot(t);
    assert r[..|ArticleMark|] == t[..|ArticleMark|];
  }

  /** The variables of the scan: `current_chapter`, `current_article`, and the
      `structure` dictionary as its key order and its contents. */
  datatype Scan = Scan(chapter: string, article: Option<string>, order: seq<string>, structure: map<string, seq<string>>)

  function Start(): Scan {
    Scan(Preamble, None, [], map[])
  }

  /** Whether the stripped paragraph `text` is an article heading the scan
      files: not blank, not a chapter heading, starting with "Статья ". */
  predicate Files(text: string) {
    text != "" && !StartsWith(text, ChapterMark) && StartsWith(text, ArticleMark)
  }

  /** One iteration of the paragraph loop. `structure[current_chapter]` of a
      `defaultdict(list)` adds the key, with an empty list, on first use. */
  function Step(st: Scan, para: string): Scan {
    var text := Strip(para);
    if text == "" then st
    else if StartsWith(text, ChapterMark) then st.(chapter := text)
    else if StartsWith(text, ArticleMark) then
      var a := BeforeDot(text);
      var c := st.chapter;
      var prev := if c in st.structure then st.structure[c] else [];
      st.(article := Some(a),
          order := if c in st.structure then st.order else st.order + [c],
          structure := st.structure[c := prev + [a]])
    else st
  }

  /** The variables after the loop over `paras`. */
  function ScanAll(paras: seq<string>): Scan {
    if |paras| == 0 then Start() else Step(ScanAll(paras[..|paras| - 1]), paras[|paras| - 1])
  }

  /** `for para in doc.paragraphs`. */
  method ScanParagraphs(paras: seq<string>)
    returns (currentChapter: string, currentArticle: Option<string>, order: seq<string>, structure: map<string, seq<string>>)
    ensures Scan(currentChapter, currentArticle, order, structure) == ScanAll(paras)
  {
    currentChapter, currentArticle, order, structure := Preamble, None, [], map[];
    for i := 0 to |paras|
      invariant Scan(currentChapter, currentArticle, order, structure) == ScanAll(paras[..i])
    {
      assert paras[..i + 1] == paras[..i] + [paras[i]];
      ScanAllSnoc(paras[..i], paras[i]);
      ghost var before := Scan(currentChapter, currentArticle, order, structure);
      var text := Strip(paras[i]);
      if text == "" {
        StepBlank(before, paras[i]);
      } else if StartsWith(text, ChapterMark) {
        StepChapter(before, paras[i]);
        currentChapter := text;
      } else if StartsWith(text, ArticleMark) {
        StepFiles(before, paras[i]);
        currentArticle := Some(BeforeDot(text));
        // `structure[current_chapter]` yields `[]` for a new key, then appends
        var articles := if currentChapter in structure then structure[currentChapter] else [];
        if currentChapter !in structure {
          order := order + [currentChapter];
        }
        structure := structure[currentChapter := articles + [currentArticle.value]];
      } else {
        StepOther(before, paras[i]);
      }
    }
    assert paras[..|paras|] == paras;
  }

  /** An append the scan makes: `article` under `chapter`. */
  datatype Entry = Entry(chapter: string, article: string)

  /** The appends the scan makes for `paras`, in order. */
  function Appended(paras: seq<string>): seq<Entry> {
    if |paras| == 0 then []
    else
      var init := paras[..|paras| - 1];
      var text := Strip(paras[|paras| - 1]);
      Appended(init) + if Files(text) then [Entry(ScanAll(init).chapter, BeforeDot(text))] else []
  }

  function ChaptersOf(log: seq<Entry>): (cs: seq<string>)
    ensures |cs| == |log|
    ensures forall i :: 0 <= i < |log| ==> cs[i] == log[i].chapter
  {
    seq(|log|, i requires 0 <= i < |log| => log[i].chapter)
  }

  /** The articles appended under chapter `c`, in order. */
  function ArticlesIn(log: seq<Entry>, c: string): seq<string> {
    if |log| == 0 then []
    else ArticlesIn(log[..|log| - 1], c) + if log[|log| - 1].chapter == c then [log[|log| - 1].article] else []
  }

  lemma {:induction false} ArticlesInCount(log: seq<Entry>, c: string)
    ensures |ArticlesIn(log, c)| == Count(ChaptersOf(log), c)
    decreases |log|
  {
    if |log| > 0 {
      var init := log[..|log| - 1];
      ArticlesInCount(init, c);
      assert ChaptersOf(log)[..|log| - 1] == ChaptersOf(init);
    }
  }

  /** `st` is the dictionary filled by the appends `log`. */
  ghost predicate Mirrors(st: Scan, log: seq<Entry>) {
    && st.order == Distinct(ChaptersOf(log))
    && (forall c :: c in st.structure <==> c in st.order)
    && (forall c :: c in st.structure ==> st.structure[c] == ArticlesIn(log, c))
  }

  /** A filed article extends the current chapter's list, adding the key
      the first time. */
  lemma StepFiles(st: Scan, para: string)
    requires Files(Strip(para))
    ensures var a := BeforeDot(Strip(para));
      var c := st.chapter;
      && Step(st, para).chapter == c && Step(st, para).article == Some(a)
      && Step(st, para).order == (if c in st.structure then st.order else st.order + [c])
      && Step(st, para).structure == st.structure[c := (if c in st.structure then st.structure[c] else []) + [a]]
  {
  }

  /** Any other paragraph leaves the dictionary alone. */
  lemma StepOther(st: Scan, para: string)
    requires !Files(Strip(para))
    ensures Step(st, para).order == st.order && Step(st, para).structure == st.structure
    ensures !StartsWith(Strip(para), ChapterMark) ==> Step(st, para) == st
  {
  }

  /** A chapter heading becomes the current chapter and changes nothing else. */
  lemma StepChapter(st: Scan, para: string)
    requires StartsWith(Strip(para), ChapterMark)
    ensures Step(st, para) == st.(chapter := Strip(para))
  {
  }

  lemma MirrorsStep(st: Scan, log: seq<Entry>, para: string)
    requires Mirrors(st, log)
    ensures var text := Strip(para);
      Mirrors(Step(st, para), log + if Files(text) then [Entry(st.chapter, BeforeDot(text))] else [])
  {
    var text := Strip(para);
    if Files(text) {
      StepFiles(st, para);
      MirrorsFile(st, log, BeforeDot(text), Step(st, para));
    } else {
      StepOther(st, para);
      assert log + [] == log;
    }
  }

  lemma MirrorsFile(st: Scan, log: seq<Entry>, a: string, st': Scan)
    requires Mirrors(st, log)
    requires var c := st.chapter;
      && st'.order == (if c in st.structure then st.order else st.order + [c])
      && st'.structure == st.structure[c := (if c in st.structure then st.structure[c] else []) + [a]]
    ensures Mirrors(st', log + [Entry(st.chapter, a)])
  {
    var c := st.chapter;
    var log' := log + [Entry(c, a)];
    assert ChaptersOf(log') == ChaptersOf(log) + [c];
    DistinctSnoc(ChaptersOf(log), c);
    MirrorsFileLists(st, log, a, st');
  }

  lemma MirrorsFileLists(st: Scan, log: seq<Entry>, a: string, st': Scan)
    requires Mirrors(st, log)
    requires var c := st.chapter;
      st'.structure == st.structure[c := (if c in st.structure then st.structure[c] else []) + [a]]
    ensures forall k :: k in st'.structure ==> st'.structure[k] == ArticlesIn(log + [Entry(st.chapter, a)], k)
  {
    var c := st.chapter;
    forall k | k in st'.structure ensures st'.structure[k] == ArticlesIn(log + [Entry(c, a)], k) {
      ArticlesInSnoc(log, Entry(c, a), k);
      if k == c && c !in st.structure {
        DistinctMembers(ChaptersOf(log), c);
        ArticlesInCount(log, c);
      }
    }
  }

  lemma ArticlesInSnoc(log: seq<Entry>, e: Entry, c: string)
    ensures ArticlesIn(log + [e], c) == ArticlesIn(log, c) + if e.chapter == c then [e.article] else []
  {
    assert (log + [e])[..|log|] == log;
  }

  lemma {:induction false} ScanMirrors(paras: seq<string>)
    ensures Mirrors(ScanAll(paras), Appended(paras))
    decreases |paras|
  {
    if |paras| > 0 {
      var init := paras[..|paras| - 1];
      ScanMirrors(init);
      MirrorsStep(ScanAll(init), Appended(init), paras[|paras| - 1]);
    }
  }

  /** The dictionary lists the chapters in order of their first article;
      a chapter is a key only if an article was filed under it, and its list
      holds the articles filed under it, in paragraph order. */
  lemma ScanStructure(paras: seq<string>)
    ensures var st := ScanAll(paras);
      var log := Appended(paras);
      && st.order == Distinct(ChaptersOf(log))
      && (forall c :: c in st.structure <==> c in ChaptersOf(log))
      && (forall c :: c in st.structure ==> st.structure[c] == ArticlesIn(log, c) && |st.structure[c]| > 0)
  {
    ScanMirrors(paras);
    var st := ScanAll(paras);
    var log := Appended(paras);
    forall c ensures c in st.structure <==> c in ChaptersOf(log) {
      DistinctMembers(ChaptersOf(log), c);
    }
    forall c | c in st.structure ensures |st.structure[c]| > 0 {
      ArticlesInCount(log, c);
    }
  }

  /** Every filed entry is an article heading cut before its first `'.'`,
      filed under the preamble or under a chapter heading. */
  lemma {:induction false} AppendedEntries(paras: seq<string>)
    ensures var log := Appended(paras);
      forall i :: 0 <= i < |log| ==>
        '.' !in log[i].article && StartsWith(log[i].article, ArticleMark) &&
        (log[i].chapter == Preamble || StartsWith(log[i].chapter, ChapterMark))
    decreases |paras|
  {
    if |paras| > 0 {
      var init := paras[..|paras| - 1];
      var text := Strip(paras[|paras| - 1]);
      AppendedEntries(init);
      if Files(text) {
        ScanChapter(init);
        BeforeDotKeepsMark(text);
        assert Appended(paras) == Appended(init) + [Entry(ScanAll(init).chapter, BeforeDot(text))];
      } else {
        assert Appended(paras) == Appended(init);
      }
    }
  }

  /** The current chapter is always the preamble or a chapter heading. */
  lemma {:induction false} ScanChapter(paras: seq<string>)
    ensures ScanAll(paras).chapter == Preamble || StartsWith(ScanAll(paras).chapter, ChapterMark)
    decreases |paras|
  {
    if |paras| > 0 {
      var init, last := paras[..|paras| - 1], paras[|paras| - 1];
      ScanChapter(init);
      assert ScanAll(paras) == Step(ScanAll(init), last);
      var text := Strip(last);
      if Files(text) {
        StepFiles(ScanAll(init), last);
      } else if StartsWith(text, ChapterMark) {
        StepChapter(ScanAll(init), last);
      } else {
        StepOther(ScanAll(init), last);
      }
    }
  }

  /** The number of paragraphs that are article headings once stripped. */
  function ArticleParagraphs(paras: seq<string>): nat {
    if |paras| == 0 then 0
    else ArticleParagraphs(paras[..|paras| - 1]) + if StartsWith(Strip(paras[|paras| - 1]), ArticleMark) then 1 else 0
  }

  lemma {:induction false} AppendedLength(paras: seq<string>)
    ensures |Appended(paras)| == ArticleParagraphs(paras)
    decreases |paras|
  {
    if |paras| > 0 {
      AppendedLength(paras[..|paras| - 1]);
      MarksExclusive(Strip(paras[|paras| - 1]));
    }
  }

  /** The sum of the list lengths over the keys `keys`. */
  function SumLengths(keys: seq<string>, structure: map<string, seq<string>>): nat
    requires forall c :: c in keys ==> c in structure
  {
    if |keys| == 0 then 0
    else SumLengths(keys[..|keys| - 1], structure) + |structure[keys[|keys| - 1]]|
  }

  lemma {:induction false} SumLengthsCounts(keys: seq<string>, structure: map<string, seq<string>>, log: seq<Entry>)
    requires forall c :: c in keys ==> c in structure && |structure[c]| == Count(ChaptersOf(log), c)
    ensures SumLengths(keys, structure) == SumCounts(keys, ChaptersOf(log))
    decreases |keys|
  {
    if |keys| > 0 {
      var init := keys[..|keys| - 1];
      assert forall c :: c in init ==> c in keys;
      SumLengthsCounts(init, structure, log);
    }
  }

  /** The lists hold as many entries together as there are article
      paragraphs. */
  lemma ScanTotal(paras: seq<string>)
    ensures var st := ScanAll(paras);
      (forall c :: c in st.order ==> c in st.structure) &&
      SumLengths(st.order, st.structure) == ArticleParagraphs(paras)
  {
    ScanStructure(paras);
    var st := ScanAll(paras);
    var log := Appended(paras);
    forall c | c in st.order ensures c in st.structure && |st.structure[c]| == Count(ChaptersOf(log), c) {
      ArticlesInCount(log, c);
    }
    SumLengthsCounts(st.order, st.structure, log);
    CountsSumToLength(ChaptersOf(log));
    AppendedLength(paras);
  }

  /** `[para.text for para in doc.paragraphs if para.text.strip()]`. */
  function NonBlank(paras: seq<string>): seq<string> {
    if |paras| == 0 then []
    else NonBlank(paras[..|paras| - 1]) + if Strip(paras[|paras| - 1]) != "" then [paras[|paras| - 1]] else []
  }

  /** Blank paragraphs do not affect the scan. */
  lemma {:induction false} ScanIgnoresBlank(paras: seq<string>)
    ensures ScanAll(NonBlank(paras)) == ScanAll(paras)
    decreases |paras|
  {
    if |paras| > 0 {
      var init, last := paras[..|paras| - 1], paras[|paras| - 1];
      ScanIgnoresBlank(init);
      assert paras == init + [last];
      ScanAllSnoc(init, last);
      NonBlankSnoc(init, last);
      if Strip(last) != "" {
        ScanAllSnoc(NonBlank(init), last);
      } else {
        assert NonBlank(paras) == NonBlank(init);
        StepBlank(ScanAll(init), last);
      }
    }
  }

  lemma ScanAllSnoc(paras: seq<string>, p: string)
    ensures ScanAll(paras + [p]) == Step(ScanAll(paras), p)
  {
    assert (paras + [p])[..|paras|] == paras;
  }

  lemma NonBlankSnoc(paras: seq<string>, p: string)
    ensures NonBlank(paras + [p]) == NonBlank(paras) + if Strip(p) != "" then [p] else []
  {
    assert (paras + [p])[..|paras|] == paras;
  }

  lemma StepBlank(st: Scan, p: string)
    requires Strip(p) == ""
    ensures Step(st, p) == st
  {
  }

  /** Every kept paragraph is non-blank and kept unstripped. */
  lemma {:induction false} NonBlankKeeps(paras: seq<string>)
    ensures forall k :: 0 <= k < |NonBlank(paras)| ==> Strip(NonBlank(paras)[k]) != "" && NonBlank(paras)[k] in paras
    ensures |NonBlank(paras)| == 0 <==> forall k :: 0 <= k < |paras| ==> Strip(paras[k]) == ""
    decreases |paras|
  {
    if |paras| > 0 {
      var init := paras[..|paras| - 1];
      NonBlankKeeps(init);
      assert forall k :: 0 <= k < |init| ==> init[k] == paras[k];
      assert forall x :: x in init ==> x in paras;
    }
  }

  /** `"\n".join(...)`: the clean text written for chunking. */
  function CleanText(paras: seq<string>): string {
    Join(NonBlank(paras), "\n")
  }

  /** The clean text is empty exactly when every paragraph is blank; a
      non-blank paragraph is appended on a new line. */
  lemma CleanTextAppend(paras: seq<string>, p: string)
    ensures CleanText(paras + [p]) ==
      if Strip(p) == "" then CleanText(paras)
      else if NonBlank(paras) == [] then p
      else CleanText(paras) + "\n" + p
  {
    var nb := NonBlank(paras);
    assert (paras + [p])[..|paras|] == paras;
    if Strip(p) == "" {
      assert NonBlank(paras + [p]) == nb;
    } else {
      assert NonBlank(paras + [p]) == nb + [p];
      if nb == [] {
        assert nb + [p] == [p];
      } else {
        JoinAppend(nb, p, "\n");
      }
    }
  }

  lemma CleanTextEmpty(paras: seq<string>)
    ensures CleanText(paras) == "" <==> forall k :: 0 <= k < |paras| ==> Strip(paras[k]) == ""
  {
    NonBlankKeeps(paras);
    var nb := NonBlank(paras);
    if |nb| > 0 {
      assert Strip(nb[0]) != "";
      assert StartsWith(CleanText(paras), nb[0]);
      StripSpec(nb[0]);
    }
  }
}
