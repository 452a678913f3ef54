/** The list construction and batching of `initialize_vector_db` in
    `init_db.py`: one id, one document and one metadata dictionary per chunk
    record, handed to the collection in consecutive batches of 50. The
    collection itself is outside the model; its `add` calls are recorded as
    `AddCall` values, in the order they are made. */
module InitDb {
  import opened Wrappers
  import opened Text
  import opened Documents
  import opened Chunking

  const BatchSize: nat := 50

  /** The id of the `i`-th chunk, `f"id_{i}"`. */
  function Id(i: nat): string {
    "id_" + NatToString(i)
  }

  /** `[f"id_{i}" for i in range(n)]`. */
  function Ids(n: nat): (ids: seq<string>)
    ensures |ids| == n
    ensures forall i :: 0 <= i < n ==> ids[i] == Id(i)
  {
    seq(n, i requires 0 <= i < n => Id(i))
  }

  /** Different chunks get different ids. */
  lemma IdInjective(i: nat, j: nat)
    requires Id(i) == Id(j)
    ensures i == j
  {
    assert Id(i)[3..] == NatToString(i);
    assert Id(j)[3..] == NatToString(j);
    NatToStringInjective(i, j);
  }

  /** The ids are pairwise distinct and all start with "id_". */
  lemma IdsDistinct(n: nat)
    ensures forall i, j :: 0 <= i < j < n ==> Ids(n)[i] != Ids(n)[j]
    ensures forall i :: 0 <= i < n ==> StartsWith(Ids(n)[i], "id_")
  {
    forall i, j | 0 <= i < j < n ensures Ids(n)[i] != Ids(n)[j] {
      if Id(i) == Id(j) {
        IdInjective(i, j);
      }
    }
  }

  /** `[chunk["full_text"] for chunk in chunks_metadata]`. */
  function Texts(records: seq<ArticleRecord>): (docs: seq<string>)
    ensures |docs| == |records|
    ensures forall i :: 0 <= i < |records| ==> docs[i] == records[i].fullText
  {
    seq(|records|, i requires 0 <= i < |records| => records[i].fullText)
  }

  /** The metadata dictionary stored for a record: `article` is renamed
      `article_number`, and the source is added. */
  function MetadataOf(r: ArticleRecord): (m: Metadata)
    ensures m.chapter == Some(r.chapter) && m.articleNumber == Some(r.article)
    ensures m.source == Some(SourceName)
  {
    Metadata(Some(r.chapter), Some(r.article), Some(SourceName))
  }

  /** The `metadatas` loop: one dictionary per record, in order. */
  method BuildMetadatas(records: seq<ArticleRecord>) returns (metadatas: seq<Metadata>)
    ensures |metadatas| == |records|
    ensures forall i :: 0 <= i < |records| ==> metadatas[i] == MetadataOf(records[i])
  {
    metadatas := [];
    for i := 0 to |records|
      invariant |metadatas| == i
      invariant forall k :: 0 <= k < i ==> metadatas[k] == MetadataOf(records[k])
    {
      metadatas := metadatas + [MetadataOf(records[i])];
    }
  }

  /** `(len(ids) + batch_size - 1) // batch_size`, the progress bar's total. */
  function TotalBatches(n: nat): nat {
    (n + BatchSize - 1) / BatchSize
  }

  /** `TotalBatches(n)` is the ceiling of `n / 50`. */
  lemma TotalBatchesCeil(n: nat)
    ensures TotalBatches(n) == 0 <==> n == 0
    ensures n > 0 ==> BatchSize * (TotalBatches(n) - 1) < n <= BatchSize * TotalBatches(n)
  {
  }

  /** The index range `[start, end)` of one `add` call. */
  datatype Batch = Batch(start: nat, end: nat)

  /** The ranges the loop `for i in range(i0, n, 50)` visits from `i0` on,
      each ending at `min(i + 50, n)`. */
  function BatchesFrom(n: nat, i: nat): seq<Batch>
    decreases n - i
  {
    if i >= n then [] else [Batch(i, Min(i + BatchSize, n))] + BatchesFrom(n, i + BatchSize)
  }

  function Batches(n: nat): seq<Batch> {
    BatchesFrom(n, 0)
  }

  /** There are as many batches as the progress bar announces. */
  lemma {:induction false} BatchesCount(n: nat, i: nat)
    requires i <= n
    ensures |BatchesFrom(n, i)| == TotalBatches(n - i)
    decreases n - i
  {
    if i < n {
      if i + BatchSize <= n {
        BatchesCount(n, i + BatchSize);
      } else {
        assert BatchesFrom(n, i + BatchSize) == [];
      }
    }
  }

  /** Each batch is non-empty and holds at most 50 indices; only the last is
      short; the first starts at `i` and the last ends at `n`. */
  lemma {:induction false} BatchesShape(n: nat, i: nat)
    ensures var bs := BatchesFrom(n, i);
      forall k :: 0 <= k < |bs| ==>
        bs[k].start < bs[k].end <= n && bs[k].end - bs[k].start <= BatchSize &&
        (bs[k].end - bs[k].start == BatchSize || k == |bs| - 1)
    ensures var bs := BatchesFrom(n, i);
      |bs| == 0 <==> i >= n
    ensures var bs := BatchesFrom(n, i);
      |bs| > 0 ==> bs[0].start == i && bs[|bs| - 1].end == n
    decreases n - i
  {
    if i < n {
      BatchesShape(n, i + BatchSize);
      var rest := BatchesFrom(n, i + BatchSize);
      var bs := BatchesFrom(n, i);
      assert bs == [Batch(i, Min(i + BatchSize, n))] + rest;
      assert forall k :: 1 <= k < |bs| ==> bs[k] == rest[k - 1];
      if |rest| == 0 {
        assert Min(i + BatchSize, n) == n;
      }
    }
  }

  /** Consecutive batches meet: together they cover `i..n` in order, each
      index once. */
  lemma {:induction false} BatchesConsecutive(n: nat, i: nat)
    ensures var bs := BatchesFrom(n, i);
      forall k, m :: 0 <= k < m < |bs| && m == k + 1 ==> bs[k].end == bs[m].start
    decreases n - i
  {
    if i < n {
      BatchesConsecutive(n, i + BatchSize);
      BatchesShape(n, i + BatchSize);
      var rest := BatchesFrom(n, i + BatchSize);
      var bs := BatchesFrom(n, i);
      assert forall k :: 1 <= k < |bs| ==> bs[k] == rest[k - 1];
    }
  }

  /** Python's slice `s[a:b]` for non-negative bounds: bounds past the end
      are cut to the length, and `b <= a` gives the empty list. */
  function Slice<T>(s: seq<T>, a: nat, b: nat): (r: seq<T>)
    ensures a <= b <= |s| ==> r == s[a..b]
    ensures |r| <= |s|
  {
    var lo := if a <= |s| then a else |s|;
    var hi := if b <= |s| then b else |s|;
    if lo <= hi then s[lo..hi] else []
  }

  /** The concatenation of the slices `s[start:end]` of the batches. */
  function Gather<T>(s: seq<T>, bs: seq<Batch>): seq<T> {
    if |bs| == 0 then [] else Slice(s, bs[0].start, bs[0].end) + Gather(s, bs[1..])
  }

  /** Gathering the batches of a list gives back the list: every element is
      sent exactly once, in order. */
  lemma {:induction false} GatherBatches<T>(s: seq<T>, i: nat)
    requires i <= |s|
    ensures Gather(s, BatchesFrom(|s|, i)) == s[i..]
    decreases |s| - i
  {
    if i < |s| {
      var e := Min(i + BatchSize, |s|);
      var bs := BatchesFrom(|s|, i);
      if i + BatchSize <= |s| {
        GatherBatches(s, i + BatchSize);
      } else {
        assert BatchesFrom(|s|, i + BatchSize) == [];
      }
      assert bs[1..] == BatchesFrom(|s|, i + BatchSize);
      assert s[i..] == s[i..e] + s[e..];
    }
  }

  /** The arguments of one `collection.add(ids=..., documents=...,
      metadatas=...)` call. */
  datatype AddCall = AddCall(ids: seq<string>, documents: seq<string>, metadatas: seq<Metadata>)

  function CallFor(ids: seq<string>, docs: seq<string>, metas: seq<Metadata>, b: Batch): AddCall {
    AddCall(Slice(ids, b.start, b.end), Slice(docs, b.start, b.end), Slice(metas, b.start, b.end))
  }

  /** The calls made for the batches `bs`, in order. */
  function AddCalls(ids: seq<string>, docs: seq<string>, metas: seq<Metadata>, bs: seq<Batch>): (calls: seq<AddCall>)
    ensures |calls| == |bs|
  {
    if |bs| == 0 then [] else [CallFor(ids, docs, metas, bs[0])] + AddCalls(ids, docs, metas, bs[1..])
  }

  /** The batch loop `for i in range(0, len(ids), batch_size)`. */
  method AddInBatches(ids: seq<string>, docs: seq<string>, metas: seq<Metadata>) returns (calls: seq<AddCall>)
    ensures calls == AddCalls(ids, docs, metas, Batches(|ids|))
  {
    calls := [];
    var i := 0;
    while i < |ids|
      invariant calls + AddCalls(ids, docs, metas, BatchesFrom(|ids|, i)) == AddCalls(ids, docs, metas, Batches(|ids|))
      decreases |ids| - i
    {
      var endIdx := Min(i + BatchSize, |ids|);
      AddCallsStep(ids, docs, metas, i, calls);
      calls := calls + [AddCall(Slice(ids, i, endIdx), Slice(docs, i, endIdx), Slice(metas, i, endIdx))];
      i := i + BatchSize;
    }
  }

  lemma AddCallsStep(ids: seq<string>, docs: seq<string>, metas: seq<Metadata>, i: nat, done: seq<AddCall>)
    requires i < |ids|
    ensures done + AddCalls(ids, docs, metas, BatchesFrom(|ids|, i))
      == (done + [CallFor(ids, docs, metas, Batch(i, Min(i + BatchSize, |ids|)))])
         + AddCalls(ids, docs, metas, BatchesFrom(|ids|, i + BatchSize))
  {
    var bs := BatchesFrom(|ids|, i);
    assert bs[1..] == BatchesFrom(|ids|, i + BatchSize);
    var call := CallFor(ids, docs, metas, bs[0]);
    var rest := AddCalls(ids, docs, metas, bs[1..]);
    assert AddCalls(ids, docs, metas, bs) == [call] + rest;
    AppendAssoc(done, [call], rest);
  }

  /** The ids of the calls, concatenated. */
  function CallIds(calls: seq<AddCall>): seq<string> {
    if |calls| == 0 then [] else calls[0].ids + CallIds(calls[1..])
  }

  function CallDocuments(calls: seq<AddCall>): seq<string> {
    if |calls| == 0 then [] else calls[0].documents + CallDocuments(calls[1..])
  }

  function CallMetadatas(calls: seq<AddCall>): seq<Metadata> {
    if |calls| == 0 then [] else calls[0].metadatas + CallMetadatas(calls[1..])
  }

  /** What the calls send, concatenated, is what the batches gather. */
  lemma {:induction false} AddCallsGather(ids: seq<string>, docs: seq<string>, metas: seq<Metadata>, bs: seq<Batch>)
    ensures var calls := AddCalls(ids, docs, metas, bs);
      CallIds(calls) == Gather(ids, bs) && CallDocuments(calls) == Gather(docs, bs) && CallMetadatas(calls) == Gather(metas, bs)
    decreases |bs|
  {
    if |bs| > 0 {
      AddCallsGather(ids, docs, metas, bs[1..]);
      assert AddCalls(ids, docs, metas, bs)[1..] == AddCalls(ids, docs, metas, bs[1..]);
    }
  }

  /** With lists of equal length, each call receives the ids, documents and
      metadatas of the same indices `[start, end)` of its batch, at most 50
      and at least one of each. */
  lemma AddCallsAligned(ids: seq<string>, docs: seq<string>, metas: seq<Metadata>, k: nat)
    requires |docs| == |ids| && |metas| == |ids|
    requires k < |Batches(|ids|)|
    ensures var b := Batches(|ids|)[k];
      var call := AddCalls(ids, docs, metas, Batches(|ids|))[k];
      && b.start < b.end <= |ids| && b.end - b.start <= BatchSize
      && |call.ids| == |call.documents| == |call.metadatas| == b.end - b.start
      && call.ids == ids[b.start..b.end]
      && call.documents == docs[b.start..b.end]
      && call.metadatas == metas[b.start..b.end]
  {
    BatchesShape(|ids|, 0);
    AddCallAt(ids, docs, metas, Batches(|ids|), k);
  }

  lemma {:induction false} AddCallAt(ids: seq<string>, docs: seq<string>, metas: seq<Metadata>, bs: seq<Batch>, k: nat)
    requires k < |bs|
    ensures AddCalls(ids, docs, metas, bs)[k] == CallFor(ids, docs, metas, bs[k])
    decreases k
  {
    if k > 0 {
      AddCallAt(ids, docs, metas, bs[1..], k - 1);
    }
  }

  /** `initialize_vector_db` on the loaded records, after the collection is
      (re)created: builds the three lists and adds them in batches. */
  method InitializeVectorDb(records: seq<ArticleRecord>)
    returns (ids: seq<string>, documents: seq<string>, metadatas: seq<Metadata>, calls: seq<AddCall>)
    ensures ids == Ids(|records|) && documents == Texts(records)
    ensures |metadatas| == |records| && forall i :: 0 <= i < |records| ==> metadatas[i] == MetadataOf(records[i])
    ensures |calls| == TotalBatches(|records|)
    ensures CallIds(calls) == ids && CallDocuments(calls) == documents && CallMetadatas(calls) == metadatas
  {
    ids := Ids(|records|);
    documents := Texts(records);
    metadatas := BuildMetadatas(records);
    calls := AddInBatches(ids, documents, metadatas);
    BatchesCount(|ids|, 0);
    GatherBatches(ids, 0);
    GatherBatches(documents, 0);
    GatherBatches(metadatas, 0);
    AddCallsGather(ids, documents, metadatas, Batches(|ids|));
  }
}
