/**
 * The first code search backend around its embedding index: the text each
 * chunk is embedded as, the ids and metadata the chunks are stored under in
 * batches of 32, and how many results a search asks for and keeps. The
 * embedding model, the vector store and the keyword re-ranking are
 * parameters of the model.
 */
module CodeSearch {
  import opened Text
  import opened CodeChunks

  // ---------------------------------------------------------------------------
  // create_searchable_text
  // ---------------------------------------------------------------------------

  /**
   * The file name shown for a chunk: the text after the last `/` when the path
   * has one, otherwise the text after the last `\`.
   */
  function FileName(path: string): (r: string)
    ensures |r| <= |path| && r == path[|path| - |r|..]
    ensures '/' !in r
    ensures '/' in path ==> |r| < |path| && path[|path| - |r| - 1] == '/'
    ensures '/' !in path ==> '\\' !in r
    ensures '/' !in path && '\\' in path ==> |r| < |path| && path[|path| - |r| - 1] == '\\'
    ensures '/' !in path && '\\' !in path ==> r == path
  {
    if '/' in path then AfterLast(path, '/')
    else
      var r := AfterLast(path, '\\');
      assert forall k :: 0 <= k < |r| ==> r[k] == path[|path| - |r| + k];
      r
  }

  /** Only the first 400 characters of the code are embedded. */
  const MaxSnippet := 400

  const DocumentationLabel := "Documentation: "

  /** The parts of the searchable text, in the order the backend appends them. */
  function SearchableParts(c: Chunk): seq<string> {
    (if c.docstring != "" then [DocumentationLabel + c.docstring] else []) +
    [KindName(c.kind) + ": " + c.name, "File: " + FileName(c.filePath), "Code:\n" + PyTake(c.code, MaxSnippet)]
  }

  /** The text a chunk is embedded as: it opens with the documentation when there is any, otherwise with the type and name. */
  function SearchableText(c: Chunk): (r: string)
    ensures c.docstring != "" ==> DocumentationLabel + c.docstring <= r
    ensures c.docstring == "" ==> KindName(c.kind) + ": " + c.name <= r
  {
    Join("\n\n", SearchableParts(c))
  }

  /** `create_searchable_text`: the parts appended one by one, then joined. */
  method CreateSearchableText(c: Chunk) returns (text: string)
    ensures text == SearchableText(c)
  {
    var parts: seq<string> := [];
    if c.docstring != "" {
      parts := parts + [DocumentationLabel + c.docstring];
    }
    parts := parts + [KindName(c.kind) + ": " + c.name];
    var fileName := FileName(c.filePath);
    parts := parts + ["File: " + fileName];
    var codeSnippet := PyTake(c.code, MaxSnippet);
    parts := parts + ["Code:\n" + codeSnippet];
    assert parts == SearchableParts(c);
    text := Join("\n\n", parts);
  }

  /**
   * Three parts, or four with the documentation first exactly when the
   * docstring is not empty; then the type and name, the file name, and at
   * most the first 400 characters of the code (all of it when shorter).
   */
  lemma SearchablePartsShape(c: Chunk)
    ensures var parts := SearchableParts(c);
      var d := if c.docstring != "" then 1 else 0;
      |parts| == 3 + d &&
      (c.docstring != "" ==> parts[0] == DocumentationLabel + c.docstring) &&
      parts[d] == KindName(c.kind) + ": " + c.name &&
      parts[d + 1] == "File: " + FileName(c.filePath) &&
      parts[d + 2] == "Code:\n" + PyTake(c.code, MaxSnippet)
    ensures var snippet := PyTake(c.code, MaxSnippet);
      |snippet| <= MaxSnippet && snippet <= c.code && (|c.code| <= MaxSnippet ==> snippet == c.code)
  {
  }

  /** A documentation part is present, as the first part, exactly when the docstring is not empty. */
  lemma DocumentationFirst(c: Chunk)
    ensures var parts := SearchableParts(c);
      (exists i :: 0 <= i < |parts| && DocumentationLabel <= parts[i]) <==> c.docstring != ""
    ensures var parts := SearchableParts(c);
      forall i :: 0 <= i < |parts| && DocumentationLabel <= parts[i] ==> i == 0
  {
    var parts := SearchableParts(c);
    var d := if c.docstring != "" then 1 else 0;
    SearchablePartsShape(c);
    assert KindName(c.kind)[0] != DocumentationLabel[0];
    assert forall i :: d <= i < |parts| ==> parts[i][0] != DocumentationLabel[0];
    if c.docstring != "" {
      assert DocumentationLabel <= parts[0];
    }
  }

  /** The searchable text always names the chunk's type and name, and shows its file name. */
  lemma SearchableTextNamesChunk(c: Chunk)
    ensures Contains(SearchableText(c), KindName(c.kind) + ": " + c.name)
    ensures Contains(SearchableText(c), "File: " + FileName(c.filePath))
    ensures c.docstring != "" ==> Contains(SearchableText(c), c.docstring)
  {
    var parts := SearchableParts(c);
    var d := if c.docstring != "" then 1 else 0;
    SearchablePartsShape(c);
    JoinContainsPart("\n\n", parts, d);
    JoinContainsPart("\n\n", parts, d + 1);
    if c.docstring != "" {
      JoinContainsPart("\n\n", parts, 0);
      ContainsInMiddle(DocumentationLabel, c.docstring, "");
      assert DocumentationLabel + c.docstring + "" == parts[0];
      ContainsTransitive(SearchableText(c), parts[0], c.docstring);
    }
  }

  // ---------------------------------------------------------------------------
  // index_repository: ids, metadata and documents in batches of 32
  // ---------------------------------------------------------------------------

  const BatchSize := 32
  /** Stored docstrings keep at most their first 500 characters. */
  const MaxStoredDocstring := 500

  /** The metadata stored beside each chunk. */
  datatype Metadata = Metadata(
    kind: string,
    name: string,
    filePath: string,
    startLine: int,
    endLine: int,
    docstring: string)

  /** One `collection.add` call: ids, embedded texts, metadata and documents, index-aligned. */
  datatype Batch = Batch(ids: seq<string>, texts: seq<string>, metadatas: seq<Metadata>, documents: seq<string>)

  /** `f"{indexed_count + j}:{file_path}:{name}:{start_line}"`. */
  function ChunkId(index: int, c: Chunk): (r: string)
    ensures c.startLine >= 0 ==> AfterLast(r, ':') == NatToString(c.startLine)
  {
    var r := IntToString(index) + ":" + c.filePath + ":" + c.name + ":" + IntToString(c.startLine);
    LastField(IntToString(index) + ":" + c.filePath + ":" + c.name, c.startLine, r);
    r
  }

  /** `chunk['docstring'][:500] if chunk['docstring'] else ""`. */
  function StoredDocstring(docstring: string): (r: string) {
    if docstring != "" then PyTake(docstring, MaxStoredDocstring) else ""
  }

  function MetadataOf(c: Chunk): Metadata {
    Metadata(KindName(c.kind), c.name, c.filePath, c.startLine, c.endLine, StoredDocstring(c.docstring))
  }

  /** A stored docstring is the docstring's first 500 characters, all of it when it is not longer. */
  lemma StoredDocstringCapped(docstring: string)
    ensures var r := StoredDocstring(docstring);
      |r| <= MaxStoredDocstring && r <= docstring &&
      (|docstring| <= MaxStoredDocstring ==> r == docstring) &&
      (|docstring| > MaxStoredDocstring ==> |r| == MaxStoredDocstring)
  {
  }

  /** The chunks of batch `b` start at this place. */
  function BatchStart(b: nat): nat {
    b * BatchSize
  }

  /** The batch the backend adds for the chunks `chunks[lo..hi]`, numbered from `lo` on. */
  function BatchOf(chunks: seq<Chunk>, lo: nat, hi: nat): (r: Batch)
    requires lo <= hi <= |chunks|
  {
    var batch := chunks[lo..hi];
    Batch(
      seq(|batch|, j requires 0 <= j < |batch| => ChunkId(lo + j, batch[j])),
      seq(|batch|, j requires 0 <= j < |batch| => SearchableText(batch[j])),
      seq(|batch|, j requires 0 <= j < |batch| => MetadataOf(batch[j])),
      seq(|batch|, j requires 0 <= j < |batch| => batch[j].code))
  }

  /** Upper end of batch `b`: 32 chunks on, or the end of the list. */
  function BatchEnd(n: nat, b: nat): nat {
    if BatchStart(b) + BatchSize < n then BatchStart(b) + BatchSize else n
  }

  /** The number of batches `range(0, n, 32)` gives. */
  function BatchCount(n: nat): nat {
    (n + BatchSize - 1) / BatchSize
  }

  /**
   * The batching loop of `index_repository`, with the embedding model and the
   * collection left out: every `collection.add` it makes, in order, and the
   * final running count. No chunks, no add.
   */
  method IndexChunks(chunks: seq<Chunk>) returns (adds: seq<Batch>, indexedCount: nat)
    ensures indexedCount == |chunks|
    ensures |adds| == BatchCount(|chunks|)
    ensures forall b :: 0 <= b < |adds| ==>
      BatchStart(b) < BatchEnd(|chunks|, b) <= |chunks| &&
      adds[b] == BatchOf(chunks, BatchStart(b), BatchEnd(|chunks|, b))
  {
    adds, indexedCount := [], 0;
    var i := 0;
    while i < |chunks|
      invariant i == BatchStart(|adds|) && indexedCount == (if i < |chunks| then i else |chunks|)
      invariant |adds| <= BatchCount(|chunks|)
      invariant i < |chunks| ==> |adds| < BatchCount(|chunks|)
      invariant i >= |chunks| ==> |adds| == BatchCount(|chunks|)
      invariant BatchesSoFar(chunks, adds)
      decreases |chunks| - i
    {
      var hi := if i + BatchSize < |chunks| then i + BatchSize else |chunks|;
      BatchStep(|chunks|, |adds|, i, hi);
      var batch := PrepareBatch(chunks, i, hi, indexedCount);
      NextBatch(chunks, adds, batch);
      adds := adds + [batch];
      indexedCount := indexedCount + (hi - i);
      i := i + BatchSize;
    }
  }

  /** The adds made so far are the batches from the first one on. */
  predicate BatchesSoFar(chunks: seq<Chunk>, adds: seq<Batch>) {
    forall b :: 0 <= b < |adds| ==>
      BatchStart(b) < BatchEnd(|chunks|, b) <= |chunks| &&
      adds[b] == BatchOf(chunks, BatchStart(b), BatchEnd(|chunks|, b))
  }

  /** Appending the next batch keeps the adds the batches from the first one on. */
  lemma NextBatch(chunks: seq<Chunk>, adds: seq<Batch>, batch: Batch)
    requires BatchesSoFar(chunks, adds)
    requires BatchStart(|adds|) < BatchEnd(|chunks|, |adds|) <= |chunks|
    requires batch == BatchOf(chunks, BatchStart(|adds|), BatchEnd(|chunks|, |adds|))
    ensures BatchesSoFar(chunks, adds + [batch])
  {
    var next := adds + [batch];
    forall b | 0 <= b < |next|
      ensures BatchStart(b) < BatchEnd(|chunks|, b) <= |chunks|
      ensures next[b] == BatchOf(chunks, BatchStart(b), BatchEnd(|chunks|, b))
    {
      if b < |adds| {
        assert next[b] == adds[b];
      }
    }
  }

  /** One iteration's lists: the texts, ids, metadata and documents of `chunks[lo..hi]`. */
  method PrepareBatch(chunks: seq<Chunk>, lo: nat, hi: nat, indexedCount: nat) returns (r: Batch)
    requires lo <= hi <= |chunks| && indexedCount == lo
    ensures r == BatchOf(chunks, lo, hi)
  {
    var batch := chunks[lo..hi];
    var texts := seq(|batch|, j requires 0 <= j < |batch| => SearchableText(batch[j]));
    var ids := seq(|batch|, j requires 0 <= j < |batch| => ChunkId(indexedCount + j, batch[j]));
    var metadatas := seq(|batch|, j requires 0 <= j < |batch| => MetadataOf(batch[j]));
    var documents := seq(|batch|, j requires 0 <= j < |batch| => batch[j].code);
    r := Batch(ids, texts, metadatas, documents);
  }

  /** One more batch: it ends 32 on or at the end, and is the last one exactly when it reaches the end. */
  lemma BatchStep(n: nat, b: nat, i: nat, hi: nat)
    requires i == BatchStart(b) && i < n && hi == (if i + BatchSize < n then i + BatchSize else n)
    ensures hi == BatchEnd(n, b) && i < hi
    ensures b < BatchCount(n)
    ensures i + BatchSize == BatchStart(b + 1)
    ensures i + BatchSize < n ==> b + 1 < BatchCount(n)
    ensures i + BatchSize >= n ==> b + 1 == BatchCount(n)
  {
  }

  /** A batch holds at most 32 chunks, and its four lists have one entry per chunk. */
  lemma BatchAligned(chunks: seq<Chunk>, lo: nat, hi: nat)
    requires lo <= hi <= |chunks| && hi - lo <= BatchSize
    ensures var r := BatchOf(chunks, lo, hi);
      |r.ids| == |r.texts| == |r.metadatas| == |r.documents| == hi - lo <= BatchSize
    ensures var r := BatchOf(chunks, lo, hi);
      forall j :: 0 <= j < hi - lo ==>
        r.ids[j] == ChunkId(lo + j, chunks[lo + j]) && r.documents[j] == chunks[lo + j].code &&
        |r.metadatas[j].docstring| <= MaxStoredDocstring
  {
    var r := BatchOf(chunks, lo, hi);
    forall j | 0 <= j < hi - lo
      ensures |r.metadatas[j].docstring| <= MaxStoredDocstring
    {
      StoredDocstringCapped(chunks[lo + j].docstring);
    }
  }

  /**
   * Chunk ids start with the running index and a colon, so two chunks stored
   * at different places never share an id, whatever their paths and names.
   */
  lemma ChunkIdsDistinct(i: nat, c: Chunk, j: nat, d: Chunk)
    requires i != j
    ensures ChunkId(i, c) != ChunkId(j, d)
  {
    var a, b := NatToString(i), NatToString(j);
    var x := c.filePath + ":" + c.name + ":" + IntToString(c.startLine);
    var y := d.filePath + ":" + d.name + ":" + IntToString(d.startLine);
    LeadingField(a, c.filePath, c.name, IntToString(c.startLine));
    LeadingField(b, d.filePath, d.name, IntToString(d.startLine));
    NoColonInDigits(a);
    NoColonInDigits(b);
    if a + [':'] + x == b + [':'] + y {
      SplitAtFirst(a, x, b, y, ':');
      NatToStringInjective(i, j);
    }
  }

  /** An id splits into its first field and the rest at the first colon. */
  lemma LeadingField(a: string, path: string, name: string, line: string)
    ensures a + ":" + path + ":" + name + ":" + line == a + [':'] + (path + ":" + name + ":" + line)
  {
  }

  // ---------------------------------------------------------------------------
  // search_code: how many results are asked for and kept
  // ---------------------------------------------------------------------------

  /** `top_k * 3 if apply_filter else top_k`. */
  function RetrieveCount(topK: int, applyFilter: bool): int {
    if applyFilter then topK * 3 else topK
  }

  /**
   * The result list of `search_code`: the store's answer for the retrieve
   * count, and with filtering on and a non-empty answer, the first `top_k` of
   * its re-ranking. `query` stands for the vector store, `rerank` for the
   * keyword scoring.
   */
  function SearchResults<H>(query: int -> seq<H>, rerank: seq<H> -> seq<H>, topK: int, applyFilter: bool): (r: seq<H>)
    ensures !applyFilter ==> r == query(topK)
    ensures applyFilter && topK >= 0 ==> |r| <= topK
  {
    var hits := query(RetrieveCount(topK, applyFilter));
    if applyFilter && hits != [] then PyTake(rerank(hits), topK) else hits
  }

  /**
   * Without filtering the store is asked for `top_k` results and they are all
   * kept; with filtering it is asked for three times as many, and what is kept
   * is the start of the re-ranking, at most `top_k` of it.
   */
  lemma SearchResultsShape<H>(query: int -> seq<H>, rerank: seq<H> -> seq<H>, topK: int, applyFilter: bool)
    ensures !applyFilter ==> SearchResults(query, rerank, topK, applyFilter) == query(topK)
    ensures applyFilter ==> SearchResults(query, rerank, topK, applyFilter) <= rerank(query(3 * topK))
    ensures applyFilter && topK >= 0 ==> |SearchResults(query, rerank, topK, applyFilter)| <= topK
    ensures applyFilter && 0 <= topK <= |rerank(query(3 * topK))| && query(3 * topK) != [] ==>
      SearchResults(query, rerank, topK, applyFilter) == rerank(query(3 * topK))[..topK]
  {
    assert RetrieveCount(topK, applyFilter) == if applyFilter then 3 * topK else topK;
  }
}
