/**
 * The second code search backend: the ids and records each file's chunks are
 * stored under, and the retrieval-augmented topic query, which shows the first
 * retrieved chunks to the language model and answers with its reply. The
 * tree walk, the embedding model, the vector store and the HTTP endpoint are
 * parameters of the model.
 */
module CodeSearchV2 {
  import opened Wrappers
  import opened Text
  import opened Selection
  import opened CodeChunks
  import LlmRetry

  // ---------------------------------------------------------------------------
  // index_repository: one add per file with chunks
  // ---------------------------------------------------------------------------

  /** `f"{file_path}:{chunk['name']}:{chunk['start_line']}"`. */
  function ChunkId(filePath: string, c: Chunk): (r: string)
    ensures c.startLine >= 0 ==> AfterLast(r, ':') == NatToString(c.startLine)
  {
    var r := filePath + ":" + c.name + ":" + IntToString(c.startLine);
    LastField(filePath + ":" + c.name, c.startLine, r);
    r
  }

  /** The start line read back from an id: the text after its last colon. */
  lemma ChunkIdEndsWithStartLine(filePath: string, c: Chunk)
    requires c.startLine >= 0
    ensures ParseDigits(AfterLast(ChunkId(filePath, c), ':')) == c.startLine
  {
    ParseNatToString(c.startLine);
  }

  /**
   * Within one file, the id tells the chunk's name and start line apart:
   * chunks whose names have no colon share an id only when they share both.
   */
  lemma ChunkIdsDistinct(filePath: string, c: Chunk, d: Chunk)
    requires ':' !in c.name && ':' !in d.name && c.startLine >= 0 && d.startLine >= 0
    requires ChunkId(filePath, c) == ChunkId(filePath, d)
    ensures c.name == d.name && c.startLine == d.startLine
  {
    var x, y := NatToString(c.startLine), NatToString(d.startLine);
    var p := filePath + ":";
    var u, v := c.name + [':'] + x, d.name + [':'] + y;
    assert ChunkId(filePath, c) == filePath + ":" + c.name + ":" + x;
    assert ChunkId(filePath, d) == filePath + ":" + d.name + ":" + y;
    TrailingFields(filePath, c.name, x);
    TrailingFields(filePath, d.name, y);
    assert u == v by {
      assert (p + u)[|p|..] == u;
      assert (p + v)[|p|..] == v;
    }
    SplitAtFirst(c.name, x, d.name, y, ':');
    NatToStringInjective(c.startLine, d.startLine);
  }

  /** An id splits into its path field and the rest after the first colon. */
  lemma TrailingFields(path: string, name: string, line: string)
    ensures path + ":" + name + ":" + line == (path + ":") + (name + [':'] + line)
  {
  }

  /** The metadata stored beside each chunk; the docstring is stored whole. */
  datatype Metadata = Metadata(
    kind: string,
    name: string,
    filePath: string,
    startLine: int,
    endLine: int,
    docstring: string)

  /** One `collection.add` call: ids, documents and metadata, index-aligned. */
  datatype FileAdd = FileAdd(ids: seq<string>, documents: seq<string>, metadatas: seq<Metadata>)

  function MetadataOf(c: Chunk): Metadata {
    Metadata(KindName(c.kind), c.name, c.filePath, c.startLine, c.endLine, c.docstring)
  }

  /** The add for one file's chunks. */
  function FileAddOf(filePath: string, chunks: seq<Chunk>): FileAdd {
    FileAdd(
      seq(|chunks|, j requires 0 <= j < |chunks| => ChunkId(filePath, chunks[j])),
      seq(|chunks|, j requires 0 <= j < |chunks| => chunks[j].code),
      seq(|chunks|, j requires 0 <= j < |chunks| => MetadataOf(chunks[j])))
  }

  /**
   * The adds of the files in order: one for each file that yields chunks,
   * none for a file that yields nothing.
   */
  function AddsOf(files: seq<string>, extract: string -> seq<Chunk>): seq<FileAdd>
    decreases |files|
  {
    if files == [] then []
    else
      var f := files[|files| - 1];
      AddsOf(files[..|files| - 1], extract) + (if extract(f) != [] then [FileAddOf(f, extract(f))] else [])
  }

  /** The number of chunks the files yield together. */
  function ChunkTotal(files: seq<string>, extract: string -> seq<Chunk>): nat
    decreases |files|
  {
    if files == [] then 0 else ChunkTotal(files[..|files| - 1], extract) + |extract(files[|files| - 1])|
  }

  /**
   * The loop of `index_repository` over the Python files, with the tree walk
   * `extract` and the embedding model left out: every add it makes, and the
   * running chunk total.
   */
  method IndexFiles(files: seq<string>, extract: string -> seq<Chunk>) returns (adds: seq<FileAdd>, totalChunks: nat)
    ensures adds == AddsOf(files, extract)
    ensures totalChunks == ChunkTotal(files, extract)
  {
    adds, totalChunks := [], 0;
    for i := 0 to |files|
      invariant adds == AddsOf(files[..i], extract)
      invariant totalChunks == ChunkTotal(files[..i], extract)
    {
      var filePath := files[i];
      var chunks := extract(filePath);
      assert files[..i + 1][..i] == files[..i];
      if chunks != [] {
        var ids := seq(|chunks|, j requires 0 <= j < |chunks| => ChunkId(filePath, chunks[j]));
        var documents := seq(|chunks|, j requires 0 <= j < |chunks| => chunks[j].code);
        var metadatas := seq(|chunks|, j requires 0 <= j < |chunks| => MetadataOf(chunks[j]));
        adds := adds + [FileAdd(ids, documents, metadatas)];
        totalChunks := totalChunks + |chunks|;
      }
    }
    assert files[..|files|] == files;
  }

  /** The entries of all adds together. */
  function AddedCount(adds: seq<FileAdd>): nat
    decreases |adds|
  {
    if adds == [] then 0 else AddedCount(adds[..|adds| - 1]) + |adds[|adds| - 1].ids|
  }

  /** Ids, documents and metadata of an add are aligned, one entry per chunk of the file, under the file's path. */
  lemma FileAddAligned(filePath: string, chunks: seq<Chunk>)
    ensures var a := FileAddOf(filePath, chunks);
      |a.ids| == |a.documents| == |a.metadatas| == |chunks| &&
      forall j :: 0 <= j < |chunks| ==>
        a.ids[j] == ChunkId(filePath, chunks[j]) && a.documents[j] == chunks[j].code &&
        a.metadatas[j].name == chunks[j].name && a.metadatas[j].docstring == chunks[j].docstring
  {
  }

  /**
   * Every add holds at least one chunk, and the adds together hold every
   * chunk the files yield: the running total is the number of entries stored.
   */
  lemma {:induction false} AddsCoverChunks(files: seq<string>, extract: string -> seq<Chunk>)
    ensures forall a :: a in AddsOf(files, extract) ==> |a.ids| > 0
    ensures AddedCount(AddsOf(files, extract)) == ChunkTotal(files, extract)
    decreases |files|
  {
    if files != [] {
      var init := files[..|files| - 1];
      var f := files[|files| - 1];
      AddsCoverChunks(init, extract);
      var extra := if extract(f) != [] then [FileAddOf(f, extract(f))] else [];
      var all := AddsOf(init, extract) + extra;
      assert AddsOf(files, extract) == all;
      if extract(f) != [] {
        assert all[..|all| - 1] == AddsOf(init, extract);
      } else {
        assert all == AddsOf(init, extract);
      }
    }
  }

  // ---------------------------------------------------------------------------
  // rag_topic_query
  // ---------------------------------------------------------------------------

  const NoChunksAnswer := "No relevant code chunks found in the repository."
  const FailedAnswer := "Failed to generate explanation via API."
  const SourcePrefix := "### Source "
  const DocstringPrefix := "Docstring: "
  const CodeFence := "```python\n"
  /** `max_retries` as `rag_topic_query` leaves it: the default of `call_llm_api`. */
  const RagRetries := 3

  /** `f"### Source {i}: {chunk['file_path']} - {chunk['name']}"`. */
  function SourceHeader(i: nat, c: Chunk): string {
    SourcePrefix + NatToString(i) + ": " + c.filePath + " - " + c.name
  }

  /** The parts of chunk number `i`: its header, its docstring when it has one, its code block. */
  function ChunkParts(i: nat, c: Chunk): seq<string> {
    [SourceHeader(i, c)] + (if c.docstring != "" then [DocstringPrefix + c.docstring] else []) +
    [CodeFence + c.code + "\n```"]
  }

  /** The context parts of the chunks, numbered from 1. */
  function ContextParts(chunks: seq<Chunk>): seq<string>
    decreases |chunks|
  {
    if chunks == [] then [] else ContextParts(chunks[..|chunks| - 1]) + ChunkParts(|chunks|, chunks[|chunks| - 1])
  }

  /** The context shown to the model: the parts of the first `context_chunks` retrieved chunks. */
  function Context(retrieved: seq<Chunk>, contextChunks: int): string {
    Join("\n\n", ContextParts(PyTake(retrieved, contextChunks)))
  }

  /** The context loop of `rag_topic_query`. */
  method BuildContext(retrieved: seq<Chunk>, contextChunks: int) returns (context: string)
    ensures context == Context(retrieved, contextChunks)
  {
    var used := PyTake(retrieved, contextChunks);
    var contextParts: seq<string> := [];
    for i := 0 to |used|
      invariant contextParts == ContextParts(used[..i])
    {
      var chunk := used[i];
      assert used[..i + 1][..i] == used[..i];
      contextParts := contextParts + [SourceHeader(i + 1, chunk)];
      if chunk.docstring != "" {
        contextParts := contextParts + [DocstringPrefix + chunk.docstring];
      }
      contextParts := contextParts + [CodeFence + chunk.code + "\n```"];
    }
    assert used[..|used|] == used;
    context := Join("\n\n", contextParts);
  }

  predicate IsSourceHeader(part: string) {
    SourcePrefix <= part
  }

  predicate IsDocstringPart(part: string) {
    DocstringPrefix <= part
  }

  predicate HasDocstring(c: Chunk) {
    c.docstring != ""
  }

  /** The source headers of chunk parts: the one header, with the chunk's number. */
  lemma ChunkPartsHeaders(i: nat, c: Chunk)
    ensures Filter(ChunkParts(i, c), IsSourceHeader) == [SourceHeader(i, c)]
    ensures Filter(ChunkParts(i, c), IsDocstringPart) == if HasDocstring(c) then [DocstringPrefix + c.docstring] else []
  {
    var h, k := SourceHeader(i, c), CodeFence + c.code + "\n```";
    assert IsSourceHeader(h) && !IsDocstringPart(h) by {
      assert h[..|SourcePrefix|] == SourcePrefix;
      assert h[0] == '#';
    }
    assert !IsSourceHeader(k) && !IsDocstringPart(k) by {
      assert k[0] == '`';
    }
    if HasDocstring(c) {
      var d := DocstringPrefix + c.docstring;
      assert IsDocstringPart(d) && !IsSourceHeader(d) by {
        assert d[..|DocstringPrefix|] == DocstringPrefix;
        assert d[0] == 'D';
      }
      assert ChunkParts(i, c) == [h] + [d] + [k];
      FilterAppend([h] + [d], [k], IsSourceHeader);
      FilterAppend([h], [d], IsSourceHeader);
      FilterAppend([h] + [d], [k], IsDocstringPart);
      FilterAppend([h], [d], IsDocstringPart);
    } else {
      assert ChunkParts(i, c) == [h] + [k];
      FilterAppend([h], [k], IsSourceHeader);
      FilterAppend([h], [k], IsDocstringPart);
    }
  }

  /**
   * The context names exactly the chunks it was built from, in order: its
   * source headers are `### Source 1` to `### Source n` with each chunk's
   * path and name.
   */
  lemma {:induction false} ContextHeaders(chunks: seq<Chunk>)
    ensures Filter(ContextParts(chunks), IsSourceHeader) ==
      seq(|chunks|, k requires 0 <= k < |chunks| => SourceHeader(k + 1, chunks[k]))
    decreases |chunks|
  {
    if chunks != [] {
      var init := chunks[..|chunks| - 1];
      var c := chunks[|chunks| - 1];
      ContextHeaders(init);
      FilterAppend(ContextParts(init), ChunkParts(|chunks|, c), IsSourceHeader);
      ChunkPartsHeaders(|chunks|, c);
    }
  }

  /** A docstring part appears for each chunk with a non-empty docstring, and for no other. */
  lemma {:induction false} ContextDocstrings(chunks: seq<Chunk>)
    ensures |Filter(ContextParts(chunks), IsDocstringPart)| == |Filter(chunks, HasDocstring)|
    decreases |chunks|
  {
    if chunks != [] {
      var init := chunks[..|chunks| - 1];
      var c := chunks[|chunks| - 1];
      ContextDocstrings(init);
      FilterAppend(ContextParts(init), ChunkParts(|chunks|, c), IsDocstringPart);
      ChunkPartsHeaders(|chunks|, c);
      assert chunks == init + [c];
      FilterAppend(init, [c], HasDocstring);
    }
  }

  /** Only the first `context_chunks` retrieved chunks are shown, all of them when there are fewer. */
  lemma ContextUsesFirstChunks(retrieved: seq<Chunk>, contextChunks: int)
    ensures 0 <= contextChunks <= |retrieved| ==> PyTake(retrieved, contextChunks) == retrieved[..contextChunks]
    ensures contextChunks >= |retrieved| ==> PyTake(retrieved, contextChunks) == retrieved
  {
  }

  /** The fixed text of the prompt around the context and the question. */
  const PromptIntro := "Based on the following code snippets from a repository, answer the user's question.\n\nContext:\n"
  const PromptQuestion := "\n\nUser Question: "
  const PromptClosing := "\n\nProvide a clear, concise answer based on the code above. Reference specific functions or classes when relevant."

  /** The prompt sent to the model; it shows the whole context and the whole question. */
  function RagPrompt(context: string, query: string): (r: string)
    ensures Contains(r, context) && Contains(r, query)
  {
    ShowsBoth(PromptIntro, context, PromptQuestion, query, PromptClosing);
    PromptIntro + context + PromptQuestion + query + PromptClosing
  }

  lemma ShowsBoth(a: string, x: string, b: string, y: string, z: string)
    ensures Contains(a + x + b + y + z, x) && Contains(a + x + b + y + z, y)
  {
    ContainsInMiddle(a, x, b + y + z);
    assert a + x + (b + y + z) == a + x + b + y + z;
    ContainsInMiddle(a + x + b, y, z);
  }

  /** What `rag_topic_query` returns. */
  datatype RagResult = RagResult(query: string, answer: string, sources: seq<Chunk>)

  /** `if not answer: answer = "Failed to generate explanation via API."`. */
  function AnswerText(answer: Option<string>): (r: string)
    ensures r != ""
    ensures answer.Some? && answer.value != "" <==> answer == Some(r)
  {
    if answer.None? || answer.value == "" then FailedAnswer else answer.value
  }

  /**
   * `rag_topic_query`: `retrieved` is what `direct_search(query, top_k)`
   * returned and `server(prompt)` what each attempt of the API call came to.
   * No chunks give the fixed answer without a request; otherwise the answer is
   * the model's reply to the prompt, or the fixed failure text. The sources
   * are all retrieved chunks, not only those shown.
   */
  method RagTopicQuery(query: string, retrieved: seq<Chunk>, contextChunks: int,
                       server: string -> nat -> LlmRetry.Outcome) returns (result: RagResult)
    ensures result.query == query && result.sources == retrieved
    ensures retrieved == [] ==> result.answer == NoChunksAnswer
    ensures retrieved != [] ==>
      result.answer == AnswerText(LlmRetry.Attempts(server(RagPrompt(Context(retrieved, contextChunks), query)), RagRetries, 0).answer)
  {
    if retrieved == [] {
      return RagResult(query, NoChunksAnswer, []);
    }
    var context := BuildContext(retrieved, contextChunks);
    var ragPrompt := RagPrompt(context, query);
    var answer, _, _ := LlmRetry.CallLlmApi(server(ragPrompt), RagRetries);
    result := RagResult(query, AnswerText(answer), retrieved);
  }

  /** A first reply with text in it is the answer, stripped; an empty one gives the failure text. */
  lemma RagAnswerOnFirstReply(query: string, retrieved: seq<Chunk>, contextChunks: int,
                              server: string -> nat -> LlmRetry.Outcome, content: string)
    requires server(RagPrompt(Context(retrieved, contextChunks), query))(0) == LlmRetry.Reply(content)
    ensures AnswerText(LlmRetry.Attempts(server(RagPrompt(Context(retrieved, contextChunks), query)), RagRetries, 0).answer) ==
      if Strip(content) == "" then FailedAnswer else Strip(content)
  {
    LlmRetry.FirstReplyAnswers(server(RagPrompt(Context(retrieved, contextChunks), query)), RagRetries, 0, content);
  }

  /** When all three attempts fail in a retriable way, the answer is the failure text. */
  lemma RagAnswerWhenApiFails(query: string, retrieved: seq<Chunk>, contextChunks: int,
                              server: string -> nat -> LlmRetry.Outcome)
    requires forall j :: 0 <= j < RagRetries ==> LlmRetry.Retriable(server(RagPrompt(Context(retrieved, contextChunks), query))(j))
    ensures AnswerText(LlmRetry.Attempts(server(RagPrompt(Context(retrieved, contextChunks), query)), RagRetries, 0).answer) == FailedAnswer
  {
    LlmRetry.AllFailuresGiveUp(server(RagPrompt(Context(retrieved, contextChunks), query)), RagRetries);
  }
}
