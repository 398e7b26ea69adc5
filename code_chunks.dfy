/**
 * The code chunks both code search backends extract from a Python file: one
 * per function or class definition the syntax tree holds. The tree walk is
 * outside the model; what is modelled is the shaping of each chunk from the
 * source text of its definition: the class-code cap and the docstring text
 * made from the string literal that opens the body.
 */
module CodeChunks {
  import opened Wrappers
  import opened Text

  datatype ChunkKind = Function | Class

  /** The chunk's `type` field. */
  function KindName(k: ChunkKind): string {
    match k
    case Function => "function"
    case Class => "class"
  }

  /** A chunk record: the definition's name, its (possibly capped) code and docstring, and its 1-based lines. */
  datatype Chunk = Chunk(
    kind: ChunkKind,
    name: string,
    code: string,
    docstring: string,
    filePath: string,
    startLine: int,
    endLine: int)

  /** Class code longer than this is cut. */
  const MaxClassCode := 2000
  const TruncatedNote := "\n    # ... (truncated)"

  /** `class_code[:2000] + "\n    # ... (truncated)"` when it is longer than 2000 characters. */
  function TruncateClassCode(code: string): (r: string)
    ensures |r| <= MaxClassCode + |TruncatedNote|
    ensures PyTake(code, MaxClassCode) <= r
  {
    if |code| > MaxClassCode then code[..MaxClassCode] + TruncatedNote else code
  }

  /**
   * Capped class code keeps its first 2000 characters (all of them when it is
   * not longer), is unchanged exactly when it was not longer or already ends
   * in the note at that place, is never longer than the cap plus the note,
   * and capping twice is capping once.
   */
  lemma TruncateClassCodeShape(code: string)
    ensures |TruncateClassCode(code)| <= MaxClassCode + |TruncatedNote|
    ensures TruncateClassCode(code) == code <==> |code| <= MaxClassCode || code[MaxClassCode..] == TruncatedNote
    ensures |code| <= MaxClassCode ==> code <= TruncateClassCode(code)
    ensures |code| > MaxClassCode ==> (code[..MaxClassCode] <= TruncateClassCode(code) &&
      TruncateClassCode(code)[MaxClassCode..] == TruncatedNote)
    ensures TruncateClassCode(TruncateClassCode(code)) == TruncateClassCode(code)
  {
    if |code| > MaxClassCode {
      var t := TruncateClassCode(code);
      assert |t| == MaxClassCode + |TruncatedNote|;
      assert t[..MaxClassCode] == code[..MaxClassCode];
    }
  }

  predicate IsDoubleQuote(c: char) { c == '"' }
  predicate IsSingleQuote(c: char) { c == '\'' }

  /**
   * `literal.strip('"""').strip("'''").strip()`: the docstring made from the
   * text of the string literal that opens a body. `str.strip` takes a set of
   * characters, so this drops every `"` at either end, then every `'`, then
   * the white space.
   */
  function DocstringText(literal: string): (r: string)
    ensures |r| <= |literal|
  {
    Strip(StripBy(StripBy(literal, IsDoubleQuote), IsSingleQuote))
  }

  predicate IsQuoteOrSpace(c: char) {
    c == '"' || c == '\'' || IsSpace(c)
  }

  /** A docstring whose text neither starts nor ends with a quote or white space comes back whole from the literal. */
  lemma DocstringOfQuoted(text: string)
    requires text == [] || (!IsQuoteOrSpace(text[0]) && !IsQuoteOrSpace(text[|text| - 1]))
    ensures DocstringText("\"\"\"" + text + "\"\"\"") == text
    ensures DocstringText("'''" + text + "'''") == text
    ensures DocstringText("\"" + text + "\"") == text
  {
    DocstringDelimited("\"\"\"", '"', text);
    DocstringDelimited("'''", '\'', text);
    DocstringDelimited("\"", '"', text);
  }

  /** The docstring of `q + text + q` for a delimiter `q` of one or three quotes of one kind. */
  lemma DocstringDelimited(q: string, quote: char, text: string)
    requires quote == '"' || quote == '\''
    requires q == [quote] || q == [quote, quote, quote]
    requires text == [] || (!IsQuoteOrSpace(text[0]) && !IsQuoteOrSpace(text[|text| - 1]))
    ensures DocstringText(q + text + q) == text
  {
    var s := q + text + q;
    assert forall k :: 0 <= k < |q| ==> q[k] == quote;
    if quote == '"' {
      StripDelimiters(s, q, text, IsDoubleQuote);
      StripByNoop(text, IsSingleQuote);
    } else {
      StripByNoop(s, IsDoubleQuote);
      StripDelimiters(s, q, text, IsSingleQuote);
    }
    StripByNoop(text, IsSpace);
  }

  /** Stripping the characters a delimiter is made of, around a text that does not start or end with one. */
  lemma StripDelimiters(s: string, q: string, text: string, drop: char -> bool)
    requires s == q + text + q
    requires forall k :: 0 <= k < |q| ==> drop(q[k])
    requires text == [] || (!drop(text[0]) && !drop(text[|text| - 1]))
    ensures StripBy(s, drop) == text
  {
    assert s == q + (text + q);
    TrimLeftPast(q, text + q, drop);
    if text == [] {
      assert q == q + [];
      TrimLeftPast(q, [], drop);
    } else {
      assert TrimLeft(text + q, drop) == text + q;
      TrimRightPast(text, q, drop);
      assert TrimRight(text, drop) == text;
    }
  }

  /** Trimming on the left goes through a prefix of dropped characters. */
  lemma {:induction false} TrimLeftPast(p: string, t: string, drop: char -> bool)
    requires forall k :: 0 <= k < |p| ==> drop(p[k])
    ensures TrimLeft(p + t, drop) == TrimLeft(t, drop)
    decreases |p|
  {
    if p != [] {
      assert (p + t)[1..] == p[1..] + t;
      TrimLeftPast(p[1..], t, drop);
    } else {
      assert p + t == t;
    }
  }

  /** Trimming on the right goes through a suffix of dropped characters. */
  lemma {:induction false} TrimRightPast(t: string, p: string, drop: char -> bool)
    requires forall k :: 0 <= k < |p| ==> drop(p[k])
    ensures TrimRight(t + p, drop) == TrimRight(t, drop)
    decreases |p|
  {
    if p != [] {
      assert (t + p)[..|t + p| - 1] == t + p[..|p| - 1];
      TrimRightPast(t, p[..|p| - 1], drop);
    } else {
      assert t + p == t;
    }
  }

  const TripleDouble := "\"\"\""
  const TripleSingle := "'''"

  /**
   * Because `strip` takes a set of characters, a docstring that ends in a
   * quotation mark of its own loses it: `"""Say 'hi'"""` gives `Say 'hi`.
   */
  lemma DocstringLosesClosingQuote(t: string)
    requires t != [] && !IsQuoteOrSpace(t[0]) && !IsQuoteOrSpace(t[|t| - 1])
    ensures DocstringText(TripleDouble + (t + "'") + TripleDouble) == t
  {
    var inner := t + "'";
    assert inner[0] == t[0] && inner[|inner| - 1] == '\'';
    StripDelimiters(TripleDouble + inner + TripleDouble, TripleDouble, inner, IsDoubleQuote);
    StripOneTrailing(t, "'", IsSingleQuote);
    StripByNoop(t, IsSpace);
  }

  /** Stripping a text followed by one dropped character removes just that character. */
  lemma StripOneTrailing(t: string, x: string, drop: char -> bool)
    requires t != [] && !drop(t[0]) && !drop(t[|t| - 1])
    requires |x| == 1 && drop(x[0])
    ensures StripBy(t + x, drop) == t
  {
    assert (t + x)[0] == t[0];
    assert TrimLeft(t + x, drop) == t + x;
    TrimRightPast(t, x, drop);
  }

  /**
   * The docstring with only its delimiters removed: three quotes of one kind
   * at both ends, else one quote of one kind at both ends, then the white
   * space.
   */
  function DocstringTextFixed(literal: string): (r: string)
    ensures |r| <= |literal|
  {
    var n := |literal|;
    if n >= 6 && ((literal[..3] == TripleDouble && literal[n - 3..] == TripleDouble) ||
                  (literal[..3] == TripleSingle && literal[n - 3..] == TripleSingle)) then
      Strip(literal[3..n - 3])
    else if n >= 2 && literal[0] == literal[n - 1] && (literal[0] == '"' || literal[0] == '\'') then
      Strip(literal[1..n - 1])
    else
      Strip(literal)
  }

  /** Whatever the docstring holds, quotes included, it comes back from its triple-quoted literal, stripped of white space. */
  lemma DocstringFixedRoundTrip(text: string)
    ensures DocstringTextFixed(TripleDouble + text + TripleDouble) == Strip(text)
    ensures DocstringTextFixed(TripleSingle + text + TripleSingle) == Strip(text)
  {
    TripleRoundTrip(TripleDouble, text);
    TripleRoundTrip(TripleSingle, text);
  }

  lemma TripleRoundTrip(q: string, text: string)
    requires q == TripleDouble || q == TripleSingle
    ensures DocstringTextFixed(q + text + q) == Strip(text)
  {
    var lit := q + text + q;
    var n := |lit|;
    assert lit[..3] == q && lit[n - 3..] == q;
    assert lit[3..n - 3] == text;
  }

  /** The fixed docstring keeps the closing quote the set-based strip drops. */
  lemma DocstringFixedKeepsClosingQuote(t: string)
    requires t != [] && !IsQuoteOrSpace(t[0]) && !IsQuoteOrSpace(t[|t| - 1])
    ensures DocstringTextFixed(TripleDouble + (t + "'") + TripleDouble) == t + "'"
  {
    TripleRoundTrip(TripleDouble, t + "'");
    StripByNoop(t + "'", IsSpace);
  }

  /**
   * A definition the syntax tree holds: its kind, the text of its name node
   * when it has one, its source text, the text of the string literal that
   * opens its body when there is one, and its 0-based rows.
   */
  datatype Definition = Definition(
    kind: ChunkKind,
    name: Option<string>,
    code: string,
    docLiteral: Option<string>,
    startRow: nat,
    endRow: nat)

  /**
   * A chunk from a definition found in the tree: the class code is capped,
   * function code is kept whole, the docstring is read from the literal, and
   * the tree's 0-based rows become 1-based lines.
   */
  function ChunkOf(d: Definition, filePath: string): (c: Chunk)
    requires d.name.Some?
    ensures c.kind == d.kind && c.name == d.name.value && c.filePath == filePath
    ensures c.startLine == d.startRow + 1 && c.endLine == d.endRow + 1
    ensures d.kind == Function ==> c.code == d.code
    ensures d.kind == Class ==> c.code == TruncateClassCode(d.code)
    ensures d.docLiteral.None? ==> c.docstring == ""
    ensures d.docLiteral.Some? ==> c.docstring == DocstringTextFixed(d.docLiteral.value)
  {
    Chunk(d.kind, d.name.value,
          if d.kind == Class then TruncateClassCode(d.code) else d.code,
          if d.docLiteral.Some? then DocstringTextFixed(d.docLiteral.value) else "",
          filePath, d.startRow + 1, d.endRow + 1)
  }

  /** The chunks of the definitions met in a walk of the tree, in that order; a definition without a name node gives none. */
  function ExtractChunks(defs: seq<Definition>, filePath: string): (r: seq<Chunk>)
    ensures |r| <= |defs|
    ensures forall c :: c in r ==> c.filePath == filePath
    decreases |defs|
  {
    if defs == [] then []
    else
      var rest := ExtractChunks(defs[1..], filePath);
      if defs[0].name.Some? then [ChunkOf(defs[0], filePath)] + rest else rest
  }

  /** Every named definition gives exactly one chunk, in walk order. */
  lemma {:induction false} ExtractChunksNamed(defs: seq<Definition>, filePath: string)
    requires forall d :: d in defs ==> d.name.Some?
    ensures |ExtractChunks(defs, filePath)| == |defs|
    ensures forall i :: 0 <= i < |defs| ==> ExtractChunks(defs, filePath)[i] == ChunkOf(defs[i], filePath)
    decreases |defs|
  {
    if defs != [] {
      assert forall d :: d in defs[1..] ==> d in defs;
      ExtractChunksNamed(defs[1..], filePath);
      var r := ExtractChunks(defs, filePath);
      assert r == [ChunkOf(defs[0], filePath)] + ExtractChunks(defs[1..], filePath);
      assert forall i :: 1 <= i < |defs| ==> r[i] == ExtractChunks(defs[1..], filePath)[i - 1];
    }
  }
}
