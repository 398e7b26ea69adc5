/**
 * The deterministic core of the first PR summary backend: the line scanner
 * that turns one file's `git diff` into atomic additions and deletions, the
 * pass that fuses a deletion and a nearby addition into a modification, the
 * enumerated change list and the other prompt helpers, and the file filters
 * of the summarisation pipeline. Git, the LLM and printing are not modelled.
 */
module PrSummary {
  import opened Wrappers
  import opened Text
  import opened Selection
  import opened HunkHeaders

  // ---------------------------------------------------------------------------
  // Atomic changes
  // ---------------------------------------------------------------------------

  /** `AtomicChange.change_type`; the engine only ever stores these three strings. */
  datatype ChangeType = Addition | Deletion | Modification

  /** The `AtomicChange` dataclass. */
  datatype AtomicChange = AtomicChange(
    changeType: ChangeType,
    lineNumber: int,
    oldLine: Option<int>,
    newLine: Option<int>,
    oldContent: Option<string>,
    newContent: Option<string>,
    context: string)

  /** An optional field inside an f-string: `None` prints as "None". */
  function OptIntText(v: Option<int>): string {
    match v
    case None => "None"
    case Some(n) => IntToString(n)
  }

  function OptText(v: Option<string>): string {
    match v
    case None => "None"
    case Some(s) => s
  }

  const Arrow := "\U{2192}"

  /** `AtomicChange.__repr__`: it opens with "Line " and closes with the content shown last, the new one unless the change is a deletion. */
  function Repr(c: AtomicChange): (r: string)
    ensures "Line " <= r
    ensures var last := if c.changeType == Deletion then OptText(c.oldContent) else OptText(c.newContent);
      |last| <= |r| && r[|r| - |last|..] == last
  {
    match c.changeType
    case Addition => "Line " + OptIntText(c.newLine) + ": + " + OptText(c.newContent)
    case Deletion => "Line " + OptIntText(c.oldLine) + ": - " + OptText(c.oldContent)
    case Modification =>
      "Line " + OptIntText(c.oldLine) + "->" + OptIntText(c.newLine) + ": " +
      OptText(c.oldContent) + " " + Arrow + " " + OptText(c.newContent)
  }

  /** Non-empty text that neither starts nor ends with whitespace: what `strip()` leaves. */
  predicate IsStrippedText(s: string) {
    s != "" && !IsSpace(s[0]) && !IsSpace(s[|s| - 1])
  }

  /** Stripped text is exactly the non-empty text that `strip()` leaves unchanged. */
  lemma StrippedTextIff(s: string)
    ensures IsStrippedText(s) <==> s != "" && Strip(s) == s
  {
    if IsStrippedText(s) {
      StripByNoop(s, IsSpace);
    }
  }

  /**
   * The shape of every record the scanner and the fusing pass produce: which
   * optional fields are set, and that the set line field equals `line_number`.
   */
  predicate WellFormed(c: AtomicChange) {
    c.lineNumber >= 0 &&
    match c.changeType
    case Addition =>
      c.oldLine == None && c.oldContent == None && c.newLine == Some(c.lineNumber) &&
      c.newContent.Some? && IsStrippedText(c.newContent.value)
    case Deletion =>
      c.newLine == None && c.newContent == None && c.oldLine == Some(c.lineNumber) &&
      c.oldContent.Some? && IsStrippedText(c.oldContent.value)
    case Modification =>
      c.oldLine == Some(c.lineNumber) && c.newLine.Some? && c.newLine.value >= 0 &&
      c.oldContent.Some? && IsStrippedText(c.oldContent.value) &&
      c.newContent.Some? && IsStrippedText(c.newContent.value)
  }

  /** For well-formed records `__repr__` shows real line numbers and contents, never "None". */
  lemma ReprOfWellFormed(c: AtomicChange)
    requires WellFormed(c)
    ensures c.changeType == Addition ==>
      Repr(c) == "Line " + IntToString(c.lineNumber) + ": + " + c.newContent.value
    ensures c.changeType == Deletion ==>
      Repr(c) == "Line " + IntToString(c.lineNumber) + ": - " + c.oldContent.value
    ensures c.changeType == Modification ==>
      Repr(c) == "Line " + IntToString(c.lineNumber) + "->" + IntToString(c.newLine.value) + ": " +
        c.oldContent.value + " " + Arrow + " " + c.newContent.value
  {
  }

  // ---------------------------------------------------------------------------
  // parse_diff_hunks
  // ---------------------------------------------------------------------------

  /**
   * `re.match(r'@@ -(\d+),?\d* \+(\d+),?\d* @@', line)`: the old and new start
   * numbers of a hunk header at the start of `line`, whatever follows it.
   * The pattern is read left to right with greedy digit runs; backtracking
   * cannot help, since a shorter `\d+` leaves a digit where the pattern next
   * needs a comma, a space or the end of `\d*`, which end at the same place.
   */
  function MatchHunkHeader(line: string): (r: Option<(nat, nat)>)
    ensures r.Some? ==> "@@ -" <= line && LineKindOf(line) == HunkHeaderLine
  {
    if !("@@ -" <= line) then None
    else
      var (d1, r1) := SplitDigits(line[4..]);
      var r2 := SkipCount(r1);
      if d1 == [] || !(" +" <= r2) then None
      else
        var (d2, r3) := SplitDigits(r2[2..]);
        var r4 := SkipCount(r3);
        if d2 == [] || !(" @@" <= r4) then None
        else Some((ParseDigits(d1), ParseDigits(d2)))
  }

  /** The branches of the per-line `if`/`elif` chain, in the order the scanner tests them. */
  datatype LineKind = HunkHeaderLine | FileHeaderLine | ContextLine | AddedLine | RemovedLine | OtherLine

  function LineKindOf(line: string): LineKind {
    if "@@" <= line then HunkHeaderLine
    else if "diff --git" <= line || "index" <= line || "---" <= line || "+++" <= line then FileHeaderLine
    else if " " <= line then ContextLine
    else if "+" <= line then AddedLine
    else if "-" <= line then RemovedLine
    else OtherLine
  }

  /** The loop-carried variables of `parse_diff_hunks`. */
  datatype ScanState = ScanState(oldNum: int, newNum: int, buffer: seq<string>, changes: seq<AtomicChange>)

  const Start := ScanState(0, 0, [], [])

  /** `context_buffer.append(text)` followed by `pop(0)` when it holds more than two lines. */
  function PushContext(buffer: seq<string>, text: string): seq<string> {
    var b := buffer + [text];
    if |b| > 2 then b[1..] else b
  }

  /** `'\n'.join(context_buffer[-2:]) if context_buffer else ""`. */
  function ContextText(buffer: seq<string>): string {
    if buffer == [] then "" else Join("\n", PyDrop(buffer, -2))
  }

  function AdditionAt(n: int, content: string, buffer: seq<string>): AtomicChange {
    AtomicChange(Addition, n, None, Some(n), None, Some(content), ContextText(buffer))
  }

  function DeletionAt(n: int, content: string, buffer: seq<string>): AtomicChange {
    AtomicChange(Deletion, n, Some(n), None, Some(content), None, ContextText(buffer))
  }

  /** What one iteration of the scanner's loop does with one line. */
  function Step(st: ScanState, line: string): ScanState {
    match LineKindOf(line)
    case HunkHeaderLine =>
      (match MatchHunkHeader(line)
       case Some(starts) => ScanState(starts.0, starts.1, [], st.changes)
       case None => st)
    case FileHeaderLine => st
    case ContextLine => ScanState(st.oldNum + 1, st.newNum + 1, PushContext(st.buffer, line[1..]), st.changes)
    case AddedLine =>
      var content := Strip(line[1..]);
      st.(newNum := st.newNum + 1,
          changes := if content != "" then st.changes + [AdditionAt(st.newNum, content, st.buffer)] else st.changes)
    case RemovedLine =>
      var content := Strip(line[1..]);
      st.(oldNum := st.oldNum + 1,
          changes := if content != "" then st.changes + [DeletionAt(st.oldNum, content, st.buffer)] else st.changes)
    case OtherLine => st
  }

  /** The scanner's state after the given lines. */
  function Scan(lines: seq<string>): ScanState
    decreases |lines|
  {
    if lines == [] then Start else Step(Scan(lines[..|lines| - 1]), lines[|lines| - 1])
  }

  /** One more line is one more step of the scanner. */
  lemma ScanStep(lines: seq<string>, i: nat)
    requires i < |lines|
    ensures Scan(lines[..i + 1]) == Step(Scan(lines[..i]), lines[i])
  {
    assert lines[..i + 1][..i] == lines[..i];
  }

  /** `parse_diff_hunks`: the atomic changes of a diff, in line order. */
  method ParseDiffHunks(diff: string) returns (changes: seq<AtomicChange>)
    ensures changes == Scan(SplitLines(diff)).changes
  {
    changes := [];
    var lines := SplitLines(diff);
    var oldLineNum: int, newLineNum: int := 0, 0;
    var contextBuffer: seq<string> := [];
    for i := 0 to |lines|
      invariant ScanState(oldLineNum, newLineNum, contextBuffer, changes) == Scan(lines[..i])
    {
      ScanStep(lines, i);
      oldLineNum, newLineNum, contextBuffer, changes := ScanLine(oldLineNum, newLineNum, contextBuffer, changes, lines[i]);
    }
    assert lines[..|lines|] == lines;
  }

  /** The body of the loop of `parse_diff_hunks`: the scanner's variables after one more line. */
  method ScanLine(oldLineNum: int, newLineNum: int, contextBuffer: seq<string>, changes: seq<AtomicChange>, line: string)
    returns (oldNext: int, newNext: int, bufferNext: seq<string>, changesNext: seq<AtomicChange>)
    ensures ScanState(oldNext, newNext, bufferNext, changesNext) ==
      Step(ScanState(oldLineNum, newLineNum, contextBuffer, changes), line)
  {
    oldNext, newNext, bufferNext, changesNext := oldLineNum, newLineNum, contextBuffer, changes;
    if "@@" <= line {
      assert LineKindOf(line) == HunkHeaderLine;
      var m := MatchHunkHeader(line);
      if m.Some? {
        oldNext := m.value.0;
        newNext := m.value.1;
        bufferNext := [];
      }
      return;
    }
    if "diff --git" <= line || "index" <= line || "---" <= line || "+++" <= line {
      assert LineKindOf(line) == FileHeaderLine;
      return;
    }
    if " " <= line {
      assert LineKindOf(line) == ContextLine;
      bufferNext := contextBuffer + [line[1..]];
      if |bufferNext| > 2 {
        bufferNext := bufferNext[1..];
      }
      oldNext := oldLineNum + 1;
      newNext := newLineNum + 1;
    } else if "+" <= line {
      assert LineKindOf(line) == AddedLine;
      newNext, changesNext := ScanAddedLine(newLineNum, contextBuffer, changes, line);
      AddedStepShape(ScanState(oldLineNum, newLineNum, contextBuffer, changes), line);
    } else if "-" <= line {
      assert LineKindOf(line) == RemovedLine;
      oldNext, changesNext := ScanRemovedLine(oldLineNum, contextBuffer, changes, line);
      RemovedStepShape(ScanState(oldLineNum, newLineNum, contextBuffer, changes), line);
    } else {
      assert LineKindOf(line) == OtherLine;
    }
  }

  /** The `+` branch: an addition when the stripped text is not empty, and the next new line number. */
  method ScanAddedLine(newLineNum: int, contextBuffer: seq<string>, changes: seq<AtomicChange>, line: string)
    returns (newNext: int, changesNext: seq<AtomicChange>)
    requires |line| >= 1
    ensures newNext == newLineNum + 1
    ensures changesNext == if Strip(line[1..]) != "" then changes + [AdditionAt(newLineNum, Strip(line[1..]), contextBuffer)] else changes
  {
    changesNext := changes;
    var content := Strip(line[1..]);
    if content != "" {
      var context := if contextBuffer != [] then Join("\n", PyDrop(contextBuffer, -2)) else "";
      changesNext := changes + [AtomicChange(Addition, newLineNum, None, Some(newLineNum), None, Some(content), context)];
    }
    newNext := newLineNum + 1;
  }

  /** The `-` branch: a deletion when the stripped text is not empty, and the next old line number. */
  method ScanRemovedLine(oldLineNum: int, contextBuffer: seq<string>, changes: seq<AtomicChange>, line: string)
    returns (oldNext: int, changesNext: seq<AtomicChange>)
    requires |line| >= 1
    ensures oldNext == oldLineNum + 1
    ensures changesNext == if Strip(line[1..]) != "" then changes + [DeletionAt(oldLineNum, Strip(line[1..]), contextBuffer)] else changes
  {
    changesNext := changes;
    var content := Strip(line[1..]);
    if content != "" {
      var context := if contextBuffer != [] then Join("\n", PyDrop(contextBuffer, -2)) else "";
      changesNext := changes + [AtomicChange(Deletion, oldLineNum, Some(oldLineNum), None, Some(content), None, context)];
    }
    oldNext := oldLineNum + 1;
  }

  /** Any line built as `@@ -<digits><count> +<digits><count> @@<tail>` matches with those digits. */
  lemma MatchHeaderPieces(d1: string, c1: string, d2: string, c2: string, tail: string)
    requires AllDigits(d1) && d1 != [] && AllDigits(d2) && d2 != []
    requires IsCountText(c1) && IsCountText(c2)
    ensures MatchHunkHeader("@@ -" + (d1 + (c1 + (" +" + (d2 + (c2 + (" @@" + tail)))))))
      == Some((ParseDigits(d1), ParseDigits(d2)))
  {
    var rest2 := " @@" + tail;
    var rest1 := " +" + (d2 + (c2 + rest2));
    var line := "@@ -" + (d1 + (c1 + rest1));
    assert line[4..] == d1 + (c1 + rest1);
    SplitDigitsConcat(d1, c1 + rest1);
    SkipCountText(c1, rest1);
    assert rest1[2..] == d2 + (c2 + rest2);
    SplitDigitsConcat(d2, c2 + rest2);
    SkipCountText(c2, rest2);
    assert " +" <= rest1 && " @@" <= rest2;
    assert SplitDigits(line[4..]) == (d1, c1 + rest1) && SkipCount(c1 + rest1) == rest1;
    assert SplitDigits(rest1[2..]) == (d2, c2 + rest2) && SkipCount(c2 + rest2) == rest2;
  }

  /** A header in the form git writes it yields its two start numbers, with or without counts. */
  lemma HunkHeaderRoundTrip(o: nat, oc: Option<nat>, n: nat, nc: Option<nat>, tail: string)
    ensures MatchHunkHeader(HeaderText(o, oc, n, nc, tail)) == Some((o, n))
  {
    MatchHeaderPieces(NatToString(o), CountText(oc), NatToString(n), CountText(nc), tail);
    ParseNatToString(o);
    ParseNatToString(n);
  }

  /** What the scanner keeps true of its state. */
  predicate StateOk(st: ScanState) {
    |st.buffer| <= 2 && st.oldNum >= 0 && st.newNum >= 0 &&
    forall k :: 0 <= k < |st.changes| ==> WellFormed(st.changes[k])
  }

  lemma AppendOk(st: ScanState, c: AtomicChange)
    requires StateOk(st) && WellFormed(c)
    ensures StateOk(st.(changes := st.changes + [c]))
  {
    var ch := st.changes + [c];
    assert forall k :: 0 <= k < |ch| ==> ch[k] == if k < |st.changes| then st.changes[k] else c;
  }

  lemma AdditionOk(n: int, content: string, buffer: seq<string>)
    requires n >= 0 && IsStrippedText(content)
    ensures WellFormed(AdditionAt(n, content, buffer))
  {
  }

  lemma DeletionOk(n: int, content: string, buffer: seq<string>)
    requires n >= 0 && IsStrippedText(content)
    ensures WellFormed(DeletionAt(n, content, buffer))
  {
  }

  lemma AddedStepShape(st: ScanState, line: string)
    requires LineKindOf(line) == AddedLine
    ensures var content := Strip(line[1..]);
      Step(st, line) == st.(newNum := st.newNum + 1,
        changes := if content != "" then st.changes + [AdditionAt(st.newNum, content, st.buffer)] else st.changes)
  {
  }

  lemma RemovedStepShape(st: ScanState, line: string)
    requires LineKindOf(line) == RemovedLine
    ensures var content := Strip(line[1..]);
      Step(st, line) == st.(oldNum := st.oldNum + 1,
        changes := if content != "" then st.changes + [DeletionAt(st.oldNum, content, st.buffer)] else st.changes)
  {
  }

  lemma AddedStepOk(st: ScanState, line: string)
    requires StateOk(st) && LineKindOf(line) == AddedLine
    ensures StateOk(Step(st, line))
  {
    AddedStepShape(st, line);
    var content := Strip(line[1..]);
    if content != "" {
      AdditionOk(st.newNum, content, st.buffer);
      AppendOk(st.(newNum := st.newNum + 1), AdditionAt(st.newNum, content, st.buffer));
    }
  }

  lemma RemovedStepOk(st: ScanState, line: string)
    requires StateOk(st) && LineKindOf(line) == RemovedLine
    ensures StateOk(Step(st, line))
  {
    RemovedStepShape(st, line);
    var content := Strip(line[1..]);
    if content != "" {
      DeletionOk(st.oldNum, content, st.buffer);
      AppendOk(st.(oldNum := st.oldNum + 1), DeletionAt(st.oldNum, content, st.buffer));
    }
  }

  lemma StepOk(st: ScanState, line: string)
    requires StateOk(st)
    ensures StateOk(Step(st, line))
  {
    match LineKindOf(line)
    case AddedLine => AddedStepOk(st, line);
    case RemovedLine => RemovedStepOk(st, line);
    case ContextLine => ContextStepOk(st, line);
    case HunkHeaderLine => HeaderStepOk(st, line);
    case FileHeaderLine =>
    case OtherLine =>
  }

  lemma ContextStepOk(st: ScanState, line: string)
    requires StateOk(st) && LineKindOf(line) == ContextLine
    ensures StateOk(Step(st, line))
  {
    assert Step(st, line) == ScanState(st.oldNum + 1, st.newNum + 1, PushContext(st.buffer, line[1..]), st.changes);
  }

  lemma HeaderStepOk(st: ScanState, line: string)
    requires StateOk(st) && LineKindOf(line) == HunkHeaderLine
    ensures StateOk(Step(st, line))
  {
    var m := MatchHunkHeader(line);
    if m.Some? {
      assert Step(st, line) == ScanState(m.value.0, m.value.1, [], st.changes);
    } else {
      assert Step(st, line) == st;
    }
  }

  /** The scanner's records are well formed and its context buffer never holds more than two lines. */
  lemma {:induction false} ScanWellFormed(lines: seq<string>)
    ensures StateOk(Scan(lines))
    decreases |lines|
  {
    if lines != [] {
      ScanWellFormed(lines[..|lines| - 1]);
      StepOk(Scan(lines[..|lines| - 1]), lines[|lines| - 1]);
    }
  }

  /** A context buffer of at most two lines is rendered as their newline join. */
  lemma ContextTextSmall(buffer: seq<string>)
    requires |buffer| <= 2
    ensures ContextText(buffer) == if buffer == [] then "" else Join("\n", buffer)
  {
    assert PyDrop(buffer, -2) == buffer;
  }

  /** A header line that the pattern accepts: it resets the counters and the buffer. */
  predicate IsHunkStart(line: string) {
    LineKindOf(line) == HunkHeaderLine && MatchHunkHeader(line).Some?
  }

  /** The lines after the last accepted hunk header (all lines when there is none). */
  function SinceHunk(lines: seq<string>): seq<string>
    decreases |lines|
  {
    if lines == [] then []
    else if IsHunkStart(lines[|lines| - 1]) then []
    else SinceHunk(lines[..|lines| - 1]) + [lines[|lines| - 1]]
  }

  /** The start numbers of the last accepted hunk header, `(0, 0)` before the first. */
  function HunkStarts(lines: seq<string>): (nat, nat)
    decreases |lines|
  {
    if lines == [] then (0, 0)
    else if IsHunkStart(lines[|lines| - 1]) then MatchHunkHeader(lines[|lines| - 1]).value
    else HunkStarts(lines[..|lines| - 1])
  }

  /** Lines that advance the old-file counter: context lines and `-` lines. */
  predicate AdvancesOld(line: string) {
    LineKindOf(line) == ContextLine || LineKindOf(line) == RemovedLine
  }

  /** Lines that advance the new-file counter: context lines and `+` lines. */
  predicate AdvancesNew(line: string) {
    LineKindOf(line) == ContextLine || LineKindOf(line) == AddedLine
  }

  /** The texts (without the leading space) of the context lines among `lines`. */
  function ContextTexts(lines: seq<string>): seq<string>
    decreases |lines|
  {
    if lines == [] then []
    else
      var line := lines[|lines| - 1];
      ContextTexts(lines[..|lines| - 1]) + (if LineKindOf(line) == ContextLine then [line[1..]] else [])
  }

  lemma PushContextKeepsLastTwo(xs: seq<string>, x: string)
    ensures PushContext(PyDrop(xs, -2), x) == PyDrop(xs + [x], -2)
  {
    if |xs| >= 2 {
      assert (xs[|xs| - 2..] + [x])[1..] == (xs + [x])[|xs| - 1..];
    }
  }

  lemma CountIfSnoc(xs: seq<string>, x: string, p: string -> bool)
    ensures CountIf(xs + [x], p) == CountIf(xs, p) + (if p(x) then 1 else 0)
  {
    assert (xs + [x])[..|xs|] == xs;
  }

  /** What one step does to the counters and the buffer. */
  lemma StepCounters(st: ScanState, line: string)
    ensures IsHunkStart(line) ==>
      (Step(st, line).oldNum == MatchHunkHeader(line).value.0 &&
       Step(st, line).newNum == MatchHunkHeader(line).value.1 && Step(st, line).buffer == [])
    ensures !IsHunkStart(line) ==>
      (Step(st, line).oldNum == st.oldNum + (if AdvancesOld(line) then 1 else 0) &&
       Step(st, line).newNum == st.newNum + (if AdvancesNew(line) then 1 else 0) &&
       Step(st, line).buffer == if LineKindOf(line) == ContextLine then PushContext(st.buffer, line[1..]) else st.buffer)
  {
  }

  /**
   * The counters are the last accepted header's start numbers advanced by the
   * lines since it that move them (whitespace-only `+`/`-` lines included),
   * and the buffer holds the last two context lines since that header.
   */
  lemma {:induction false} ScanCounters(lines: seq<string>)
    ensures Scan(lines).oldNum == HunkStarts(lines).0 + CountIf(SinceHunk(lines), AdvancesOld)
    ensures Scan(lines).newNum == HunkStarts(lines).1 + CountIf(SinceHunk(lines), AdvancesNew)
    ensures Scan(lines).buffer == PyDrop(ContextTexts(SinceHunk(lines)), -2)
    decreases |lines|
  {
    if lines != [] {
      var front, line := lines[..|lines| - 1], lines[|lines| - 1];
      ScanCounters(front);
      StepCounters(Scan(front), line);
      if !IsHunkStart(line) {
        var since := SinceHunk(front);
        CountIfSnoc(since, line, AdvancesOld);
        CountIfSnoc(since, line, AdvancesNew);
        assert (since + [line])[..|since|] == since;
        if LineKindOf(line) == ContextLine {
          PushContextKeepsLastTwo(ContextTexts(since), line[1..]);
        } else {
          assert ContextTexts(since + [line]) == ContextTexts(since);
        }
      }
    }
  }

  /** A line that produces a record: a `+` or `-` line whose text is not blank after stripping. */
  predicate Emits(line: string) {
    (LineKindOf(line) == AddedLine || LineKindOf(line) == RemovedLine) && Strip(line[1..]) != ""
  }

  predicate IsChangeLine(line: string) {
    LineKindOf(line) == AddedLine || LineKindOf(line) == RemovedLine
  }

  /**
   * Exactly the emitting lines produce records, so file headers, hunk headers,
   * context lines and blank changes never do, and there are at most as many
   * records as `+`/`-` lines.
   */
  lemma {:induction false} ScanEmitCount(lines: seq<string>)
    ensures |Scan(lines).changes| == CountIf(lines, Emits)
    ensures |Scan(lines).changes| <= CountIf(lines, IsChangeLine)
    decreases |lines|
  {
    if lines != [] {
      var init, last := lines[..|lines| - 1], lines[|lines| - 1];
      ScanEmitCount(init);
      StepEmits(Scan(init), last);
    }
    CountIfMonotone(lines, Emits, IsChangeLine);
  }

  /** One line adds a record exactly when it emits one. */
  lemma StepEmits(st: ScanState, line: string)
    ensures |Step(st, line).changes| == |st.changes| + (if Emits(line) then 1 else 0)
  {
    match LineKindOf(line)
    case AddedLine => AddedStepShape(st, line);
    case RemovedLine => RemovedStepShape(st, line);
    case _ =>
  }

  /** Records are only ever appended: those of a prefix of the input come first, in order. */
  lemma {:induction false} ScanPrefix(lines: seq<string>, i: nat)
    requires i <= |lines|
    ensures Scan(lines[..i]).changes <= Scan(lines).changes
    decreases |lines|
  {
    if i < |lines| {
      var front := lines[..|lines| - 1];
      assert front[..i] == lines[..i];
      ScanPrefix(front, i);
    } else {
      assert lines[..i] == lines;
    }
  }

  /** The record the `i`-th line appends stays at its index in the final list. */
  lemma RecordStays(lines: seq<string>, i: nat, c: AtomicChange)
    requires i < |lines|
    requires Step(Scan(lines[..i]), lines[i]).changes == Scan(lines[..i]).changes + [c]
    ensures |Scan(lines[..i]).changes| < |Scan(lines).changes|
    ensures Scan(lines).changes[|Scan(lines[..i]).changes|] == c
  {
    ScanStep(lines, i);
    ScanPrefix(lines, i + 1);
  }

  /**
   * The record a non-blank `+` line produces: it sits right after the records
   * of the earlier lines and is an addition of the stripped text at the
   * scanner's new-side counter, with the buffered context (`ScanCounters`
   * says what that counter and buffer are).
   */
  lemma AdditionRecord(lines: seq<string>, i: nat)
    requires i < |lines| && LineKindOf(lines[i]) == AddedLine && Strip(lines[i][1..]) != ""
    ensures var st := Scan(lines[..i]);
      |st.changes| < |Scan(lines).changes| &&
      Scan(lines).changes[|st.changes|] == AdditionAt(st.newNum, Strip(lines[i][1..]), st.buffer)
  {
    var st := Scan(lines[..i]);
    AddedStepShape(st, lines[i]);
    RecordStays(lines, i, AdditionAt(st.newNum, Strip(lines[i][1..]), st.buffer));
  }

  /** The record a non-blank `-` line produces, symmetric to `AdditionRecord` on the old side. */
  lemma DeletionRecord(lines: seq<string>, i: nat)
    requires i < |lines| && LineKindOf(lines[i]) == RemovedLine && Strip(lines[i][1..]) != ""
    ensures var st := Scan(lines[..i]);
      |st.changes| < |Scan(lines).changes| &&
      Scan(lines).changes[|st.changes|] == DeletionAt(st.oldNum, Strip(lines[i][1..]), st.buffer)
  {
    var st := Scan(lines[..i]);
    RemovedStepShape(st, lines[i]);
    RecordStays(lines, i, DeletionAt(st.oldNum, Strip(lines[i][1..]), st.buffer));
  }

  /** A removed line whose text starts with `--` is read as a `---` file header: no record, no counter move. */
  lemma DashedRemovalSkipped(st: ScanState, text: string)
    requires "--" <= text
    ensures Step(st, "-" + text) == st
  {
    var line := "-" + text;
    assert line[..3] == "---";
    FileHeaderStepSkips(st, line);
  }

  lemma FileHeaderStepSkips(st: ScanState, line: string)
    requires "---" <= line || "+++" <= line
    ensures Step(st, line) == st
  {
    assert !("@@" <= line) by {
      assert line[0] != '@';
    }
    assert LineKindOf(line) == FileHeaderLine;
    FileHeaderStep(st, line);
  }

  lemma FileHeaderStep(st: ScanState, line: string)
    requires LineKindOf(line) == FileHeaderLine
    ensures Step(st, line) == st
  {
  }

  /** An added line whose text starts with `++` is read as a `+++` file header in the same way. */
  lemma PlussedAdditionSkipped(st: ScanState, text: string)
    requires "++" <= text
    ensures Step(st, "+" + text) == st
  {
    var line := "+" + text;
    assert line[..3] == "+++";
    FileHeaderStepSkips(st, line);
  }

  // ---------------------------------------------------------------------------
  // detect_modifications
  // ---------------------------------------------------------------------------

  /** A deletion immediately followed by an addition at most two lines away. */
  predicate Fusible(d: AtomicChange, a: AtomicChange) {
    d.changeType == Deletion && a.changeType == Addition &&
    -2 <= d.lineNumber - a.lineNumber <= 2
  }

  /** The modification record: old side and context from the deletion, new side from the addition. */
  function Merge(d: AtomicChange, a: AtomicChange): AtomicChange {
    AtomicChange(Modification, d.lineNumber, d.oldLine, a.newLine, d.oldContent, a.newContent, d.context)
  }

  /** The greedy left-to-right fusing pass: a fused pair is consumed whole, so pairs never overlap. */
  function Fuse(cs: seq<AtomicChange>): seq<AtomicChange>
    decreases |cs|
  {
    if |cs| >= 2 && Fusible(cs[0], cs[1]) then [Merge(cs[0], cs[1])] + Fuse(cs[2..])
    else if cs == [] then []
    else [cs[0]] + Fuse(cs[1..])
  }

  /** `detect_modifications`. */
  method DetectModifications(changes: seq<AtomicChange>) returns (result: seq<AtomicChange>)
    ensures result == Fuse(changes)
  {
    if changes == [] {
      return changes;
    }
    var modified: seq<AtomicChange> := [];
    var i := 0;
    while i < |changes|
      invariant 0 <= i <= |changes|
      invariant modified + Fuse(changes[i..]) == Fuse(changes)
      decreases |changes| - i
    {
      var current := changes[i];
      if current.changeType == Deletion && i + 1 < |changes| &&
         changes[i + 1].changeType == Addition &&
         -2 <= current.lineNumber - changes[i + 1].lineNumber <= 2
      {
        var next := changes[i + 1];
        var merged := AtomicChange(Modification, current.lineNumber, current.oldLine, next.newLine,
                                   current.oldContent, next.newContent, current.context);
        FusePair(changes, i, modified, merged);
        modified := modified + [merged];
        i := i + 2;
      } else {
        FuseSingle(changes, i, modified);
        modified := modified + [current];
        i := i + 1;
      }
    }
    assert changes[i..] == [];
    return modified;
  }

  /** A fusible pair at `i` contributes its merge, and the pass resumes two records later. */
  lemma FusePair(cs: seq<AtomicChange>, i: nat, done: seq<AtomicChange>, merged: AtomicChange)
    requires i + 1 < |cs| && Fusible(cs[i], cs[i + 1]) && merged == Merge(cs[i], cs[i + 1])
    ensures done + Fuse(cs[i..]) == (done + [merged]) + Fuse(cs[i + 2..])
  {
    assert cs[i..][2..] == cs[i + 2..];
  }

  /** Any other record at `i` is kept, and the pass resumes at the next one. */
  lemma FuseSingle(cs: seq<AtomicChange>, i: nat, done: seq<AtomicChange>)
    requires i < |cs| && !(i + 1 < |cs| && Fusible(cs[i], cs[i + 1]))
    ensures done + Fuse(cs[i..]) == (done + [cs[i]]) + Fuse(cs[i + 1..])
  {
    assert cs[i..][1..] == cs[i + 1..];
  }

  predicate IsModification(c: AtomicChange) {
    c.changeType == Modification
  }

  /** No record of the list is a modification (true of everything the scanner emits). */
  predicate NoModifications(cs: seq<AtomicChange>) {
    forall k :: 0 <= k < |cs| ==> cs[k].changeType != Modification
  }

  /**
   * Fusing never lengthens the list, and on scanner output every
   * modification it produces stands for exactly two input records.
   */
  lemma {:induction false} FuseLength(cs: seq<AtomicChange>)
    ensures |Fuse(cs)| <= |cs|
    ensures NoModifications(cs) ==> |cs| == |Fuse(cs)| + |Filter(Fuse(cs), IsModification)|
    decreases |cs|
  {
    if |cs| >= 2 && Fusible(cs[0], cs[1]) {
      FuseLength(cs[2..]);
      assert NoModifications(cs) ==> NoModifications(cs[2..]);
      assert Fuse(cs)[1..] == Fuse(cs[2..]);
    } else if cs != [] {
      FuseLength(cs[1..]);
      assert NoModifications(cs) ==> NoModifications(cs[1..]);
      assert Fuse(cs)[1..] == Fuse(cs[1..]);
    }
  }

  /** With no fusible neighbours, every record passes through unchanged and in order. */
  lemma {:induction false} FuseIdentity(cs: seq<AtomicChange>)
    requires forall k :: 0 <= k < |cs| - 1 ==> !Fusible(cs[k], cs[k + 1])
    ensures Fuse(cs) == cs
    decreases |cs|
  {
    if cs != [] {
      assert forall k :: 0 <= k < |cs| - 2 ==> !Fusible(cs[1..][k], cs[1..][k + 1]);
      FuseIdentity(cs[1..]);
    }
  }

  /** Fusing keeps every record well formed. */
  lemma {:induction false} FuseWellFormed(cs: seq<AtomicChange>)
    requires forall k :: 0 <= k < |cs| ==> WellFormed(cs[k])
    ensures forall k :: 0 <= k < |Fuse(cs)| ==> WellFormed(Fuse(cs)[k])
    decreases |cs|
  {
    if |cs| >= 2 && Fusible(cs[0], cs[1]) {
      FuseWellFormed(cs[2..]);
      assert WellFormed(Merge(cs[0], cs[1]));
      assert forall k :: 1 <= k < |Fuse(cs)| ==> Fuse(cs)[k] == Fuse(cs[2..])[k - 1];
    } else if cs != [] {
      FuseWellFormed(cs[1..]);
      assert forall k :: 1 <= k < |Fuse(cs)| ==> Fuse(cs)[k] == Fuse(cs[1..])[k - 1];
    }
  }

  /** `c` is the merge of the fusible pair at `j` and `j + 1` of `cs`. */
  predicate MergedAt(cs: seq<AtomicChange>, j: int, c: AtomicChange) {
    0 <= j < |cs| - 1 && Fusible(cs[j], cs[j + 1]) && c == Merge(cs[j], cs[j + 1])
  }

  /** `c` is a record of `cs` passed through, or the merge of two adjacent records of `cs`. */
  predicate FromInput(cs: seq<AtomicChange>, c: AtomicChange) {
    c in cs || exists j :: 0 <= j < |cs| - 1 && MergedAt(cs, j, c)
  }

  /** A record that comes from a suffix of `cs` comes from `cs`. */
  lemma FromSuffix(cs: seq<AtomicChange>, d: nat, c: AtomicChange)
    requires d <= |cs| && FromInput(cs[d..], c)
    ensures FromInput(cs, c)
  {
    if c !in cs[d..] {
      var j :| 0 <= j < |cs[d..]| - 1 && MergedAt(cs[d..], j, c);
      assert cs[d..][j] == cs[j + d] && cs[d..][j + 1] == cs[j + d + 1];
      assert MergedAt(cs, j + d, c);
    }
  }

  /**
   * Where each output record comes from: every record of the fused list is an
   * input record passed through or the merge of a fusible adjacent pair. On
   * scanner output, which holds no modifications, every modification is such
   * a merge, so its line number, old side and context are the deletion's and
   * its new side is the addition's.
   */
  lemma {:induction false} FuseProvenance(cs: seq<AtomicChange>)
    ensures forall k :: 0 <= k < |Fuse(cs)| ==> FromInput(cs, Fuse(cs)[k])
    ensures NoModifications(cs) ==>
      forall k :: 0 <= k < |Fuse(cs)| && Fuse(cs)[k].changeType == Modification ==>
        exists j :: 0 <= j < |cs| - 1 && Fusible(cs[j], cs[j + 1]) &&
                    Fuse(cs)[k].lineNumber == cs[j].lineNumber && Fuse(cs)[k].oldLine == cs[j].oldLine &&
                    Fuse(cs)[k].oldContent == cs[j].oldContent && Fuse(cs)[k].context == cs[j].context &&
                    Fuse(cs)[k].newLine == cs[j + 1].newLine && Fuse(cs)[k].newContent == cs[j + 1].newContent
    decreases |cs|
  {
    var r := Fuse(cs);
    if |cs| >= 2 && Fusible(cs[0], cs[1]) {
      FuseProvenance(cs[2..]);
      assert MergedAt(cs, 0, r[0]);
      forall k | 1 <= k < |r|
        ensures FromInput(cs, r[k])
      {
        assert r[k] == Fuse(cs[2..])[k - 1];
        FromSuffix(cs, 2, r[k]);
      }
    } else if cs != [] {
      FuseProvenance(cs[1..]);
      assert r[0] == cs[0];
      forall k | 1 <= k < |r|
        ensures FromInput(cs, r[k])
      {
        assert r[k] == Fuse(cs[1..])[k - 1];
        FromSuffix(cs, 1, r[k]);
      }
    }
    forall k | 0 <= k < |r| && r[k].changeType == Modification && NoModifications(cs)
      ensures exists j :: 0 <= j < |cs| - 1 && Fusible(cs[j], cs[j + 1]) &&
                r[k].lineNumber == cs[j].lineNumber && r[k].oldLine == cs[j].oldLine &&
                r[k].oldContent == cs[j].oldContent && r[k].context == cs[j].context &&
                r[k].newLine == cs[j + 1].newLine && r[k].newContent == cs[j + 1].newContent
    {
      assert FromInput(cs, r[k]);
      assert r[k] !in cs by {
        forall i | 0 <= i < |cs|
          ensures cs[i] != r[k]
        {
          assert cs[i].changeType != Modification;
        }
      }
      var j :| 0 <= j < |cs| - 1 && MergedAt(cs, j, r[k]);
    }
  }

  /** The content of a record without its context text. */
  datatype ChangeKey = ChangeKey(
    changeType: ChangeType, lineNumber: int, oldLine: Option<int>, newLine: Option<int>,
    oldContent: Option<string>, newContent: Option<string>)

  function Key(c: AtomicChange): ChangeKey {
    ChangeKey(c.changeType, c.lineNumber, c.oldLine, c.newLine, c.oldContent, c.newContent)
  }

  function Keys(cs: seq<AtomicChange>): (r: seq<ChangeKey>)
    ensures |r| == |cs|
    decreases |cs|
  {
    if cs == [] then [] else [Key(cs[0])] + Keys(cs[1..])
  }

  /** A record read back as the scanner records it stands for: a modification as its deletion and addition. */
  function Unfuse(c: AtomicChange): seq<ChangeKey> {
    if c.changeType == Modification && c.newLine.Some? then
      [ChangeKey(Deletion, c.lineNumber, c.oldLine, None, c.oldContent, None),
       ChangeKey(Addition, c.newLine.value, None, c.newLine, None, c.newContent)]
    else [Key(c)]
  }

  function UnfuseAll(cs: seq<AtomicChange>): seq<ChangeKey>
    decreases |cs|
  {
    if cs == [] then [] else Unfuse(cs[0]) + UnfuseAll(cs[1..])
  }

  /**
   * Nothing is lost by fusing scanner output: splitting every modification
   * back into its deletion and addition gives the input records again, in
   * order; only the addition's context text is dropped.
   */
  lemma {:induction false} FuseRoundTrip(cs: seq<AtomicChange>)
    requires forall k :: 0 <= k < |cs| ==> WellFormed(cs[k])
    requires NoModifications(cs)
    ensures UnfuseAll(Fuse(cs)) == Keys(cs)
    decreases |cs|
  {
    if |cs| >= 2 && Fusible(cs[0], cs[1]) {
      FuseRoundTrip(cs[2..]);
      assert Fuse(cs)[1..] == Fuse(cs[2..]);
      assert Keys(cs) == [Key(cs[0]), Key(cs[1])] + Keys(cs[2..]) by {
        assert cs[1..][1..] == cs[2..];
      }
    } else if cs != [] {
      FuseRoundTrip(cs[1..]);
      assert Fuse(cs)[1..] == Fuse(cs[1..]);
    }
  }

  // ---------------------------------------------------------------------------
  // format_atomic_changes
  // ---------------------------------------------------------------------------

  const NoChangesText := "No atomic changes detected."

  /** One numbered entry of the enumerated change list. */
  function FormatChange(idx: nat, c: AtomicChange): string {
    match c.changeType
    case Addition =>
      NatToString(idx) + ". **Added** at line " + OptIntText(c.newLine) + ": `" + OptText(c.newContent) + "`"
    case Deletion =>
      NatToString(idx) + ". **Removed** at line " + OptIntText(c.oldLine) + ": `" + OptText(c.oldContent) + "`"
    case Modification =>
      NatToString(idx) + ". **Changed** at line " + OptIntText(c.oldLine) + ": `" +
      OptText(c.oldContent) + "` " + Arrow + " `" + OptText(c.newContent) + "`"
  }

  /** The entries of the list, numbered from 1 in list order. */
  function FormattedLines(cs: seq<AtomicChange>): (r: seq<string>)
    ensures |r| == |cs|
    decreases |cs|
  {
    if cs == [] then [] else FormattedLines(cs[..|cs| - 1]) + [FormatChange(|cs|, cs[|cs| - 1])]
  }

  /** Entry `k` is change `k` under the number `k + 1`. */
  lemma {:induction false} FormattedLineAt(cs: seq<AtomicChange>, k: nat)
    requires k < |cs|
    ensures FormattedLines(cs)[k] == FormatChange(k + 1, cs[k])
    decreases |cs|
  {
    if k < |cs| - 1 {
      FormattedLineAt(cs[..|cs| - 1], k);
    }
  }

  /** `format_atomic_changes`. */
  method FormatAtomicChanges(changes: seq<AtomicChange>) returns (text: string)
    ensures changes == [] ==> text == NoChangesText
    ensures changes != [] ==> text == Join("\n", FormattedLines(changes))
  {
    if changes == [] {
      return NoChangesText;
    }
    var formatted: seq<string> := [];
    for idx := 0 to |changes|
      invariant formatted == FormattedLines(changes[..idx])
    {
      var change := changes[idx];
      assert changes[..idx + 1][..idx] == changes[..idx];
      var entry: string;
      if change.changeType == Addition {
        entry := NatToString(idx + 1) + ". **Added** at line " + OptIntText(change.newLine) + ": `" + OptText(change.newContent) + "`";
      } else if change.changeType == Deletion {
        entry := NatToString(idx + 1) + ". **Removed** at line " + OptIntText(change.oldLine) + ": `" + OptText(change.oldContent) + "`";
      } else {
        entry := NatToString(idx + 1) + ". **Changed** at line " + OptIntText(change.oldLine) + ": `" +
                 OptText(change.oldContent) + "` " + Arrow + " `" + OptText(change.newContent) + "`";
      }
      formatted := formatted + [entry];
    }
    assert changes[..|changes|] == changes;
    return Join("\n", formatted);
  }

  /** For well-formed records an entry shows the record's own line number and text, never "None". */
  lemma FormatWellFormed(idx: nat, c: AtomicChange)
    requires WellFormed(c)
    ensures c.changeType == Addition ==>
      FormatChange(idx, c) == NatToString(idx) + ". **Added** at line " + IntToString(c.lineNumber) + ": `" + c.newContent.value + "`"
    ensures c.changeType == Deletion ==>
      FormatChange(idx, c) == NatToString(idx) + ". **Removed** at line " + IntToString(c.lineNumber) + ": `" + c.oldContent.value + "`"
    ensures c.changeType == Modification ==>
      FormatChange(idx, c) == NatToString(idx) + ". **Changed** at line " + IntToString(c.lineNumber) + ": `" +
        c.oldContent.value + "` " + Arrow + " `" + c.newContent.value + "`"
  {
  }

  /** A record text without line breaks keeps its entry on one line. */
  predicate OnOneLine(c: AtomicChange) {
    '\n' !in OptText(c.oldContent) && '\n' !in OptText(c.newContent)
  }

  lemma FormatChangeOneLine(idx: nat, c: AtomicChange)
    requires OnOneLine(c)
    ensures '\n' !in FormatChange(idx, c)
  {
    assert '\n' !in NatToString(idx) by {
      assert forall k :: 0 <= k < |NatToString(idx)| ==> IsDigit(NatToString(idx)[k]);
    }
    IntLine(c.oldLine);
    IntLine(c.newLine);
  }

  lemma IntLine(v: Option<int>)
    ensures '\n' !in OptIntText(v)
  {
    if v.Some? {
      var n := if v.value < 0 then -v.value else v.value;
      assert forall k :: 0 <= k < |NatToString(n)| ==> IsDigit(NatToString(n)[k]);
    }
  }

  lemma {:induction false} FormattedLinesOneLine(cs: seq<AtomicChange>)
    requires forall k :: 0 <= k < |cs| ==> OnOneLine(cs[k])
    ensures forall k :: 0 <= k < |cs| ==> '\n' !in FormattedLines(cs)[k]
    decreases |cs|
  {
    if cs != [] {
      var front := cs[..|cs| - 1];
      FormattedLinesOneLine(front);
      FormatChangeOneLine(|cs|, cs[|cs| - 1]);
    }
  }

  /**
   * The formatted text has one line per change, in order, so splitting it
   * at newlines gives back exactly the entries.
   */
  lemma FormattedText(cs: seq<AtomicChange>)
    requires cs != []
    requires forall k :: 0 <= k < |cs| ==> OnOneLine(cs[k])
    ensures Split(Join("\n", FormattedLines(cs)), '\n') == FormattedLines(cs)
  {
    FormattedLinesOneLine(cs);
    SplitJoin(FormattedLines(cs), '\n');
  }

  // ---------------------------------------------------------------------------
  // should_summarize_file and truncate_large_diff
  // ---------------------------------------------------------------------------

  /** The path fragments that keep a file out of the summary. */
  const ExcludePatterns: seq<string> := [
    ".github/", "pyproject.toml", "package-lock.json", "yarn.lock",
    "poetry.lock", ".min.js", ".min.css", "__pycache__", ".pyc",
    ".yml", ".yaml", "requirements.txt", "setup.py", "setup.cfg",
    ".gitignore", "LICENSE", "MANIFEST.in"]

  /** `should_summarize_file`: false exactly when some excluded fragment occurs in the path. */
  function ShouldSummarizeFile(path: string): (r: bool)
    ensures r <==> forall p :: p in ExcludePatterns ==> !Contains(path, p)
  {
    ScanExclusionsIff(ExcludePatterns, path);
    ScanExclusions(ExcludePatterns, path)
  }

  const TruncationMarker := "\n... [truncated middle section] ...\n"

  /** `truncate_large_diff`, as written: the first and last `max_lines // 2` lines around a marker. */
  function TruncateLargeDiff(diff: string, maxLines: int): (r: string)
    ensures |SplitLines(diff)| > maxLines ==> Contains(r, TruncationMarker)
  {
    var lines := SplitLines(diff);
    if |lines| <= maxLines then diff
    else
      var half := maxLines / 2;
      var kept := PyTake(lines, half) + [TruncationMarker] + PyDrop(lines, -half);
      JoinContainsPart("\n", kept, |PyTake(lines, half)|);
      Join("\n", kept)
  }

  /** A diff of at most `max_lines` lines is returned as it is. */
  lemma TruncateShortDiff(diff: string, maxLines: int)
    requires |SplitLines(diff)| <= maxLines
    ensures TruncateLargeDiff(diff, maxLines) == diff
  {
  }

  /**
   * For `max_lines >= 2` a longer diff keeps only its first and last
   * `max_lines // 2` lines, which together are fewer than its lines.
   */
  lemma TruncateLongDiff(diff: string, maxLines: int)
    requires maxLines >= 2 && |SplitLines(diff)| > maxLines
    ensures var lines := SplitLines(diff);
      var half := maxLines / 2;
      1 <= half && 2 * half <= maxLines < |lines| &&
      TruncateLargeDiff(diff, maxLines) ==
        Join("\n", lines[..half] + [TruncationMarker] + lines[|lines| - half..])
  {
  }

  /**
   * With `max_lines` 1 (or 0) the half is 0 and `lines[-0:]` is the whole
   * list: a two-line diff comes back longer, with every line kept after the marker.
   */
  lemma TruncateKeepsEverythingWithTinyLimit()
    ensures TruncateLargeDiff("a\nb", 1) == TruncationMarker + "\n" + "a\nb"
  {
    var s := "a\nb";
    assert s[1..] == "\nb" && s[2..] == "b" && "b"[1..] == [] && s[..1] == "a";
    assert LineEnd("\nb") == 0;
    assert LineEnd(s) == 1;
    assert LineEnd("b") == 1;
    assert SplitLines("b") == ["b"];
    var lines := SplitLines(s);
    assert lines == ["a", "b"];
    var kept := PyTake(lines, 0) + [TruncationMarker] + PyDrop(lines, 0);
    assert kept == [TruncationMarker, "a", "b"];
    assert kept[1..] == ["a", "b"] && kept[1..][1..] == ["b"];
    assert Join("\n", ["a", "b"]) == "a\nb";
    assert Join("\n", kept) == TruncationMarker + "\n" + "a\nb";
  }

  /** The evident intent: keep `h` first and `h` last lines with `2 * h <= max_lines`, the tail sliced from `len - h`. */
  function TruncateLargeDiffFixed(diff: string, maxLines: int): (r: string)
    ensures |SplitLines(diff)| > maxLines ==> Contains(r, TruncationMarker)
  {
    var lines := SplitLines(diff);
    if |lines| <= maxLines then diff
    else
      var half := if maxLines < 0 then 0 else maxLines / 2;
      var kept := lines[..half] + [TruncationMarker] + lines[|lines| - half..];
      JoinContainsPart("\n", kept, half);
      Join("\n", kept)
  }

  /**
   * The corrected truncation of a long diff keeps `h` head and `h` tail lines
   * with `2 * h` at most `max_lines` (none for a negative limit), so fewer
   * lines than the diff has.
   */
  lemma TruncateFixedBound(diff: string, maxLines: int)
    requires |SplitLines(diff)| > maxLines
    ensures var lines := SplitLines(diff);
      var half := if maxLines < 0 then 0 else maxLines / 2;
      2 * half <= (if maxLines < 0 then 0 else maxLines) && 2 * half <= |lines| &&
      (maxLines >= 0 ==> 2 * half < |lines|) &&
      TruncateLargeDiffFixed(diff, maxLines) == Join("\n", lines[..half] + [TruncationMarker] + lines[|lines| - half..])
  {
    var lines := SplitLines(diff);
    var limit := if maxLines < 0 then 0 else maxLines;
    HalfOfLimit(limit);
  }

  lemma HalfOfLimit(limit: nat)
    ensures 2 * (limit / 2) <= limit
  {
  }

  /** Where `max_lines >= 2`, as with the defaults 100 and 150, the corrected truncation agrees with the original. */
  lemma TruncateFixedAgrees(diff: string, maxLines: int)
    requires maxLines >= 2
    ensures TruncateLargeDiffFixed(diff, maxLines) == TruncateLargeDiff(diff, maxLines)
  {
    var lines := SplitLines(diff);
    if |lines| > maxLines {
      var half := maxLines / 2;
      assert PyTake(lines, half) == lines[..half];
      assert PyDrop(lines, -half) == lines[|lines| - half..];
    }
  }

  // ---------------------------------------------------------------------------
  // create_overall_summary_prompt
  // ---------------------------------------------------------------------------

  /** `"  - " + x` for each item, in order. */
  function Bullets(items: seq<string>): (r: seq<string>)
    ensures |r| == |items|
    ensures forall k :: 0 <= k < |r| ==> r[k] == "  - " + items[k]
    decreases |items|
  {
    if items == [] then [] else [ "  - " + items[0]] + Bullets(items[1..])
  }

  /** The line added after a capped list: `  ... and N more <noun>`. */
  function MoreLine(n: nat, noun: string): string {
    "  ... and " + NatToString(n) + " more " + noun
  }

  /** The first `cap` items as bullet lines and, only when some are cut, a line counting the rest. */
  function CappedList(items: seq<string>, cap: nat, noun: string): (r: string)
    ensures |items| <= cap ==> r == Join("\n", Bullets(items))
    ensures |items| > cap ==> var more := MoreLine(|items| - cap, noun);
      |more| < |r| && r[|r| - |more|..] == more
  {
    var text := Join("\n", Bullets(PyTake(items, cap)));
    if |items| > cap then text + "\n" + MoreLine(|items| - cap, noun)
    else assert PyTake(items, cap) == items; text
  }

  /**
   * Read line by line, a capped list of one-line items is the bullets of at
   * most `cap` first items, followed by the count of the omitted ones only
   * when the cap is exceeded.
   */
  lemma CappedListLines(items: seq<string>, cap: nat, noun: string)
    requires |items| > 0 && cap > 0
    requires forall k :: 0 <= k < |items| ==> '\n' !in items[k]
    requires '\n' !in noun
    ensures var shown := if |items| <= cap then items else items[..cap];
      Split(CappedList(items, cap, noun), '\n') ==
        Bullets(shown) + (if |items| > cap then [MoreLine(|items| - cap, noun)] else [])
  {
    if |items| > cap {
      var shown, more := items[..cap], MoreLine(|items| - cap, noun);
      MoreLineOneLine(|items| - cap, noun);
      assert forall k :: 0 <= k < |shown| ==> shown[k] == items[k];
      CutListLines(shown, more);
      assert PyTake(items, cap) == shown;
      assert CappedList(items, cap, noun) == Join("\n", Bullets(shown)) + "\n" + more;
    } else {
      BulletsOneLine(items);
      assert PyTake(items, cap) == items;
      SplitJoin(Bullets(items), '\n');
    }
  }

  /** The bullets of the shown items followed by one more line split back into those lines. */
  lemma CutListLines(shown: seq<string>, more: string)
    requires |shown| > 0
    requires forall k :: 0 <= k < |shown| ==> '\n' !in shown[k]
    requires '\n' !in more
    ensures Split(Join("\n", Bullets(shown)) + "\n" + more, '\n') == Bullets(shown) + [more]
  {
    var bullets := Bullets(shown);
    BulletsOneLine(shown);
    JoinSnoc("\n", bullets, more);
    OneLineSnoc(bullets, more);
    SplitJoin(bullets + [more], '\n');
  }

  lemma BulletsOneLine(items: seq<string>)
    requires forall k :: 0 <= k < |items| ==> '\n' !in items[k]
    ensures forall k :: 0 <= k < |Bullets(items)| ==> '\n' !in Bullets(items)[k]
  {
    var bullets := Bullets(items);
    forall k | 0 <= k < |bullets| ensures '\n' !in bullets[k] {
      assert bullets[k] == "  - " + items[k];
    }
  }

  lemma MoreLineOneLine(n: nat, noun: string)
    requires '\n' !in noun
    ensures '\n' !in MoreLine(n, noun)
  {
    var d := NatToString(n);
    assert '\n' !in d by {
      assert forall k :: 0 <= k < |d| ==> IsDigit(d[k]);
    }
  }

  lemma OneLineSnoc(lines: seq<string>, line: string)
    requires forall k :: 0 <= k < |lines| ==> '\n' !in lines[k]
    requires '\n' !in line
    ensures forall k :: 0 <= k < |lines + [line]| ==> '\n' !in (lines + [line])[k]
  {
    var all := lines + [line];
    assert forall k :: 0 <= k < |lines| ==> all[k] == lines[k];
  }

  /** `f"{i+1}. {summary}"` for each summary, numbered from 1. */
  function Numbered(summaries: seq<string>): (r: seq<string>)
    ensures |r| == |summaries|
    decreases |summaries|
  {
    if summaries == [] then []
    else Numbered(summaries[..|summaries| - 1]) + [NatToString(|summaries|) + ". " + summaries[|summaries| - 1]]
  }

  lemma {:induction false} NumberedAt(summaries: seq<string>, k: nat)
    requires k < |summaries|
    ensures Numbered(summaries)[k] == NatToString(k + 1) + ". " + summaries[k]
    decreases |summaries|
  {
    if k < |summaries| - 1 {
      NumberedAt(summaries[..|summaries| - 1], k);
    }
  }

  /** `commits_text`: up to 10 commit bullets and the count of the rest. */
  function CommitsText(commits: seq<string>): string {
    CappedList(commits, 10, "commits")
  }

  /** `files_text`: up to 15 file bullets and the count of the rest. */
  function FilesText(changedFiles: seq<string>): string {
    CappedList(changedFiles, 15, "files")
  }

  function PromptHead(baseBranch: string, currentBranch: string, commits: seq<string>): string {
    "Summarize this pull request based only on the information below. Be concise (2-3 sentences total).\n\n" +
    "Branch: " + currentBranch + " " + Arrow + " " + baseBranch + "\n\n" +
    "Commits: " + NatToString(|commits|)
  }

  function PromptTail(changedFiles: seq<string>, fileSummaries: seq<string>): string {
    "\nChanged files: " + NatToString(|changedFiles|) + "\n" + FilesText(changedFiles) + SummariesSection(fileSummaries)
  }

  const SummariesHeading := "\n\nFile summaries:\n\n"
  const PromptClosing :=
    "\n\nProvide a brief PR summary covering: purpose, main changes, and impact. Keep it under 3 sentences total.\n\nSummary:"

  function SummariesSection(fileSummaries: seq<string>): string {
    SummariesHeading + Join("\n\n", Numbered(fileSummaries)) + PromptClosing
  }

  /**
   * `create_overall_summary_prompt`, as written: `commits_text` is built but
   * never put into the prompt, which shows only the number of commits.
   */
  function OverallSummaryPrompt(baseBranch: string, currentBranch: string, commits: seq<string>,
                                changedFiles: seq<string>, fileSummaries: seq<string>): (r: string)
    ensures Contains(r, FilesText(changedFiles)) && Contains(r, Join("\n\n", Numbered(fileSummaries)))
  {
    var head, tail := PromptHead(baseBranch, currentBranch, commits), PromptTail(changedFiles, fileSummaries);
    TailShowsFilesAndSummaries(changedFiles, fileSummaries);
    ContainsAfter(head, tail, FilesText(changedFiles));
    ContainsAfter(head, tail, Join("\n\n", Numbered(fileSummaries)));
    head + tail
  }

  /** The prompt is the same for any two commit lists of the same length: no commit message reaches it. */
  lemma OverallPromptIgnoresCommitMessages(baseBranch: string, currentBranch: string, c1: seq<string>, c2: seq<string>,
                                           changedFiles: seq<string>, fileSummaries: seq<string>)
    requires |c1| == |c2|
    ensures OverallSummaryPrompt(baseBranch, currentBranch, c1, changedFiles, fileSummaries) ==
            OverallSummaryPrompt(baseBranch, currentBranch, c2, changedFiles, fileSummaries)
  {
  }

  /** The evident intent: the capped commit list placed under the commit count. */
  function OverallSummaryPromptWithCommits(baseBranch: string, currentBranch: string, commits: seq<string>,
                                           changedFiles: seq<string>, fileSummaries: seq<string>): (r: string)
    ensures Contains(r, CommitsText(commits))
  {
    var head, tail := PromptHead(baseBranch, currentBranch, commits) + "\n", PromptTail(changedFiles, fileSummaries);
    ContainsInMiddle(head, CommitsText(commits), tail);
    head + CommitsText(commits) + tail
  }

  lemma TailShowsFilesAndSummaries(changedFiles: seq<string>, fileSummaries: seq<string>)
    ensures Contains(PromptTail(changedFiles, fileSummaries), FilesText(changedFiles))
    ensures Contains(PromptTail(changedFiles, fileSummaries), Join("\n\n", Numbered(fileSummaries)))
  {
    var pre := "\nChanged files: " + NatToString(|changedFiles|) + "\n";
    var files := FilesText(changedFiles);
    var sect := SummariesSection(fileSummaries);
    ContainsInMiddle(pre, files, sect);
    var list := Join("\n\n", Numbered(fileSummaries));
    ContainsInMiddle(SummariesHeading, list, PromptClosing);
    assert PromptTail(changedFiles, fileSummaries) == pre + files + sect;
    ContainsAfter(pre + files, sect, list);
  }

  /** The corrected prompt shows the capped commit list, the file list and the numbered summaries. */
  lemma OverallPromptWithCommitsShowsThem(baseBranch: string, currentBranch: string, commits: seq<string>,
                                          changedFiles: seq<string>, fileSummaries: seq<string>)
    ensures var p := OverallSummaryPromptWithCommits(baseBranch, currentBranch, commits, changedFiles, fileSummaries);
      Contains(p, CommitsText(commits)) && Contains(p, FilesText(changedFiles)) &&
      Contains(p, Join("\n\n", Numbered(fileSummaries)))
  {
    var head := PromptHead(baseBranch, currentBranch, commits) + "\n";
    var tail := PromptTail(changedFiles, fileSummaries);
    var c := CommitsText(commits);
    TailShowsFilesAndSummaries(changedFiles, fileSummaries);
    ContainsThree(head, c, tail, FilesText(changedFiles), Join("\n\n", Numbered(fileSummaries)));
  }

  /** A text made of a head, a middle and a tail contains the middle and whatever the tail contains. */
  lemma ContainsThree(head: string, c: string, tail: string, x: string, y: string)
    requires Contains(tail, x) && Contains(tail, y)
    ensures Contains(head + c + tail, c) && Contains(head + c + tail, x) && Contains(head + c + tail, y)
  {
    ContainsInMiddle(head, c, tail);
    ContainsAfter(head + c, tail, x);
    ContainsAfter(head + c, tail, y);
  }

  // ---------------------------------------------------------------------------
  // The selection steps of summarize_pr
  // ---------------------------------------------------------------------------

  /** A changed file that passes the filter and has a non-blank diff. */
  predicate Eligible(fileDiffs: map<string, string>, f: string) {
    ShouldSummarizeFile(f) && f in fileDiffs
  }

  /**
   * `files_to_summarize`: the first `max_files_to_summarize` changed files, in
   * order, among those that pass the filter and have a diff.
   */
  function FilesToSummarize(changedFiles: seq<string>, fileDiffs: map<string, string>, maxFiles: int): (r: seq<string>)
    ensures forall f :: f in r ==> f in changedFiles && ShouldSummarizeFile(f) && f in fileDiffs
    ensures r <= Filter(changedFiles, f => Eligible(fileDiffs, f))
    ensures 0 <= maxFiles ==> |r| == min(maxFiles, |Filter(changedFiles, f => Eligible(fileDiffs, f))|)
  {
    FirstPassing(changedFiles, f => Eligible(fileDiffs, f), maxFiles)
  }

  function min(a: int, b: int): int {
    if a <= b then a else b
  }

  /**
   * `successful_summaries`: the (file, summary) entries, in order, whose file
   * did not fail.
   */
  function SuccessfulSummaries(fileSummaries: seq<(string, string)>, failedFiles: seq<string>): (r: seq<(string, string)>)
    ensures forall e :: e in r <==> e in fileSummaries && e.0 !in failedFiles
    ensures |r| <= |fileSummaries|
  {
    Filter(fileSummaries, (e: (string, string)) => e.0 !in failedFiles)
  }

  /** `summary_list`: `"<file>: <summary>"` per successful entry. */
  function SummaryList(entries: seq<(string, string)>): (r: seq<string>)
    ensures |r| == |entries|
    ensures forall k :: 0 <= k < |r| ==> r[k] == entries[k].0 + ": " + entries[k].1
    decreases |entries|
  {
    if entries == [] then [] else [entries[0].0 + ": " + entries[0].1] + SummaryList(entries[1..])
  }

  const NoChangesSummary := "No changes detected between branches."
  const NoSuccessSummary := "No files could be summarized successfully."
  const OverallErrorSummary := "Error generating overall summary due to LLM timeout or error."

  /**
   * `overall_summary`, with the LLM answer to the overall prompt given as
   * `response` (`None` for a timeout or an error).
   */
  function OverallSummary(changedFiles: seq<string>, successful: seq<(string, string)>, response: Option<string>): (r: string)
    ensures r != ""
    ensures r == NoChangesSummary || r == NoSuccessSummary || r == OverallErrorSummary ||
            (changedFiles != [] && successful != [] && response == Some(r))
    ensures successful == [] ==> r == NoChangesSummary || r == NoSuccessSummary
    ensures response.None? ==> r == NoChangesSummary || r == NoSuccessSummary || r == OverallErrorSummary
  {
    if changedFiles == [] then NoChangesSummary
    else if successful == [] then NoSuccessSummary
    else match response
      case Some(text) => if text != "" then text else OverallErrorSummary
      case None => OverallErrorSummary
  }

  /**
   * Without a successful summary the reply to the overall prompt is never
   * used: any two replies give the same overall summary.
   */
  lemma OverallSummaryIgnoresReply(changedFiles: seq<string>, successful: seq<(string, string)>,
                                   response: Option<string>, other: Option<string>)
    requires successful == []
    ensures OverallSummary(changedFiles, successful, response) == OverallSummary(changedFiles, successful, other)
  {
  }

  /**
   * When every summarised file failed, `successful_summaries` is empty and the
   * overall summary is the no-success text, whatever the model would reply.
   */
  lemma AllFailedGivesNoSuccess(changedFiles: seq<string>, fileSummaries: seq<(string, string)>,
                                failedFiles: seq<string>, response: Option<string>)
    requires changedFiles != []
    requires forall e :: e in fileSummaries ==> e.0 in failedFiles
    ensures OverallSummary(changedFiles, SuccessfulSummaries(fileSummaries, failedFiles), response) == NoSuccessSummary
  {
    assert forall i :: 0 <= i < |fileSummaries| ==> fileSummaries[i] in fileSummaries;
    FilterAllRejected(fileSummaries, (e: (string, string)) => e.0 !in failedFiles);
  }

  /**
   * With at least one file summarised and a non-empty reply, the overall
   * summary is that reply; with no reply or an empty one it is the error text.
   */
  lemma SomeSuccessUsesReply(changedFiles: seq<string>, fileSummaries: seq<(string, string)>,
                             failedFiles: seq<string>, response: Option<string>, e: (string, string))
    requires changedFiles != []
    requires e in fileSummaries && e.0 !in failedFiles
    ensures var r := OverallSummary(changedFiles, SuccessfulSummaries(fileSummaries, failedFiles), response);
            r == (if response.Some? && response.value != "" then response.value else OverallErrorSummary)
  {
    var successful := SuccessfulSummaries(fileSummaries, failedFiles);
    assert e in successful;
  }
}
