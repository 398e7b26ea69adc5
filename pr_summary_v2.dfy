/**
 * The deterministic core of the second PR summary backend: hunk-level change
 * detection over a file's `git diff` (one record per hunk header, classified
 * as an addition, a deletion or a modification) and the file filter and
 * selection of its summarisation pipeline. The retry policy of its LLM call
 * is in `LlmRetry`.
 */
module PrSummaryV2 {
  import opened Wrappers
  import opened Text
  import opened Selection
  import opened HunkHeaders
  import PrSummary

  type ChangeType = PrSummary.ChangeType

  // ---------------------------------------------------------------------------
  // The hunk header pattern
  // ---------------------------------------------------------------------------

  /**
   * One match of `@@ -(\d+)(?:,(\d+))? \+(\d+)(?:,(\d+))? @@([^\n]*)`:
   * where it starts and ends in the diff, its two start numbers, the two
   * optional counts and the header tail (group 5).
   */
  datatype HeaderMatch = HeaderMatch(
    start: nat, end: nat,
    oldStart: nat, oldCount: Option<nat>,
    newStart: nat, newCount: Option<nat>,
    tail: string)

  /** The literal `lit` occurs in `s` at position `i`. */
  predicate LiteralAt(s: string, i: nat, lit: string) {
    i + |lit| <= |s| && s[i..i + |lit|] == lit
  }

  /**
   * `(?:,(\d+))?` tried at `i`: a comma and at least one digit (the digits are
   * the group), or nothing; the second component is where the match ends.
   * Backtracking cannot change the outcome: giving the group up leaves a comma
   * where the pattern next needs a space.
   */
  function OptionalCountAt(s: string, i: nat): (r: (Option<nat>, nat))
    requires i <= |s|
    ensures i <= r.1 <= |s|
    ensures r.0 == None <==> r.1 == i
  {
    if i < |s| && s[i] == ',' then
      var j := DigitsEnd(s, i + 1);
      if i + 1 < j then (Some(ParseDigits(s[i + 1..j])), j) else (None, i)
    else (None, i)
  }

  /** `[^\n]*` tried at `i`: where the text up to the next newline (or the end) stops. */
  function LineStop(s: string, i: nat): (j: nat)
    requires i <= |s|
    ensures i <= j <= |s|
    ensures forall k :: i <= k < j ==> s[k] != '\n'
    ensures j == |s| || s[j] == '\n'
    decreases |s| - i
  {
    if i < |s| && s[i] != '\n' then LineStop(s, i + 1) else i
  }

  /** A start number, its optional count, and where the rest of the pattern resumes. */
  datatype Half = Half(start: nat, count: Option<nat>, next: nat)

  /**
   * `(\d+)(?:,(\d+))?` tried at `a` and followed by the literal `lit`
   * (` +` after the old half, ` @@` after the new one).
   */
  function HalfAt(s: string, a: nat, lit: string): (r: Option<Half>)
    requires a <= |s|
    ensures r.Some? ==> a < r.value.next <= |s|
  {
    var b := DigitsEnd(s, a);
    var oc := OptionalCountAt(s, b);
    if b == a || !LiteralAt(s, oc.1, lit) then None
    else Some(Half(ParseDigits(s[a..b]), oc.0, oc.1 + |lit|))
  }

  /** The pattern tried at one position of the diff, as `re.finditer` tries it. */
  function MatchAt(s: string, i: nat): (r: Option<HeaderMatch>)
    requires i <= |s|
    ensures r.Some? ==> r.value.start == i && i < r.value.end <= |s|
  {
    if !LiteralAt(s, i, "@@ -") then None
    else
      var oldHalf := HalfAt(s, i + 4, " +");
      if oldHalf.None? then None
      else
        var newHalf := HalfAt(s, oldHalf.value.next, " @@");
        if newHalf.None? then None
        else
          var g := newHalf.value.next;
          var h := LineStop(s, g);
          Some(HeaderMatch(i, h, oldHalf.value.start, oldHalf.value.count, newHalf.value.start, newHalf.value.count, s[g..h]))
  }

  /** `re.finditer`: matches scanned left to right, each search resuming where the last match ended. */
  function Headers(s: string, i: nat): (r: seq<HeaderMatch>)
    requires i <= |s|
    ensures forall k :: 0 <= k < |r| ==> i <= r[k].start
    ensures Ordered(s, r)
    decreases |s| - i
  {
    if i == |s| then []
    else
      match MatchAt(s, i)
      case Some(m) =>
        var rest := Headers(s, m.end);
        OrderedCons(s, i, m, rest);
        [m] + rest
      case None => Headers(s, i + 1)
  }

  /** A match followed by later, ordered matches gives ordered matches. */
  lemma OrderedCons(s: string, i: nat, m: HeaderMatch, rest: seq<HeaderMatch>)
    requires i <= m.start < m.end <= |s|
    requires forall k :: 0 <= k < |rest| ==> m.end <= rest[k].start
    requires Ordered(s, rest)
    ensures forall k :: 0 <= k < |[m] + rest| ==> i <= ([m] + rest)[k].start
    ensures Ordered(s, [m] + rest)
  {
    var r := [m] + rest;
    assert forall k :: 1 <= k < |r| ==> r[k] == rest[k - 1];
  }

  /** A text without `@` holds no header match, so the scan finds nothing in it. */
  lemma {:induction false} NoHeadersWithoutAt(s: string, i: nat)
    requires i <= |s|
    requires forall p :: i <= p < |s| ==> s[p] != '@'
    ensures Headers(s, i) == []
    decreases |s| - i
  {
    if i < |s| {
      assert !LiteralAt(s, i, "@@ -") by {
        if i + 4 <= |s| { assert s[i..i + 4][0] == s[i]; }
      }
      NoHeadersWithoutAt(s, i + 1);
    }
  }

  /** A literal read where the text continues with it. */
  lemma LiteralAtConcat(s: string, i: nat, lit: string, rest: string)
    requires i <= |s| && s[i..] == lit + rest
    ensures LiteralAt(s, i, lit) && s[i + |lit|..] == rest
  {
    assert s[i..i + |lit|] == s[i..][..|lit|];
    assert s[i + |lit|..] == s[i..][|lit|..];
  }

  /** The digit run read where the text continues with digits and then a non-digit. */
  lemma DigitsAtConcat(s: string, i: nat, d: string, rest: string)
    requires i <= |s| && s[i..] == d + rest
    requires AllDigits(d) && (rest == [] || !IsDigit(rest[0]))
    ensures DigitsEnd(s, i) == i + |d| && s[i..i + |d|] == d && s[i + |d|..] == rest
  {
    assert forall k :: i <= k < i + |d| ==> s[k] == s[i..][k - i];
    assert i + |d| < |s| ==> s[i + |d|] == s[i..][|d|];
    DigitsEndAt(s, i, i + |d|);
    assert s[i..i + |d|] == s[i..][..|d|];
    assert s[i + |d|..] == s[i..][|d|..];
  }

  /** The optional count read where the text continues with a count as git writes it and a space. */
  lemma CountAtConcat(s: string, i: nat, count: Option<nat>, rest: string, j: nat)
    requires i <= |s| && s[i..] == CountText(count) + rest
    requires rest != [] && rest[0] == ' '
    requires j == i + |CountText(count)|
    ensures OptionalCountAt(s, i) == (count, j)
    ensures j <= |s| && s[j..] == rest
  {
    match count {
      case None =>
        assert s[i..] == rest;
      case Some(c) =>
        CommaCountAt(s, i, c, NatToString(c), rest, j);
    }
  }

  /** A comma, the decimal text `t` of `c`, then a space: the count `c` is read. */
  lemma CommaCountAt(s: string, i: nat, c: nat, t: string, rest: string, j: nat)
    requires t == NatToString(c)
    requires i <= |s| && s[i..] == "," + t + rest
    requires rest != [] && rest[0] == ' '
    requires j == i + 1 + |t|
    ensures OptionalCountAt(s, i) == (Some(c), j)
    ensures j <= |s| && s[j..] == rest
  {
    assert s[i..][0] == ',';
    assert s[i + 1..] == t + rest by {
      assert s[i + 1..] == s[i..][1..];
      assert ("," + t + rest)[1..] == t + rest;
    }
    DigitsAtConcat(s, i + 1, t, rest);
    ParseNatToString(c);
    CommaDigitsAt(s, i, j);
  }

  /** A comma and then digits up to `j`: the count those digits spell is read. */
  lemma CommaDigitsAt(s: string, i: nat, j: nat)
    requires i < |s| && s[i] == ',' && i + 1 < j <= |s| && DigitsEnd(s, i + 1) == j
    ensures OptionalCountAt(s, i) == (Some(ParseDigits(s[i + 1..j])), j)
  {
  }

  /** The tail read where the text continues with a newline-free tail and then a newline or the end. */
  lemma LineStopConcat(s: string, i: nat, tail: string, rest: string)
    requires i <= |s| && s[i..] == tail + rest
    requires '\n' !in tail && (rest == [] || rest[0] == '\n')
    ensures LineStop(s, i) == i + |tail| && s[i..i + |tail|] == tail
    decreases |tail|
  {
    assert s[i..i + |tail|] == s[i..][..|tail|];
    if tail != [] {
      assert s[i] == s[i..][0] == tail[0];
      assert tail[0] in tail;
      assert LineStop(s, i) == LineStop(s, i + 1);
      assert s[i + 1..] == tail[1..] + rest by {
        assert s[i + 1..] == s[i..][1..];
      }
      assert '\n' !in tail[1..] by {
        assert forall c :: c in tail[1..] ==> c in tail;
      }
      LineStopConcat(s, i + 1, tail[1..], rest);
      assert s[i..i + |tail|] == [s[i]] + s[i + 1..i + |tail|];
    } else {
      assert i < |s| ==> s[i] == s[i..][0];
    }
  }

  /**
   * One half of a header, `lit` then a start number and its count, read where
   * the text continues with it and then with a space.
   */
  lemma HalfAtConcat(s: string, p: nat, lit: string, x: nat, count: Option<nat>, rest: string, a: nat, b: nat, c: nat)
    requires p <= |s| && s[p..] == lit + (NatToString(x) + (CountText(count) + rest))
    requires rest != [] && rest[0] == ' '
    requires a == p + |lit| && b == a + |NatToString(x)| && c == b + |CountText(count)|
    ensures LiteralAt(s, p, lit)
    ensures a < b && DigitsEnd(s, a) == b && s[a..b] == NatToString(x)
    ensures AllDigits(s[a..b]) && ParseDigits(s[a..b]) == x
    ensures OptionalCountAt(s, b) == (count, c)
    ensures c <= |s| && s[c..] == rest
  {
    var d := NatToString(x);
    LiteralAtConcat(s, p, lit, d + (CountText(count) + rest));
    DigitsAtConcat(s, a, d, CountText(count) + rest);
    CountAtConcat(s, b, count, rest, c);
    ParseNatToString(x);
  }

  /**
   * A header as git writes it, up to the end of its line, is matched whole at
   * its start: the start numbers, the counts exactly as written (absent when
   * git leaves them out) and the tail.
   */
  lemma HeaderMatchRoundTrip(o: nat, oc: Option<nat>, n: nat, nc: Option<nat>, tail: string, rest: string)
    requires '\n' !in tail
    requires rest == [] || rest[0] == '\n'
    ensures MatchAt(HeaderText(o, oc, n, nc, tail) + rest, 0) ==
      Some(HeaderMatch(0, |HeaderText(o, oc, n, nc, tail)|, o, oc, n, nc, tail))
  {
    var d1, c1, d2, c2 := NatToString(o), CountText(oc), NatToString(n), CountText(nc);
    var u6 := " @@" + (tail + rest);
    var u3 := " +" + (d2 + (c2 + u6));
    var s := "@@ -" + (d1 + (c1 + u3));
    assert s == HeaderText(o, oc, n, nc, tail) + rest by {
      var w6 := " @@" + tail;
      var w5 := c2 + w6;
      var w4 := d2 + w5;
      var w3 := " +" + w4;
      var w2 := c1 + w3;
      var w1 := d1 + w2;
      assert HeaderText(o, oc, n, nc, tail) == "@@ -" + w1;
      AppendAssoc(" @@", tail, rest);
      AppendAssoc(c2, w6, rest);
      AppendAssoc(d2, w5, rest);
      AppendAssoc(" +", w4, rest);
      AppendAssoc(c1, w3, rest);
      AppendAssoc(d1, w2, rest);
      AppendAssoc("@@ -", w1, rest);
    }
    assert s[0..] == s;
    var d := 4 + |d1| + |c1| + 2;
    var g := d + |d2| + |c2| + 3;
    var end := |HeaderText(o, oc, n, nc, tail)|;
    var c := 4 + |d1| + |c1|;
    HalfRead(s, 0, "@@ -", o, oc, " +", d2 + (c2 + u6), 4, 4 + |d1|, c, d);
    ReadSecondHalf(s, c, d, n, nc, tail, rest, u6, g, end);
    MatchAtHalves(s, 0, 4, o, oc, d, n, nc, g, end, tail);
  }

  /** The second half of the header pattern and its tail, read where the text continues with them. */
  lemma ReadSecondHalf(s: string, c: nat, d: nat, n: nat, nc: Option<nat>, tail: string, rest: string, u6: string,
                       g: nat, end: nat)
    requires '\n' !in tail && (rest == [] || rest[0] == '\n')
    requires u6 == " @@" + (tail + rest)
    requires c <= |s| && s[c..] == " +" + (NatToString(n) + (CountText(nc) + u6))
    requires d == c + 2 && g == d + |NatToString(n)| + |CountText(nc)| + 3 && end == |s| - |rest|
    ensures HalfIs(s, d, " @@", n, nc, g) && g <= end <= |s|
    ensures LineStop(s, g) == end && s[g..end] == tail
  {
    var f := g - 3;
    HalfRead(s, c, " +", n, nc, " @@", tail + rest, d, d + |NatToString(n)|, f, g);
    ReadTail(s, f, g, end, tail, rest);
  }

  /**
   * One half of the header pattern read where the text continues with the
   * literal before it, the number, the optional count and the literal after it.
   */
  lemma HalfRead(s: string, p: nat, lit: string, x: nat, count: Option<nat>, nextLit: string, more: string,
                 a: nat, b: nat, c: nat, next: nat)
    requires p <= |s| && s[p..] == lit + (NatToString(x) + (CountText(count) + (nextLit + more)))
    requires nextLit != [] && nextLit[0] == ' '
    requires a == p + |lit| && b == a + |NatToString(x)| && c == b + |CountText(count)| && next == c + |nextLit|
    ensures LiteralAt(s, p, lit)
    ensures HalfIs(s, a, nextLit, x, count, next)
    ensures c <= |s| && s[c..] == nextLit + more
  {
    HalfAtConcat(s, p, lit, x, count, nextLit + more, a, b, c);
    LiteralAtConcat(s, c, nextLit, more);
    HalfAtIs(s, a, b, c, x, count, nextLit);
  }

  /** The closing `" @@"` and the tail read where the text continues with them. */
  lemma ReadTail(s: string, f: nat, g: nat, end: nat, tail: string, rest: string)
    requires '\n' !in tail && (rest == [] || rest[0] == '\n')
    requires f <= |s| && s[f..] == " @@" + (tail + rest)
    requires g == f + 3 && end == g + |tail|
    ensures LiteralAt(s, f, " @@") && g <= end <= |s|
    ensures LineStop(s, g) == end && s[g..end] == tail
  {
    LiteralAtConcat(s, f, " @@", tail + rest);
    LineStopConcat(s, g, tail, rest);
  }

  /** The half of the pattern read at `a` has number `x`, count `count` and ends at `next`. */
  predicate HalfIs(s: string, a: nat, lit: string, x: nat, count: Option<nat>, next: nat)
    requires a <= |s|
  {
    var h := HalfAt(s, a, lit);
    h.Some? && h.value.start == x && h.value.count == count && h.value.next == next
  }

  /** The header pattern matched at `i`, given its two halves and its tail. */
  lemma MatchAtHalves(s: string, i: nat, a: nat, o: nat, oc: Option<nat>, d: nat, n: nat, nc: Option<nat>, g: nat,
                      end: nat, tail: string)
    requires LiteralAt(s, i, "@@ -") && a == i + 4
    requires HalfIs(s, a, " +", o, oc, d) && d <= |s|
    requires HalfIs(s, d, " @@", n, nc, g) && g <= end <= |s|
    requires LineStop(s, g) == end && s[g..end] == tail
    ensures MatchAt(s, i) == Some(HeaderMatch(i, end, o, oc, n, nc, tail))
  {
  }

  lemma AppendAssoc(a: string, b: string, c: string)
    ensures (a + b) + c == a + (b + c)
  {
  }

  /** One half of the pattern read off at the places where its pieces end. */
  lemma HalfAtIs(s: string, a: nat, b: nat, c: nat, x: nat, count: Option<nat>, lit: string)
    requires a < b <= |s| && DigitsEnd(s, a) == b
    requires AllDigits(s[a..b]) && ParseDigits(s[a..b]) == x
    requires OptionalCountAt(s, b) == (count, c) && LiteralAt(s, c, lit)
    ensures HalfIs(s, a, lit, x, count, c + |lit|)
  {
  }

  // ---------------------------------------------------------------------------
  // detect_atomic_changes
  // ---------------------------------------------------------------------------

  /** A change record of the second backend (the dictionary it appends). */
  datatype HunkChange = HunkChange(
    changeType: ChangeType,
    context: string,
    oldLines: (int, int),
    newLines: (int, int),
    additions: seq<string>,
    deletions: seq<string>,
    summary: string)

  predicate IsAdditionLine(line: string) {
    "+" <= line && !("+++" <= line)
  }

  predicate IsDeletionLine(line: string) {
    "-" <= line && !("---" <= line)
  }

  /** The texts (first character dropped, not stripped) of the added lines, in order. */
  function AddedTexts(lines: seq<string>): (r: seq<string>)
    ensures |r| <= |lines|
    decreases |lines|
  {
    if lines == [] then []
    else
      var line := lines[|lines| - 1];
      AddedTexts(lines[..|lines| - 1]) + (if IsAdditionLine(line) then [line[1..]] else [])
  }

  /** The texts of the removed lines, in order. */
  function RemovedTexts(lines: seq<string>): (r: seq<string>)
    ensures |r| <= |lines|
    decreases |lines|
  {
    if lines == [] then []
    else
      var line := lines[|lines| - 1];
      RemovedTexts(lines[..|lines| - 1]) + (if IsDeletionLine(line) then [line[1..]] else [])
  }

  /** A hunk has added texts exactly when one of its lines is an added line. */
  lemma {:induction false} AddedTextsNonEmpty(lines: seq<string>)
    ensures AddedTexts(lines) != [] <==> exists k :: 0 <= k < |lines| && IsAdditionLine(lines[k])
    decreases |lines|
  {
    if lines != [] {
      var front := lines[..|lines| - 1];
      AddedTextsNonEmpty(front);
      assert forall k :: 0 <= k < |front| ==> front[k] == lines[k];
    }
  }

  /** A hunk has removed texts exactly when one of its lines is a removed line. */
  lemma {:induction false} RemovedTextsNonEmpty(lines: seq<string>)
    ensures RemovedTexts(lines) != [] <==> exists k :: 0 <= k < |lines| && IsDeletionLine(lines[k])
    decreases |lines|
  {
    if lines != [] {
      var front := lines[..|lines| - 1];
      RemovedTextsNonEmpty(front);
      assert forall k :: 0 <= k < |front| ==> front[k] == lines[k];
    }
  }

  /** `int(group) if group else 1`. */
  function CountOr1(count: Option<nat>): nat {
    match count
    case None => 1
    case Some(c) => c
  }

  /** `change_type.capitalize()`. */
  function TypeTitle(t: ChangeType): string {
    match t
    case Addition => "Addition"
    case Deletion => "Deletion"
    case Modification => "Modification"
  }

  /** `'modification' if additions and deletions else ('addition' if additions else 'deletion')`. */
  function Classify(additions: seq<string>, deletions: seq<string>): (t: ChangeType)
    ensures t == PrSummary.Modification <==> additions != [] && deletions != []
    ensures t == PrSummary.Addition <==> additions != [] && deletions == []
    ensures t == PrSummary.Deletion <==> additions == []
  {
    if additions != [] && deletions != [] then PrSummary.Modification
    else if additions != [] then PrSummary.Addition
    else PrSummary.Deletion
  }

  /** `f"{change_type.capitalize()} at lines {new_start}-{new_end}"`. */
  function SummaryText(t: ChangeType, newStart: int, newEnd: int): string {
    TypeTitle(t) + " at lines " + IntToString(newStart) + "-" + IntToString(newEnd)
  }

  /** The record built from a header and the added and removed texts of its hunk (`if additions or deletions`). */
  function RecordOf(m: HeaderMatch, additions: seq<string>, deletions: seq<string>): Option<HunkChange> {
    if additions == [] && deletions == [] then None
    else
      var t := Classify(additions, deletions);
      var newEnd := m.newStart + CountOr1(m.newCount) - 1;
      Some(HunkChange(t, Strip(m.tail), (m.oldStart, m.oldStart + CountOr1(m.oldCount) - 1), (m.newStart, newEnd),
                      additions, deletions, SummaryText(t, m.newStart, newEnd)))
  }

  /** The record of one hunk, or nothing when it neither adds nor removes a line. */
  function HunkRecord(m: HeaderMatch, body: string): Option<HunkChange> {
    RecordOf(m, AddedTexts(Split(body, '\n')), RemovedTexts(Split(body, '\n')))
  }

  /** Where hunk `k`'s body ends: at the next header's start, or at the end of the diff. */
  function BodyEnd(diff: string, hs: seq<HeaderMatch>, k: nat): nat
    requires k < |hs|
  {
    if k + 1 < |hs| then hs[k + 1].start else |diff|
  }

  /** The matches of a left-to-right scan: inside the diff, in order, not overlapping. */
  predicate Ordered(diff: string, hs: seq<HeaderMatch>) {
    (forall j :: 0 <= j < |hs| ==> hs[j].start < hs[j].end <= |diff|) &&
    (forall j :: 0 <= j < |hs| - 1 ==> hs[j].end <= hs[j + 1].start)
  }

  /** `diff[hunk_start:next_hunk_start]` for hunk `k`. */
  function Body(diff: string, hs: seq<HeaderMatch>, k: nat): string
    requires Ordered(diff, hs) && k < |hs|
  {
    diff[hs[k].end..BodyEnd(diff, hs, k)]
  }

  function OptList<T>(o: Option<T>): seq<T> {
    match o
    case Some(x) => [x]
    case None => []
  }

  /** The values of the present entries of `xs`, in order. */
  function Somes<T>(xs: seq<Option<T>>): (r: seq<T>)
    ensures |r| <= |xs|
    decreases |xs|
  {
    if xs == [] then [] else Somes(xs[..|xs| - 1]) + OptList(xs[|xs| - 1])
  }

  /** Collecting the present entries distributes over concatenation. */
  lemma {:induction false} SomesAppend<T>(xs: seq<Option<T>>, ys: seq<Option<T>>)
    ensures Somes(xs + ys) == Somes(xs) + Somes(ys)
    decreases |ys|
  {
    if ys == [] {
      assert xs + ys == xs;
    } else {
      var front := ys[..|ys| - 1];
      assert (xs + ys)[..|xs + ys| - 1] == xs + front;
      SomesAppend(xs, front);
    }
  }

  /** A present entry `j` lands right after the values of the entries before it. */
  lemma SomesPlaces<T>(xs: seq<Option<T>>, j: nat)
    requires j < |xs| && xs[j].Some?
    ensures |Somes(xs[..j])| < |Somes(xs)|
    ensures Somes(xs)[|Somes(xs[..j])|] == xs[j].value
  {
    assert xs == xs[..j] + ([xs[j]] + xs[j + 1..]);
    SomesAppend(xs[..j], [xs[j]] + xs[j + 1..]);
    SomesAppend([xs[j]], xs[j + 1..]);
    assert Somes([xs[j]]) == [xs[j].value] by {
      assert [xs[j]][..0] == [];
    }
  }

  /** The record, or its absence, of every header, in header order. */
  function Records(diff: string, hs: seq<HeaderMatch>): (r: seq<Option<HunkChange>>)
    requires Ordered(diff, hs)
    ensures |r| == |hs|
  {
    seq(|hs|, k requires 0 <= k < |hs| => HunkRecord(hs[k], Body(diff, hs, k)))
  }

  /** What `detect_atomic_changes` returns: the records of the hunks that add or remove a line. */
  function AtomicChangesOf(diff: string): (r: seq<HunkChange>)
    ensures |r| <= |Headers(diff, 0)|
  {
    Somes(Records(diff, Headers(diff, 0)))
  }

  /** `detect_atomic_changes`; `re.finditer` is the specification function `Headers`. */
  method DetectAtomicChanges(diff: string) returns (atomicChanges: seq<HunkChange>)
    ensures atomicChanges == AtomicChangesOf(diff)
  {
    atomicChanges := [];
    var hunks := Headers(diff, 0);
    ghost var records := Records(diff, hunks);
    for k := 0 to |hunks|
      invariant atomicChanges == Somes(records[..k])
    {
      var hunkStart := hunks[k].end;
      var nextHunkStart := if k + 1 < |hunks| then hunks[k + 1].start else |diff|;
      var hunkContent := diff[hunkStart..nextHunkStart];
      var change := SummarizeHunk(hunks[k], hunkContent);
      RecordsStep(diff, hunks, k, hunkContent, change);
      if change.Some? {
        atomicChanges := atomicChanges + [change.value];
      }
    }
    assert records[..|hunks|] == records;
  }

  /** The body of the outer loop: the record of one hunk from its header and its lines. */
  method SummarizeHunk(hunkMatch: HeaderMatch, hunkContent: string) returns (change: Option<HunkChange>)
    ensures change == HunkRecord(hunkMatch, hunkContent)
  {
    var lines := Split(hunkContent, '\n');
    var additions, deletions := CollectTexts(lines);
    if additions != [] || deletions != [] {
      var c := BuildChange(hunkMatch, additions, deletions);
      change := Some(c);
    } else {
      change := None;
    }
  }

  /** The record of a hunk that adds or removes a line, from its header and its texts. */
  method BuildChange(hunkMatch: HeaderMatch, additions: seq<string>, deletions: seq<string>) returns (c: HunkChange)
    requires additions != [] || deletions != []
    ensures RecordOf(hunkMatch, additions, deletions) == Some(c)
  {
    var oldStart: int := hunkMatch.oldStart;
    var oldCount: int := CountOr1(hunkMatch.oldCount);
    var newStart: int := hunkMatch.newStart;
    var newCount: int := CountOr1(hunkMatch.newCount);
    var context := Strip(hunkMatch.tail);
    var changeType := Classify(additions, deletions);
    var newEnd := newStart + newCount - 1;
    c := HunkChange(changeType, context, (oldStart, oldStart + oldCount - 1), (newStart, newEnd),
                    additions, deletions, SummaryText(changeType, newStart, newEnd));
    RecordOfFields(hunkMatch, additions, deletions, c);
  }

  /** A record with the fields `RecordOf` computes is the record `RecordOf` builds. */
  lemma RecordOfFields(m: HeaderMatch, additions: seq<string>, deletions: seq<string>, c: HunkChange)
    requires additions != [] || deletions != []
    requires c.changeType == Classify(additions, deletions) && c.context == Strip(m.tail)
    requires c.oldLines == (m.oldStart, m.oldStart + CountOr1(m.oldCount) - 1)
    requires c.newLines == (m.newStart, m.newStart + CountOr1(m.newCount) - 1)
    requires c.additions == additions && c.deletions == deletions
    requires c.summary == SummaryText(c.changeType, m.newStart, m.newStart + CountOr1(m.newCount) - 1)
    ensures RecordOf(m, additions, deletions) == Some(c)
  {
  }

  /** The inner loop: the texts of the added and of the removed lines, in order. */
  method CollectTexts(lines: seq<string>) returns (additions: seq<string>, deletions: seq<string>)
    ensures additions == AddedTexts(lines) && deletions == RemovedTexts(lines)
  {
    additions, deletions := [], [];
    for j := 0 to |lines|
      invariant additions == AddedTexts(lines[..j])
      invariant deletions == RemovedTexts(lines[..j])
    {
      var line := lines[j];
      TextsStep(lines, j);
      if "+" <= line && !("+++" <= line) {
        additions := additions + [line[1..]];
      } else if "-" <= line && !("---" <= line) {
        deletions := deletions + [line[1..]];
      }
    }
    assert lines[..|lines|] == lines;
  }

  /** One more line adds its text to the added or the removed texts, or to neither. */
  lemma TextsStep(lines: seq<string>, j: nat)
    requires j < |lines|
    ensures AddedTexts(lines[..j + 1]) == AddedTexts(lines[..j]) + (if IsAdditionLine(lines[j]) then [lines[j][1..]] else [])
    ensures RemovedTexts(lines[..j + 1]) == RemovedTexts(lines[..j]) + (if IsDeletionLine(lines[j]) then [lines[j][1..]] else [])
    ensures !(IsAdditionLine(lines[j]) && IsDeletionLine(lines[j]))
  {
    assert lines[..j + 1][..j] == lines[..j];
    if IsAdditionLine(lines[j]) {
      assert lines[j][0] == "+"[0];
    }
  }

  /** One more header adds its record, if it has one, to the records of the earlier headers. */
  lemma RecordsStep(diff: string, hs: seq<HeaderMatch>, k: nat, body: string, record: Option<HunkChange>)
    requires Ordered(diff, hs) && k < |hs|
    requires body == diff[hs[k].end..if k + 1 < |hs| then hs[k + 1].start else |diff|]
    requires record == HunkRecord(hs[k], body)
    ensures Somes(Records(diff, hs)[..k + 1]) == Somes(Records(diff, hs)[..k]) + OptList(record)
  {
    var r := Records(diff, hs);
    SomesSnoc(r, k);
    assert r[k] == record;
  }

  /** Collecting the present entries of one more entry appends its value, if it has one. */
  lemma SomesSnoc<T>(xs: seq<Option<T>>, k: nat)
    requires k < |xs|
    ensures Somes(xs[..k + 1]) == Somes(xs[..k]) + OptList(xs[k])
  {
    assert xs[..k + 1][..k] == xs[..k];
  }

  /** The lines of a hunk include an added line. */
  predicate HasAddition(lines: seq<string>) {
    exists k :: 0 <= k < |lines| && IsAdditionLine(lines[k])
  }

  /** The lines of a hunk include a removed line. */
  predicate HasDeletion(lines: seq<string>) {
    exists k :: 0 <= k < |lines| && IsDeletionLine(lines[k])
  }

  /** A hunk yields a record exactly when one of its lines adds or removes a line. */
  lemma HunkRecordPresent(m: HeaderMatch, body: string)
    ensures HunkRecord(m, body).Some? <==> HasAddition(Split(body, '\n')) || HasDeletion(Split(body, '\n'))
  {
    AddedTextsNonEmpty(Split(body, '\n'));
    RemovedTextsNonEmpty(Split(body, '\n'));
  }

  /** A record is a modification exactly when its hunk both adds and removes, and a deletion exactly when it adds nothing. */
  lemma HunkRecordType(m: HeaderMatch, body: string)
    requires HunkRecord(m, body).Some?
    ensures HunkRecord(m, body).value.changeType == PrSummary.Modification <==>
      HasAddition(Split(body, '\n')) && HasDeletion(Split(body, '\n'))
    ensures HunkRecord(m, body).value.changeType == PrSummary.Addition <==>
      HasAddition(Split(body, '\n')) && !HasDeletion(Split(body, '\n'))
    ensures HunkRecord(m, body).value.changeType == PrSummary.Deletion <==> !HasAddition(Split(body, '\n'))
  {
    AddedTextsNonEmpty(Split(body, '\n'));
    RemovedTextsNonEmpty(Split(body, '\n'));
  }

  /**
   * A record keeps the added and removed texts in order, the stripped header
   * tail, line ranges that run from each start over the count (1 when the
   * header leaves it out), and a summary naming the type and the new range.
   */
  lemma HunkRecordFields(m: HeaderMatch, body: string)
    requires HunkRecord(m, body).Some?
    ensures HunkRecord(m, body).value.additions == AddedTexts(Split(body, '\n'))
    ensures HunkRecord(m, body).value.deletions == RemovedTexts(Split(body, '\n'))
    ensures HunkRecord(m, body).value.context == Strip(m.tail)
    ensures HunkRecord(m, body).value.oldLines == (m.oldStart, m.oldStart + CountOr1(m.oldCount) - 1)
    ensures HunkRecord(m, body).value.newLines == (m.newStart, m.newStart + CountOr1(m.newCount) - 1)
    ensures HunkRecord(m, body).value.summary ==
      SummaryText(HunkRecord(m, body).value.changeType, m.newStart, m.newStart + CountOr1(m.newCount) - 1)
  {
  }

  /** A header without counts stands for one line on each side. */
  lemma OmittedCountsDefaultToOne(m: HeaderMatch, body: string)
    requires m.oldCount == None && m.newCount == None
    requires HunkRecord(m, body).Some?
    ensures HunkRecord(m, body).value.oldLines == (m.oldStart, m.oldStart)
    ensures HunkRecord(m, body).value.newLines == (m.newStart, m.newStart)
  {
  }

  /** The record of header `j`, when there is one, comes right after the records of the earlier headers. */
  lemma RecordPlaced(diff: string, j: nat)
    requires j < |Headers(diff, 0)|
    requires HunkRecord(Headers(diff, 0)[j], Body(diff, Headers(diff, 0), j)).Some?
    ensures |Somes(Records(diff, Headers(diff, 0))[..j])| < |AtomicChangesOf(diff)|
    ensures AtomicChangesOf(diff)[|Somes(Records(diff, Headers(diff, 0))[..j])|] ==
      HunkRecord(Headers(diff, 0)[j], Body(diff, Headers(diff, 0), j)).value
  {
    SomesPlaces(Records(diff, Headers(diff, 0)), j);
  }

  /**
   * A diff made of one header and a body without `@` yields exactly one
   * match, and so at most one record, built from the lines after the header.
   */
  lemma SingleHunkDiff(o: nat, oc: Option<nat>, n: nat, nc: Option<nat>, tail: string, body: string)
    requires '\n' !in tail && '@' !in body
    ensures Headers(HeaderText(o, oc, n, nc, tail) + "\n" + body, 0) ==
      [HeaderMatch(0, |HeaderText(o, oc, n, nc, tail)|, o, oc, n, nc, tail)]
    ensures AtomicChangesOf(HeaderText(o, oc, n, nc, tail) + "\n" + body) ==
      OptList(HunkRecord(HeaderMatch(0, |HeaderText(o, oc, n, nc, tail)|, o, oc, n, nc, tail), "\n" + body))
  {
    var h := HeaderText(o, oc, n, nc, tail);
    var s := h + "\n" + body;
    var m := HeaderMatch(0, |h|, o, oc, n, nc, tail);
    OneHeader(o, oc, n, nc, tail, body, h, s, m);
    OneHeaderRecord(s, m, h, "\n" + body);
  }

  /** The scan of one header followed by a line break and a body without `@` finds that header alone. */
  lemma OneHeader(o: nat, oc: Option<nat>, n: nat, nc: Option<nat>, tail: string, body: string,
                  h: string, s: string, m: HeaderMatch)
    requires '\n' !in tail && '@' !in body
    requires h == HeaderText(o, oc, n, nc, tail) && s == h + "\n" + body
    requires m == HeaderMatch(0, |h|, o, oc, n, nc, tail)
    ensures Headers(s, 0) == [m] && s == h + ("\n" + body)
  {
    assert s == h + ("\n" + body);
    HeaderMatchRoundTrip(o, oc, n, nc, tail, "\n" + body);
    NoAtAfter(h, body, s);
    HeadersOfOne(s, m);
  }

  lemma NoAtAfter(h: string, body: string, s: string)
    requires s == h + ("\n" + body) && '@' !in body
    ensures forall p :: |h| <= p < |s| ==> s[p] != '@'
  {
    assert forall p :: |h| <= p < |s| ==> s[p] == ("\n" + body)[p - |h|];
  }

  /** A match at the start followed by no `@` is the only match of the scan. */
  lemma HeadersOfOne(s: string, m: HeaderMatch)
    requires |s| > 0 && MatchAt(s, 0) == Some(m) && m.end <= |s|
    requires forall p :: m.end <= p < |s| ==> s[p] != '@'
    ensures Headers(s, 0) == [m]
  {
    NoHeadersWithoutAt(s, m.end);
    assert [m] + [] == [m];
  }

  /** A scan that finds one header yields the record of that header and all the text after it. */
  lemma OneHeaderRecord(s: string, m: HeaderMatch, h: string, rest: string)
    requires Headers(s, 0) == [m] && s == h + rest && m.end == |h|
    ensures AtomicChangesOf(s) == OptList(HunkRecord(m, rest))
  {
    assert s[m.end..] == rest;
    OneRecord(s, Headers(s, 0), m);
  }

  /** The records of a single match: the record of the match and all the text after it. */
  lemma OneRecord(s: string, hs: seq<HeaderMatch>, m: HeaderMatch)
    requires Ordered(s, hs) && hs == [m]
    ensures m.end <= |s| && Somes(Records(s, hs)) == OptList(HunkRecord(m, s[m.end..]))
  {
    assert hs[0] == m;
    assert Body(s, hs, 0) == s[m.end..];
    assert Records(s, hs) == [HunkRecord(m, s[m.end..])];
    assert Records(s, hs)[..0] == [];
  }

  // ---------------------------------------------------------------------------
  // should_summarize_file and files_to_summarize
  // ---------------------------------------------------------------------------

  /** The first backend's fragments plus the extension's own `.devcopilot/` directory. */
  const ExcludePatterns: seq<string> := [
    ".github/", ".devcopilot/", "pyproject.toml", "package-lock.json", "yarn.lock",
    "poetry.lock", ".min.js", ".min.css", "__pycache__", ".pyc",
    ".yml", ".yaml", "requirements.txt", "setup.py", "setup.cfg",
    ".gitignore", "LICENSE", "MANIFEST.in"]

  /** `should_summarize_file`: false exactly when some excluded fragment occurs in the path. */
  function ShouldSummarizeFile(path: string): (r: bool)
    ensures r <==> forall p :: p in ExcludePatterns ==> !Contains(path, p)
  {
    ScanExclusionsIff(ExcludePatterns, path);
    ScanExclusions(ExcludePatterns, path)
  }

  /**
   * The second filter excludes everything the first does, and differs from it
   * only on paths that contain `.devcopilot/`.
   */
  lemma FilterExtendsFirstBackend(path: string)
    ensures ShouldSummarizeFile(path) ==> PrSummary.ShouldSummarizeFile(path)
    ensures !Contains(path, ".devcopilot/") ==> (ShouldSummarizeFile(path) <==> PrSummary.ShouldSummarizeFile(path))
  {
    assert forall p :: p in PrSummary.ExcludePatterns ==> p in ExcludePatterns;
    assert forall p :: p in ExcludePatterns ==> p in PrSummary.ExcludePatterns || p == ".devcopilot/";
  }

  /** `files_to_summarize`: the first `max_files` changed files that pass the filter, in order. */
  function FilesToSummarize(changedFiles: seq<string>, maxFiles: int): (r: seq<string>)
    ensures forall f :: f in r ==> f in changedFiles && ShouldSummarizeFile(f)
    ensures r <= Filter(changedFiles, ShouldSummarizeFile)
    ensures 0 <= maxFiles ==>
      |r| == if maxFiles <= |Filter(changedFiles, ShouldSummarizeFile)| then maxFiles else |Filter(changedFiles, ShouldSummarizeFile)|
  {
    FirstPassing(changedFiles, ShouldSummarizeFile, maxFiles)
  }
}
