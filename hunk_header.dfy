/**
 * Pieces shared by the two diff parsers: scanning a run of decimal digits
 * and the text of a unified-diff hunk header, `@@ -l,s +l,s @@ tail`, as git
 * writes it (the count after each comma is left out when it is 1).
 */
module HunkHeaders {
  import opened Wrappers
  import opened Text

  /** End of the maximal run of ASCII digits of `s` that starts at `i`. */
  function DigitsEnd(s: string, i: nat): (j: nat)
    requires i <= |s|
    ensures i <= j <= |s|
    ensures forall k :: i <= k < j ==> IsDigit(s[k])
    ensures j == |s| || !IsDigit(s[j])
    decreases |s| - i
  {
    if i < |s| && IsDigit(s[i]) then DigitsEnd(s, i + 1) else i
  }

  /** The digit run that starts at `i` is the one that ends at the first non-digit. */
  lemma {:induction false} DigitsEndAt(s: string, i: nat, j: nat)
    requires i <= j <= |s|
    requires forall k :: i <= k < j ==> IsDigit(s[k])
    requires j == |s| || !IsDigit(s[j])
    ensures DigitsEnd(s, i) == j
    decreases j - i
  {
    if i < j {
      DigitsEndAt(s, i + 1, j);
    }
  }

  /** Reading the digits `d` placed between `pre` and a `rest` that does not start with a digit. */
  lemma DigitsEndConcat(pre: string, d: string, rest: string)
    requires AllDigits(d)
    requires rest == [] || !IsDigit(rest[0])
    ensures DigitsEnd(pre + d + rest, |pre|) == |pre| + |d|
    ensures (pre + d + rest)[|pre|..|pre| + |d|] == d
  {
    var s := pre + d + rest;
    assert forall k :: |pre| <= k < |pre| + |d| ==> s[k] == d[k - |pre|];
    assert |pre| + |d| < |s| ==> s[|pre| + |d|] == rest[0];
    DigitsEndAt(s, |pre|, |pre| + |d|);
  }

  /** The leading maximal digit run of `s` and what follows it (a greedy `\d*`). */
  function SplitDigits(s: string): (r: (string, string))
    ensures AllDigits(r.0) && r.0 + r.1 == s
    ensures r.1 == [] || !IsDigit(r.1[0])
  {
    var j := DigitsEnd(s, 0);
    assert s[..j] + s[j..] == s;
    (s[..j], s[j..])
  }

  /** Digits followed by a non-digit split back into those digits and the rest. */
  lemma SplitDigitsConcat(d: string, rest: string)
    requires AllDigits(d)
    requires rest == [] || !IsDigit(rest[0])
    ensures SplitDigits(d + rest) == (d, rest)
  {
    DigitsEndConcat([], d, rest);
    assert [] + d + rest == d + rest;
  }

  /** Text that a `,?\d*` reads in full: empty, or a comma and digits. */
  predicate IsCountText(t: string) {
    t == [] || (t[0] == ',' && AllDigits(t[1..]))
  }

  /** What is left after the pattern `,?\d*` (an optional comma, then greedy digits). */
  function SkipCount(s: string): (r: string)
    ensures |r| <= |s|
  {
    var t := if s != [] && s[0] == ',' then s[1..] else s;
    SplitDigits(t).1
  }

  /** `,?\d*` consumes exactly a count text when a space follows it. */
  lemma SkipCountText(cnt: string, rest: string)
    requires IsCountText(cnt) && rest != [] && rest[0] == ' '
    ensures SkipCount(cnt + rest) == rest
  {
    if cnt == [] {
      assert cnt + rest == [] + rest;
      SplitDigitsConcat([], rest);
    } else {
      assert (cnt + rest)[1..] == cnt[1..] + rest;
      SplitDigitsConcat(cnt[1..], rest);
    }
  }

  /** `,<count>`, or nothing when git leaves the count out. */
  function CountText(count: Option<nat>): (t: string)
    ensures IsCountText(t)
  {
    match count
    case None => ""
    case Some(c) =>
      assert ("," + NatToString(c))[1..] == NatToString(c);
      "," + NatToString(c)
  }

  /** The hunk header line git writes; `tail` is the section heading after the closing `@@`. */
  function HeaderText(oldStart: nat, oldCount: Option<nat>, newStart: nat, newCount: Option<nat>, tail: string): string {
    "@@ -" + (NatToString(oldStart) + (CountText(oldCount) + (" +" + (NatToString(newStart) + (CountText(newCount) + (" @@" + tail))))))
  }
}
