/**
 * List selection as the engine writes it: order-preserving comprehension
 * filters, "the first n" after a filter, and the early-return scan over a list
 * of excluded path fragments used by both PR summary backends.
 */
module Selection {
  import opened Text

  /** `[x for x in s if p(x)]`. */
  function Filter<T(!new)>(s: seq<T>, p: T -> bool): (r: seq<T>)
    ensures |r| <= |s|
    ensures forall x :: x in r <==> x in s && p(x)
    decreases |s|
  {
    if s == [] then []
    else if p(s[0]) then [s[0]] + Filter(s[1..], p)
    else Filter(s[1..], p)
  }

  /** Filtering distributes over concatenation, so the filter keeps the input order. */
  lemma {:induction false} FilterAppend<T(!new)>(a: seq<T>, b: seq<T>, p: T -> bool)
    ensures Filter(a + b, p) == Filter(a, p) + Filter(b, p)
    decreases |a|
  {
    if a == [] {
      assert a + b == b;
    } else {
      assert (a + b)[0] == a[0] && (a + b)[1..] == a[1..] + b;
      FilterAppend(a[1..], b, p);
      if p(a[0]) {
        assert Filter(a + b, p) == [a[0]] + Filter(a[1..] + b, p);
        assert Filter(a, p) == [a[0]] + Filter(a[1..], p);
      }
    }
  }

  /** Filtering elements that are all accepted changes nothing. */
  lemma {:induction false} FilterAllAccepted<T(!new)>(s: seq<T>, p: T -> bool)
    requires forall i :: 0 <= i < |s| ==> p(s[i])
    ensures Filter(s, p) == s
    decreases |s|
  {
    if s != [] {
      assert forall i :: 1 <= i < |s| ==> s[1..][i - 1] == s[i];
      FilterAllAccepted(s[1..], p);
    }
  }

  /** Filtering elements that are all rejected gives nothing. */
  lemma {:induction false} FilterAllRejected<T(!new)>(s: seq<T>, p: T -> bool)
    requires forall i :: 0 <= i < |s| ==> !p(s[i])
    ensures Filter(s, p) == []
    decreases |s|
  {
    if s != [] {
      assert forall i :: 1 <= i < |s| ==> s[1..][i - 1] == s[i];
      FilterAllRejected(s[1..], p);
    }
  }

  /** `(x for x in patterns)` scanned with `if x in path: return False`, then `return True`. */
  function ScanExclusions(patterns: seq<string>, path: string): bool
    decreases |patterns|
  {
    if patterns == [] then true
    else if Contains(path, patterns[0]) then false
    else ScanExclusions(patterns[1..], path)
  }

  /** The early-return scan is false exactly when some pattern is a substring of the path. */
  lemma {:induction false} ScanExclusionsIff(patterns: seq<string>, path: string)
    ensures ScanExclusions(patterns, path) <==> forall p :: p in patterns ==> !Contains(path, p)
    decreases |patterns|
  {
    if patterns != [] {
      ScanExclusionsIff(patterns[1..], path);
      assert patterns[0] in patterns;
      assert forall p :: p in patterns <==> p == patterns[0] || p in patterns[1..];
    }
  }

  /** More patterns exclude at least as much. */
  lemma ScanExclusionsMonotone(few: seq<string>, many: seq<string>, path: string)
    requires forall p :: p in few ==> p in many
    ensures ScanExclusions(many, path) ==> ScanExclusions(few, path)
  {
    ScanExclusionsIff(few, path);
    ScanExclusionsIff(many, path);
  }

  /**
   * `[x for x in s if p(x)][:n]`: the first `n` elements that pass the filter
   * (for a negative `n`, all but the last `-n` of them, as Python slices do).
   */
  function FirstPassing<T(!new)>(s: seq<T>, p: T -> bool, n: int): (r: seq<T>)
    ensures forall x :: x in r ==> x in s && p(x)
    ensures r <= Filter(s, p)
    ensures 0 <= n ==> |r| == if n <= |Filter(s, p)| then n else |Filter(s, p)|
  {
    PyTake(Filter(s, p), n)
  }

  /** Number of elements of `s` that satisfy `p`, counted from the back. */
  function CountIf<T>(s: seq<T>, p: T -> bool): (n: nat)
    ensures n <= |s|
    decreases |s|
  {
    if s == [] then 0 else CountIf(s[..|s| - 1], p) + (if p(s[|s| - 1]) then 1 else 0)
  }

  /** A weaker condition counts at least as many elements. */
  lemma {:induction false} CountIfMonotone<T>(s: seq<T>, p: T -> bool, q: T -> bool)
    requires forall x :: p(x) ==> q(x)
    ensures CountIf(s, p) <= CountIf(s, q)
    decreases |s|
  {
    if s != [] {
      CountIfMonotone(s[..|s| - 1], p, q);
    }
  }
}
