/**
 * The JavaScript string operations the webhook handler relies on, on strings
 * of Unicode characters: `String.prototype.trim`, `startsWith`, `replace`
 * with a string pattern, and the decimal text of an integer number.
 */
module JsText {
  import opened Wrappers

  /** WhiteSpace and LineTerminator code points, the characters `trim` removes. */
  predicate IsJsSpace(c: char) {
    || c == '\t' || c == '\n' || c == '\U{000B}' || c == '\U{000C}' || c == '\r' || c == ' '
    || c == '\U{00A0}' || c == '\U{1680}' || ('\U{2000}' <= c <= '\U{200A}')
    || c == '\U{2028}' || c == '\U{2029}' || c == '\U{202F}' || c == '\U{205F}'
    || c == '\U{3000}' || c == '\U{FEFF}'
  }

  predicate AllSpace(s: string) {
    forall i :: 0 <= i < |s| ==> IsJsSpace(s[i])
  }

  /** The first index in `[lo, hi)` that holds a non-space, or `hi` when there is none. */
  function SpanStart(s: string, lo: nat, hi: nat): (k: nat)
    requires lo <= hi <= |s|
    ensures lo <= k <= hi
    ensures forall i :: lo <= i < k ==> IsJsSpace(s[i])
    ensures k == hi || !IsJsSpace(s[k])
    decreases hi - lo
  {
    if lo < hi && IsJsSpace(s[lo]) then SpanStart(s, lo + 1, hi) else lo
  }

  /** One past the last index in `[lo, hi)` that holds a non-space, or `lo` when there is none. */
  function SpanEnd(s: string, lo: nat, hi: nat): (k: nat)
    requires lo <= hi <= |s|
    ensures lo <= k <= hi
    ensures forall i :: k <= i < hi ==> IsJsSpace(s[i])
    ensures k == lo || !IsJsSpace(s[k - 1])
    decreases hi - lo
  {
    if lo < hi && IsJsSpace(s[hi - 1]) then SpanEnd(s, lo, hi - 1) else hi
  }

  /** Where the trimmed text starts in the original: the length of the leading white space. */
  function TrimOffset(s: string): (k: nat)
    ensures k <= |s|
  {
    SpanStart(s, 0, |s|)
  }

  /**
   * `s.trim()`: the infix of `s` left after removing white space at both ends.
   * Everything around it is white space, and it neither starts nor ends
   * with white space.
   */
  function Trim(s: string): (r: string)
    ensures TrimOffset(s) + |r| <= |s| && r == s[TrimOffset(s)..TrimOffset(s) + |r|]
    ensures forall i :: 0 <= i < TrimOffset(s) ==> IsJsSpace(s[i])
    ensures forall i :: TrimOffset(s) + |r| <= i < |s| ==> IsJsSpace(s[i])
    ensures r == [] || (!IsJsSpace(r[0]) && !IsJsSpace(r[|r| - 1]))
  {
    var lo := SpanStart(s, 0, |s|);
    s[lo..SpanEnd(s, lo, |s|)]
  }

  /** The scan for the first non-space stops exactly at one preceded only by white space. */
  lemma SpanStartAt(s: string, k: nat)
    requires k <= |s| && (k == |s| || !IsJsSpace(s[k]))
    requires forall i :: 0 <= i < k ==> IsJsSpace(s[i])
    ensures SpanStart(s, 0, |s|) == k
  {
  }

  /** The scan for the last non-space stops exactly after one followed only by white space. */
  lemma SpanEndAt(s: string, lo: nat, k: nat)
    requires lo <= k <= |s| && (k == lo || !IsJsSpace(s[k - 1]))
    requires forall i :: k <= i < |s| ==> IsJsSpace(s[i])
    ensures SpanEnd(s, lo, |s|) == k
  {
  }

  /** Trimming removes exactly the white space framing a text with non-space ends. */
  lemma TrimFramed(pre: string, x: string, post: string)
    requires AllSpace(pre) && AllSpace(post)
    requires x == [] || (!IsJsSpace(x[0]) && !IsJsSpace(x[|x| - 1]))
    ensures Trim(pre + x + post) == x
  {
    var s := pre + x + post;
    var lo, hi := |pre|, |pre| + |x|;
    assert forall i :: 0 <= i < lo ==> s[i] == pre[i];
    assert forall i :: hi <= i < |s| ==> s[i] == post[i - hi];
    if x == [] {
      SpanStartAt(s, |s|);
    } else {
      assert s[lo] == x[0] && s[hi - 1] == x[|x| - 1];
      SpanStartAt(s, lo);
      SpanEndAt(s, lo, hi);
      assert s[lo..hi] == x;
    }
  }

  /** A string that neither starts nor ends with white space is its own trim. */
  lemma TrimUnchanged(s: string)
    requires s == [] || (!IsJsSpace(s[0]) && !IsJsSpace(s[|s| - 1]))
    ensures Trim(s) == s
  {
    assert [] + s + [] == s;
    TrimFramed([], s, []);
  }

  /** Trimming twice changes nothing more than trimming once. */
  lemma TrimIdempotent(s: string)
    ensures Trim(Trim(s)) == Trim(s)
  {
    TrimUnchanged(Trim(s));
  }

  /** `s.startsWith(p)`. */
  predicate StartsWith(s: string, p: string) {
    |p| <= |s| && s[..|p|] == p
  }

  /** `s.indexOf(p)`: the first offset at which `p` occurs, or None for -1. */
  function IndexOf(s: string, p: string): (r: Option<nat>)
    ensures r.Some? ==> OccursAt(s, p, r.value)
    ensures r.Some? ==> forall j :: 0 <= j < r.value ==> !OccursAt(s, p, j)
    ensures r.None? ==> forall j :: 0 <= j ==> !OccursAt(s, p, j)
    decreases |s|
  {
    if StartsWith(s, p) then Some(0)
    else if s == [] then None
    else
      match IndexOf(s[1..], p)
      case None =>
        OccursShift(s, p);
        None
      case Some(i) =>
        OccursShift(s, p);
        Some(i + 1)
  }

  lemma OccursShift(s: string, p: string)
    requires s != []
    ensures forall j :: 1 <= j ==> OccursAt(s, p, j) == OccursAt(s[1..], p, j - 1)
  {
    forall j | 1 <= j ensures OccursAt(s, p, j) == OccursAt(s[1..], p, j - 1) {
      if j + |p| <= |s| {
        assert s[j..j + |p|] == s[1..][j - 1..j - 1 + |p|];
      }
    }
  }

  /** `p` occurs in `s` starting at offset `j`. */
  predicate OccursAt(s: string, p: string, j: nat) {
    j + |p| <= |s| && s[j..j + |p|] == p
  }

  /** `s.replace(p, w)` with a string pattern: only the first occurrence is replaced. */
  function ReplaceFirst(s: string, p: string, w: string): (r: string)
    ensures IndexOf(s, p).None? ==> r == s
    ensures IndexOf(s, p).Some? ==> |r| == |s| - |p| + |w|
    ensures IndexOf(s, p).Some? ==>
      exists i: nat :: OccursAt(s, p, i) && (forall j: nat :: j < i ==> !OccursAt(s, p, j))
        && r == s[..i] + w + s[i + |p|..]
  {
    match IndexOf(s, p)
    case None => s
    case Some(i) => s[..i] + w + s[i + |p|..]
  }

  /** When `s` starts with `p`, replacing `p` by nothing removes exactly that prefix. */
  lemma ReplacePrefix(s: string, p: string)
    requires StartsWith(s, p)
    ensures ReplaceFirst(s, p, "") == s[|p|..]
  {
  }

  predicate IsDigit(c: char) {
    '0' <= c <= '9'
  }

  function DigitChar(d: nat): (c: char)
    requires d < 10
    ensures IsDigit(c) && DigitValue(c) == d
  {
    ['0', '1', '2', '3', '4', '5', '6', '7', '8', '9'][d]
  }

  /** The number a string of decimal digits denotes. */
  function DigitsValue(s: string): nat
    requires forall i :: 0 <= i < |s| ==> IsDigit(s[i])
  {
    if s == [] then 0 else DigitsValue(s[..|s| - 1]) * 10 + DigitValue(s[|s| - 1])
  }

  function DigitValue(c: char): nat
    requires IsDigit(c)
  {
    c as int - '0' as int
  }

  /** The decimal text of a natural number: digits only, no leading zero, denoting `n`. */
  function NatText(n: nat): (r: string)
    ensures |r| >= 1 && forall i :: 0 <= i < |r| ==> IsDigit(r[i])
    ensures r[0] == '0' ==> n == 0 && r == "0"
    ensures DigitsValue(r) == n
  {
    if n < 10 then [DigitChar(n)]
    else
      var r := NatText(n / 10) + [DigitChar(n % 10)];
      assert r[..|r| - 1] == NatText(n / 10);
      r
  }

  /** The number a decimal text with an optional leading minus sign denotes. */
  function IntValue(s: string): int
    requires s != [] && (s[0] == '-' ==> |s| >= 2)
    requires forall i :: (if s[0] == '-' then 1 else 0) <= i < |s| ==> IsDigit(s[i])
  {
    if s[0] == '-' then -(DigitsValue(s[1..]) as int) else DigitsValue(s)
  }

  /** `${n}` for an integer number: a minus sign when negative, then its digits. */
  function IntText(n: int): (r: string)
    ensures r != [] && (r[0] == '-' <==> n < 0)
    ensures r[0] == '-' ==> |r| >= 2 && r[1] != '0'
    ensures r[0] == '0' ==> n == 0 && r == "0"
    ensures forall i :: (if r[0] == '-' then 1 else 0) <= i < |r| ==> IsDigit(r[i])
    ensures IntValue(r) == n
  {
    if n < 0 then
      var r := "-" + NatText(-n);
      assert r[1..] == NatText(-n);
      r
    else NatText(n)
  }
}
