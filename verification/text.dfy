/**
  The string helpers the command-line loop relies on: whitespace trimming,
  lower-casing and searching for a character. Strings are sequences of
  Unicode scalar values; whitespace and case are modelled over ASCII.
 */
module Text {
  import opened Results

  /** ASCII whitespace: space, and the control characters tab (U+0009)
      through carriage return (U+000D). */
  predicate IsSpace(c: char) {
    c == ' ' || c == '\t' || c == '\n' || c == '\U{B}' || c == '\U{C}' || c == '\r'
  }

  predicate AllSpace(s: string) {
    forall i :: 0 <= i < |s| ==> IsSpace(s[i])
  }

  predicate IsUpper(c: char) {
    'A' <= c <= 'Z'
  }

  predicate IsLower(c: char) {
    'a' <= c <= 'z'
  }

  /** The first position at or after `i` that holds no whitespace, or |s|. */
  function SkipSpaces(s: string, i: nat): (j: nat)
    requires i <= |s|
    ensures i <= j <= |s|
    ensures forall k :: i <= k < j ==> IsSpace(s[k])
    ensures j < |s| ==> !IsSpace(s[j])
    decreases |s| - i
  {
    if i < |s| && IsSpace(s[i]) then SkipSpaces(s, i + 1) else i
  }

  /** The end of `s[lo..j]` once its trailing whitespace is dropped. */
  function SkipSpacesBack(s: string, lo: nat, j: nat): (e: nat)
    requires lo <= j <= |s|
    ensures lo <= e <= j
    ensures forall k :: e <= k < j ==> IsSpace(s[k])
    ensures e > lo ==> !IsSpace(s[e - 1])
    decreases j
  {
    if j > lo && IsSpace(s[j - 1]) then SkipSpacesBack(s, lo, j - 1) else j
  }

  /** Removes whitespace at both ends: the result is the slice of `s` from
      its first to its last non-whitespace character. */
  function Trim(s: string): (r: string)
    ensures |r| <= |s|
    ensures |r| > 0 ==> !IsSpace(r[0]) && !IsSpace(r[|r| - 1])
  {
    var a := SkipSpaces(s, 0);
    var b := SkipSpacesBack(s, a, |s|);
    s[a..b]
  }

  /** `s` is `core` surrounded by whitespace only, and `core` neither starts
      nor ends with whitespace. */
  predicate Padded(s: string, pre: string, core: string, post: string) {
    && s == pre + core + post
    && AllSpace(pre) && AllSpace(post)
    && (|core| > 0 ==> !IsSpace(core[0]) && !IsSpace(core[|core| - 1]))
  }

  lemma SkipLeadingSpaces(s: string, i: nat, n: nat)
    requires i <= n <= |s|
    requires forall k :: i <= k < n ==> IsSpace(s[k])
    requires n < |s| ==> !IsSpace(s[n])
    ensures SkipSpaces(s, i) == n
  {
  }

  lemma SkipTrailingSpaces(s: string, lo: nat, j: nat, e: nat)
    requires lo <= e <= j <= |s|
    requires forall k :: e <= k < j ==> IsSpace(s[k])
    requires e > lo ==> !IsSpace(s[e - 1])
    ensures SkipSpacesBack(s, lo, j) == e
  {
  }

  /** Trimming recovers exactly the core of a padded string, whatever the
      padding. */
  lemma {:induction false} TrimPadded(s: string, pre: string, core: string, post: string)
    requires Padded(s, pre, core, post)
    ensures Trim(s) == core
  {
    if |core| == 0 {
      assert forall k :: 0 <= k < |s| ==> IsSpace(s[k]) by {
        forall k | 0 <= k < |s|
          ensures IsSpace(s[k])
        {
          if k < |pre| { assert s[k] == pre[k]; } else { assert s[k] == post[k - |pre|]; }
        }
      }
      SkipLeadingSpaces(s, 0, |s|);
      SkipTrailingSpaces(s, |s|, |s|, |s|);
    } else {
      var a, b := |pre|, |pre| + |core|;
      assert forall k :: 0 <= k < a ==> s[k] == pre[k];
      assert s[a] == core[0];
      SkipLeadingSpaces(s, 0, a);
      assert forall k :: b <= k < |s| ==> s[k] == post[k - b];
      assert s[b - 1] == core[|core| - 1];
      SkipTrailingSpaces(s, a, |s|, b);
      assert s[a..b] == core;
    }
  }

  /** Every string is its trimmed form padded with whitespace. */
  lemma PaddedTrim(s: string) returns (pre: string, post: string)
    ensures Padded(s, pre, Trim(s), post)
  {
    var a := SkipSpaces(s, 0);
    var b := SkipSpacesBack(s, a, |s|);
    pre := s[..a];
    post := s[b..];
    assert s == pre + s[a..b] + post;
  }

  function LowerChar(c: char): (r: char)
    ensures !IsUpper(r)
    ensures IsUpper(c) ==> r as int == c as int + 32
    ensures !IsUpper(c) ==> r == c
  {
    if IsUpper(c) then (c as int - 'A' as int + 'a' as int) as char else c
  }

  function UpperChar(c: char): (r: char)
    ensures !IsLower(r)
    ensures IsLower(c) ==> IsUpper(r) && LowerChar(r) == c
    ensures !IsLower(c) ==> r == c
  {
    if IsLower(c) then (c as int - 'a' as int + 'A' as int) as char else c
  }

  /** Lower-cases the ASCII letters of `s`, position by position. */
  function Lower(s: string): (r: string)
    ensures |r| == |s|
    ensures forall i :: 0 <= i < |s| ==> r[i] == LowerChar(s[i])
  {
    if |s| == 0 then [] else [LowerChar(s[0])] + Lower(s[1..])
  }

  /** Lower-casing leaves no upper-case letter and is idempotent. */
  lemma LowerIdempotent(s: string)
    ensures forall i :: 0 <= i < |s| ==> !IsUpper(Lower(s)[i])
    ensures Lower(Lower(s)) == Lower(s)
  {
  }

  /** The position of the first occurrence of `c` in `s`, if any. */
  function IndexOf(s: string, c: char): (r: Option<nat>)
    ensures r.None? <==> c !in s
    ensures r.Some? ==> r.value < |s| && s[r.value] == c && c !in s[..r.value]
  {
    if |s| == 0 then None
    else if s[0] == c then Some(0)
    else
      match IndexOf(s[1..], c)
      case None => None
      case Some(i) => Some(i + 1)
  }

  lemma IndexOfAfter(a: string, c: char, b: string)
    requires c !in a
    ensures IndexOf(a + [c] + b, c) == Some(|a|)
  {
    var s := a + [c] + b;
    assert s[..|a|] == a;
    assert s[|a|] == c;
  }
}
