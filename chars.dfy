/**
 * Character classes and string helpers shared by the extraction engine and
 * the date canonicaliser: Python's notion of whitespace (`str.isspace`, which
 * is also what `\s` matches in a str pattern), ASCII digits and letters,
 * ASCII case folding, `str.strip()` and decimal values of digit strings.
 */
module Chars {

  /** Python's whitespace: `str.isspace()`, `str.strip()` and regex `\s`. */
  predicate IsSpace(c: char)
  {
    c == ' ' || ('\t' <= c <= '\r') || ('\U{1C}' <= c <= '\U{1F}')
    || c == '\U{85}' || c == '\U{A0}' || c == '\U{1680}'
    || ('\U{2000}' <= c <= '\U{200A}') || c == '\U{2028}' || c == '\U{2029}'
    || c == '\U{202F}' || c == '\U{205F}' || c == '\U{3000}'
  }

  predicate IsDigit(c: char) { '0' <= c <= '9' }

  predicate IsAsciiUpper(c: char) { 'A' <= c <= 'Z' }

  predicate IsAsciiLower(c: char) { 'a' <= c <= 'z' }

  predicate IsAsciiLetter(c: char) { IsAsciiUpper(c) || IsAsciiLower(c) }

  function Lower(c: char): char
  {
    if IsAsciiUpper(c) then (c as int + 32) as char else c
  }

  function Upper(c: char): char
  {
    if IsAsciiLower(c) then (c as int - 32) as char else c
  }

  function LowerStr(s: string): (r: string)
    ensures |r| == |s|
    ensures forall i :: 0 <= i < |s| ==> r[i] == Lower(s[i])
  {
    seq(|s|, i requires 0 <= i < |s| => Lower(s[i]))
  }

  function UpperStr(s: string): (r: string)
    ensures |r| == |s|
    ensures forall i :: 0 <= i < |s| ==> r[i] == Upper(s[i])
  {
    seq(|s|, i requires 0 <= i < |s| => Upper(s[i]))
  }

  /** Folding only touches ASCII letters, so whitespace and digits fold to themselves only. */
  lemma FoldKeepsClass(x: char, c: char)
    requires Lower(x) == Lower(c)
    ensures IsSpace(x) ==> x == c
    ensures IsDigit(x) ==> x == c
  {
  }

  /** End of the maximal run of characters satisfying `p` that starts at `i`. */
  function Span(s: string, i: nat, p: char -> bool): (e: nat)
    requires i <= |s|
    ensures i <= e <= |s|
    ensures forall k :: i <= k < e ==> p(s[k])
    ensures e < |s| ==> !p(s[e])
    decreases |s| - i
  {
    if i < |s| && p(s[i]) then Span(s, i + 1, p) else i
  }

  /** A run that stops before the end of a slice stops at the same place in the whole string. */
  lemma {:induction false} SpanInSlice(s: string, a: nat, b: nat, i: nat, p: char -> bool)
    requires a <= b <= |s| && i <= b - a
    requires Span(s[a..b], i, p) < b - a
    ensures Span(s, a + i, p) == a + Span(s[a..b], i, p)
    decreases b - a - i
  {
    if i < b - a && p(s[a..b][i]) {
      SpanInSlice(s, a, b, i + 1, p);
    }
  }

  /** A run inside a prefix that stops before the prefix ends is unaffected by what follows. */
  lemma {:induction false} SpanInPrefix(u: string, t: string, i: nat, p: char -> bool)
    requires i <= |u|
    requires Span(u, i, p) < |u|
    ensures Span(u + t, i, p) == Span(u, i, p)
    decreases |u| - i
  {
    assert (u + t)[i] == u[i];
    if p(u[i]) {
      SpanInPrefix(u, t, i + 1, p);
    }
  }

  /** A run is pinned down by where the predicate holds and where it first fails. */
  lemma SpanIs(s: string, i: nat, j: nat, p: char -> bool)
    requires i <= j <= |s|
    requires forall k :: i <= k < j ==> p(s[k])
    requires j < |s| ==> !p(s[j])
    ensures Span(s, i, p) == j
  {
  }

  function TrimStart(s: string): (r: string)
    ensures |r| <= |s|
  {
    if s != [] && IsSpace(s[0]) then TrimStart(s[1..]) else s
  }

  function TrimEnd(s: string): (r: string)
    ensures |r| <= |s|
  {
    if s != [] && IsSpace(s[|s| - 1]) then TrimEnd(s[..|s| - 1]) else s
  }

  lemma {:induction false} TrimStartSpec(s: string)
    ensures var r := TrimStart(s);
      && r == s[|s| - |r|..]
      && (r != [] ==> !IsSpace(r[0]))
      && (forall i :: 0 <= i < |s| - |r| ==> IsSpace(s[i]))
  {
    if s != [] && IsSpace(s[0]) {
      TrimStartSpec(s[1..]);
    }
  }

  lemma {:induction false} TrimEndSpec(s: string)
    ensures var r := TrimEnd(s);
      && r == s[..|r|]
      && (r != [] ==> !IsSpace(r[|r| - 1]))
      && (forall i :: |r| <= i < |s| ==> IsSpace(s[i]))
  {
    if s != [] && IsSpace(s[|s| - 1]) {
      TrimEndSpec(s[..|s| - 1]);
    }
  }

  /** Python's `str.strip()` with no argument. */
  function Strip(s: string): string
  {
    TrimEnd(TrimStart(s))
  }

  /** How many leading characters strip removes. */
  function StripOffset(s: string): nat
  {
    |s| - |TrimStart(s)|
  }

  /** What strip removes is whitespace, what it keeps neither starts nor ends with whitespace. */
  lemma StripSpec(s: string)
    ensures var r, a := Strip(s), StripOffset(s);
      && a + |r| <= |s|
      && r == s[a..a + |r|]
      && (r != [] ==> !IsSpace(r[0]) && !IsSpace(r[|r| - 1]))
      && (forall i :: 0 <= i < a ==> IsSpace(s[i]))
      && (forall i :: a + |r| <= i < |s| ==> IsSpace(s[i]))
  {
    var t := TrimStart(s);
    var r := TrimEnd(t);
    var a := |s| - |t|;
    TrimStartSpec(s);
    TrimEndSpec(t);
    assert r == s[a..a + |r|];
    forall i | a + |r| <= i < |s| ensures IsSpace(s[i]) {
      assert s[i] == t[i - a];
    }
  }

  /** Strip changes nothing when there is nothing at either end to remove. */
  lemma StripNoop(s: string)
    requires s != [] ==> !IsSpace(s[0]) && !IsSpace(s[|s| - 1])
    ensures Strip(s) == s
  {
  }

  /** Strip yields the empty string exactly when the input is all whitespace. */
  lemma {:induction false} StripEmptyIff(s: string)
    ensures Strip(s) == [] <==> forall i :: 0 <= i < |s| ==> IsSpace(s[i])
  {
    StripSpec(s);
    TrimStartSpec(s);
  }

  predicate AllDigits(s: string) { forall i :: 0 <= i < |s| ==> IsDigit(s[i]) }

  /** Python's `int()` of an ASCII digit string. */
  function DecimalValue(s: string): nat
    requires AllDigits(s)
  {
    if s == [] then 0
    else DecimalValue(s[..|s| - 1]) * 10 + (s[|s| - 1] as int - '0' as int)
  }

  /** Python's `needle in haystack` for strings. */
  predicate IsSubstring(needle: string, haystack: string)
  {
    exists i :: 0 <= i <= |haystack| && OccursAt(needle, haystack, i)
  }

  predicate OccursAt(needle: string, haystack: string, i: nat)
  {
    i + |needle| <= |haystack| && haystack[i..i + |needle|] == needle
  }

  /** A slice holds no character more often than the whole. */
  lemma SliceSub(s: string, a: nat, b: nat)
    requires a <= b <= |s|
    ensures multiset(s[a..b]) <= multiset(s)
  {
    assert s == s[..a] + s[a..b] + s[b..];
  }

  /** Strip only removes characters. */
  lemma StripSub(s: string)
    ensures multiset(Strip(s)) <= multiset(s)
  {
    StripSpec(s);
    SliceSub(s, StripOffset(s), StripOffset(s) + |Strip(s)|);
  }

  /** Python's `s.replace(old, new)` for one-character `old` and `new`. */
  function ReplaceChar(s: string, from: char, to: char): (r: string)
    ensures |r| == |s|
    ensures forall i :: 0 <= i < |s| ==> r[i] == (if s[i] == from then to else s[i])
  {
    seq(|s|, i requires 0 <= i < |s| => if s[i] == from then to else s[i])
  }

  /** Python's `s.replace(c, "")`. */
  function RemoveChar(s: string, c: char): (r: string)
    ensures c !in r
    ensures multiset(r) == multiset(s)[c := 0]
  {
    if s == [] then []
    else
      assert s == s[..|s| - 1] + [s[|s| - 1]];
      RemoveChar(s[..|s| - 1], c) + (if s[|s| - 1] == c then [] else [s[|s| - 1]])
  }

  /** Removal works piece by piece, so the characters that stay keep their order. */
  lemma {:induction false} RemoveAppend(u: string, v: string, c: char)
    ensures RemoveChar(u + v, c) == RemoveChar(u, c) + RemoveChar(v, c)
    decreases |v|
  {
    if v == [] {
      assert u + v == u;
    } else {
      var w := v[..|v| - 1];
      assert (u + v)[..|u + v| - 1] == u + w;
      RemoveAppend(u, w, c);
    }
  }

  /** Removing a character that does not occur changes nothing. */
  lemma {:induction false} RemoveAbsent(s: string, c: char)
    requires c !in s
    ensures RemoveChar(s, c) == s
  {
    if s != [] {
      var u := s[..|s| - 1];
      assert c !in u by {
        assert forall x :: x in u ==> x in s;
      }
      RemoveAbsent(u, c);
      assert s[|s| - 1] != c by { assert s[|s| - 1] in s; }
      assert RemoveChar(s, c) == RemoveChar(u, c) + [s[|s| - 1]];
      assert s == u + [s[|s| - 1]];
    }
  }
}
