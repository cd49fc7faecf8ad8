/**
 * The keyword searches of the extraction engine. Every keyword regex the
 * engine searches for is a chain of literal characters, one-character
 * classes such as `[nm]`, and `\s*` runs, each run followed by a literal
 * that is not whitespace; for such patterns the greedy run never has to give
 * characters back, so matching at a position is deterministic and a search
 * is "the leftmost position where the pattern matches", which is what
 * `re.search` returns.
 */
module Pattern {
  import opened Wrappers
  import opened Chars

  datatype Atom =
    | Class(chars: string)  // one character out of `chars` (a literal when it has one element)
    | Ws                    // `\s*`: the greedy run of whitespace

  /** The atoms of a literal word. */
  function Lit(w: string): (p: seq<Atom>)
    ensures |p| == |w|
    ensures forall k :: 0 <= k < |w| ==> p[k] == Class([w[k]])
  {
    seq(|w|, k requires 0 <= k < |w| => Class([w[k]]))
  }

  /** Character comparison, with ASCII case folding under `re.IGNORECASE`. */
  predicate SameChar(x: char, c: char, ignoreCase: bool)
  {
    if ignoreCase then Lower(x) == Lower(c) else x == c
  }

  predicate InClass(x: char, cs: string, ignoreCase: bool)
  {
    exists k :: 0 <= k < |cs| && SameChar(x, cs[k], ignoreCase)
  }

  /** End of the match of `p` starting at `i`, if there is one. */
  function MatchAt(s: string, i: nat, p: seq<Atom>, ignoreCase: bool): (r: Option<nat>)
    requires i <= |s|
    ensures r.Some? ==> i <= r.value <= |s|
    decreases |p|
  {
    if p == [] then Some(i)
    else match p[0]
      case Class(cs) =>
        if i < |s| && InClass(s[i], cs, ignoreCase) then MatchAt(s, i + 1, p[1..], ignoreCase) else None
      case Ws => MatchAt(s, Span(s, i, IsSpace), p[1..], ignoreCase)
  }

  /** The leftmost match at or after `i`, as (start, end). */
  function SearchFrom(s: string, i: nat, p: seq<Atom>, ignoreCase: bool): (r: Option<(nat, nat)>)
    requires i <= |s|
    ensures r.Some? ==> i <= r.value.0 <= |s| && MatchAt(s, r.value.0, p, ignoreCase) == Some(r.value.1)
    ensures r.Some? ==> forall j :: i <= j < r.value.0 ==> MatchAt(s, j, p, ignoreCase).None?
    ensures r.None? ==> forall j :: i <= j <= |s| ==> MatchAt(s, j, p, ignoreCase).None?
    decreases |s| - i
  {
    match MatchAt(s, i, p, ignoreCase)
    case Some(e) => Some((i, e))
    case None => if i == |s| then None else SearchFrom(s, i + 1, p, ignoreCase)
  }

  /** Python's `re.search(p, s)`: start and end of the leftmost match. */
  function Search(s: string, p: seq<Atom>, ignoreCase: bool): Option<(nat, nat)>
  {
    SearchFrom(s, 0, p, ignoreCase)
  }

  /** `re.search(p, s)` is truthy. */
  predicate Occurs(s: string, p: seq<Atom>, ignoreCase: bool)
  {
    Search(s, p, ignoreCase).Some?
  }

  /** A search succeeds exactly when the pattern matches at some position. */
  lemma OccursIff(s: string, p: seq<Atom>, ignoreCase: bool)
    ensures Occurs(s, p, ignoreCase) <==> exists j :: 0 <= j <= |s| && MatchAt(s, j, p, ignoreCase).Some?
  {
    if Occurs(s, p, ignoreCase) {
      var j := Search(s, p, ignoreCase).value.0;
      assert MatchAt(s, j, p, ignoreCase).Some?;
    }
  }

  /** Every `\s*` run is followed by a class that holds no whitespace. */
  predicate Anchored(p: seq<Atom>)
  {
    forall k :: 0 <= k < |p| && p[k].Ws? ==>
      k + 1 < |p| && p[k + 1].Class? && forall c :: c in p[k + 1].chars ==> !IsSpace(c)
  }

  lemma AnchoredTail(p: seq<Atom>)
    requires p != [] && Anchored(p)
    ensures Anchored(p[1..])
  {
    forall k | 0 <= k < |p[1..]| && p[1..][k].Ws?
      ensures k + 1 < |p[1..]| && p[1..][k + 1].Class? && forall c :: c in p[1..][k + 1].chars ==> !IsSpace(c)
    {
      assert p[1..][k] == p[k + 1];
    }
  }

  /** A whitespace character never matches a class without whitespace. */
  lemma SpaceNotInClass(x: char, cs: string, ignoreCase: bool)
    requires IsSpace(x) && forall c :: c in cs ==> !IsSpace(c)
    ensures !InClass(x, cs, ignoreCase)
  {
    forall k | 0 <= k < |cs| ensures !SameChar(x, cs[k], ignoreCase) {
      assert cs[k] in cs;
      if Lower(x) == Lower(cs[k]) { FoldKeepsClass(x, cs[k]); }
    }
  }

  /**
   * A match found inside a slice of `s` is also a match of `s`, at the
   * shifted position and with the shifted end: anchored patterns never look
   * past their last literal.
   */
  lemma {:induction false} MatchInSlice(s: string, a: nat, b: nat, i: nat, p: seq<Atom>, ignoreCase: bool)
    requires a <= b <= |s| && i <= b - a && Anchored(p)
    requires MatchAt(s[a..b], i, p, ignoreCase).Some?
    ensures MatchAt(s, a + i, p, ignoreCase) == Some(a + MatchAt(s[a..b], i, p, ignoreCase).value)
    decreases |p|, 1
  {
    if p != [] {
      AnchoredTail(p);
      if p[0].Class? {
        ClassInSlice(s, a, b, i, p, ignoreCase);
      } else {
        WsInSlice(s, a, b, i, p, ignoreCase);
      }
    }
  }

  lemma {:induction false} ClassInSlice(s: string, a: nat, b: nat, i: nat, p: seq<Atom>, ignoreCase: bool)
    requires a <= b <= |s| && i <= b - a && p != [] && p[0].Class? && Anchored(p[1..])
    requires MatchAt(s[a..b], i, p, ignoreCase).Some?
    ensures MatchAt(s, a + i, p, ignoreCase) == Some(a + MatchAt(s[a..b], i, p, ignoreCase).value)
    decreases |p|, 0
  {
    var t := s[a..b];
    assert i < |t| && InClass(t[i], p[0].chars, ignoreCase);
    assert t[i] == s[a + i];
    assert MatchAt(t, i, p, ignoreCase) == MatchAt(t, i + 1, p[1..], ignoreCase);
    assert MatchAt(s, a + i, p, ignoreCase) == MatchAt(s, a + i + 1, p[1..], ignoreCase);
    MatchInSlice(s, a, b, i + 1, p[1..], ignoreCase);
  }

  lemma {:induction false} WsInSlice(s: string, a: nat, b: nat, i: nat, p: seq<Atom>, ignoreCase: bool)
    requires a <= b <= |s| && i <= b - a && p != [] && p[0].Ws? && Anchored(p) && Anchored(p[1..])
    requires MatchAt(s[a..b], i, p, ignoreCase).Some?
    ensures MatchAt(s, a + i, p, ignoreCase) == Some(a + MatchAt(s[a..b], i, p, ignoreCase).value)
    decreases |p|, 0
  {
    var t := s[a..b];
    var e := Span(t, i, IsSpace);
    assert MatchAt(t, i, p, ignoreCase) == MatchAt(t, e, p[1..], ignoreCase);
    SpanEndsInside(t, i, p, ignoreCase);
    SpanInSlice(s, a, b, i, IsSpace);
    assert MatchAt(s, a + i, p, ignoreCase) == MatchAt(s, a + e, p[1..], ignoreCase);
    MatchInSlice(s, a, b, e, p[1..], ignoreCase);
  }

  /** The run of an anchored `\s*` that is followed by a match stops before the end. */
  lemma SpanEndsInside(t: string, i: nat, p: seq<Atom>, ignoreCase: bool)
    requires i <= |t| && p != [] && p[0].Ws? && Anchored(p)
    requires MatchAt(t, Span(t, i, IsSpace), p[1..], ignoreCase).Some?
    ensures Span(t, i, IsSpace) < |t|
  {
    assert p[1].Class?;
  }

  /** A literal word matches at `i` exactly when the characters there equal it (case-sensitively). */
  lemma {:induction false} LitMatch(s: string, i: nat, w: string)
    requires i <= |s|
    ensures MatchAt(s, i, Lit(w), false).Some? <==> i + |w| <= |s| && s[i..i + |w|] == w
    ensures MatchAt(s, i, Lit(w), false).Some? ==> MatchAt(s, i, Lit(w), false).value == i + |w|
    decreases |w|
  {
    if w != [] {
      assert Lit(w)[1..] == Lit(w[1..]);
      assert i < |s| ==> (InClass(s[i], [w[0]], false) <==> s[i] == w[0]) by {
        if i < |s| && s[i] == w[0] {
          assert SameChar(s[i], [w[0]][0], false);
        }
      }
      if i < |s| && s[i] == w[0] {
        LitMatch(s, i + 1, w[1..]);
        if i + |w| <= |s| {
          assert s[i..i + |w|] == [s[i]] + s[i + 1..i + 1 + |w[1..]|];
        }
      } else if i + |w| <= |s| {
        assert s[i..i + |w|][0] == s[i];
      }
    }
  }

  /** A case-sensitive search for a literal word succeeds exactly when the word is a substring. */
  lemma LitOccursIff(s: string, w: string)
    ensures Occurs(s, Lit(w), false) <==> IsSubstring(w, s)
  {
    if Occurs(s, Lit(w), false) {
      var j := Search(s, Lit(w), false).value.0;
      LitMatch(s, j, w);
      assert OccursAt(w, s, j);
    }
    if IsSubstring(w, s) {
      var j :| 0 <= j <= |s| && OccursAt(w, s, j);
      LitMatch(s, j, w);
    }
  }

  /** Matching a chain of two patterns is matching the first, then the second where it ended. */
  lemma {:induction false} MatchAppend(s: string, i: nat, p: seq<Atom>, q: seq<Atom>, ignoreCase: bool)
    requires i <= |s|
    ensures MatchAt(s, i, p + q, ignoreCase) ==
      match MatchAt(s, i, p, ignoreCase)
      case Some(m) => MatchAt(s, m, q, ignoreCase)
      case None => None
    decreases |p|
  {
    if p == [] {
      assert p + q == q;
    } else {
      assert (p + q)[0] == p[0];
      assert (p + q)[1..] == p[1..] + q;
      match p[0]
      case Class(cs) =>
        if i < |s| && InClass(s[i], cs, ignoreCase) {
          MatchAppend(s, i + 1, p[1..], q, ignoreCase);
        }
      case Ws =>
        MatchAppend(s, Span(s, i, IsSpace), p[1..], q, ignoreCase);
    }
  }

  /** A literal word is as long as its match. */
  lemma {:induction false} LitLength(s: string, i: nat, w: string, ignoreCase: bool)
    requires i <= |s|
    requires MatchAt(s, i, Lit(w), ignoreCase).Some?
    ensures MatchAt(s, i, Lit(w), ignoreCase).value == i + |w|
    decreases |w|
  {
    if w != [] {
      assert Lit(w)[1..] == Lit(w[1..]);
      LitLength(s, i + 1, w[1..], ignoreCase);
    }
  }
}
