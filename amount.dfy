/**
 * The amount tokens of the extraction engine: the regex
 * `(?:[A-Z]{3}|[ก-ฮ]{3}|[฿\$])?[\s\.]*((?:\d{1,3}[\s,]*)+\.\d{2})(?!\d)`
 * and its two variants (currency prefix required; no prefix part at all),
 * scanned with `re.findall` and cleaned with `re.sub(r"[\s,]", "", ...)`.
 *
 * The body `(?:\d{1,3}[\s,]*)+` accepts exactly the strings that start with
 * a digit and hold only digits, whitespace and commas, and it must be
 * followed by a dot, which none of those characters is; so the body is the
 * maximal such run, and no backtracking can produce a different match.
 */
module Amount {
  import opened Wrappers
  import opened Chars

  /** Thai consonants `[ก-ฮ]`. */
  predicate IsThaiConsonant(c: char) { '\U{0E01}' <= c <= '\U{0E2E}' }

  /** Characters of `(?:\d{1,3}[\s,]*)+`. */
  predicate IsGroupChar(c: char) { IsDigit(c) || IsSpace(c) || c == ',' }

  /** Characters of `[\s\.]*`. */
  predicate IsFiller(c: char) { IsSpace(c) || c == '.' }

  /** A currency prefix `[A-Z]{3}|[ก-ฮ]{3}|[฿\$]`. */
  predicate IsPrefix(p: string)
  {
    || (|p| == 3 && IsAsciiUpper(p[0]) && IsAsciiUpper(p[1]) && IsAsciiUpper(p[2]))
    || (|p| == 3 && IsThaiConsonant(p[0]) && IsThaiConsonant(p[1]) && IsThaiConsonant(p[2]))
    || (|p| == 1 && (p[0] == '\U{0E3F}' || p[0] == '$'))
  }

  /** Length of the currency prefix at `i`, 0 when there is none. */
  function PrefixLen(s: string, i: nat): (n: nat)
    requires i <= |s|
    ensures n == 0 || n == 1 || n == 3
    ensures i + n <= |s|
    ensures n > 0 ==> IsPrefix(s[i..i + n])
    ensures n == 0 ==> forall m :: i < m <= |s| ==> !IsPrefix(s[i..m])
  {
    if i + 3 <= |s| && IsAsciiUpper(s[i]) && IsAsciiUpper(s[i + 1]) && IsAsciiUpper(s[i + 2]) then 3
    else if i + 3 <= |s| && IsThaiConsonant(s[i]) && IsThaiConsonant(s[i + 1]) && IsThaiConsonant(s[i + 2]) then 3
    else if i < |s| && (s[i] == '\U{0E3F}' || s[i] == '$') then 1
    else 0
  }

  /** The shape of a captured amount: digits, whitespace and commas led by a digit, then `.dd`. */
  predicate IsToken(t: string)
  {
    && |t| >= 4
    && IsDigit(t[0])
    && (forall k :: 0 <= k < |t| - 3 ==> IsGroupChar(t[k]))
    && t[|t| - 3] == '.' && IsDigit(t[|t| - 2]) && IsDigit(t[|t| - 1])
  }

  // ---------------------------------------------------------------------
  // The regex, stated as the set of matches it admits
  // ---------------------------------------------------------------------

  /** `(?:\d{1,3}[\s,]*)+\.\d{2}(?!\d)` matches exactly `s[b..e]`. */
  predicate BodyMatch(s: string, b: nat, e: nat)
  {
    b <= e <= |s| && IsToken(s[b..e]) && (e == |s| || !IsDigit(s[e]))
  }

  /**
   * A match at `i` that takes a prefix of length `n` (0 for none), then the
   * filler `[\s\.]*` up to `b`, then the body `s[b..e]`.
   */
  predicate LedMatch(s: string, i: nat, n: nat, b: nat, e: nat)
  {
    && i + n <= b <= e <= |s|
    && (n == 0 || IsPrefix(s[i..i + n]))
    && (forall k :: i + n <= k < b ==> IsFiller(s[k]))
    && BodyMatch(s, b, e)
  }

  /** Which of the three amount regexes is scanned. */
  datatype Lead =
    | OptionalPrefix  // `(?:prefix)?[\s\.]*` before the captured body
    | RequiredPrefix  // `(?:prefix)[\s\.]*` before the captured body
    | Bare            // the body alone, no capture group

  /** The regex of `lead` matches at `i` with its amount (the capture, or the whole match) at `s[b..e]`. */
  predicate Matches(s: string, i: nat, lead: Lead, b: nat, e: nat)
  {
    match lead
    case Bare => b == i && BodyMatch(s, b, e)
    case OptionalPrefix => LedMatch(s, i, 0, b, e) || LedMatch(s, i, 1, b, e) || LedMatch(s, i, 3, b, e)
    case RequiredPrefix => LedMatch(s, i, 1, b, e) || LedMatch(s, i, 3, b, e)
  }

  // ---------------------------------------------------------------------
  // The scanner
  // ---------------------------------------------------------------------

  /** A body ends at the first character after `b` that is not a digit, whitespace or comma, plus `.dd`. */
  lemma BodyEnd(s: string, b: nat)
    ensures forall e: nat :: BodyMatch(s, b, e) ==> Span(s, b, IsGroupChar) == e - 3
  {
    forall e: nat | BodyMatch(s, b, e) ensures Span(s, b, IsGroupChar) == e - 3 {
      var t := s[b..e];
      forall k | b <= k < e - 3 ensures IsGroupChar(s[k]) {
        assert s[k] == t[k - b];
      }
      assert s[e - 3] == t[|t| - 3];
      SpanIs(s, b, e - 3, IsGroupChar);
    }
  }

  /**
   * End of the body matched at `b`. The body `(?:\d{1,3}[\s,]*)+` can only
   * stop before the dot, so there is at most one match, and this finds it.
   */
  function BodyAt(s: string, b: nat): (r: Option<nat>)
    requires b <= |s|
    ensures r.Some? ==> b + 4 <= r.value && BodyMatch(s, b, r.value)
    ensures forall e: nat :: BodyMatch(s, b, e) ==> r == Some(e)
  {
    BodyEnd(s, b);
    if b < |s| && IsDigit(s[b]) then
      var e := Span(s, b, IsGroupChar);
      if e + 3 <= |s| && s[e] == '.' && IsDigit(s[e + 1]) && IsDigit(s[e + 2])
         && (e + 3 == |s| || !IsDigit(s[e + 3]))
      then
        assert forall k :: b <= k < e ==> s[b..e + 3][k - b] == s[k];
        Some(e + 3)
      else None
    else None
  }

  /**
   * Where a match with a prefix of length `n` can start its body: the prefix
   * is the one `PrefixLen` finds (no prefix character is filler or a digit,
   * and the three kinds of prefix do not share a first character), and the
   * filler ends right before the body's first digit.
   */
  lemma LedMatchStart(s: string, i: nat)
    ensures forall n: nat, b: nat, e: nat :: LedMatch(s, i, n, b, e) && n <= 3 ==> PrefixLen(s, i) == n && Span(s, i + n, IsFiller) == b
  {
    forall n: nat, b: nat, e: nat | LedMatch(s, i, n, b, e) && n <= 3
      ensures PrefixLen(s, i) == n && Span(s, i + n, IsFiller) == b
    {
      assert s[b] == s[b..e][0];
      if n == 0 {
        assert IsFiller(s[i]) || IsDigit(s[i]);
      } else {
        assert s[i..i + n][0] == s[i];
        if n == 3 {
          assert s[i..i + n][1] == s[i + 1] && s[i..i + n][2] == s[i + 2];
        }
      }
      SpanIs(s, i + n, b, IsFiller);
    }
  }

  /** The prefix (if any), then the filler, then the body. */
  function PrefixedAt(s: string, i: nat): (r: Option<(nat, nat)>)
    requires i <= |s|
    ensures r.Some? ==> i <= r.value.0 && r.value.0 + 4 <= r.value.1 && LedMatch(s, i, PrefixLen(s, i), r.value.0, r.value.1)
    ensures forall n: nat, b: nat, e: nat :: LedMatch(s, i, n, b, e) && n <= 3 ==> r == Some((b, e))
  {
    var n := PrefixLen(s, i);
    var b := Span(s, i + n, IsFiller);
    PrefixedUnique(s, i, n, b);
    match BodyAt(s, b) case Some(e) => Some((b, e)) case None => None
  }

  /** Every match at `i` starts its body where the prefix and the filler run out. */
  lemma PrefixedUnique(s: string, i: nat, n: nat, b: nat)
    requires i <= |s| && n == PrefixLen(s, i) && b == Span(s, i + n, IsFiller)
    ensures forall m: nat, c: nat, e: nat :: LedMatch(s, i, m, c, e) && m <= 3 ==> m == n && c == b && BodyAt(s, b) == Some(e)
  {
    LedMatchStart(s, i);
  }

  /**
   * The match of the regex of `lead` at `i`, as (start of the amount, end).
   * It is found exactly when the regex matches there, and it is the only
   * match there.
   */
  function TokenAt(s: string, i: nat, lead: Lead): (r: Option<(nat, nat)>)
    requires i <= |s|
    ensures r.Some? ==> i <= r.value.0 && r.value.0 + 4 <= r.value.1 <= |s| && IsToken(s[r.value.0..r.value.1])
    ensures r.Some? ==> Matches(s, i, lead, r.value.0, r.value.1)
    ensures forall b: nat, e: nat :: Matches(s, i, lead, b, e) ==> r == Some((b, e))
  {
    match lead
    case Bare =>
      (match BodyAt(s, i) case Some(e) => Some((i, e)) case None => None)
    case OptionalPrefix => PrefixedAt(s, i)
    case RequiredPrefix => if PrefixLen(s, i) == 0 then None else PrefixedAt(s, i)
  }

  /** No match of `lead` starts in `[a, z)`. */
  predicate NoMatchIn(s: string, lead: Lead, a: nat, z: nat)
    requires a <= z <= |s|
  {
    forall q :: a <= q < z ==> TokenAt(s, q, lead).None?
  }

  lemma NoMatchBefore(s: string, lead: Lead, a: nat, z: nat)
    requires a < z <= |s| && TokenAt(s, a, lead).None?
    ensures NoMatchIn(s, lead, a + 1, z) <==> NoMatchIn(s, lead, a, z)
  {
  }

  /** Where the match at `j` ends, which is where `re.findall` resumes. */
  function MatchEnd(s: string, j: nat, lead: Lead): nat
    requires j <= |s| && TokenAt(s, j, lead).Some?
  {
    TokenAt(s, j, lead).value.1
  }

  /** What `re.findall` reports for the match at `j`: the amount it captures. */
  function Captured(s: string, j: nat, lead: Lead): (t: string)
    requires j <= |s| && TokenAt(s, j, lead).Some?
    ensures IsToken(t)
  {
    s[TokenAt(s, j, lead).value.0..TokenAt(s, j, lead).value.1]
  }

  /**
   * `ps` are the starts of the matches `re.findall` reports from `i`: the
   * leftmost match, then the leftmost one at or after its end, and so on,
   * until no match is left.
   */
  predicate IsScan(s: string, i: nat, lead: Lead, ps: seq<nat>)
    requires i <= |s|
  {
    && (forall k :: 0 <= k < |ps| ==> i <= ps[k] < |s| && TokenAt(s, ps[k], lead).Some?)
    && (ps == [] <==> NoMatchIn(s, lead, i, |s|))
    && (ps != [] ==> NoMatchIn(s, lead, i, ps[0]))
    && (forall k :: 0 <= k < |ps| - 1 ==>
          MatchEnd(s, ps[k], lead) <= ps[k + 1] && NoMatchIn(s, lead, MatchEnd(s, ps[k], lead), ps[k + 1]))
    && (ps != [] ==> NoMatchIn(s, lead, MatchEnd(s, ps[|ps| - 1], lead), |s|))
  }

  /** A match at `i` followed by the scan from its end is the scan from `i`. */
  lemma ScanCons(s: string, i: nat, lead: Lead, rest: seq<nat>)
    requires i < |s| && TokenAt(s, i, lead).Some?
    requires IsScan(s, MatchEnd(s, i, lead), lead, rest)
    ensures IsScan(s, i, lead, [i] + rest)
  {
    var ps := [i] + rest;
    ScanConsStarts(s, i, lead, rest);
    ScanConsGaps(s, i, lead, rest);
    assert !NoMatchIn(s, lead, i, |s|);
    if rest != [] {
      assert ps[|ps| - 1] == rest[|rest| - 1];
    }
  }

  lemma ScanConsStarts(s: string, i: nat, lead: Lead, rest: seq<nat>)
    requires i < |s| && TokenAt(s, i, lead).Some?
    requires IsScan(s, MatchEnd(s, i, lead), lead, rest)
    ensures forall k :: 0 <= k < |[i] + rest| ==> i <= ([i] + rest)[k] < |s| && TokenAt(s, ([i] + rest)[k], lead).Some?
  {
    var ps := [i] + rest;
    forall k | 0 <= k < |ps| ensures i <= ps[k] < |s| && TokenAt(s, ps[k], lead).Some? {
      if k > 0 {
        assert ps[k] == rest[k - 1];
      }
    }
  }

  lemma ScanConsGaps(s: string, i: nat, lead: Lead, rest: seq<nat>)
    requires i < |s| && TokenAt(s, i, lead).Some?
    requires IsScan(s, MatchEnd(s, i, lead), lead, rest)
    requires forall k :: 0 <= k < |[i] + rest| ==> ([i] + rest)[k] < |s| && TokenAt(s, ([i] + rest)[k], lead).Some?
    ensures var ps := [i] + rest;
      forall k :: 0 <= k < |ps| - 1 ==> MatchEnd(s, ps[k], lead) <= ps[k + 1] && NoMatchIn(s, lead, MatchEnd(s, ps[k], lead), ps[k + 1])
  {
    var ps := [i] + rest;
    forall k | 0 <= k < |ps| - 1
      ensures MatchEnd(s, ps[k], lead) <= ps[k + 1] && NoMatchIn(s, lead, MatchEnd(s, ps[k], lead), ps[k + 1])
    {
      if k == 0 {
        ScanFirstGap(s, MatchEnd(s, i, lead), lead, rest);
      } else {
        assert ps[k] == rest[k - 1] && ps[k + 1] == rest[k];
        ScanLaterGap(s, MatchEnd(s, i, lead), lead, rest, k - 1);
      }
    }
  }

  lemma ScanFirstGap(s: string, e: nat, lead: Lead, rest: seq<nat>)
    requires e <= |s| && IsScan(s, e, lead, rest) && rest != []
    ensures e <= rest[0] && NoMatchIn(s, lead, e, rest[0])
  {
  }

  lemma ScanLaterGap(s: string, e: nat, lead: Lead, rest: seq<nat>, k: nat)
    requires e <= |s| && IsScan(s, e, lead, rest) && k + 1 < |rest|
    ensures MatchEnd(s, rest[k], lead) <= rest[k + 1]
    ensures NoMatchIn(s, lead, MatchEnd(s, rest[k], lead), rest[k + 1])
  {
  }

  /** Without a match at `i`, the scan from `i + 1` is the scan from `i`. */
  lemma ScanSkip(s: string, i: nat, lead: Lead, rest: seq<nat>)
    requires i < |s| && TokenAt(s, i, lead).None?
    requires IsScan(s, i + 1, lead, rest)
    ensures IsScan(s, i, lead, rest)
  {
    NoMatchBefore(s, lead, i, |s|);
    if rest != [] {
      NoMatchBefore(s, lead, i, rest[0]);
    }
  }

  /** The starts of the matches `re.findall` reports from `i`. */
  function ScanFrom(s: string, i: nat, lead: Lead): (ps: seq<nat>)
    requires i <= |s|
    ensures IsScan(s, i, lead, ps)
    decreases |s| - i
  {
    if i == |s| then []
    else match TokenAt(s, i, lead)
      case Some(_) =>
        var rest := ScanFrom(s, MatchEnd(s, i, lead), lead);
        ScanCons(s, i, lead, rest);
        [i] + rest
      case None =>
        var rest := ScanFrom(s, i + 1, lead);
        ScanSkip(s, i, lead, rest);
        rest
  }

  /** `re.findall` over the whole text: the amount of every match the scan reports, in order. */
  function FindAll(s: string, lead: Lead): (r: seq<string>)
    ensures |r| == |ScanFrom(s, 0, lead)|
    ensures forall k :: 0 <= k < |r| ==> IsToken(r[k]) && r[k] == Captured(s, ScanFrom(s, 0, lead)[k], lead)
    ensures r == [] <==> NoMatchIn(s, lead, 0, |s|)
  {
    var ps := ScanFrom(s, 0, lead);
    seq(|ps|, k requires 0 <= k < |ps| => Captured(s, ps[k], lead))
  }

  /** `re.sub(r"[\s,]", "", t)`. */
  function Clean(t: string): string
  {
    if t == [] then []
    else Clean(t[..|t| - 1]) + (if IsSpace(t[|t| - 1]) || t[|t| - 1] == ',' then [] else [t[|t| - 1]])
  }

  /** A stored Total Value: digits, a dot, then exactly two digits. */
  predicate IsMoney(v: string)
  {
    && |v| >= 4
    && v[|v| - 3] == '.'
    && forall k :: 0 <= k < |v| && k != |v| - 3 ==> IsDigit(v[k])
  }

  /** Cleaning keeps exactly the digits of a run of digits, whitespace and commas. */
  lemma {:induction false} CleanGroup(t: string)
    requires forall k :: 0 <= k < |t| ==> IsGroupChar(t[k])
    ensures AllDigits(Clean(t))
    ensures t != [] && IsDigit(t[0]) ==> Clean(t) != [] && Clean(t)[0] == t[0]
  {
    if t != [] {
      var u := t[..|t| - 1];
      CleanGroup(u);
      if |t| == 1 {
        assert Clean(u) == [];
      }
    }
  }

  lemma {:induction false} CleanAppend(u: string, v: string)
    ensures Clean(u + v) == Clean(u) + Clean(v)
    decreases |v|
  {
    if v == [] {
      assert u + v == u;
    } else {
      var w := v[..|v| - 1];
      assert (u + v)[..|u + v| - 1] == u + w;
      CleanAppend(u, w);
    }
  }

  /** Every cleaned token is a stored amount: `1,000.00` becomes `1000.00`. */
  lemma CleanToken(t: string)
    requires IsToken(t)
    ensures IsMoney(Clean(t))
    ensures |Clean(t)| >= 4 && Clean(t)[0] == t[0]
    ensures Clean(t)[|Clean(t)| - 3..] == t[|t| - 3..]
  {
    var n := |t| - 3;
    var body, tail := t[..n], t[n..];
    assert t == body + tail;
    CleanAppend(body, tail);
    CleanGroup(body);
    CleanCents(t);
    MoneyOf(Clean(body), tail);
  }

  /** The cents part of a token, `.DD`, has nothing to clean. */
  lemma CleanCents(t: string)
    requires IsToken(t)
    ensures Clean(t[|t| - 3..]) == t[|t| - 3..]
  {
    var tail := t[|t| - 3..];
    assert forall k :: 0 <= k < |tail| ==> tail[k] == t[|t| - 3 + k];
    CleanPlain(tail);
  }

  /** Digits followed by a dot and two digits are a stored amount. */
  lemma MoneyOf(d: string, tail: string)
    requires d != [] && AllDigits(d)
    requires |tail| == 3 && tail[0] == '.' && IsDigit(tail[1]) && IsDigit(tail[2])
    ensures IsMoney(d + tail)
  {
    var v := d + tail;
    assert forall k :: 0 <= k < |d| ==> v[k] == d[k];
    assert forall k :: |d| <= k < |v| ==> v[k] == tail[k - |d|];
  }

  /** Separators of either kind are dropped: `48,022.84` and `48 022.84` both become `48022.84`. */
  lemma CleanExamples()
    ensures Clean("48,022.84") == "48022.84"
    ensures Clean("48 022.84") == "48022.84"
    ensures Clean("1,000.00") == "1000.00"
  {
    CleanDrops("48", ',', "022.84");
    assert "48,022.84" == "48" + [','] + "022.84";
    CleanDrops("48", ' ', "022.84");
    assert "48 022.84" == "48" + [' '] + "022.84";
    CleanDrops("1", ',', "000.00");
    assert "1,000.00" == "1" + [','] + "000.00";
  }

  /** Text without whitespace or commas is left as it is. */
  lemma {:induction false} CleanPlain(t: string)
    requires forall k :: 0 <= k < |t| ==> !IsSpace(t[k]) && t[k] != ','
    ensures Clean(t) == t
  {
    if t != [] {
      var u := t[..|t| - 1];
      assert forall k :: 0 <= k < |u| ==> u[k] == t[k];
      CleanPlain(u);
      assert t == u + [t[|t| - 1]];
    }
  }

  /** One separator between two separator-free pieces disappears. */
  lemma {:induction false} CleanDrops(u: string, c: char, v: string)
    requires IsSpace(c) || c == ','
    requires forall k :: 0 <= k < |u| ==> !IsSpace(u[k]) && u[k] != ','
    requires forall k :: 0 <= k < |v| ==> !IsSpace(v[k]) && v[k] != ','
    ensures Clean(u + [c] + v) == u + v
  {
    CleanAppend(u + [c], v);
    CleanAppend(u, [c]);
    CleanPlain(u);
    CleanPlain(v);
    assert Clean([c]) == [] by {
      assert [c][..0] == [];
      assert Clean([c]) == Clean([]) + [];
    }
  }
}
