/**
 * Per-chunk field extraction: the three bank dialects' `extract_chunk` and
 * the dialect choice of `get_bank_parser`.
 *
 * The A/C, date and reference regexes are loose patterns whose exact
 * behaviour is not modelled; each is a `Matcher`, the `group(1)` capture
 * of its `re.search`, and the cascades around them (which pattern is tried
 * first, what is stripped and rewritten, which candidates are refused) are
 * modelled exactly. The transaction keywords and amount tokens use the
 * scanners of `Pattern` and `Amount`.
 */
module Extract {
  import opened Wrappers
  import opened Chars
  import opened Pattern
  import opened Amount
  import opened Records

  /** `re.search(pattern, text, re.IGNORECASE)`, reduced to its `group(1)` (None when there is no match). */
  type Matcher = string -> Option<string>

  datatype KrungthaiPatterns = KrungthaiPatterns(
    account: seq<Matcher>,    // the three A/C regexes, in the order tried
    date: seq<Matcher>,       // the three date regexes
    reference: seq<Matcher>,  // `Our Ref|B/C|REFERENCE NO.|...`, then the bare `OR|IC|EC|BC` code
    code: Matcher)            // `((?:OR|IC|EC|BC)\s?\d{2}/\d{4})`, searched inside a rejected reference

  datatype CimbPatterns = CimbPatterns(
    account: seq<Matcher>,    // the four "Account No" regexes
    date: seq<Matcher>,       // `D/M/YYYY`, then `D-M-YYYY` after "Date:"
    reference: seq<Matcher>)  // Inward Bill Collection No, Our Ref, SWIFT ID

  datatype Patterns = Patterns(krungthai: KrungthaiPatterns, cimb: CimbPatterns)

  // ---------------------------------------------------------------------
  // First match of an ordered candidate list
  // ---------------------------------------------------------------------

  /**
   * The loop `for pattern in patterns: ... if found: ...; break`: the value
   * of the first candidate that yields one.
   */
  function FirstOf<X>(xs: seq<X>, f: X -> Option<string>): (r: Option<string>)
    ensures r.None? <==> forall k :: 0 <= k < |xs| ==> f(xs[k]).None?
    ensures r.Some? ==> exists k :: 0 <= k < |xs| && f(xs[k]) == r && forall j :: 0 <= j < k ==> f(xs[j]).None?
  {
    if xs == [] then None
    else match f(xs[0])
      case Some(v) => Some(v)
      case None =>
        var r := FirstOf(xs[1..], f);
        assert forall k :: 1 <= k < |xs| ==> xs[k] == xs[1..][k - 1];
        r
  }

  /** The capture of the first pattern that matches. */
  function FirstCapture(ms: seq<Matcher>, text: string): Option<string>
  {
    FirstOf(ms, (m: Matcher) => m(text))
  }

  function StripOpt(v: Option<string>): Option<string>
  {
    match v case Some(s) => Some(Strip(s)) case None => None
  }

  // ---------------------------------------------------------------------
  // Dialect
  // ---------------------------------------------------------------------

  datatype Dialect = Krungthai | Cimb | Generic

  /** `get_bank_parser`: `"KRUNGTHAI" in text.upper()` first, then `"CIMB"`. */
  function DetectDialect(text: string): (d: Dialect)
    ensures d == Krungthai <==> Occurs(text, Lit("KRUNGTHAI"), true)
    ensures d == Cimb <==> !Occurs(text, Lit("KRUNGTHAI"), true) && Occurs(text, Lit("CIMB"), true)
  {
    UpperOccurs(text, "KRUNGTHAI");
    UpperOccurs(text, "CIMB");
    if IsSubstring("KRUNGTHAI", UpperStr(text)) then Krungthai
    else if IsSubstring("CIMB", UpperStr(text)) then Cimb
    else Generic
  }

  predicate AllUpper(w: string) { forall k :: 0 <= k < |w| ==> IsAsciiUpper(w[k]) }

  /** A character folds to an upper-case letter exactly when it is that letter in either case. */
  lemma FoldUpper(x: char, c: char)
    requires IsAsciiUpper(c)
    ensures Upper(x) == c <==> Lower(x) == Lower(c)
  {
  }

  /** Matching an upper-case word ignoring case is finding it in the upper-cased text. */
  lemma {:induction false} UpperMatch(s: string, i: nat, w: string)
    requires i <= |s| && AllUpper(w)
    ensures MatchAt(s, i, Lit(w), true).Some? <==> OccursAt(w, UpperStr(s), i)
    decreases |w|
  {
    if w != [] {
      assert Lit(w)[1..] == Lit(w[1..]);
      var u := UpperStr(s);
      if i < |s| {
        FoldUpper(s[i], w[0]);
        assert InClass(s[i], [w[0]], true) <==> SameChar(s[i], [w[0]][0], true);
      }
      if i < |s| && u[i] == w[0] {
        UpperMatch(s, i + 1, w[1..]);
        if i + |w| <= |u| {
          assert u[i..i + |w|] == [u[i]] + u[i + 1..i + 1 + |w[1..]|];
        }
      } else if i + |w| <= |u| {
        assert u[i..i + |w|][0] == u[i];
      }
    }
  }

  /** `w in text.upper()` is a case-insensitive search for `w`. */
  lemma UpperOccurs(text: string, w: string)
    requires AllUpper(w)
    ensures Occurs(text, Lit(w), true) <==> IsSubstring(w, UpperStr(text))
  {
    if Occurs(text, Lit(w), true) {
      var j := Search(text, Lit(w), true).value.0;
      UpperMatch(text, j, w);
    }
    if IsSubstring(w, UpperStr(text)) {
      var j :| 0 <= j <= |UpperStr(text)| && OccursAt(w, UpperStr(text), j);
      UpperMatch(text, j, w);
    }
  }

  // ---------------------------------------------------------------------
  // Transaction type
  // ---------------------------------------------------------------------

  const DebitAdvice: seq<Atom> := Lit("DEBIT") + [Ws] + Lit("ADVICE")
  const CreditAdvice: seq<Atom> := Lit("CREDIT") + [Ws] + Lit("ADVICE")

  /** DEBIT ADVICE is looked for first, CREDIT ADVICE only when it is absent. */
  function TransactionOf(text: string): (r: Option<Txn>)
    ensures r == Some(Debit) <==> Occurs(text, DebitAdvice, true)
    ensures r == Some(Credit) <==> !Occurs(text, DebitAdvice, true) && Occurs(text, CreditAdvice, true)
  {
    if Occurs(text, DebitAdvice, true) then Some(Debit)
    else if Occurs(text, CreditAdvice, true) then Some(Credit)
    else None
  }

  /** `re.search(r"DEBIT\s*ADVICE|CREDIT\s*ADVICE", chunk, re.IGNORECASE)`: some position matches either branch. */
  predicate IsAdvice(text: string)
  {
    Occurs(text, DebitAdvice, true) || Occurs(text, CreditAdvice, true)
  }

  /** A transaction type is found exactly when the text holds advice wording; DEBIT wins over CREDIT. */
  lemma TransactionIff(text: string)
    ensures TransactionOf(text).Some? <==> IsAdvice(text)
    ensures TransactionOf(text) == Some(Credit) ==> !Occurs(text, DebitAdvice, true)
    ensures Occurs(text, DebitAdvice, true) ==> TransactionOf(text) == Some(Debit)
  {
  }

  // ---------------------------------------------------------------------
  // Amounts
  // ---------------------------------------------------------------------

  /** An amount keyword and whether the last amount after it is taken instead of the first. */
  datatype Keyword = Keyword(pattern: seq<Atom>, pickLast: bool)

  /** The keyword priority list of the Krungthai dialect, in the order tried. */
  const AmountKeywords: seq<Keyword> := [
    Keyword([Class("A"), Class("nm")] + Lit("ount") + [Ws] + Lit("Credited"), false),
    Keyword(Lit("Total") + [Ws] + Lit("Debited"), false),
    Keyword(Lit("Total") + [Ws] + Lit("Credited"), false),
    Keyword(Lit("Total") + [Ws] + Lit("Amount"), false),
    Keyword(Lit("Total") + [Ws] + Lit("Value"), false),
    Keyword(Lit("Debit") + [Ws] + Lit("Amount"), false),
    Keyword(Lit("Credit") + [Ws] + Lit("Amount"), false),
    Keyword(Lit("Amount"), true)
  ]

  /** `text[kw_match.end():]` for the keyword's leftmost match; None when the keyword does not occur. */
  function AfterKeyword(text: string, kw: Keyword): (w: Option<string>)
    ensures w.None? <==> !Occurs(text, kw.pattern, true)
    ensures w.Some? ==> |w.value| <= |text| && w.value == text[|text| - |w.value|..]
  {
    match Search(text, kw.pattern, true)
    case None => None
    case Some((_, e)) => Some(text[e..])
  }

  /** The amount tokens after the end of the keyword's leftmost match. */
  function AmountsAfter(text: string, kw: Keyword): (vals: seq<string>)
    ensures AfterKeyword(text, kw).None? ==> vals == []
    ensures AfterKeyword(text, kw).Some? ==> vals == FindAll(AfterKeyword(text, kw).value, OptionalPrefix)
  {
    match AfterKeyword(text, kw)
    case None => []
    case Some(w) => FindAll(w, OptionalPrefix)
  }

  /**
   * What one keyword yields: the amount of the leftmost match after it, or
   * of the last match the scan reports for a weak keyword.
   */
  function KeywordAmount(text: string, kw: Keyword): (r: Option<string>)
    ensures r.Some? ==> IsToken(r.value)
    ensures r.Some? <==> AmountsAfter(text, kw) != []
    ensures AfterKeyword(text, kw).None? ==> r.None?
    ensures AfterKeyword(text, kw).Some? ==>
      var w := AfterKeyword(text, kw).value;
      var ps := ScanFrom(w, 0, OptionalPrefix);
      && (r.None? <==> NoMatchIn(w, OptionalPrefix, 0, |w|))
      && (r.Some? ==> r.value == Captured(w, if kw.pickLast then ps[|ps| - 1] else ps[0], OptionalPrefix))
  {
    match AfterKeyword(text, kw)
    case None => None
    case Some(w) =>
      var vals := FindAll(w, OptionalPrefix);
      if vals == [] then None
      else if kw.pickLast then Some(vals[|vals| - 1])
      else Some(vals[0])
  }

  /** The last element of a list of tokens, cleaned; None for an empty list. */
  function CleanLast(vals: seq<string>): (r: Option<string>)
    requires forall k :: 0 <= k < |vals| ==> IsToken(vals[k])
    ensures r.Some? <==> vals != []
    ensures r.Some? ==> IsMoney(r.value) && r.value == Clean(vals[|vals| - 1])
  {
    if vals == [] then None
    else
      CleanToken(vals[|vals| - 1]);
      Some(Clean(vals[|vals| - 1]))
  }

  const ShipmentReceipt: seq<Atom> := Lit("Shipment") + [Ws] + Lit("Receipt")

  /** `is_shipment_receipt and not is_advice`: the guard that skips a Krungthai total. */
  predicate SkipsTotal(text: string)
  {
    Occurs(text, ShipmentReceipt, true) && !Occurs(text, Lit("ADVICE"), true)
  }

  /**
   * The Krungthai total: the amount the first keyword in priority order
   * yields, cleaned; when none yields one, the last amount the scan of the
   * whole chunk reports, cleaned.
   */
  function KrungthaiTotal(text: string): (r: Option<string>)
    ensures r.Some? ==> TransactionOf(text).Some? && IsMoney(r.value)
    ensures TransactionOf(text).Some? && !NoMatchIn(text, OptionalPrefix, 0, |text|) ==> r.Some?
    ensures TransactionOf(text).Some? ==>
      match KeywordTotal(text)
      case Some(t) => r == Some(Clean(t))
      case None => r == LastAmount(text, OptionalPrefix)
  {
    if TransactionOf(text).None? then None
    else
      AdviceNeverSkipped(text);
      if SkipsTotal(text) then None
      else match KeywordTotal(text)
        case Some(t) =>
          CleanToken(t);
          Some(Clean(t))
        case None => LastAmount(text, OptionalPrefix)
  }

  /** The keyword loop: the amount after the first keyword, in priority order, that has one. */
  function KeywordTotal(text: string): (r: Option<string>)
    ensures r.Some? ==> IsToken(r.value)
  {
    FirstOf(AmountKeywords, (kw: Keyword) => KeywordAmount(text, kw))
  }

  /** The keyword loop yields nothing exactly when no keyword has an amount after it, and otherwise the first that has. */
  lemma KeywordTotalFirst(text: string)
    ensures KeywordTotal(text).None? <==> forall k :: 0 <= k < |AmountKeywords| ==> KeywordAmount(text, AmountKeywords[k]).None?
    ensures KeywordTotal(text).Some? ==>
      exists k :: 0 <= k < |AmountKeywords| && KeywordAmount(text, AmountKeywords[k]) == KeywordTotal(text)
        && forall j :: 0 <= j < k ==> KeywordAmount(text, AmountKeywords[j]).None?
  {
    KeywordLoop(text, AmountKeywords);
  }

  lemma KeywordLoop(text: string, kws: seq<Keyword>)
    ensures var r := FirstOf(kws, (kw: Keyword) => KeywordAmount(text, kw));
      && (r.None? <==> forall k :: 0 <= k < |kws| ==> KeywordAmount(text, kws[k]).None?)
      && (r.Some? ==> exists k :: (0 <= k < |kws| && KeywordAmount(text, kws[k]) == r
                                   && forall j :: 0 <= j < k ==> KeywordAmount(text, kws[j]).None?))
  {
  }

  /** The cleaned amount of the last match of `lead` in `text`, if there is one. */
  function LastAmount(text: string, lead: Lead): (r: Option<string>)
    ensures r.Some? ==> IsMoney(r.value)
    ensures var ps := ScanFrom(text, 0, lead);
      && (r.None? <==> ps == [])
      && (r.Some? ==> r.value == Clean(Captured(text, ps[|ps| - 1], lead)))
    ensures r.None? <==> NoMatchIn(text, lead, 0, |text|)
  {
    var vals, ps := FindAll(text, lead), ScanFrom(text, 0, lead);
    assert vals != [] ==> vals[|vals| - 1] == Captured(text, ps[|ps| - 1], lead);
    CleanLast(vals)
  }

  /**
   * The shipment-receipt guard never fires once a transaction is known:
   * the advice wording that set the transaction ends in ADVICE.
   */
  lemma AdviceNeverSkipped(text: string)
    requires TransactionOf(text).Some?
    ensures !SkipsTotal(text)
  {
    var w := if Occurs(text, DebitAdvice, true) then "DEBIT" else "CREDIT";
    var p := Lit(w) + [Ws] + Lit("ADVICE");
    assert Occurs(text, p, true);
    var (j, e) := Search(text, p, true).value;
    MatchAppend(text, j, Lit(w) + [Ws], Lit("ADVICE"), true);
    var m := MatchAt(text, j, Lit(w) + [Ws], true).value;
    assert MatchAt(text, m, Lit("ADVICE"), true).Some?;
    OccursIff(text, Lit("ADVICE"), true);
  }

  /**
   * The CIMB total: the amount of the last currency-led match the scan
   * reports, otherwise that of the last bare match, cleaned.
   */
  function CimbTotal(text: string): (r: Option<string>)
    ensures r.Some? ==> TransactionOf(text).Some? && IsMoney(r.value)
    ensures TransactionOf(text).Some? ==>
      var cur, all := ScanFrom(text, 0, RequiredPrefix), ScanFrom(text, 0, Bare);
      && (cur != [] ==> r == Some(Clean(Captured(text, cur[|cur| - 1], RequiredPrefix))))
      && (cur == [] && all != [] ==> r == Some(Clean(Captured(text, all[|all| - 1], Bare))))
      && (cur == [] && all == [] ==> r.None?)
  {
    if TransactionOf(text).None? then None
    else if FindAll(text, RequiredPrefix) != [] then CleanLast(FindAll(text, RequiredPrefix))
    else CleanLast(FindAll(text, Bare))
  }

  // ---------------------------------------------------------------------
  // Header fields
  // ---------------------------------------------------------------------

  /** `group(1).strip().replace("=", "-")`. */
  function AccountValue(g: string): (v: string)
    ensures '=' !in v
    ensures |v| == |Strip(g)|
    ensures forall k :: 0 <= k < |v| ==> v[k] == (if Strip(g)[k] == '=' then '-' else Strip(g)[k])
  {
    var r := ReplaceChar(Strip(g), '=', '-');
    assert forall k :: 0 <= k < |r| ==> r[k] != '=';
    r
  }

  /** A Krungthai A/C candidate: the rewritten capture, refused when shorter than 5 characters. */
  function AccountCandidate(m: Matcher, text: string): (r: Option<string>)
    ensures r.Some? ==> |r.value| >= 5 && '=' !in r.value
    ensures m(text).None? ==> r.None?
    ensures m(text).Some? ==> (r.Some? <==> |Strip(m(text).value)| >= 5)
    ensures r.Some? ==> r.value == AccountValue(m(text).value)
  {
    match m(text)
    case None => None
    case Some(g) => if |AccountValue(g)| >= 5 then Some(AccountValue(g)) else None
  }

  /** The A/C loop: the first pattern whose rewritten capture is long enough. */
  function KrungthaiAccount(ms: seq<Matcher>, text: string): (r: Option<string>)
    ensures r.Some? ==> |r.value| >= 5 && '=' !in r.value
    ensures r.None? <==> forall k :: 0 <= k < |ms| ==> AccountCandidate(ms[k], text).None?
    ensures r.Some? ==>
      exists k :: 0 <= k < |ms| && AccountCandidate(ms[k], text) == r && forall j :: 0 <= j < k ==> AccountCandidate(ms[j], text).None?
  {
    FirstOf(ms, (m: Matcher) => AccountCandidate(m, text))
  }

  /** `s.split('\n')[0]`. */
  function FirstLine(s: string): (r: string)
    ensures |r| <= |s| && r == s[..|r|]
    ensures '\n' !in r
    ensures |r| < |s| ==> s[|r|] == '\n'
  {
    if s == [] || s[0] == '\n' then []
    else [s[0]] + FirstLine(s[1..])
  }

  /** `group(1).strip().split('\n')[0].strip()`. */
  function ReferenceLine(g: string): string
  {
    Strip(FirstLine(Strip(g)))
  }

  /** The reference line is one line with no whitespace at either end. */
  lemma ReferenceLineShape(g: string)
    ensures '\n' !in ReferenceLine(g)
    ensures Strip(ReferenceLine(g)) == ReferenceLine(g)
  {
    var l := FirstLine(Strip(g));
    StripSpec(l);
    var v := Strip(l);
    assert v == l[StripOffset(l)..StripOffset(l) + |v|];
    assert forall k :: 0 <= k < |v| ==> v[k] in l by {
      forall k | 0 <= k < |v| ensures v[k] in l {
        assert v[k] == l[StripOffset(l) + k];
      }
    }
    StripNoop(v);
  }

  /** The label words whose presence makes a Krungthai reference suspect. */
  predicate MentionsLabel(v: string)
  {
    var u := UpperStr(v);
    IsSubstring("A/C", u) || IsSubstring("AMOUNT", u) || IsSubstring("DATE", u)
  }

  /**
   * The Krungthai reference: the first line of the first capture; when it
   * mentions a label, only a reference code found inside it is kept.
   */
  function KrungthaiReference(p: KrungthaiPatterns, text: string): (r: Option<string>)
    ensures FirstCapture(p.reference, text).None? ==> r.None?
    ensures FirstCapture(p.reference, text).Some? ==>
      var v := ReferenceLine(FirstCapture(p.reference, text).value);
      && (MentionsLabel(v) ==> r == p.code(v))
      && (!MentionsLabel(v) ==> r == Some(v) && '\n' !in v && Strip(v) == v)
  {
    match FirstCapture(p.reference, text)
    case None => None
    case Some(g) =>
      ReferenceLineShape(g);
      var v := ReferenceLine(g);
      if MentionsLabel(v) then p.code(v) else Some(v)
  }

  // ---------------------------------------------------------------------
  // The three dialects
  // ---------------------------------------------------------------------

  function KrungthaiFields(p: KrungthaiPatterns, text: string): (f: Fields)
    ensures f.bank == Some("Krungthai") && f.company.None?
    ensures f.txn.Some? <==> IsAdvice(text)
    ensures f.total.Some? ==> f.txn.Some? && IsMoney(f.total.value)
    ensures f.txn.Some? && !NoMatchIn(text, OptionalPrefix, 0, |text|) ==> f.total.Some?
    ensures f.account.Some? ==> |f.account.value| >= 5 && '=' !in f.account.value
    ensures f.txn == TransactionOf(text) && f.total == KrungthaiTotal(text)
    ensures f.account == KrungthaiAccount(p.account, text)
    ensures f.date == StripOpt(FirstCapture(p.date, text)) && f.reference == KrungthaiReference(p, text)
  {
    Fields(
      KrungthaiAccount(p.account, text),
      StripOpt(FirstCapture(p.date, text)),
      KrungthaiReference(p, text),
      KrungthaiTotal(text),
      Some("Krungthai"),
      None,
      TransactionOf(text))
  }

  function CimbFields(p: CimbPatterns, text: string): (f: Fields)
    ensures f.bank == Some("CIMB") && f.company.None?
    ensures f.txn.Some? <==> IsAdvice(text)
    ensures f.total.Some? ==> f.txn.Some? && IsMoney(f.total.value)
    ensures f.txn.Some? && !NoMatchIn(text, Bare, 0, |text|) ==> f.total.Some?
    ensures f.txn == TransactionOf(text) && f.total == CimbTotal(text)
    ensures f.account == StripOpt(FirstCapture(p.account, text))
    ensures f.date == StripOpt(FirstCapture(p.date, text))
    ensures f.reference == StripOpt(FirstCapture(p.reference, text))
  {
    Fields(
      StripOpt(FirstCapture(p.account, text)),
      StripOpt(FirstCapture(p.date, text)),
      StripOpt(FirstCapture(p.reference, text)),
      CimbTotal(text),
      Some("CIMB"),
      None,
      TransactionOf(text))
  }

  function BankName(d: Dialect): Option<string>
  {
    match d
    case Krungthai => Some("Krungthai")
    case Cimb => Some("CIMB")
    case Generic => None
  }

  /** `parser.extract_chunk(text)` for the dialect's parser. */
  function ExtractChunk(d: Dialect, p: Patterns, text: string): (f: Fields)
    ensures f.bank == BankName(d) && f.company.None?
    ensures f.txn.Some? <==> IsAdvice(text)
    ensures f.total.Some? ==> f.txn.Some? && IsMoney(f.total.value)
    ensures d == Krungthai ==> f == KrungthaiFields(p.krungthai, text)
    ensures d == Cimb ==> f == CimbFields(p.cimb, text)
    ensures d == Generic ==> f == KrungthaiFields(p.krungthai, text).(bank := None)
  {
    match d
    case Krungthai => KrungthaiFields(p.krungthai, text)
    case Cimb => CimbFields(p.cimb, text)
    case Generic => KrungthaiFields(p.krungthai, text).(bank := None)
  }
}
