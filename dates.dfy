/**
 * `normalize_date` of the date migration: four prefix-anchored formats,
 * tried in order, each rewritten to `YYYY-MM-DD`; anything else comes back
 * trimmed. Each `re.match` is a scanner from position 0: `\d{1,2}`
 * followed by a fixed separator matches exactly a run of one or two digits
 * followed by that separator (a longer run fails even after
 * backtracking), and a `+` run followed by a character of another class is
 * always its maximal run.
 */
module Dates {
  import opened Wrappers
  import opened Chars

  /** `months_map`, in its insertion order. */
  const MonthTable: seq<(string, string)> := [
    ("jan", "01"), ("feb", "02"), ("mar", "03"), ("apr", "04"), ("may", "05"), ("jun", "06"),
    ("jul", "07"), ("aug", "08"), ("sep", "09"), ("oct", "10"), ("nov", "11"), ("dec", "12")
  ]

  /** Two ASCII digits. */
  predicate IsCode(m: string)
  {
    |m| == 2 && IsDigit(m[0]) && IsDigit(m[1])
  }

  lemma TableCodes()
    ensures forall i :: 0 <= i < |MonthTable| ==> IsCode(MonthTable[i].1) && |MonthTable[i].0| == 3
  {
  }

  function GetFrom(key: string, i: nat): (m: string)
    requires i <= |MonthTable|
    ensures IsCode(m)
    decreases |MonthTable| - i
  {
    TableCodes();
    if i == |MonthTable| then "01"
    else if MonthTable[i].0 == key then MonthTable[i].1
    else GetFrom(key, i + 1)
  }

  /** `months_map.get(key, '01')`. */
  function MonthOf(key: string): (m: string)
    ensures IsCode(m)
  {
    GetFrom(key, 0)
  }

  predicate IsPrefix(k: string, w: string)
  {
    |k| <= |w| && w[..|k|] == k
  }

  function PrefixFrom(word: string, i: nat): (m: string)
    requires i <= |MonthTable|
    ensures IsCode(m)
    decreases |MonthTable| - i
  {
    TableCodes();
    if i == |MonthTable| then "01"
    else if IsPrefix(MonthTable[i].0, word) then MonthTable[i].1
    else PrefixFrom(word, i + 1)
  }

  /** The loop over `months_map` that takes the first key the month name starts with. */
  function MonthByPrefix(word: string): (m: string)
    ensures IsCode(m)
  {
    PrefixFrom(word, 0)
  }

  /** `f"{int(d):02d}"` for one or two ASCII digits. */
  function Pad2(d: string): (r: string)
    requires 1 <= |d| <= 2 && AllDigits(d)
    ensures IsCode(r)
    ensures DecimalValue(r) == DecimalValue(d)
  {
    if |d| == 1 then
      assert ("0" + d)[..1] == "0";
      "0" + d
    else d
  }

  /** `\d{1,2}` followed by one of `seps`: the position of the separator. */
  function Digits12(s: string, i: nat, seps: string): (e: Option<nat>)
    requires i <= |s|
    ensures e.Some? ==> i + 1 <= e.value <= i + 2 && e.value < |s| && s[e.value] in seps && AllDigits(s[i..e.value])
  {
    var e := Span(s, i, IsDigit);
    if 1 <= e - i <= 2 && e < |s| && s[e] in seps then Some(e) else None
  }

  /** `\d{4}` at `i`. */
  predicate Digits4(s: string, i: nat)
  {
    i + 4 <= |s| && AllDigits(s[i..i + 4])
  }

  /** The canonical form `YYYY-MM-DD`. */
  predicate IsIso(r: string)
  {
    && |r| == 10
    && AllDigits(r[..4]) && r[4] == '-' && IsCode(r[5..7]) && r[7] == '-' && IsCode(r[8..])
  }

  function Iso(y: string, m: string, d: string): (r: string)
    requires |y| == 4 && AllDigits(y) && IsCode(m) && IsCode(d)
    ensures IsIso(r)
    ensures r[..4] == y && r[5..7] == m && r[8..] == d
  {
    var r := y + "-" + m + "-" + d;
    assert r[..4] == y && r[5..7] == m && r[8..] == d;
    r
  }

  // ---------------------------------------------------------------------
  // The four cases
  // ---------------------------------------------------------------------

  /** Case 1, `(\d{1,2})-([a-zA-Z]{3})-(\d{4})`. */
  function DayMonthName(s: string): (r: Option<string>)
    ensures r.Some? ==> IsIso(r.value)
  {
    match Digits12(s, 0, "-")
    case None => None
    case Some(e) =>
      if e + 9 <= |s| && IsAsciiLetter(s[e + 1]) && IsAsciiLetter(s[e + 2]) && IsAsciiLetter(s[e + 3])
         && s[e + 4] == '-' && Digits4(s, e + 5)
      then Some(Iso(s[e + 5..e + 9], MonthOf(LowerStr(s[e + 1..e + 4])), Pad2(s[..e])))
      else None
  }

  /** Case 2, `(\d{1,2})/(\d{1,2})/(\d{4})`: day first. */
  function DaySlashMonth(s: string): (r: Option<string>)
    ensures r.Some? ==> IsIso(r.value)
  {
    match Digits12(s, 0, "/")
    case None => None
    case Some(e1) =>
      match Digits12(s, e1 + 1, "/")
      case None => None
      case Some(e2) =>
        if Digits4(s, e2 + 1) then Some(Iso(s[e2 + 1..e2 + 5], Pad2(s[e1 + 1..e2]), Pad2(s[..e1])))
        else None
  }

  /** Case 3, `([a-zA-Z]+)\s+(\d{1,2}),\s+(\d{4})`. */
  function MonthNameDay(s: string): (r: Option<string>)
    ensures r.Some? ==> IsIso(r.value)
  {
    var w := Span(s, 0, IsAsciiLetter);
    var g := Span(s, w, IsSpace);
    if w == 0 || g == w then None
    else match Digits12(s, g, ",")
      case None => None
      case Some(e) => DayYear(s, w, g, e)
  }

  /** The rest of case 3 once the day `s[g..e]` and its comma are found: `\s+(\d{4})`. */
  function DayYear(s: string, w: nat, g: nat, e: nat): (r: Option<string>)
    requires w <= g && g + 1 <= e <= g + 2 && e < |s| && AllDigits(s[g..e])
    ensures r.Some? ==> IsIso(r.value)
  {
    var g2 := Span(s, e + 1, IsSpace);
    if g2 > e + 1 && Digits4(s, g2) then
      var day, year := s[g..e], s[g2..g2 + 4];
      assert 1 <= |day| <= 2 && AllDigits(day) && |year| == 4 && AllDigits(year);
      Some(Iso(year, MonthByPrefix(LowerStr(s[..w])), Pad2(day)))
    else None
  }

  /** End of the greedy `\d{1,2}` at `i`, if there is a digit there. */
  function UpTo2Digits(s: string, i: nat): (e: Option<nat>)
    requires i <= |s|
    ensures e.Some? ==> i + 1 <= e.value <= i + 2 && e.value <= |s| && AllDigits(s[i..e.value])
    ensures e.Some? && e.value == i + 1 ==> i + 1 == |s| || !IsDigit(s[i + 1])
  {
    if i + 2 <= |s| && IsDigit(s[i]) && IsDigit(s[i + 1]) then Some(i + 2)
    else if i < |s| && IsDigit(s[i]) then Some(i + 1)
    else None
  }

  /** Case 4, `(\d{4})[-/](\d{1,2})[-/](\d{1,2})`. */
  function YearFirst(s: string): (r: Option<string>)
    ensures r.Some? ==> IsIso(r.value)
  {
    if Digits4(s, 0) && 4 < |s| && s[4] in "-/" then
      match Digits12(s, 5, "-/")
      case None => None
      case Some(e) =>
        match UpTo2Digits(s, e + 1)
        case None => None
        case Some(d) => Some(Iso(s[..4], Pad2(s[5..e]), Pad2(s[e + 1..d])))
    else None
  }

  /** One of the four cases applies. */
  predicate Matched(s: string)
  {
    DayMonthName(s).Some? || DaySlashMonth(s).Some? || MonthNameDay(s).Some? || YearFirst(s).Some?
  }

  /** The four cases in order; the trimmed input when none matches. */
  function Cascade(s: string): (r: string)
    ensures Matched(s) ==> IsIso(r)
    ensures !Matched(s) ==> r == s
  {
    match DayMonthName(s)
    case Some(r) => r
    case None =>
      match DaySlashMonth(s)
      case Some(r) => r
      case None =>
        match MonthNameDay(s)
        case Some(r) => r
        case None =>
          match YearFirst(s)
          case Some(r) => r
          case None => s
  }

  /** `normalize_date`: None for a missing or empty value, otherwise the cascade on the stripped text. */
  function NormalizeDate(v: Option<string>): (r: Option<string>)
    ensures r.None? <==> v.None? || v == Some("")
    ensures r.Some? && Matched(Strip(v.value)) ==> IsIso(r.value)
    ensures r.Some? && !Matched(Strip(v.value)) ==> r.value == Strip(v.value)
  {
    if v.None? || v.value == "" then None
    else Some(Cascade(Strip(v.value)))
  }

  // ---------------------------------------------------------------------
  // The month table
  // ---------------------------------------------------------------------

  /** No entry in `[i, j)` has this key. */
  predicate FirstKeyAt(key: string, i: nat, j: nat)
    requires j <= |MonthTable|
  {
    forall k :: i <= k < j ==> MonthTable[k].0 != key
  }

  /** A key found nowhere from `i` on gets the default. */
  lemma {:induction false} GetFromMissing(key: string, i: nat)
    requires i <= |MonthTable|
    requires forall j :: i <= j < |MonthTable| ==> MonthTable[j].0 != key
    ensures GetFrom(key, i) == "01"
    decreases |MonthTable| - i
  {
    if i < |MonthTable| {
      GetFromMissing(key, i + 1);
    }
  }

  /** A key first found at `j` gets the code stored there. */
  lemma {:induction false} GetFromFound(key: string, i: nat, j: nat)
    requires i <= j < |MonthTable| && MonthTable[j].0 == key && FirstKeyAt(key, i, j)
    ensures GetFrom(key, i) == MonthTable[j].1
    decreases j - i
  {
    if i < j {
      assert MonthTable[i].0 != key;
      GetFromFound(key, i + 1, j);
    }
  }

  /** Each abbreviation maps to its own month number. */
  lemma MonthOfEntry(j: nat)
    requires j < |MonthTable|
    ensures MonthOf(MonthTable[j].0) == MonthTable[j].1
  {
    forall k | 0 <= k < j ensures MonthTable[k].0 != MonthTable[j].0 {
      KeysDistinct(k, j);
    }
    GetFromFound(MonthTable[j].0, 0, j);
  }

  /** No abbreviation appears twice in the table. */
  lemma KeysDistinct(a: nat, b: nat)
    requires a < b < |MonthTable|
    ensures MonthTable[a].0 != MonthTable[b].0
  {
    var x, y := MonthTable[a].0, MonthTable[b].0;
    assert x[0] != y[0] || x[1] != y[1] || x[2] != y[2];
  }

  /** An abbreviation that is not in the table maps to `01`. */
  lemma MonthOfUnknown(key: string)
    requires forall j :: 0 <= j < |MonthTable| ==> MonthTable[j].0 != key
    ensures MonthOf(key) == "01"
  {
    GetFromMissing(key, 0);
  }

  lemma {:induction false} PrefixFromAgrees(word: string, i: nat)
    requires i <= |MonthTable|
    ensures PrefixFrom(word, i) == if |word| >= 3 then GetFrom(word[..3], i) else "01"
    decreases |MonthTable| - i
  {
    TableCodes();
    if i < |MonthTable| {
      PrefixFromAgrees(word, i + 1);
    }
  }

  /** The first key a month word starts with is the month of its first three letters. */
  lemma MonthByPrefixAgrees(word: string)
    ensures MonthByPrefix(word) == if |word| >= 3 then MonthOf(word[..3]) else "01"
  {
    PrefixFromAgrees(word, 0);
  }

  // ---------------------------------------------------------------------
  // Which case takes an input
  // ---------------------------------------------------------------------

  lemma CascadeFirst(s: string)
    requires DayMonthName(s).Some?
    ensures Cascade(s) == DayMonthName(s).value
  {
  }

  lemma CascadeSecond(s: string)
    requires DayMonthName(s).None? && DaySlashMonth(s).Some?
    ensures Cascade(s) == DaySlashMonth(s).value
  {
  }

  lemma CascadeThird(s: string)
    requires DayMonthName(s).None? && DaySlashMonth(s).None? && MonthNameDay(s).Some?
    ensures Cascade(s) == MonthNameDay(s).value
  {
  }

  lemma CascadeFourth(s: string)
    requires DayMonthName(s).None? && DaySlashMonth(s).None? && MonthNameDay(s).None? && YearFirst(s).Some?
    ensures Cascade(s) == YearFirst(s).value
  {
  }

  /** A text starting with a letter is for the third case only. */
  lemma LetterLed(s: string)
    requires s != [] && IsAsciiLetter(s[0])
    ensures DayMonthName(s).None? && DaySlashMonth(s).None? && YearFirst(s).None?
  {
    SpanIs(s, 0, 0, IsDigit);
    LetterNotFirst(s);
    LetterNotSecond(s);
    LetterNotFourth(s);
  }

  lemma LetterNotFirst(s: string)
    requires s != [] && IsAsciiLetter(s[0]) && Span(s, 0, IsDigit) == 0
    ensures DayMonthName(s).None?
  {
  }

  lemma LetterNotSecond(s: string)
    requires s != [] && IsAsciiLetter(s[0]) && Span(s, 0, IsDigit) == 0
    ensures DaySlashMonth(s).None?
  {
  }

  lemma LetterNotFourth(s: string)
    requires s != [] && IsAsciiLetter(s[0])
    ensures YearFirst(s).None?
  {
    assert 4 <= |s| ==> s[0..4][0] == s[0];
  }

  /** A text starting with a digit is not for the third case. */
  lemma DigitLed(s: string)
    requires s != [] && IsDigit(s[0])
    ensures MonthNameDay(s).None?
  {
    SpanIs(s, 0, 0, IsAsciiLetter);
  }

  /** A text starting with four digits is for the fourth case only. */
  lemma YearLed(s: string)
    requires 4 <= |s| && AllDigits(s[..4])
    ensures DayMonthName(s).None? && DaySlashMonth(s).None? && MonthNameDay(s).None?
  {
    assert IsDigit(s[..4][0]) && IsDigit(s[..4][1]) && IsDigit(s[..4][2]);
    DigitLed(s);
  }

  // ---------------------------------------------------------------------
  // Each format read back
  // ---------------------------------------------------------------------

  lemma DayMonthNameValue(x: string, d: string, mon: string, y: string, t: string)
    requires 1 <= |d| <= 2 && AllDigits(d)
    requires |mon| == 3 && IsAsciiLetter(mon[0]) && IsAsciiLetter(mon[1]) && IsAsciiLetter(mon[2])
    requires |y| == 4 && AllDigits(y)
    requires x == d + "-" + mon + "-" + y + t
    ensures DayMonthName(x) == Some(Iso(y, MonthOf(LowerStr(mon)), Pad2(d)))
  {
    var e := |d|;
    assert x[..e] == d && x[e] == '-' && x[e + 1..e + 4] == mon && x[e + 4] == '-' && x[e + 5..e + 9] == y;
    assert x[e + 1] == mon[0] && x[e + 2] == mon[1] && x[e + 3] == mon[2];
    DayMonthNameAt(x, e);
  }

  /** The first case, given where the dash after the day is. */
  lemma DayMonthNameAt(x: string, e: nat)
    requires 1 <= e <= 2 && e + 9 <= |x| && AllDigits(x[..e]) && x[e] == '-'
    requires IsAsciiLetter(x[e + 1]) && IsAsciiLetter(x[e + 2]) && IsAsciiLetter(x[e + 3])
    requires x[e + 4] == '-' && AllDigits(x[e + 5..e + 9])
    ensures DayMonthName(x) == Some(Iso(x[e + 5..e + 9], MonthOf(LowerStr(x[e + 1..e + 4])), Pad2(x[..e])))
  {
    assert x[..e] == x[0..e];
    Digits12At(x, 0, e, "-");
  }

  /** `D-Mon-YYYY` or `DD-Mon-YYYY`, followed by anything, takes the first case. */
  lemma DayMonthNameForm(d: string, mon: string, y: string, t: string)
    requires 1 <= |d| <= 2 && AllDigits(d)
    requires |mon| == 3 && IsAsciiLetter(mon[0]) && IsAsciiLetter(mon[1]) && IsAsciiLetter(mon[2])
    requires |y| == 4 && AllDigits(y)
    ensures Cascade(d + "-" + mon + "-" + y + t) == Iso(y, MonthOf(LowerStr(mon)), Pad2(d))
  {
    var x := d + "-" + mon + "-" + y + t;
    DayMonthNameValue(x, d, mon, y, t);
    CascadeFirst(x);
  }

  lemma DaySlashMonthValue(x: string, d: string, m: string, y: string, t: string)
    requires 1 <= |d| <= 2 && AllDigits(d)
    requires 1 <= |m| <= 2 && AllDigits(m)
    requires |y| == 4 && AllDigits(y)
    requires x == d + "/" + m + "/" + y + t
    ensures DayMonthName(x).None?
    ensures DaySlashMonth(x) == Some(Iso(y, Pad2(m), Pad2(d)))
  {
    var e1 := |d|;
    var e2 := e1 + 1 + |m|;
    assert x[..e1] == d && x[e1] == '/';
    assert x[e1 + 1..e2] == m && x[e2] == '/';
    assert x[e2 + 1..e2 + 5] == y;
    SlashAfterDay(x, e1);
    DaySlashMonthAt(x, e1, e2);
  }

  /** A day followed by a slash is not the first case. */
  lemma SlashAfterDay(x: string, e1: nat)
    requires 1 <= e1 <= 2 && e1 < |x| && AllDigits(x[..e1]) && x[e1] == '/'
    ensures DayMonthName(x).None?
  {
    assert forall k :: 0 <= k < e1 ==> x[k] == x[..e1][k];
    SpanIs(x, 0, e1, IsDigit);
  }

  /** The second case, given where its two slashes are. */
  lemma DaySlashMonthAt(x: string, e1: nat, e2: nat)
    requires 1 <= e1 <= 2 && e1 + 2 <= e2 <= e1 + 3 && e2 + 5 <= |x|
    requires AllDigits(x[..e1]) && x[e1] == '/' && AllDigits(x[e1 + 1..e2]) && x[e2] == '/' && AllDigits(x[e2 + 1..e2 + 5])
    ensures DaySlashMonth(x) == Some(Iso(x[e2 + 1..e2 + 5], Pad2(x[e1 + 1..e2]), Pad2(x[..e1])))
  {
    assert x[..e1] == x[0..e1];
    Digits12At(x, 0, e1, "/");
    Digits12At(x, e1 + 1, e2, "/");
    DaySlashMonthFound(x, e1, e2);
  }

  lemma DaySlashMonthFound(x: string, e1: nat, e2: nat)
    requires e1 + 2 <= e2 && e2 + 5 <= |x| && AllDigits(x[e2 + 1..e2 + 5])
    requires Digits12(x, 0, "/") == Some(e1) && Digits12(x, e1 + 1, "/") == Some(e2)
    ensures DaySlashMonth(x) == Some(Iso(x[e2 + 1..e2 + 5], Pad2(x[e1 + 1..e2]), Pad2(x[..e1])))
  {
  }

  /** One or two digits from `i` followed by a separator at `e`. */
  lemma Digits12At(x: string, i: nat, e: nat, seps: string)
    requires i + 1 <= e <= i + 2 && e < |x| && AllDigits(x[i..e]) && x[e] in seps && !IsDigit(x[e])
    ensures Digits12(x, i, seps) == Some(e)
  {
    assert forall k :: i <= k < e ==> x[k] == x[i..e][k - i];
    SpanIs(x, i, e, IsDigit);
  }

  /** `D/M/YYYY` with one or two digits each, followed by anything, takes the second case, day first. */
  lemma DaySlashMonthForm(d: string, m: string, y: string, t: string)
    requires 1 <= |d| <= 2 && AllDigits(d)
    requires 1 <= |m| <= 2 && AllDigits(m)
    requires |y| == 4 && AllDigits(y)
    ensures Cascade(d + "/" + m + "/" + y + t) == Iso(y, Pad2(m), Pad2(d))
  {
    var x := d + "/" + m + "/" + y + t;
    DaySlashMonthValue(x, d, m, y, t);
    CascadeSecond(x);
  }

  /** The third case, given where its runs begin and end. */
  lemma MonthNameDayAt(x: string, a: nat, b: nat, e: nat, c: nat)
    requires 1 <= a < b < e && e + 1 < c && c + 4 <= |x| && e - b <= 2
    requires forall i :: 0 <= i < a ==> IsAsciiLetter(x[i])
    requires forall i :: a <= i < b ==> IsSpace(x[i])
    requires forall i :: b <= i < e ==> IsDigit(x[i])
    requires x[e] == ','
    requires forall i :: e + 1 <= i < c ==> IsSpace(x[i])
    requires Digits4(x, c)
    ensures MonthNameDay(x) == Some(Iso(x[c..c + 4], MonthByPrefix(LowerStr(x[..a])), Pad2(x[b..e])))
  {
    assert !IsAsciiLetter(x[a]);
    SpanIs(x, 0, a, IsAsciiLetter);
    assert !IsSpace(x[b]);
    SpanIs(x, a, b, IsSpace);
    SpanIs(x, b, e, IsDigit);
    assert Digits12(x, b, ",") == Some(e);
    assert IsDigit(x[c..c + 4][0]);
    assert !IsSpace(x[c]);
    SpanIs(x, e + 1, c, IsSpace);
    MonthNameDayRuns(x, a, b, e, c);
  }

  /** The third case, given the ends of its runs as the scanner finds them. */
  lemma MonthNameDayRuns(x: string, a: nat, b: nat, e: nat, c: nat)
    requires 0 < a < b < e && e + 1 < c && c + 4 <= |x| && e - b <= 2
    requires AllDigits(x[b..e]) && AllDigits(x[c..c + 4])
    requires Span(x, 0, IsAsciiLetter) == a && Span(x, a, IsSpace) == b
    requires Digits12(x, b, ",") == Some(e) && Span(x, e + 1, IsSpace) == c
    ensures MonthNameDay(x) == Some(Iso(x[c..c + 4], MonthByPrefix(LowerStr(x[..a])), Pad2(x[b..e])))
  {
    MonthNameDayScan(x, a, b, e);
    DayYearRuns(x, a, b, e, c);
  }

  /** The third case hands over to `DayYear` once the month word, its blanks and the day are found. */
  lemma MonthNameDayScan(x: string, a: nat, b: nat, e: nat)
    requires 0 < a < b < e && e < |x| && e - b <= 2 && AllDigits(x[b..e])
    requires Span(x, 0, IsAsciiLetter) == a && Span(x, a, IsSpace) == b
    requires Digits12(x, b, ",") == Some(e)
    ensures MonthNameDay(x) == DayYear(x, a, b, e)
  {
  }

  lemma DayYearRuns(x: string, a: nat, b: nat, e: nat, c: nat)
    requires 0 < a < b < e && e + 1 < c && c + 4 <= |x| && e - b <= 2
    requires AllDigits(x[b..e]) && AllDigits(x[c..c + 4]) && Span(x, e + 1, IsSpace) == c
    ensures DayYear(x, a, b, e) == Some(Iso(x[c..c + 4], MonthByPrefix(LowerStr(x[..a])), Pad2(x[b..e])))
  {
  }

  lemma MonthNameDayValue(x: string, w: string, g1: string, d: string, g2: string, y: string, t: string)
    requires |w| >= 1 && forall i :: 0 <= i < |w| ==> IsAsciiLetter(w[i])
    requires |g1| >= 1 && forall i :: 0 <= i < |g1| ==> IsSpace(g1[i])
    requires 1 <= |d| <= 2 && AllDigits(d)
    requires |g2| >= 1 && forall i :: 0 <= i < |g2| ==> IsSpace(g2[i])
    requires |y| == 4 && AllDigits(y)
    requires x == w + g1 + d + "," + g2 + y + t
    ensures MonthNameDay(x) == Some(Iso(y, MonthByPrefix(LowerStr(w)), Pad2(d)))
  {
    var a := |w|;
    var b := a + |g1|;
    var e := b + |d|;
    var c := e + 1 + |g2|;
    assert x[..a] == w;
    assert x[b..e] == d;
    assert x[c..c + 4] == y;
    assert x[e] == ',';
    assert forall i :: a <= i < b ==> IsSpace(x[i]) by {
      forall i | a <= i < b
        ensures IsSpace(x[i])
      {
        assert x[i] == g1[i - a];
      }
    }
    assert forall i :: e + 1 <= i < c ==> IsSpace(x[i]) by {
      forall i | e + 1 <= i < c
        ensures IsSpace(x[i])
      {
        assert x[i] == g2[i - e - 1];
      }
    }
    MonthNameDayAt(x, a, b, e, c);
  }

  /** `Month D, YYYY`, followed by anything, takes the third case. */
  lemma MonthNameDayForm(w: string, g1: string, d: string, g2: string, y: string, t: string)
    requires |w| >= 1 && forall i :: 0 <= i < |w| ==> IsAsciiLetter(w[i])
    requires |g1| >= 1 && forall i :: 0 <= i < |g1| ==> IsSpace(g1[i])
    requires 1 <= |d| <= 2 && AllDigits(d)
    requires |g2| >= 1 && forall i :: 0 <= i < |g2| ==> IsSpace(g2[i])
    requires |y| == 4 && AllDigits(y)
    ensures Cascade(w + g1 + d + "," + g2 + y + t) == Iso(y, MonthByPrefix(LowerStr(w)), Pad2(d))
  {
    var x := w + g1 + d + "," + g2 + y + t;
    MonthNameDayValue(x, w, g1, d, g2, y, t);
    assert x[0] == w[0];
    LetterLed(x);
    CascadeThird(x);
  }

  lemma YearFirstValue(x: string, y: string, s1: char, m: string, s2: char, d: string, t: string)
    requires |y| == 4 && AllDigits(y)
    requires s1 in "-/" && s2 in "-/"
    requires 1 <= |m| <= 2 && AllDigits(m)
    requires 1 <= |d| <= 2 && AllDigits(d)
    requires |d| == 2 || t == [] || !IsDigit(t[0])
    requires x == y + [s1] + m + [s2] + d + t
    ensures YearFirst(x) == Some(Iso(y, Pad2(m), Pad2(d)))
  {
    var e := 5 + |m|;
    var f := e + 1 + |d|;
    assert x[..4] == y && x[4] == s1 && x[5..e] == m && x[e] == s2 && x[e + 1..f] == d;
    assert x[0..4] == x[..4];
    assert !IsDigit(x[e]);
    Digits12At(x, 5, e, "-/");
    assert f < |x| ==> x[f] == t[0];
    UpTo2At(x, e + 1, f);
    YearFirstAt(x, e, f);
  }

  /** The greedy `\d{1,2}` at `i` ends at `f` when the digits run there and stop. */
  lemma UpTo2At(x: string, i: nat, f: nat)
    requires i + 1 <= f <= i + 2 && f <= |x| && AllDigits(x[i..f])
    requires f == i + 2 || f == |x| || !IsDigit(x[f])
    ensures UpTo2Digits(x, i) == Some(f)
  {
    assert x[i] == x[i..f][0];
    if f == i + 2 {
      assert x[i + 1] == x[i..f][1];
    }
  }

  /** The fourth case, given where its month and day end. */
  lemma YearFirstAt(x: string, e: nat, f: nat)
    requires Digits4(x, 0) && 4 < |x| && x[4] in "-/"
    requires Digits12(x, 5, "-/") == Some(e) && UpTo2Digits(x, e + 1) == Some(f)
    ensures YearFirst(x) == Some(Iso(x[..4], Pad2(x[5..e]), Pad2(x[e + 1..f])))
  {
  }

  /**
   * `YYYY-M-D` or `YYYY/M/D`, either separator in either place, takes the
   * fourth case. The day is greedy: a one-digit day must not be followed
   * by a further digit.
   */
  lemma YearFirstForm(y: string, s1: char, m: string, s2: char, d: string, t: string)
    requires |y| == 4 && AllDigits(y)
    requires s1 in "-/" && s2 in "-/"
    requires 1 <= |m| <= 2 && AllDigits(m)
    requires 1 <= |d| <= 2 && AllDigits(d)
    requires |d| == 2 || t == [] || !IsDigit(t[0])
    ensures Cascade(y + [s1] + m + [s2] + d + t) == Iso(y, Pad2(m), Pad2(d))
  {
    var x := y + [s1] + m + [s2] + d + t;
    YearFirstValue(x, y, s1, m, s2, d, t);
    assert x[..4] == y;
    YearLed(x);
    CascadeFourth(x);
  }

  /** A canonical date, followed by anything (a time, say), normalises to itself. */
  lemma IsoReadBack(s: string, t: string)
    requires IsIso(s)
    ensures Cascade(s + t) == s
  {
    assert s == s[..4] + ['-'] + s[5..7] + ['-'] + s[8..];
    assert s + t == s[..4] + ['-'] + s[5..7] + ['-'] + s[8..] + t;
    YearFirstForm(s[..4], '-', s[5..7], '-', s[8..], t);
    var r := Iso(s[..4], Pad2(s[5..7]), Pad2(s[8..]));
    assert forall i :: 0 <= i < 10 ==> r[i] == s[i] by {
      forall i | 0 <= i < 10
        ensures r[i] == s[i]
      {
        if i < 4 {
          assert r[i] == r[..4][i];
        } else if 5 <= i < 7 {
          assert r[i] == r[5..7][i - 5] && s[i] == s[5..7][i - 5];
        } else if 8 <= i {
          assert r[i] == r[8..][i - 8] && s[i] == s[8..][i - 8];
        }
      }
    }
  }

  /** `DD-MM-YYYY` with dashes matches no case and comes back unchanged. */
  lemma DashedDayFirstUnchanged(d: string, m: string, y: string)
    requires |d| == 2 && AllDigits(d) && |m| == 2 && AllDigits(m) && |y| == 4 && AllDigits(y)
    ensures NormalizeDate(Some(d + "-" + m + "-" + y)) == Some(d + "-" + m + "-" + y)
  {
    var x := d + "-" + m + "-" + y;
    assert x[0] == d[0] && x[1] == d[1] && x[2] == '-' && x[3] == m[0] && x[9] == y[3];
    StripNoop(x);
    DashedUnmatched(x);
  }

  /** Two digits, a dash and a digit match none of the four cases. */
  lemma DashedUnmatched(x: string)
    requires 4 <= |x| && IsDigit(x[0]) && IsDigit(x[1]) && x[2] == '-' && IsDigit(x[3])
    ensures !Matched(x)
  {
    DashedNotFirst(x);
    DashedNotSecond(x);
    DigitLed(x);
    assert !Digits4(x, 0) by {
      assert !IsDigit(x[..4][2]);
    }
  }

  lemma DashedNotFirst(x: string)
    requires 4 <= |x| && IsDigit(x[0]) && IsDigit(x[1]) && x[2] == '-' && IsDigit(x[3])
    ensures DayMonthName(x).None?
  {
    assert x[0..2] == x[..2];
    Digits12At(x, 0, 2, "-");
    assert !IsAsciiLetter(x[3]);
  }

  lemma DashedNotSecond(x: string)
    requires 3 <= |x| && IsDigit(x[0]) && IsDigit(x[1]) && x[2] == '-'
    ensures DaySlashMonth(x).None?
  {
    SpanIs(x, 0, 2, IsDigit);
    assert x[2] !in "/";
  }

  // ---------------------------------------------------------------------
  // The whole normaliser
  // ---------------------------------------------------------------------

  /**
   * Normalising twice equals normalising once, except for a non-empty
   * all-whitespace input (see `BlankNotIdempotent`).
   */
  lemma NormalizeIdempotent(v: Option<string>)
    requires v.Some? && v.value != "" ==> Strip(v.value) != ""
    ensures NormalizeDate(NormalizeDate(v)) == NormalizeDate(v)
  {
    if v.Some? && v.value != "" {
      var s := Strip(v.value);
      var r := Cascade(s);
      if Matched(s) {
        IsoFixed(r);
      } else {
        StripSpec(v.value);
        StripNoop(s);
      }
    }
  }

  /** Whitespace alone is truthy, strips to the empty string and is returned; that result then normalises to None. */
  lemma BlankNotIdempotent(v: Option<string>)
    requires v == Some(" ")
    ensures NormalizeDate(v) == Some("")
    ensures NormalizeDate(NormalizeDate(v)) == None
  {
    assert IsSpace(v.value[0]) && Strip(v.value) == "";
    EmptyUnmatched("");
  }

  lemma EmptyUnmatched(s: string)
    requires s == ""
    ensures !Matched(s)
  {
    SpanIs(s, 0, 0, IsDigit);
    SpanIs(s, 0, 0, IsAsciiLetter);
  }

  // ---------------------------------------------------------------------
  // Concrete inputs
  // ---------------------------------------------------------------------

  lemma JanCode(mon: string)
    requires mon == "Jan"
    ensures MonthOf(LowerStr(mon)) == "01"
  {
    assert LowerStr(mon) == MonthTable[0].0;
    MonthOfEntry(0);
  }

  lemma FebCode(mon: string)
    requires mon == "Feb"
    ensures MonthOf(LowerStr(mon)) == "02"
  {
    assert LowerStr(mon) == MonthTable[1].0;
    MonthOfEntry(1);
  }

  lemma JanuaryCode(w: string)
    requires w == "January"
    ensures MonthByPrefix(LowerStr(w)) == "01"
  {
    MonthByPrefixAgrees(LowerStr(w));
    assert LowerStr(w)[..3] == MonthTable[0].0;
    MonthOfEntry(0);
  }

  lemma DecCode(w: string)
    requires w == "Dec"
    ensures MonthByPrefix(LowerStr(w)) == "12"
  {
    MonthByPrefixAgrees(LowerStr(w));
    assert LowerStr(w)[..3] == MonthTable[11].0;
    MonthOfEntry(11);
  }

  /** A value that is already trimmed goes straight to the cascade. */
  lemma NormalizeTrimmed(v: string)
    requires v != [] && !IsSpace(v[0]) && !IsSpace(v[|v| - 1])
    ensures NormalizeDate(Some(v)) == Some(Cascade(v))
  {
    StripNoop(v);
  }

  /** Surrounding whitespace does not change the result of a value that is not all whitespace. */
  lemma PaddingIgnored(v: string)
    requires Strip(v) != ""
    ensures NormalizeDate(Some(v)) == NormalizeDate(Some(Strip(v)))
  {
    StripSpec(v);
    StripNoop(Strip(v));
  }

  lemma FooCode(mon: string)
    requires mon == "Foo"
    ensures MonthOf(LowerStr(mon)) == "01"
  {
    assert LowerStr(mon) == "foo";
    MonthOfUnknown(LowerStr(mon));
  }

  lemma DayMonthNameCase(d: string, mon: string, y: string, code: string)
    requires 1 <= |d| <= 2 && AllDigits(d) && |y| == 4 && AllDigits(y)
    requires |mon| == 3 && IsAsciiLetter(mon[0]) && IsAsciiLetter(mon[1]) && IsAsciiLetter(mon[2])
    requires MonthOf(LowerStr(mon)) == code
    ensures Cascade(d + "-" + mon + "-" + y) == Iso(y, code, Pad2(d))
  {
    assert d + "-" + mon + "-" + y == d + "-" + mon + "-" + y + "";
    DayMonthNameForm(d, mon, y, "");
  }

  lemma DaySlashMonthCase(d: string, m: string, y: string)
    requires 1 <= |d| <= 2 && AllDigits(d) && 1 <= |m| <= 2 && AllDigits(m) && |y| == 4 && AllDigits(y)
    ensures Cascade(d + "/" + m + "/" + y) == Iso(y, Pad2(m), Pad2(d))
  {
    assert d + "/" + m + "/" + y == d + "/" + m + "/" + y + "";
    DaySlashMonthForm(d, m, y, "");
  }

  lemma MonthNameDayCase(w: string, d: string, y: string, code: string)
    requires |w| >= 1 && forall i :: 0 <= i < |w| ==> IsAsciiLetter(w[i])
    requires 1 <= |d| <= 2 && AllDigits(d) && |y| == 4 && AllDigits(y)
    requires MonthByPrefix(LowerStr(w)) == code
    ensures Cascade(w + " " + d + ", " + y) == Iso(y, code, Pad2(d))
  {
    assert w + " " + d + ", " + y == w + " " + d + "," + " " + y + "";
    MonthNameDayForm(w, " ", d, " ", y, "");
  }

  lemma ReadNoCalendarCheck(d: string, mon: string, y: string)
    requires d == "31" && mon == "Feb" && y == "2024"
    ensures Cascade(d + "-" + mon + "-" + y) == Iso(y, "02", Pad2(d))
  {
    FebCode(mon);
    DayMonthNameCase(d, mon, y, "02");
  }

  lemma IsoNoCalendarCheck(d: string, y: string)
    requires d == "31" && y == "2024"
    ensures Iso(y, "02", Pad2(d)) == "2024-02-31"
  {
  }

  lemma CascadeNoCalendarCheck(v: string, d: string, mon: string, y: string)
    requires v == "31-Feb-2024" && d == "31" && mon == "Feb" && y == "2024"
    ensures Cascade(v) == "2024-02-31"
  {
    assert v == d + "-" + mon + "-" + y;
    ReadNoCalendarCheck(d, mon, y);
    IsoNoCalendarCheck(d, y);
  }

  /** No calendar check: a 31st of February passes through. */
  lemma NoCalendarCheck(v: string, d: string, mon: string, y: string)
    requires v == "31-Feb-2024" && d == "31" && mon == "Feb" && y == "2024"
    ensures NormalizeDate(Some(v)) == Some("2024-02-31")
  {
    CascadeNoCalendarCheck(v, d, mon, y);
    NormalizeTrimmed(v);
  }

  lemma ReadUnknownMonthExample(d: string, mon: string, y: string)
    requires d == "07" && mon == "Foo" && y == "2024"
    ensures Cascade(d + "-" + mon + "-" + y) == Iso(y, "01", Pad2(d))
  {
    FooCode(mon);
    DayMonthNameCase(d, mon, y, "01");
  }

  lemma IsoUnknownMonthExample(d: string, y: string)
    requires d == "07" && y == "2024"
    ensures Iso(y, "01", Pad2(d)) == "2024-01-07"
  {
  }

  lemma CascadeUnknownMonthExample(v: string, d: string, mon: string, y: string)
    requires v == "07-Foo-2024" && d == "07" && mon == "Foo" && y == "2024"
    ensures Cascade(v) == "2024-01-07"
  {
    assert v == d + "-" + mon + "-" + y;
    ReadUnknownMonthExample(d, mon, y);
    IsoUnknownMonthExample(d, y);
  }

  /** An abbreviation missing from the table falls back to January. */
  lemma UnknownMonthExample(v: string, d: string, mon: string, y: string)
    requires v == "07-Foo-2024" && d == "07" && mon == "Foo" && y == "2024"
    ensures NormalizeDate(Some(v)) == Some("2024-01-07")
  {
    CascadeUnknownMonthExample(v, d, mon, y);
    NormalizeTrimmed(v);
  }

  // The cases of the date normalisation test.

  lemma ReadExampleDayMonthName(d: string, mon: string, y: string)
    requires d == "01" && mon == "Jan" && y == "2024"
    ensures Cascade(d + "-" + mon + "-" + y) == Iso(y, "01", Pad2(d))
  {
    JanCode(mon);
    DayMonthNameCase(d, mon, y, "01");
  }

  lemma IsoExampleDayMonthName(d: string, y: string)
    requires d == "01" && y == "2024"
    ensures Iso(y, "01", Pad2(d)) == "2024-01-01"
  {
  }

  lemma CascadeExampleDayMonthName(v: string, d: string, mon: string, y: string)
    requires v == "01-Jan-2024" && d == "01" && mon == "Jan" && y == "2024"
    ensures Cascade(v) == "2024-01-01"
  {
    assert v == d + "-" + mon + "-" + y;
    ReadExampleDayMonthName(d, mon, y);
    IsoExampleDayMonthName(d, y);
  }

  lemma ExampleDayMonthName(v: string, d: string, mon: string, y: string)
    requires v == "01-Jan-2024" && d == "01" && mon == "Jan" && y == "2024"
    ensures NormalizeDate(Some(v)) == Some("2024-01-01")
  {
    CascadeExampleDayMonthName(v, d, mon, y);
    NormalizeTrimmed(v);
  }

  lemma ReadExampleDayMonthNameFeb(d: string, mon: string, y: string)
    requires d == "15" && mon == "Feb" && y == "2025"
    ensures Cascade(d + "-" + mon + "-" + y) == Iso(y, "02", Pad2(d))
  {
    FebCode(mon);
    DayMonthNameCase(d, mon, y, "02");
  }

  lemma IsoExampleDayMonthNameFeb(d: string, y: string)
    requires d == "15" && y == "2025"
    ensures Iso(y, "02", Pad2(d)) == "2025-02-15"
  {
  }

  lemma CascadeExampleDayMonthNameFeb(v: string, d: string, mon: string, y: string)
    requires v == "15-Feb-2025" && d == "15" && mon == "Feb" && y == "2025"
    ensures Cascade(v) == "2025-02-15"
  {
    assert v == d + "-" + mon + "-" + y;
    ReadExampleDayMonthNameFeb(d, mon, y);
    IsoExampleDayMonthNameFeb(d, y);
  }

  lemma ExampleDayMonthNameFeb(v: string, d: string, mon: string, y: string)
    requires v == "15-Feb-2025" && d == "15" && mon == "Feb" && y == "2025"
    ensures NormalizeDate(Some(v)) == Some("2025-02-15")
  {
    CascadeExampleDayMonthNameFeb(v, d, mon, y);
    NormalizeTrimmed(v);
  }

  lemma IsoExampleDaySlashMonth(d: string, m: string, y: string)
    requires d == "05" && m == "12" && y == "2025"
    ensures Iso(y, Pad2(m), Pad2(d)) == "2025-12-05"
  {
  }

  lemma CascadeExampleDaySlashMonth(v: string, d: string, m: string, y: string)
    requires v == "05/12/2025" && d == "05" && m == "12" && y == "2025"
    ensures Cascade(v) == "2025-12-05"
  {
    assert v == d + "/" + m + "/" + y;
    DaySlashMonthCase(d, m, y);
    IsoExampleDaySlashMonth(d, m, y);
  }

  lemma ExampleDaySlashMonth(v: string, d: string, m: string, y: string)
    requires v == "05/12/2025" && d == "05" && m == "12" && y == "2025"
    ensures NormalizeDate(Some(v)) == Some("2025-12-05")
  {
    CascadeExampleDaySlashMonth(v, d, m, y);
    NormalizeTrimmed(v);
  }

  lemma IsoExampleDaySlashMonthShort(d: string, m: string, y: string)
    requires d == "1" && m == "5" && y == "2024"
    ensures Iso(y, Pad2(m), Pad2(d)) == "2024-05-01"
  {
  }

  lemma CascadeExampleDaySlashMonthShort(v: string, d: string, m: string, y: string)
    requires v == "1/5/2024" && d == "1" && m == "5" && y == "2024"
    ensures Cascade(v) == "2024-05-01"
  {
    assert v == d + "/" + m + "/" + y;
    DaySlashMonthCase(d, m, y);
    IsoExampleDaySlashMonthShort(d, m, y);
  }

  lemma ExampleDaySlashMonthShort(v: string, d: string, m: string, y: string)
    requires v == "1/5/2024" && d == "1" && m == "5" && y == "2024"
    ensures NormalizeDate(Some(v)) == Some("2024-05-01")
  {
    CascadeExampleDaySlashMonthShort(v, d, m, y);
    NormalizeTrimmed(v);
  }

  /** A leading space and a trailing newline are trimmed first; the rest is rewritten like `1/5/2024`. */
  lemma ExamplePadded(p: string, v: string, d: string, m: string, y: string)
    requires p == " " + v + "\n" && v == "1/5/2024" && d == "1" && m == "5" && y == "2024"
    ensures NormalizeDate(Some(p)) == Some("2024-05-01")
  {
    var w := v + "\n";
    assert p[1..] == w && w[0] == '1' && w[..|v|] == v;
    assert TrimStart(p) == w;
    assert TrimEnd(v) == v;
    assert TrimEnd(w) == v;
    PaddingIgnored(p);
    ExampleDaySlashMonthShort(v, d, m, y);
  }

  lemma ReadExampleMonthNameDay(w: string, d: string, y: string)
    requires w == "January" && d == "01" && y == "2024"
    ensures Cascade(w + " " + d + ", " + y) == Iso(y, "01", Pad2(d))
  {
    JanuaryCode(w);
    MonthNameDayCase(w, d, y, "01");
  }

  lemma IsoExampleMonthNameDay(d: string, y: string)
    requires d == "01" && y == "2024"
    ensures Iso(y, "01", Pad2(d)) == "2024-01-01"
  {
  }

  lemma CascadeExampleMonthNameDay(v: string, w: string, d: string, y: string)
    requires v == "January 01, 2024" && w == "January" && d == "01" && y == "2024"
    ensures Cascade(v) == "2024-01-01"
  {
    assert v == w + " " + d + ", " + y;
    ReadExampleMonthNameDay(w, d, y);
    IsoExampleMonthNameDay(d, y);
  }

  lemma ExampleMonthNameDay(v: string, w: string, d: string, y: string)
    requires v == "January 01, 2024" && w == "January" && d == "01" && y == "2024"
    ensures NormalizeDate(Some(v)) == Some("2024-01-01")
  {
    CascadeExampleMonthNameDay(v, w, d, y);
    NormalizeTrimmed(v);
  }

  lemma ReadExampleMonthNameDayShort(w: string, d: string, y: string)
    requires w == "Dec" && d == "31" && y == "2023"
    ensures Cascade(w + " " + d + ", " + y) == Iso(y, "12", Pad2(d))
  {
    DecCode(w);
    MonthNameDayCase(w, d, y, "12");
  }

  lemma IsoExampleMonthNameDayShort(d: string, y: string)
    requires d == "31" && y == "2023"
    ensures Iso(y, "12", Pad2(d)) == "2023-12-31"
  {
  }

  lemma CascadeExampleMonthNameDayShort(v: string, w: string, d: string, y: string)
    requires v == "Dec 31, 2023" && w == "Dec" && d == "31" && y == "2023"
    ensures Cascade(v) == "2023-12-31"
  {
    assert v == w + " " + d + ", " + y;
    ReadExampleMonthNameDayShort(w, d, y);
    IsoExampleMonthNameDayShort(d, y);
  }

  lemma ExampleMonthNameDayShort(v: string, w: string, d: string, y: string)
    requires v == "Dec 31, 2023" && w == "Dec" && d == "31" && y == "2023"
    ensures NormalizeDate(Some(v)) == Some("2023-12-31")
  {
    CascadeExampleMonthNameDayShort(v, w, d, y);
    NormalizeTrimmed(v);
  }

  lemma ExampleIso(v: string)
    requires v == "2024-05-20"
    ensures NormalizeDate(Some(v)) == Some(v)
  {
    assert IsIso(v);
    IsoFixed(v);
  }

  /** A canonical date normalises to itself. */
  lemma IsoFixed(v: string)
    requires IsIso(v)
    ensures NormalizeDate(Some(v)) == Some(v)
  {
    NormalizeTrimmed(v);
    IsoReadBack(v, "");
    assert v + "" == v;
  }

  lemma ExampleMissing(v: Option<string>)
    requires v == None || v == Some("")
    ensures NormalizeDate(v) == None
  {
  }

  lemma CascadeTrailingTime(v: string, s: string, t: string)
    requires v == "2024-05-20 10:30" && s == "2024-05-20" && t == " 10:30"
    ensures Cascade(v) == "2024-05-20"
  {
    assert v == s + t;
    IsoReadBack(s, t);
  }

  /** Whatever follows a canonical date, a time for instance, is dropped. */
  lemma ExampleTrailingTime(v: string, s: string, t: string)
    requires v == "2024-05-20 10:30" && s == "2024-05-20" && t == " 10:30"
    ensures NormalizeDate(Some(v)) == Some("2024-05-20")
  {
    NormalizeTrimmed(v);
    CascadeTrailingTime(v, s, t);
  }
}
