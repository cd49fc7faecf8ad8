/**
 * The account-directory match of `lookup_master` and the enrichment loop
 * of `process_single_pdf`. The directory is given as its rows; whether the
 * file exists or can be read is a parameter.
 */
module Master {
  import opened Wrappers
  import opened Chars
  import opened Records

  /**
   * One directory row: ACNO, BankName, AccountName and Currency. An empty
   * cell, which the spreadsheet reader yields as NaN, is None here.
   */
  datatype MasterRow = MasterRow(acno: string, bankName: Option<string>, accountName: Option<string>, currency: Option<string>)

  /** What the master path leads to. */
  datatype MasterFile =
    | Missing                      // the path does not exist
    | Unreadable                   // reading the spreadsheet raises
    | Loaded(rows: seq<MasterRow>)

  /** The triple `(BankName, AccountName, Currency)` the lookup returns. */
  datatype Match = Match(bank: Option<string>, company: Option<string>, currency: Option<string>)

  const NoMatch: Match := Match(None, None, None)

  /** The directory's ACNO cleaned: apostrophes removed, then stripped. */
  function CleanAcno(acno: string): (r: string)
    ensures '\'' !in r
    ensures r != [] ==> !IsSpace(r[0]) && !IsSpace(r[|r| - 1])
    ensures multiset(r) <= multiset(acno)
  {
    var t := RemoveChar(acno, '\'');
    StripSpec(t);
    StripSub(t);
    assert multiset(t) <= multiset(acno);
    Strip(t)
  }

  /** The extracted account cleaned: stripped, then spaces removed. Hyphens stay. */
  function CleanAccount(ac: string): (r: string)
    ensures ' ' !in r
    ensures multiset(r) == multiset(Strip(ac))[' ' := 0]
  {
    RemoveChar(Strip(ac), ' ')
  }

  /** `clean_ac in x or x in clean_ac`, for a cleaned ACNO `x`. */
  predicate Contains(x: string, clean: string)
  {
    IsSubstring(clean, x) || IsSubstring(x, clean)
  }

  /** A directory row matches a cleaned account. */
  predicate Matches(row: MasterRow, clean: string)
  {
    Contains(CleanAcno(row.acno), clean)
  }

  /** The ACNO column after cleaning, as the lookup rewrites it before matching. */
  function CleanColumn(rows: seq<MasterRow>): (acnos: seq<string>)
    ensures |acnos| == |rows|
    ensures forall i :: 0 <= i < |rows| ==> acnos[i] == CleanAcno(rows[i].acno)
  {
    seq(|rows|, i requires 0 <= i < |rows| => CleanAcno(rows[i].acno))
  }

  /** Index of the first cleaned ACNO at or after `i` that matches. */
  function FirstMatchFrom(acnos: seq<string>, clean: string, i: nat): (r: Option<nat>)
    requires i <= |acnos|
    ensures r.Some? ==> i <= r.value < |acnos| && Contains(acnos[r.value], clean)
    ensures r.Some? ==> forall j :: i <= j < r.value ==> !Contains(acnos[j], clean)
    ensures r.None? ==> forall j :: i <= j < |acnos| ==> !Contains(acnos[j], clean)
    decreases |acnos| - i
  {
    if i == |acnos| then None
    else if Contains(acnos[i], clean) then Some(i)
    else FirstMatchFrom(acnos, clean, i + 1)
  }

  /** Row `i` is the first row, in directory order, that matches `clean`. */
  predicate FirstMatching(rows: seq<MasterRow>, clean: string, i: nat)
  {
    i < |rows| && Matches(rows[i], clean) && forall j :: 0 <= j < i ==> !Matches(rows[j], clean)
  }

  function RowMatch(row: MasterRow): Match
  {
    Match(row.bankName, row.accountName, row.currency)
  }

  /**
   * `lookup_master`: nothing for an empty account or a directory that is
   * missing or unreadable; otherwise the first row in directory order
   * whose cleaned ACNO contains, or is contained in, the cleaned account.
   */
  function Lookup(ac: Option<string>, f: MasterFile): (m: Match)
    ensures !Truthy(ac) || !f.Loaded? ==> m == NoMatch
    ensures Truthy(ac) && f.Loaded? ==> m == LookupRows(f.rows, CleanAccount(ac.value))
  {
    if !Truthy(ac) then NoMatch
    else match f
      case Loaded(rows) => LookupRows(rows, CleanAccount(ac.value))
      case _ => NoMatch
  }

  /** The `try` block on a loaded directory: the first matching row's triple, or nothing. */
  function LookupRows(rows: seq<MasterRow>, clean: string): (m: Match)
    ensures (forall j :: 0 <= j < |rows| ==> !Matches(rows[j], clean)) ==> m == NoMatch
    ensures forall i: nat :: FirstMatching(rows, clean, i) ==> m == RowMatch(rows[i])
  {
    FirstMatchRows(rows, clean);
    match FirstMatchFrom(CleanColumn(rows), clean, 0)
    case Some(i) => RowMatch(rows[i])
    case None => NoMatch
  }

  /** The scan over the cleaned column finds the first matching row, and nothing when no row matches. */
  lemma FirstMatchRows(rows: seq<MasterRow>, clean: string)
    ensures FirstMatchFrom(CleanColumn(rows), clean, 0).None? ==> forall j :: 0 <= j < |rows| ==> !Matches(rows[j], clean)
    ensures forall i: nat :: FirstMatching(rows, clean, i) ==> FirstMatchFrom(CleanColumn(rows), clean, 0) == Some(i)
  {
    ColumnMatches(rows, clean);
    forall i: nat | FirstMatching(rows, clean, i)
      ensures FirstMatchFrom(CleanColumn(rows), clean, 0) == Some(i)
    {
      FirstMatchIs(rows, clean, i);
    }
  }

  /** Row `j` matches exactly when its cleaned ACNO passes the containment test. */
  lemma ColumnMatches(rows: seq<MasterRow>, clean: string)
    ensures forall j :: 0 <= j < |rows| ==> (Matches(rows[j], clean) <==> Contains(CleanColumn(rows)[j], clean))
  {
  }

  lemma FirstMatchIs(rows: seq<MasterRow>, clean: string, i: nat)
    requires FirstMatching(rows, clean, i)
    ensures FirstMatchFrom(CleanColumn(rows), clean, 0) == Some(i)
  {
    var acnos := CleanColumn(rows);
    ColumnMatches(rows, clean);
    forall j | 0 <= j < i
      ensures !Contains(acnos[j], clean)
    {
      assert !Matches(rows[j], clean);
    }
    FirstIndex(acnos, clean, i);
  }

  /** A matching index with no match before it is the one the scan finds. */
  lemma FirstIndex(acnos: seq<string>, clean: string, i: nat)
    requires i < |acnos| && Contains(acnos[i], clean)
    requires forall j :: 0 <= j < i ==> !Contains(acnos[j], clean)
    ensures FirstMatchFrom(acnos, clean, 0) == Some(i)
  {
    var r := FirstMatchFrom(acnos, clean, 0);
    assert r.Some?;
  }

  /** The first row in directory order that matches is the one returned. */
  lemma LookupFirstRow(ac: string, rows: seq<MasterRow>, i: nat)
    requires ac != ""
    requires i < |rows| && Matches(rows[i], CleanAccount(ac))
    requires forall j :: 0 <= j < i ==> !Matches(rows[j], CleanAccount(ac))
    ensures Lookup(Some(ac), Loaded(rows)) == RowMatch(rows[i])
  {
    var clean := CleanAccount(ac);
    var acnos := CleanColumn(rows);
    assert Contains(acnos[i], clean);
    var r := FirstMatchFrom(acnos, clean, 0);
    var k := r.value;
    assert k == i;
  }

  /** When no row matches, the lookup returns nothing. */
  lemma LookupNoRow(ac: string, rows: seq<MasterRow>)
    requires forall j :: 0 <= j < |rows| ==> !Matches(rows[j], CleanAccount(ac))
    ensures Lookup(Some(ac), Loaded(rows)) == NoMatch
  {
    if ac != "" {
      var acnos := CleanColumn(rows);
      var r := FirstMatchFrom(acnos, CleanAccount(ac), 0);
      if r.Some? {
        assert Matches(rows[r.value], CleanAccount(ac));
      }
    }
  }

  /** The body of the enrichment loop: the three fields are overwritten, even with None. */
  function EnrichOne(r: Record, f: MasterFile): (e: Record)
    ensures Match(e.bank, e.company, e.currency) == Lookup(r.account, f)
    ensures e.account == r.account && e.date == r.date && e.reference == r.reference
    ensures e.total == r.total && e.txn == r.txn && e.page == r.page
  {
    var m := Lookup(r.account, f);
    r.(bank := m.bank, company := m.company, currency := m.currency)
  }

  /**
   * The enrichment loop of `process_single_pdf`: without a master path
   * nothing changes; with one, every entry gets the lookup of its account.
   */
  method Enrich(entries: seq<Record>, master: Option<MasterFile>) returns (out: seq<Record>)
    ensures master.None? ==> out == entries
    ensures master.Some? ==> |out| == |entries| && forall i :: 0 <= i < |entries| ==> out[i] == EnrichOne(entries[i], master.value)
  {
    out := entries;
    for i := 0 to |out|
      invariant |out| == |entries|
      invariant forall j :: 0 <= j < i ==> out[j] == (if master.Some? then EnrichOne(entries[j], master.value) else entries[j])
      invariant forall j :: i <= j < |out| ==> out[j] == entries[j]
    {
      if master.Some? {
        var m := Lookup(out[i].account, master.value);
        out := out[i := out[i].(bank := m.bank, company := m.company, currency := m.currency)];
      }
    }
  }

  // ---------------------------------------------------------------------
  // Properties
  // ---------------------------------------------------------------------

  /** Enrichment touches only Bank Name, Company Name and Currency, and enriching twice is enriching once. */
  lemma EnrichStable(r: Record, f: MasterFile)
    ensures var e := EnrichOne(r, f);
      && e.account == r.account && e.date == r.date && e.reference == r.reference
      && e.total == r.total && e.txn == r.txn && e.page == r.page
      && EnrichOne(e, f) == e
  {
  }

  /**
   * A bank name set by the dialect is lost when the account matches no
   * row: the loop overwrites rather than fills.
   */
  lemma UnmatchedClearsBank(r: Record, rows: seq<MasterRow>)
    requires Truthy(r.account)
    requires forall i :: 0 <= i < |rows| ==> !Matches(rows[i], CleanAccount(r.account.value))
    ensures EnrichOne(r, Loaded(rows)).bank.None?
    ensures EnrichOne(r, Loaded(rows)).company.None? && EnrichOne(r, Loaded(rows)).currency.None?
  {
    LookupNoRow(r.account.value, rows);
  }

  /** A row whose ACNO cleans to nothing matches every account. */
  lemma BlankAcnoMatchesAll(row: MasterRow, clean: string)
    requires CleanAcno(row.acno) == ""
    ensures Matches(row, clean)
  {
    assert OccursAt("", clean, 0);
  }

  /** A cleaned string with nothing to clean is the string itself. */
  lemma CleanPlainAccount(s: string)
    requires forall k :: 0 <= k < |s| ==> !IsSpace(s[k]) && s[k] != '\''
    ensures CleanAccount(s) == s && CleanAcno(s) == s
  {
    var t := Strip(s);
    StripNoop(s);
    assert t == s;
    assert ' ' !in t by { assert IsSpace(' '); }
    RemoveAbsent(t, ' ');
    RemoveAbsent(s, '\'');
  }

  /** The two hyphenated spellings of one account contain neither the other. */
  lemma HyphensKept(entry: string, plain: string)
    requires entry == "9943-000613-001" && plain == "9943000613001"
    ensures !Contains(entry, plain)
  {
    forall i | 0 <= i <= |entry| ensures !OccursAt(plain, entry, i) {
      if i + |plain| <= |entry| {
        assert entry[i..i + |plain|][4 - i] != plain[4 - i];
      }
    }
  }

  /**
   * Hyphens are not normalised: the directory entry "9943-000613-001"
   * does not match the account "9943000613001".
   */
  lemma HyphenatedEntryMissesPlain(entry: string, plain: string)
    requires entry == "9943-000613-001" && plain == "9943000613001"
    ensures !Matches(MasterRow(entry, None, None, None), CleanAccount(plain))
  {
    HyphensKept(entry, plain);
    PlainMatch(entry, plain);
  }

  /** For text with nothing to clean, matching is plain containment. */
  lemma PlainMatch(entry: string, ac: string)
    requires forall k :: 0 <= k < |entry| ==> !IsSpace(entry[k]) && entry[k] != '\''
    requires forall k :: 0 <= k < |ac| ==> !IsSpace(ac[k]) && ac[k] != '\''
    ensures Matches(MasterRow(entry, None, None, None), CleanAccount(ac)) <==> Contains(entry, ac)
  {
    CleanPlainAccount(entry);
    CleanPlainAccount(ac);
  }

  /** A hyphenated tail of the entry does match it. */
  lemma HyphenatedEntryMatchesTail(entry: string, tail: string)
    requires entry == "9943-000613-001" && tail == "000613-001"
    ensures Matches(MasterRow(entry, None, None, None), CleanAccount(tail))
  {
    TailInside(entry, tail);
    PlainMatch(entry, tail);
  }

  lemma TailInside(entry: string, tail: string)
    requires entry == "9943-000613-001" && tail == "000613-001"
    ensures Contains(entry, tail)
  {
    assert OccursAt(tail, entry, 5);
  }
}
