/**
 * `extract_all_entries`: choose the dialect, index the page markers, split
 * the text at the section markers, and run the header fold over the
 * non-empty chunks, each extracted by the dialect's parser and tagged with
 * the page its start offset falls on.
 */
module Entries {
  import opened Wrappers
  import opened Chars
  import opened Pattern
  import opened Records
  import opened Segment
  import opened Extract
  import opened Merge

  /** The chunk starting at `pos`, extracted and tagged with its page. */
  function CandidateAt(d: Dialect, p: Patterns, pm: seq<PageEntry>, chunk: string, pos: nat): Candidate
  {
    Candidate(WithPage(ExtractChunk(d, p, chunk), PageAt(pm, pos)), IsAdvice(chunk))
  }

  /** The candidates of the first `n` chunks; empty chunks are skipped. */
  function CandidatesOf(d: Dialect, p: Patterns, pm: seq<PageEntry>, chunks: seq<string>, n: nat): (cs: seq<Candidate>)
    requires n <= |chunks|
    ensures |cs| <= n
  {
    if n == 0 then []
    else
      var tail := if chunks[n - 1] == [] then [] else [CandidateAt(d, p, pm, chunks[n - 1], Offset(chunks, n - 1))];
      CandidatesOf(d, p, pm, chunks, n - 1) + tail
  }

  function Candidates(p: Patterns, text: string): seq<Candidate>
  {
    var chunks := Split(text);
    CandidatesOf(DetectDialect(text), p, PageTable(text), chunks, |chunks|)
  }

  /** The records `extract_all_entries` returns. */
  function Entries(p: Patterns, text: string): (r: seq<Record>)
    ensures |r| == |PromotedOf(Candidates(p, text))| <= |Split(text)|
  {
    Run(Candidates(p, text)).results
  }

  /** The merge loop over the three header keys. */
  method MergeInto(header0: Header, data0: Record) returns (header: Header, data: Record)
    ensures (header, data) == MergeHeader(header0, data0)
  {
    header, data := header0, data0;
    for n := 0 to |Keys|
      invariant (header, data) == MergeKeys(header0, data0, Keys[..n])
    {
      var k := Keys[n];
      if Truthy(Get(data, k)) {
        header := HSet(header, k, Get(data, k));
      } else {
        data := Set(data, k, HGet(header, k));
      }
      assert Keys[..n + 1][..n] == Keys[..n];
    }
    assert Keys[..|Keys|] == Keys;
  }

  /** The back-fill loop over the three header keys of the last record. */
  method BackFill(last0: Record, data: Record) returns (last: Record)
    ensures last == FillEmpty(last0, data)
  {
    last := last0;
    for n := 0 to |Keys|
      invariant last == FillKeys(last0, data, Keys[..n])
    {
      var k := Keys[n];
      if !Truthy(Get(last, k)) && Truthy(Get(data, k)) {
        last := Set(last, k, Get(data, k));
      }
      assert Keys[..n + 1][..n] == Keys[..n];
    }
    assert Keys[..|Keys|] == Keys;
  }

  /** One iteration of the chunk loop, on a non-empty chunk whose page is known. */
  method ProcessChunk(header0: Header, results0: seq<Record>, data0: Record, advice: bool)
    returns (header: Header, results: seq<Record>)
    ensures State(header, results) == Step(State(header0, results0), Candidate(data0, advice))
  {
    var data;
    header, data := MergeInto(header0, data0);
    results := results0;
    if advice || data.txn.Some? {
      results := results + [data];
    } else if results != [] && !CarriesOther(data) {
      var last := BackFill(results[|results| - 1], data);
      results := results[|results| - 1 := last];
    }
  }

  /** The body of the chunk loop for a non-empty chunk: its page, its fields and its advice test. */
  method ChunkCandidate(d: Dialect, p: Patterns, pm: seq<PageEntry>, chunk: string, pos: nat) returns (c: Candidate)
    requires Ascending(pm)
    ensures c == CandidateAt(d, p, pm, chunk, pos)
  {
    var page := LookupPage(pm, pos);
    var advice := IsAdvice(chunk);
    var data := WithPage(ExtractChunk(d, p, chunk), page);
    c := Candidate(data, advice);
  }

  /** The chunk loop, over the chunks of a split, with the page table and parser fixed. */
  method ProcessChunks(d: Dialect, p: Patterns, pm: seq<PageEntry>, chunks: seq<string>) returns (results: seq<Record>)
    requires Ascending(pm)
    ensures results == Run(CandidatesOf(d, p, pm, chunks, |chunks|)).results
  {
    results := [];
    var header := EmptyHeader;
    var pos := 0;
    var j := 0;
    while j < |chunks|
      invariant j <= |chunks|
      invariant pos == Offset(chunks, j)
      invariant State(header, results) == Run(CandidatesOf(d, p, pm, chunks, j))
    {
      header, results := ProcessPiece(d, p, pm, chunks, j, pos, header, results);
      OffsetNext(chunks, j);
      pos := pos + |chunks[j]|;
      j := j + 1;
    }
  }

  /** One turn of the chunk loop: an empty chunk is skipped, any other is extracted and merged. */
  method ProcessPiece(d: Dialect, p: Patterns, pm: seq<PageEntry>, chunks: seq<string>, j: nat, pos: nat,
                      header0: Header, results0: seq<Record>) returns (header: Header, results: seq<Record>)
    requires Ascending(pm) && j < |chunks| && pos == Offset(chunks, j)
    requires State(header0, results0) == Run(CandidatesOf(d, p, pm, chunks, j))
    ensures State(header, results) == Run(CandidatesOf(d, p, pm, chunks, j + 1))
  {
    var chunk := chunks[j];
    CandidatesNext(d, p, pm, chunks, j);
    if chunk != [] {
      var c := ChunkCandidate(d, p, pm, chunk, pos);
      RunAppend(CandidatesOf(d, p, pm, chunks, j), c);
      header, results := ProcessChunk(header0, results0, c.data, c.advice);
    } else {
      header, results := header0, results0;
    }
  }

  lemma CandidatesNext(d: Dialect, p: Patterns, pm: seq<PageEntry>, chunks: seq<string>, j: nat)
    requires j < |chunks|
    ensures chunks[j] == [] ==> CandidatesOf(d, p, pm, chunks, j + 1) == CandidatesOf(d, p, pm, chunks, j)
    ensures chunks[j] != [] ==>
      CandidatesOf(d, p, pm, chunks, j + 1) == CandidatesOf(d, p, pm, chunks, j) + [CandidateAt(d, p, pm, chunks[j], Offset(chunks, j))]
  {
    assert CandidatesOf(d, p, pm, chunks, j) + [] == CandidatesOf(d, p, pm, chunks, j);
  }

  method ExtractAllEntries(p: Patterns, text: string) returns (results: seq<Record>)
    ensures results == Entries(p, text)
  {
    var d := DetectDialect(text);
    var pm := PageTable(text);
    var chunks := Split(text);
    results := ProcessChunks(d, p, pm, chunks);
  }

  // ---------------------------------------------------------------------
  // Where each record comes from
  // ---------------------------------------------------------------------

  lemma {:induction false} CandidateOrigin(d: Dialect, p: Patterns, pm: seq<PageEntry>, chunks: seq<string>, n: nat)
    requires n <= |chunks|
    ensures forall c :: c in CandidatesOf(d, p, pm, chunks, n) ==>
      exists j :: 0 <= j < n && chunks[j] != [] && c == CandidateAt(d, p, pm, chunks[j], Offset(chunks, j))
  {
    if n > 0 {
      CandidateOrigin(d, p, pm, chunks, n - 1);
    }
  }

  lemma {:induction false} PromotedIn(cs: seq<Candidate>)
    ensures forall c :: c in PromotedOf(cs) ==> c in cs && Promoted(c)
  {
    if cs != [] {
      PromotedIn(cs[..|cs| - 1]);
      assert forall c :: c in cs[..|cs| - 1] ==> c in cs;
    }
  }

  /** Record `r` was made from the advice chunk that starts at `pos`. */
  predicate FromChunk(p: Patterns, text: string, chunk: string, pos: nat, r: Record)
  {
    && IsAdvice(chunk)
    && r.page == PageOf(text, pos)
    && Extends(r, WithPage(ExtractChunk(DetectDialect(text), p, chunk), PageOf(text, pos)))
  }

  /** The chunk that the `i`-th record of the chunk loop comes from. */
  lemma ChunkOrigin(d: Dialect, p: Patterns, pm: seq<PageEntry>, chunks: seq<string>, i: nat) returns (j: nat)
    requires i < |Run(CandidatesOf(d, p, pm, chunks, |chunks|)).results|
    ensures j < |chunks| && chunks[j] != [] && IsAdvice(chunks[j])
    ensures Extends(Run(CandidatesOf(d, p, pm, chunks, |chunks|)).results[i],
                    WithPage(ExtractChunk(d, p, chunks[j]), PageAt(pm, Offset(chunks, j))))
  {
    j := PromotedSource(d, p, pm, chunks, i);
    PromotedIsAdvice(d, p, pm, chunks[j], Offset(chunks, j));
  }

  /** The `i`-th record extends the candidate of a non-empty chunk, and that candidate was promoted. */
  lemma PromotedSource(d: Dialect, p: Patterns, pm: seq<PageEntry>, chunks: seq<string>, i: nat) returns (j: nat)
    requires i < |Run(CandidatesOf(d, p, pm, chunks, |chunks|)).results|
    ensures j < |chunks| && chunks[j] != []
    ensures Promoted(CandidateAt(d, p, pm, chunks[j], Offset(chunks, j)))
    ensures Extends(Run(CandidatesOf(d, p, pm, chunks, |chunks|)).results[i], CandidateAt(d, p, pm, chunks[j], Offset(chunks, j)).data)
  {
    var cs := CandidatesOf(d, p, pm, chunks, |chunks|);
    RecordsMatchPromoted(cs);
    PromotedIn(cs);
    CandidateOrigin(d, p, pm, chunks, |chunks|);
    var c := PromotedOf(cs)[i];
    assert c in PromotedOf(cs);
    j :| 0 <= j < |chunks| && chunks[j] != [] && c == CandidateAt(d, p, pm, chunks[j], Offset(chunks, j));
  }

  /** A chunk is promoted only when it holds advice wording. */
  lemma PromotedIsAdvice(d: Dialect, p: Patterns, pm: seq<PageEntry>, chunk: string, pos: nat)
    requires Promoted(CandidateAt(d, p, pm, chunk, pos))
    ensures IsAdvice(chunk)
  {
    assert CandidateAt(d, p, pm, chunk, pos).data.txn == ExtractChunk(d, p, chunk).txn;
  }

  /** The `j`-th piece of the split is the text between its offset and the next. */
  lemma PieceOfText(text: string, j: nat)
    requires j < |Split(text)|
    ensures Offset(Split(text), j) + |Split(text)[j]| <= |text|
    ensures text[Offset(Split(text), j)..Offset(Split(text), j) + |Split(text)[j]|] == Split(text)[j]
  {
    SplitSpec(text);
    PieceInConcat(Split(text), j);
  }

  /**
   * Every record comes from a non-empty chunk of the split that holds
   * advice wording; it keeps that chunk's extracted body and non-empty
   * header values, and its Page is the page its chunk starts on.
   */
  lemma RecordOrigin(p: Patterns, text: string, i: nat) returns (j: nat)
    requires i < |Entries(p, text)|
    ensures j < |Split(text)| && Split(text)[j] != [] && IsAdvice(Split(text)[j])
    ensures Offset(Split(text), j) + |Split(text)[j]| <= |text|
    ensures text[Offset(Split(text), j)..Offset(Split(text), j) + |Split(text)[j]|] == Split(text)[j]
    ensures FromChunk(p, text, Split(text)[j], Offset(Split(text), j), Entries(p, text)[i])
  {
    j := ChunkOrigin(DetectDialect(text), p, PageTable(text), Split(text), i);
    PageTableAgrees(text, Offset(Split(text), j));
    PieceOfText(text, j);
  }

  // ---------------------------------------------------------------------
  // No advice, no records
  // ---------------------------------------------------------------------

  lemma AdviceAnchored()
    ensures Anchored(DebitAdvice) && Anchored(CreditAdvice)
  {
    forall k | 0 <= k < |DebitAdvice| && DebitAdvice[k].Ws?
      ensures k + 1 < |DebitAdvice| && DebitAdvice[k + 1].Class?
        && forall c :: c in DebitAdvice[k + 1].chars ==> !IsSpace(c)
    {
      assert DebitAdvice[5] == Ws && DebitAdvice[6] == Class("A");
    }
    forall k | 0 <= k < |CreditAdvice| && CreditAdvice[k].Ws?
      ensures k + 1 < |CreditAdvice| && CreditAdvice[k + 1].Class?
        && forall c :: c in CreditAdvice[k + 1].chars ==> !IsSpace(c)
    {
      assert CreditAdvice[6] == Ws && CreditAdvice[7] == Class("A");
    }
  }

  /** Advice wording found inside a slice is advice wording of the whole text. */
  lemma AdviceInSlice(text: string, a: nat, b: nat)
    requires a <= b <= |text|
    requires IsAdvice(text[a..b])
    ensures IsAdvice(text)
  {
    AdviceAnchored();
    var pat := if Occurs(text[a..b], DebitAdvice, true) then DebitAdvice else CreditAdvice;
    var i := Search(text[a..b], pat, true).value.0;
    MatchInSlice(text, a, b, i, pat, true);
    OccursIff(text, pat, true);
  }

  /** A chunk of the split that holds advice wording makes the whole text hold it. */
  lemma AdvicePiece(text: string, j: nat)
    requires j < |Split(text)| && IsAdvice(Split(text)[j])
    ensures IsAdvice(text)
  {
    AdviceInPiece(text, Split(text), j);
  }

  lemma AdviceInPiece(text: string, ps: seq<string>, j: nat)
    requires Concat(ps) == text && j < |ps| && IsAdvice(ps[j])
    ensures IsAdvice(text)
  {
    var a := Offset(ps, j);
    PieceInConcat(ps, j);
    assert text[a..a + |ps[j]|] == ps[j];
    AdviceInSlice(text, a, a + |ps[j]|);
  }

  /** A text without DEBIT ADVICE or CREDIT ADVICE anywhere yields no records. */
  lemma NoAdviceNoEntries(p: Patterns, text: string)
    requires !IsAdvice(text)
    ensures Entries(p, text) == []
  {
    if Entries(p, text) != [] {
      var j := RecordOrigin(p, text, 0);
      AdvicePiece(text, j);
    }
  }

  // ---------------------------------------------------------------------
  // The advice test is looser than the splitter
  // ---------------------------------------------------------------------

  /**
   * The advice test allows any whitespace run between DEBIT and ADVICE;
   * the splitter's marker has a single space. So `DEBIT`, then a newline,
   * tab or other whitespace character that is not a space, then `ADVICE`
   * is advice wording, yet no chunk starts there.
   */
  lemma AdviceWithoutCut(t: string, i: nat)
    requires i + 12 <= |t| && t[i..i + 5] == "DEBIT" && t[i + 6..i + 12] == "ADVICE"
    requires IsSpace(t[i + 5]) && t[i + 5] != ' '
    ensures IsAdvice(t)
    ensures !MarkerAt(t, i) && !Cut(t)(i)
  {
    DebitWordsMatch(t, i);
    OccursIff(t, DebitAdvice, true);
    DebitWordsNoMarker(t, i);
  }

  lemma DebitWordsMatch(t: string, i: nat)
    requires i + 12 <= |t| && t[i..i + 5] == "DEBIT" && t[i + 6..i + 12] == "ADVICE"
    requires IsSpace(t[i + 5])
    ensures MatchAt(t, i, DebitAdvice, true).Some?
  {
    var u := UpperStr(t);
    var head, tail := u[i..i + 5], u[i + 6..i + 12];
    assert forall k :: 0 <= k < 5 ==> head[k] == t[i..i + 5][k];
    assert forall k :: 0 <= k < 6 ==> tail[k] == t[i + 6..i + 12][k];
    assert OccursAt("DEBIT", u, i) && OccursAt("ADVICE", u, i + 6);
    UpperMatch(t, i, "DEBIT");
    LitLength(t, i, "DEBIT", true);
    UpperMatch(t, i + 6, "ADVICE");
    assert !IsSpace(t[i + 6]) by { assert t[i + 6] == t[i + 6..i + 12][0]; }
    assert Span(t, i + 6, IsSpace) == i + 6;
    assert Span(t, i + 5, IsSpace) == i + 6;
    MatchAppend(t, i, Lit("DEBIT"), [Ws], true);
    MatchAppend(t, i, Lit("DEBIT") + [Ws], Lit("ADVICE"), true);
  }

  lemma DebitWordsNoMarker(t: string, i: nat)
    requires i + 12 <= |t| && t[i..i + 5] == "DEBIT"
    requires IsSpace(t[i + 5]) && t[i + 5] != ' '
    ensures !MarkerAt(t, i)
  {
    assert t[i] == t[i..i + 5][0] == 'D';
    assert !SameChar(t[i + 5], "DEBIT ADVICE"[5], true);
    assert !SameChar(t[i], "CREDIT ADVICE"[0], true);
    assert !SameChar(t[i], "RECEIPT NO."[0], true);
    assert !SameChar(t[i], "Shipment Receipt"[0], true);
    assert !SameChar(t[i], "--- Page "[0], true);
  }
}
