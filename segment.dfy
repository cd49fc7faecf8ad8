/**
 * Segmentation of one document's OCR text and its page index.
 *
 * The text is split with `re.split` at a zero-width lookahead for the chunk
 * markers `DEBIT ADVICE`, `CREDIT ADVICE`, `RECEIPT NO.`, `Shipment Receipt`
 * and `--- Page N ---` (all case-insensitive): every position where a marker
 * starts is a cut, so the first piece is empty when the text starts with a
 * marker. The page index holds the non-overlapping case-sensitive
 * `--- Page N ---` matches in text order.
 */
module Segment {
  import opened Wrappers
  import opened Chars
  import opened Pattern

  /** The characters at `i` spell `w` (up to ASCII case when `ignoreCase`). */
  predicate HasAt(t: string, i: nat, w: string, ignoreCase: bool)
  {
    i + |w| <= |t| && forall k :: 0 <= k < |w| ==> SameChar(t[i + k], w[k], ignoreCase)
  }

  /** `--- Page (\d+) ---` at `i`: the end of the match and the page number. */
  function PageMarkerAt(t: string, i: nat, ignoreCase: bool): (r: Option<(nat, nat)>)
    requires i <= |t|
    ensures r.Some? ==> i + 14 <= r.value.0 <= |t|
  {
    if HasAt(t, i, "--- Page ", ignoreCase) then
      var d := Span(t, i + 9, IsDigit);
      if d > i + 9 && HasAt(t, d, " ---", ignoreCase) then Some((d + 4, DecimalValue(t[i + 9..d]))) else None
    else None
  }

  /** A chunk marker of the splitter starts at `i`. */
  predicate MarkerAt(t: string, i: nat)
    requires i <= |t|
  {
    || HasAt(t, i, "DEBIT ADVICE", true)
    || HasAt(t, i, "CREDIT ADVICE", true)
    || HasAt(t, i, "RECEIPT NO.", true)
    || HasAt(t, i, "Shipment Receipt", true)
    || PageMarkerAt(t, i, true).Some?
  }

  /** End of the marker text at `i` (the first alternative that matches, as the regex picks it). */
  function MarkerEnd(t: string, i: nat): (e: nat)
    requires i <= |t| && MarkerAt(t, i)
    ensures i < e <= |t|
  {
    if HasAt(t, i, "DEBIT ADVICE", true) then i + 12
    else if HasAt(t, i, "CREDIT ADVICE", true) then i + 13
    else if HasAt(t, i, "RECEIPT NO.", true) then i + 11
    else if HasAt(t, i, "Shipment Receipt", true) then i + 16
    else PageMarkerAt(t, i, true).value.0
  }

  /** The cut positions of the splitter: where a marker starts. */
  function Cut(t: string): nat -> bool
  {
    (q: nat) => q < |t| && MarkerAt(t, q)
  }

  /**
   * The pieces of `re.split` at a zero-width lookahead that holds where `cut`
   * holds, from the piece that began at `start`, with the scan at `i`.
   */
  function SplitFrom(t: string, cut: nat -> bool, start: nat, i: nat): seq<string>
    requires start <= i <= |t|
    decreases |t| - i
  {
    if i == |t| then [t[start..]]
    else if cut(i) then [t[start..i]] + SplitFrom(t, cut, i, i + 1)
    else SplitFrom(t, cut, start, i + 1)
  }

  /** `re.split(r"(?=(?:DEBIT ADVICE|...|--- Page \d+ ---))", text, flags=re.IGNORECASE)`. */
  function Split(t: string): (ps: seq<string>)
    ensures SplitShape(t, Cut(t), 0, ps)
    ensures Concat(ps) == t
  {
    SplitFromShape(t, Cut(t), 0, 0);
    assert t[0..] == t;
    SplitFrom(t, Cut(t), 0, 0)
  }

  function Concat(xs: seq<string>): string
  {
    if xs == [] then [] else xs[0] + Concat(xs[1..])
  }

  /** Where piece `k` starts: the total length of the pieces before it. */
  function Offset(xs: seq<string>, k: nat): nat
    requires k <= |xs|
  {
    |Concat(xs[..k])|
  }

  lemma {:induction false} ConcatAppend(xs: seq<string>, x: string)
    ensures Concat(xs + [x]) == Concat(xs) + x
    decreases |xs|
  {
    if xs == [] {
      assert [x][1..] == [];
    } else {
      assert (xs + [x])[1..] == xs[1..] + [x];
      ConcatAppend(xs[1..], x);
    }
  }

  lemma OffsetNext(xs: seq<string>, k: nat)
    requires k < |xs|
    ensures Offset(xs, k + 1) == Offset(xs, k) + |xs[k]|
  {
    assert xs[..k + 1] == xs[..k] + [xs[k]];
    ConcatAppend(xs[..k], xs[k]);
  }

  lemma OffsetCons(a: string, xs: seq<string>, k: nat)
    requires 1 <= k <= |xs| + 1
    ensures Offset([a] + xs, k) == |a| + Offset(xs, k - 1)
  {
    assert ([a] + xs)[..k] == [a] + xs[..k - 1];
    assert ([a] + xs[..k - 1])[1..] == xs[..k - 1];
  }

  /** Piece `k` is the text between its offset and the next one. */
  lemma {:induction false} PieceInConcat(xs: seq<string>, k: nat)
    requires k < |xs|
    ensures Offset(xs, k) + |xs[k]| <= |Concat(xs)|
    ensures Concat(xs)[Offset(xs, k)..Offset(xs, k) + |xs[k]|] == xs[k]
    decreases |xs|
  {
    if k == 0 {
      assert xs[..0] == [];
    } else {
      assert xs == [xs[0]] + xs[1..];
      OffsetCons(xs[0], xs[1..], k);
      PieceInConcat(xs[1..], k - 1);
    }
  }

  /** Every position of the text lies in the piece whose offset range holds it. */
  lemma {:induction false} LocatePiece(xs: seq<string>, p: nat) returns (k: nat)
    requires p < |Concat(xs)|
    ensures k < |xs| && Offset(xs, k) <= p < Offset(xs, k) + |xs[k]|
    decreases |xs|
  {
    assert xs != [];
    if p < |xs[0]| {
      k := 0;
      assert xs[..0] == [];
    } else {
      assert xs == [xs[0]] + xs[1..];
      var j := LocatePiece(xs[1..], p - |xs[0]|);
      k := j + 1;
      OffsetCons(xs[0], xs[1..], k);
    }
  }

  /** No cut falls strictly inside piece `k` (its offset counted from `base`). */
  predicate CutFree(cut: nat -> bool, base: nat, ps: seq<string>, k: nat)
    requires k < |ps|
  {
    forall q :: base + Offset(ps, k) < q < base + Offset(ps, k) + |ps[k]| ==> !cut(q)
  }

  /**
   * What the pieces from a split are, counted from `start`: they
   * concatenate to the rest of the text, every piece after the first starts
   * at a cut and is not empty, and no cut falls strictly inside a piece.
   */
  predicate SplitShape(t: string, cut: nat -> bool, start: nat, ps: seq<string>)
    requires start <= |t|
  {
    && |ps| >= 1
    && Concat(ps) == t[start..]
    && (forall k :: 0 < k < |ps| ==> cut(start + Offset(ps, k)) && ps[k] != [])
    && (forall k :: 0 <= k < |ps| ==> CutFree(cut, start, ps, k))
  }

  lemma {:induction false} SplitFromShape(t: string, cut: nat -> bool, start: nat, i: nat)
    requires start <= i <= |t|
    requires forall q :: start < q < i ==> !cut(q)
    ensures SplitShape(t, cut, start, SplitFrom(t, cut, start, i))
    ensures start < i ==> SplitFrom(t, cut, start, i)[0] != []
    ensures start == i < |t| && cut(i) ==> SplitFrom(t, cut, start, i)[0] == []
    decreases |t| - i
  {
    if i == |t| {
      LastPieceShape(t, cut, start);
    } else if cut(i) {
      SplitFromShape(t, cut, i, i + 1);
      CutShape(t, cut, start, i, SplitFrom(t, cut, i, i + 1));
    } else {
      SplitFromShape(t, cut, start, i + 1);
    }
  }

  lemma LastPieceShape(t: string, cut: nat -> bool, start: nat)
    requires start <= |t|
    requires forall q :: start < q < |t| ==> !cut(q)
    ensures SplitShape(t, cut, start, [t[start..]])
  {
    var ps := [t[start..]];
    assert ps[1..] == [];
    assert ps[..0] == [];
    assert CutFree(cut, start, ps, 0);
  }

  /** Putting the text between `start` and a cut at `i` in front of the pieces from `i`. */
  lemma CutShape(t: string, cut: nat -> bool, start: nat, i: nat, rest: seq<string>)
    requires start <= i < |t| && cut(i)
    requires forall q :: start < q < i ==> !cut(q)
    requires SplitShape(t, cut, i, rest) && rest[0] != []
    ensures SplitShape(t, cut, start, [t[start..i]] + rest)
  {
    var ps := [t[start..i]] + rest;
    assert ps[1..] == rest;
    assert t[start..] == t[start..i] + t[i..];
    assert Concat(ps) == t[start..];
    CutShapeStarts(t, cut, start, i, rest);
    CutShapeFree(t, cut, start, i, rest);
  }

  lemma CutShapeStarts(t: string, cut: nat -> bool, start: nat, i: nat, rest: seq<string>)
    requires start <= i < |t| && cut(i)
    requires SplitShape(t, cut, i, rest) && rest[0] != []
    ensures var ps := [t[start..i]] + rest;
      forall k :: 0 < k < |ps| ==> cut(start + Offset(ps, k)) && ps[k] != []
  {
    var a := t[start..i];
    var ps := [a] + rest;
    forall k | 0 < k < |ps| ensures cut(start + Offset(ps, k)) && ps[k] != [] {
      OffsetCons(a, rest, k);
      assert ps[k] == rest[k - 1];
      if k == 1 {
        assert rest[..0] == [];
      }
    }
  }

  lemma CutShapeFree(t: string, cut: nat -> bool, start: nat, i: nat, rest: seq<string>)
    requires start <= i < |t|
    requires forall q :: start < q < i ==> !cut(q)
    requires SplitShape(t, cut, i, rest)
    ensures var ps := [t[start..i]] + rest;
      forall k :: 0 <= k < |ps| ==> CutFree(cut, start, ps, k)
  {
    var a := t[start..i];
    var ps := [a] + rest;
    forall k | 0 <= k < |ps| ensures CutFree(cut, start, ps, k) {
      if k == 0 {
        assert ps[..0] == [];
      } else {
        OffsetCons(a, rest, k);
        assert ps[k] == rest[k - 1];
        assert CutFree(cut, i, rest, k - 1);
      }
    }
  }

  /**
   * The shape of the engine's split: the pieces concatenate back to the
   * text, each piece after the first starts at a marker and is not empty, no
   * marker starts strictly inside a piece, and the first piece is empty
   * exactly when the text starts with a marker.
   */
  lemma SplitSpec(t: string)
    ensures SplitShape(t, Cut(t), 0, Split(t))
    ensures Concat(Split(t)) == t
    ensures Split(t)[0] == [] <==> (|t| > 0 && MarkerAt(t, 0)) || t == []
  {
    SplitFromShape(t, Cut(t), 0, 0);
    if |t| > 0 && !MarkerAt(t, 0) {
      assert SplitFrom(t, Cut(t), 0, 0) == SplitFrom(t, Cut(t), 0, 1);
      SplitFromShape(t, Cut(t), 0, 1);
    }
  }

  /** Every marker occurrence starts a piece, and never the first one. */
  lemma MarkerStartsPiece(t: string, p: nat) returns (k: nat)
    requires p < |t| && MarkerAt(t, p)
    ensures 0 < k < |Split(t)| && Offset(Split(t), k) == p
  {
    var ps := Split(t);
    SplitSpec(t);
    k := LocatePiece(ps, p);
    assert Cut(t)(p);
    assert CutFree(Cut(t), 0, ps, k);
    assert Offset(ps, k) == p;
  }

  /**
   * A marker keeps its whole text inside its piece unless another marker
   * starts within that text.
   */
  lemma MarkerInsidePiece(t: string, p: nat) returns (k: nat)
    requires p < |t| && MarkerAt(t, p)
    requires forall q :: p < q < MarkerEnd(t, p) ==> !MarkerAt(t, q)
    ensures 0 < k < |Split(t)| && Offset(Split(t), k) == p
    ensures MarkerEnd(t, p) <= p + |Split(t)[k]|
  {
    var ps := Split(t);
    k := MarkerStartsPiece(t, p);
    SplitSpec(t);
    OffsetNext(ps, k);
    if k + 1 == |ps| {
      assert ps[..k + 1] == ps;
    } else {
      assert Cut(t)(Offset(ps, k + 1));
    }
  }

  /** Overlapping markers: in `Shipment Receipt No.` the second marker cuts the first. */
  lemma OverlappingMarkersCut(t: string)
    requires t == "Shipment Receipt No."
    ensures MarkerAt(t, 0) && MarkerEnd(t, 0) == 16 && MarkerAt(t, 9)
    ensures forall k :: 0 <= k < |Split(t)| && Offset(Split(t), k) == 0 ==> |Split(t)[k]| <= 9
  {
    ShipmentReceiptMarkers(t);
    var ps := Split(t);
    forall k | 0 <= k < |ps| && Offset(ps, k) == 0 ensures |ps[k]| <= 9 {
      assert CutFree(Cut(t), 0, ps, k);
      assert Cut(t)(9);
    }
  }

  lemma ShipmentReceiptMarkers(t: string)
    requires t == "Shipment Receipt No."
    ensures MarkerAt(t, 0) && MarkerEnd(t, 0) == 16 && MarkerAt(t, 9)
  {
    assert HasAt(t, 0, "Shipment Receipt", true);
    assert !HasAt(t, 0, "DEBIT ADVICE", true) by { assert !SameChar(t[0 + 0], "DEBIT ADVICE"[0], true); }
    assert !HasAt(t, 0, "CREDIT ADVICE", true) by { assert !SameChar(t[0 + 0], "CREDIT ADVICE"[0], true); }
    assert !HasAt(t, 0, "RECEIPT NO.", true) by { assert !SameChar(t[0 + 0], "RECEIPT NO."[0], true); }
    assert HasAt(t, 9, "RECEIPT NO.", true);
  }

  /** Text without markers is a single piece. */
  lemma {:induction false} NoCutOnePiece(t: string, cut: nat -> bool, start: nat, i: nat)
    requires start <= i <= |t|
    requires forall q :: i <= q < |t| ==> !cut(q)
    ensures SplitFrom(t, cut, start, i) == [t[start..]]
    decreases |t| - i
  {
    if i < |t| {
      NoCutOnePiece(t, cut, start, i + 1);
    }
  }

  lemma NoMarkerSplit(t: string)
    requires forall q :: 0 <= q < |t| ==> !MarkerAt(t, q)
    ensures Split(t) == [t]
  {
    NoCutOnePiece(t, Cut(t), 0, 0);
  }

  // ---------------------------------------------------------------- pages

  datatype PageEntry = PageEntry(offset: nat, page: nat)

  predicate Ascending(pm: seq<PageEntry>)
  {
    forall k, l :: 0 <= k < l < |pm| ==> pm[k].offset < pm[l].offset
  }

  /** No page marker starts in `[a, z)`. */
  predicate NoPageIn(t: string, a: nat, z: nat)
    requires a <= z <= |t|
  {
    forall q :: a <= q < z ==> PageMarkerAt(t, q, false).None?
  }

  /**
   * `r` is what `re.finditer(r"--- Page (\d+) ---", text)` yields from `i`:
   * the leftmost marker, then the leftmost one at or after where it ends, and
   * so on. A marker that starts inside the previous match is skipped.
   */
  predicate IsPageScan(t: string, i: nat, r: seq<PageEntry>)
    requires i <= |t|
  {
    && Ascending(r)
    && (forall k :: 0 <= k < |r| ==>
          i <= r[k].offset < |t| && PageMarkerAt(t, r[k].offset, false).Some?
          && r[k].page == PageMarkerAt(t, r[k].offset, false).value.1)
    && (r == [] ==> NoPageIn(t, i, |t|))
    && (r != [] ==> NoPageIn(t, i, r[0].offset))
    && (forall k :: 0 <= k < |r| - 1 ==>
          PageMarkerAt(t, r[k].offset, false).value.0 <= r[k + 1].offset
          && NoPageIn(t, PageMarkerAt(t, r[k].offset, false).value.0, r[k + 1].offset))
    && (r != [] ==> NoPageIn(t, PageMarkerAt(t, r[|r| - 1].offset, false).value.0, |t|))
  }

  lemma PageScanCons(t: string, i: nat, rest: seq<PageEntry>)
    requires i < |t| && PageMarkerAt(t, i, false).Some?
    requires IsPageScan(t, PageMarkerAt(t, i, false).value.0, rest)
    ensures IsPageScan(t, i, [PageEntry(i, PageMarkerAt(t, i, false).value.1)] + rest)
  {
    var r := [PageEntry(i, PageMarkerAt(t, i, false).value.1)] + rest;
    PageScanConsEntries(t, i, rest);
    PageScanConsGaps(t, i, rest);
    assert NoPageIn(t, i, r[0].offset);
    if rest != [] {
      assert r[|r| - 1] == rest[|rest| - 1];
    }
  }

  lemma PageScanConsEntries(t: string, i: nat, rest: seq<PageEntry>)
    requires i < |t| && PageMarkerAt(t, i, false).Some?
    requires IsPageScan(t, PageMarkerAt(t, i, false).value.0, rest)
    ensures var r := [PageEntry(i, PageMarkerAt(t, i, false).value.1)] + rest;
      && Ascending(r)
      && forall k :: 0 <= k < |r| ==> i <= r[k].offset < |t| && PageMarkerAt(t, r[k].offset, false).Some? && r[k].page == PageMarkerAt(t, r[k].offset, false).value.1
  {
    var r := [PageEntry(i, PageMarkerAt(t, i, false).value.1)] + rest;
    var e := PageMarkerAt(t, i, false).value.0;
    forall k, l | 0 <= k < l < |r| ensures r[k].offset < r[l].offset {
      assert r[l] == rest[l - 1];
      if k > 0 {
        assert r[k] == rest[k - 1];
      } else {
        assert i < e <= rest[l - 1].offset;
      }
    }
    forall k | 0 <= k < |r|
      ensures i <= r[k].offset < |t| && PageMarkerAt(t, r[k].offset, false).Some?
      ensures r[k].page == PageMarkerAt(t, r[k].offset, false).value.1
    {
      if k > 0 {
        assert r[k] == rest[k - 1];
      }
    }
  }

  lemma PageScanConsGaps(t: string, i: nat, rest: seq<PageEntry>)
    requires i < |t| && PageMarkerAt(t, i, false).Some?
    requires IsPageScan(t, PageMarkerAt(t, i, false).value.0, rest)
    requires var r := [PageEntry(i, PageMarkerAt(t, i, false).value.1)] + rest;
      forall k :: 0 <= k < |r| ==> r[k].offset < |t| && PageMarkerAt(t, r[k].offset, false).Some?
    ensures var r := [PageEntry(i, PageMarkerAt(t, i, false).value.1)] + rest;
      forall k :: 0 <= k < |r| - 1 ==> PageMarkerAt(t, r[k].offset, false).value.0 <= r[k + 1].offset && NoPageIn(t, PageMarkerAt(t, r[k].offset, false).value.0, r[k + 1].offset)
  {
    var r := [PageEntry(i, PageMarkerAt(t, i, false).value.1)] + rest;
    forall k | 0 <= k < |r| - 1
      ensures PageMarkerAt(t, r[k].offset, false).value.0 <= r[k + 1].offset
      ensures NoPageIn(t, PageMarkerAt(t, r[k].offset, false).value.0, r[k + 1].offset)
    {
      if k == 0 {
        PageScanFirstGap(t, PageMarkerAt(t, i, false).value.0, rest);
      } else {
        assert r[k] == rest[k - 1] && r[k + 1] == rest[k];
        PageScanLaterGap(t, PageMarkerAt(t, i, false).value.0, rest, k - 1);
      }
    }
  }

  lemma PageScanFirstGap(t: string, e: nat, rest: seq<PageEntry>)
    requires e <= |t| && IsPageScan(t, e, rest) && rest != []
    ensures e <= rest[0].offset && NoPageIn(t, e, rest[0].offset)
  {
  }

  lemma PageScanLaterGap(t: string, e: nat, rest: seq<PageEntry>, k: nat)
    requires e <= |t| && IsPageScan(t, e, rest) && k + 1 < |rest|
    ensures PageMarkerAt(t, rest[k].offset, false).value.0 <= rest[k + 1].offset
    ensures NoPageIn(t, PageMarkerAt(t, rest[k].offset, false).value.0, rest[k + 1].offset)
  {
  }

  lemma PageScanSkip(t: string, i: nat, rest: seq<PageEntry>)
    requires i < |t| && PageMarkerAt(t, i, false).None?
    requires IsPageScan(t, i + 1, rest)
    ensures IsPageScan(t, i, rest)
  {
    if rest != [] {
      assert NoPageIn(t, i, rest[0].offset);
    }
  }

  /** `re.finditer(r"--- Page (\d+) ---", text)` from `i`, as (start, int(number)) pairs. */
  function PageMapFrom(t: string, i: nat): (r: seq<PageEntry>)
    requires i <= |t|
    ensures IsPageScan(t, i, r)
    decreases |t| - i
  {
    if i == |t| then []
    else match PageMarkerAt(t, i, false)
      case Some((e, n)) =>
        var rest := PageMapFrom(t, e);
        PageScanCons(t, i, rest);
        [PageEntry(i, n)] + rest
      case None =>
        var rest := PageMapFrom(t, i + 1);
        PageScanSkip(t, i, rest);
        rest
  }

  /** The page index of the text: the markers `finditer` yields, in order; one that overlaps the previous match is not indexed. */
  function PageMap(t: string): (r: seq<PageEntry>)
    ensures IsPageScan(t, 0, r)
  {
    PageMapFrom(t, 0)
  }

  /** The index the engine uses: `(0, 1)` stands in when the text has no page marker. */
  function PageTable(t: string): (pm: seq<PageEntry>)
    ensures Ascending(pm)
  {
    if PageMap(t) == [] then [PageEntry(0, 1)] else PageMap(t)
  }

  /** The page of the last entry at or before `pos`, or 1 when there is none. */
  function PageAt(pm: seq<PageEntry>, pos: nat): (page: nat)
    ensures (exists k :: 0 <= k < |pm| && pm[k].offset <= pos && page == pm[k].page
                && forall l :: k < l < |pm| ==> pm[l].offset > pos)
            || (page == 1 && forall k :: 0 <= k < |pm| ==> pm[k].offset > pos)
  {
    if pm == [] then 1
    else if pm[|pm| - 1].offset <= pos then pm[|pm| - 1].page
    else
      var r := PageAt(pm[..|pm| - 1], pos);
      PageAtDrop(pm, pos, r);
      r
  }

  /** An entry past `pos` at the end of the index leaves the page at `pos` as it was. */
  lemma PageAtDrop(pm: seq<PageEntry>, pos: nat, page: nat)
    requires pm != [] && pm[|pm| - 1].offset > pos
    requires var init := pm[..|pm| - 1];
      (exists k :: 0 <= k < |init| && init[k].offset <= pos && page == init[k].page
                && forall l :: k < l < |init| ==> init[l].offset > pos)
      || (page == 1 && forall k :: 0 <= k < |init| ==> init[k].offset > pos)
    ensures (exists k :: 0 <= k < |pm| && pm[k].offset <= pos && page == pm[k].page
                && forall l :: k < l < |pm| ==> pm[l].offset > pos)
            || (page == 1 && forall k :: 0 <= k < |pm| ==> pm[k].offset > pos)
  {
    assert forall k :: 0 <= k < |pm| - 1 ==> pm[..|pm| - 1][k] == pm[k];
  }

  /** The page a text offset belongs to: that of the last indexed marker at or before it, page 1 before any. */
  function PageOf(t: string, pos: nat): (page: nat)
    ensures (exists k :: 0 <= k < |PageMap(t)| && PageMap(t)[k].offset <= pos && page == PageMap(t)[k].page
                && forall l :: k < l < |PageMap(t)| ==> PageMap(t)[l].offset > pos)
            || (page == 1 && forall k :: 0 <= k < |PageMap(t)| ==> PageMap(t)[k].offset > pos)
  {
    PageAt(PageMap(t), pos)
  }

  /** The `(0, 1)` stand-in entry gives the same pages as the empty index. */
  lemma PageTableAgrees(t: string, pos: nat)
    ensures PageAt(PageTable(t), pos) == PageOf(t, pos)
  {
  }

  /** Entries past `pos` do not change the page at `pos`. */
  lemma {:induction false} PageAtIgnoresLater(pm: seq<PageEntry>, k: nat, pos: nat)
    requires k <= |pm|
    requires forall l :: k <= l < |pm| ==> pm[l].offset > pos
    ensures PageAt(pm, pos) == PageAt(pm[..k], pos)
    decreases |pm| - k
  {
    if k < |pm| {
      var init := pm[..|pm| - 1];
      assert forall l :: 0 <= l < |init| ==> init[l] == pm[l];
      PageAtIgnoresLater(init, k, pos);
      assert init[..k] == pm[..k];
    } else {
      assert pm[..k] == pm;
    }
  }

  /** A page marker's own offset belongs to its page. */
  lemma PageAtEntry(pm: seq<PageEntry>, k: nat)
    requires Ascending(pm) && k < |pm|
    ensures PageAt(pm, pm[k].offset) == pm[k].page
  {
    PageAtIgnoresLater(pm, k + 1, pm[k].offset);
    assert pm[..k + 1][k] == pm[k];
  }

  /**
   * The page loop of the engine: walk the index in order, take every entry
   * at or before `pos`, stop at the first one after it.
   */
  method LookupPage(pm: seq<PageEntry>, pos: nat) returns (page: nat)
    requires Ascending(pm)
    ensures page == PageAt(pm, pos)
  {
    page := 1;
    var k := 0;
    while k < |pm|
      invariant 0 <= k <= |pm|
      invariant page == PageAt(pm[..k], pos)
    {
      if pm[k].offset <= pos {
        page := pm[k].page;
        assert pm[..k + 1][..k] == pm[..k];
        k := k + 1;
      } else {
        PageAtIgnoresLater(pm, k, pos);
        return;
      }
    }
    assert pm[..k] == pm;
  }

  /**
   * Overlapping page markers: in `--- Page 1 --- Page 2 ---` the second marker
   * starts inside the first match, so it cuts a chunk at 11 but is not indexed,
   * and that chunk is assigned page 1.
   */
  lemma OverlappingPagesIndexOnce(t: string)
    requires t == "--- Page 1 --- Page 2 ---"
    ensures PageMarkerAt(t, 0, false) == Some((14, 1))
    ensures PageMarkerAt(t, 11, false) == Some((25, 2))
    ensures MarkerAt(t, 11)
    ensures PageMap(t) == [PageEntry(0, 1)]
    ensures PageOf(t, 11) == 1
  {
    OverlappingPageMarkers(t);
    var r := PageMap(t);
    assert r != [] && r[0].offset == 0 by {
      assert PageMarkerAt(t, 0, false).Some?;
    }
    assert |r| == 1 by {
      assert NoPageIn(t, 14, |t|);
      assert forall q :: 14 <= q <= |t| ==> PageMarkerAt(t, q, false).None?;
    }
  }

  lemma OverlappingPageMarkers(t: string)
    requires t == "--- Page 1 --- Page 2 ---"
    ensures |t| == 25
    ensures PageMarkerAt(t, 0, false) == Some((14, 1))
    ensures PageMarkerAt(t, 11, false) == Some((25, 2))
    ensures MarkerAt(t, 11)
  {
    FirstOverlappingMarker(t);
    SecondOverlappingMarker(t);
  }

  lemma FirstOverlappingMarker(t: string)
    requires t == "--- Page 1 --- Page 2 ---"
    ensures PageMarkerAt(t, 0, false) == Some((14, 1))
  {
    assert HasAt(t, 0, "--- Page ", false);
    assert Span(t, 9, IsDigit) == 10 by {
      assert Span(t, 10, IsDigit) == 10;
    }
    assert HasAt(t, 10, " ---", false);
    assert t[9..10] == "1" && DecimalValue("1") == 1;
  }

  lemma SecondOverlappingMarker(t: string)
    requires t == "--- Page 1 --- Page 2 ---"
    ensures PageMarkerAt(t, 11, false) == Some((25, 2))
    ensures MarkerAt(t, 11)
  {
    assert HasAt(t, 11, "--- Page ", false);
    assert HasAt(t, 11, "--- Page ", true);
    assert Span(t, 20, IsDigit) == 21 by {
      assert Span(t, 21, IsDigit) == 21;
    }
    assert HasAt(t, 21, " ---", false);
    assert HasAt(t, 21, " ---", true);
    assert t[20..21] == "2" && DecimalValue("2") == 2;
  }

  /** A page marker tagged as a fallback page is neither indexed nor a chunk marker. */
  lemma FallbackPageNotMarker()
    ensures var t := "--- Page 2 (Fallback Tesseract) ---";
      PageMarkerAt(t, 0, false).None? && PageMarkerAt(t, 0, true).None? && !MarkerAt(t, 0)
  {
    var t := "--- Page 2 (Fallback Tesseract) ---";
    FallbackNoPage(t);
    FallbackNoOther(t);
  }

  lemma FallbackNoPage(t: string)
    requires t == "--- Page 2 (Fallback Tesseract) ---"
    ensures PageMarkerAt(t, 0, false).None? && PageMarkerAt(t, 0, true).None?
  {
    assert HasAt(t, 0, "--- Page ", true);
    assert Span(t, 9, IsDigit) == 10 by {
      assert Span(t, 10, IsDigit) == 10;
    }
    assert !HasAt(t, 10, " ---", true) by { assert !SameChar(t[10 + 1], " ---"[1], true); }
    assert !HasAt(t, 10, " ---", false) by { assert !SameChar(t[10 + 1], " ---"[1], false); }
  }

  lemma FallbackNoOther(t: string)
    requires t == "--- Page 2 (Fallback Tesseract) ---" && PageMarkerAt(t, 0, true).None?
    ensures !MarkerAt(t, 0)
  {
    assert !HasAt(t, 0, "DEBIT ADVICE", true) by { assert !SameChar(t[0 + 0], "DEBIT ADVICE"[0], true); }
    assert !HasAt(t, 0, "CREDIT ADVICE", true) by { assert !SameChar(t[0 + 0], "CREDIT ADVICE"[0], true); }
    assert !HasAt(t, 0, "RECEIPT NO.", true) by { assert !SameChar(t[0 + 0], "RECEIPT NO."[0], true); }
    assert !HasAt(t, 0, "Shipment Receipt", true) by { assert !SameChar(t[0 + 0], "Shipment Receipt"[0], true); }
  }
}
