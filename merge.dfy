/**
 * The carry-forward, promotion and back-fill fold of `extract_all_entries`,
 * as a specification over the sequence of extracted chunks: a header state
 * of Document Date, Reference No and A/C No is threaded through the chunks,
 * advice chunks become records, and the header fields of other chunks fill
 * the gaps of the last record.
 */
module Merge {
  import opened Wrappers
  import opened Records

  /** `header_state`. */
  datatype Header = Header(date: Option<string>, reference: Option<string>, account: Option<string>)

  const EmptyHeader: Header := Header(None, None, None)

  function HGet(h: Header, k: Key): Option<string>
  {
    match k
    case DateKey => h.date
    case ReferenceKey => h.reference
    case AccountKey => h.account
  }

  function HSet(h: Header, k: Key, v: Option<string>): (h': Header)
    ensures HGet(h', k) == v
    ensures forall j :: j != k ==> HGet(h', j) == HGet(h, j)
  {
    match k
    case DateKey => h.(date := v)
    case ReferenceKey => h.(reference := v)
    case AccountKey => h.(account := v)
  }

  /** The header keys in the order both merge loops visit them. */
  const Keys: seq<Key> := [DateKey, ReferenceKey, AccountKey]

  lemma KeysComplete(k: Key)
    ensures k in Keys
  {
    match k
    case DateKey => assert Keys[0] == k;
    case ReferenceKey => assert Keys[1] == k;
    case AccountKey => assert Keys[2] == k;
  }

  /** Everything of a record except its three header fields. */
  predicate SameBody(r: Record, d: Record)
  {
    r.total == d.total && r.bank == d.bank && r.company == d.company
    && r.txn == d.txn && r.page == d.page && r.currency == d.currency
  }

  /** A header value as the state holds it: absent, or non-empty. */
  predicate Held(v: Option<string>)
  {
    v.None? || Truthy(v)
  }

  // ---------------------------------------------------------------------
  // Merging a chunk with the header state
  // ---------------------------------------------------------------------

  /** One key: a non-empty chunk value replaces the state's, a missing one is taken from it. */
  function MergeKey(h: Header, d: Record, k: Key): (Header, Record)
  {
    if Truthy(Get(d, k)) then (HSet(h, k, Get(d, k)), d)
    else (h, Set(d, k, HGet(h, k)))
  }

  /** The merge loop over the first keys of `ks`. */
  function MergeKeys(h: Header, d: Record, ks: seq<Key>): (Header, Record)
  {
    if ks == [] then (h, d)
    else
      var m := MergeKeys(h, d, ks[..|ks| - 1]);
      MergeKey(m.0, m.1, ks[|ks| - 1])
  }

  /**
   * After the merge the state holds the chunk's non-empty header values and
   * keeps its own elsewhere, and the chunk's header fields equal the state.
   */
  function MergeHeader(h: Header, d: Record): (r: (Header, Record))
    ensures forall k :: HGet(r.0, k) == (if Truthy(Get(d, k)) then Get(d, k) else HGet(h, k))
    ensures forall k :: Get(r.1, k) == HGet(r.0, k)
    ensures SameBody(r.1, d)
  {
    var m1 := MergeKeys(h, d, Keys[..1]);
    var m2 := MergeKeys(h, d, Keys[..2]);
    assert Keys[..1][..0] == [] && Keys[..2][..1] == Keys[..1] && Keys[..3] == Keys && Keys[..3][..2] == Keys[..2];
    assert MergeKeys(h, d, Keys[..1][..0]) == (h, d);
    assert m1 == MergeKey(h, d, DateKey);
    assert m2 == MergeKey(m1.0, m1.1, ReferenceKey);
    MergeKeys(h, d, Keys)
  }

  // ---------------------------------------------------------------------
  // Back-filling the last record
  // ---------------------------------------------------------------------

  /** `if not last_res[k] and data[k]: last_res[k] = data[k]`. */
  function FillKey(last: Record, d: Record, k: Key): Record
  {
    if !Truthy(Get(last, k)) && Truthy(Get(d, k)) then Set(last, k, Get(d, k)) else last
  }

  function FillKeys(last: Record, d: Record, ks: seq<Key>): Record
  {
    if ks == [] then last
    else FillKey(FillKeys(last, d, ks[..|ks| - 1]), d, ks[|ks| - 1])
  }

  /** Back-filling sets exactly the empty header fields the chunk has a value for. */
  function FillEmpty(last: Record, d: Record): (r: Record)
    ensures forall k :: Get(r, k) == (if !Truthy(Get(last, k)) && Truthy(Get(d, k)) then Get(d, k) else Get(last, k))
    ensures SameBody(r, last)
  {
    var f1 := FillKeys(last, d, Keys[..1]);
    var f2 := FillKeys(last, d, Keys[..2]);
    assert Keys[..1][..0] == [] && Keys[..2][..1] == Keys[..1] && Keys[..3] == Keys && Keys[..3][..2] == Keys[..2];
    assert FillKeys(last, d, Keys[..1][..0]) == last;
    assert f1 == FillKey(last, d, DateKey);
    assert f2 == FillKey(f1, d, ReferenceKey);
    FillKeys(last, d, Keys)
  }

  // ---------------------------------------------------------------------
  // The fold
  // ---------------------------------------------------------------------

  /** A non-empty chunk: its extracted fields with their page, and whether it holds advice wording. */
  datatype Candidate = Candidate(data: Record, advice: bool)

  datatype State = State(header: Header, results: seq<Record>)

  /** `is_actual_advice or data["Transaction"]`. */
  predicate Promoted(c: Candidate)
  {
    c.advice || c.data.txn.Some?
  }

  /** The line-311 test: a field other than Page, Bank Name and the header fields is set. */
  predicate CarriesOther(d: Record)
  {
    Truthy(d.total) || Truthy(d.company) || d.txn.Some?
  }

  /** One iteration of the chunk loop. */
  function Step(s: State, c: Candidate): (r: State)
    ensures r.header == MergeHeader(s.header, c.data).0
    ensures |r.results| == |s.results| + (if Promoted(c) then 1 else 0)
    ensures forall i :: 0 <= i < |s.results| - 1 ==> r.results[i] == s.results[i]
  {
    var m := MergeHeader(s.header, c.data);
    if c.advice || m.1.txn.Some? then State(m.0, s.results + [m.1])
    else if s.results != [] && !CarriesOther(m.1) then
      State(m.0, s.results[|s.results| - 1 := FillEmpty(s.results[|s.results| - 1], m.1)])
    else State(m.0, s.results)
  }

  /** The state after the loop has run over `cs`. */
  function Run(cs: seq<Candidate>): (s: State)
    ensures |s.results| == |PromotedOf(cs)| <= |cs|
  {
    if cs == [] then State(EmptyHeader, [])
    else Step(Run(cs[..|cs| - 1]), cs[|cs| - 1])
  }

  lemma RunAppend(cs: seq<Candidate>, c: Candidate)
    ensures Run(cs + [c]) == Step(Run(cs), c)
  {
    assert (cs + [c])[..|cs|] == cs;
  }

  /** The promoted chunks, in order. */
  function PromotedOf(cs: seq<Candidate>): seq<Candidate>
  {
    if cs == [] then []
    else PromotedOf(cs[..|cs| - 1]) + (if Promoted(cs[|cs| - 1]) then [cs[|cs| - 1]] else [])
  }

  /**
   * A record extends the chunk it was made from: same body, and every
   * non-empty header value of the chunk kept.
   */
  predicate Extends(r: Record, d: Record)
  {
    SameBody(r, d) && forall k :: Truthy(Get(d, k)) ==> Get(r, k) == Get(d, k)
  }

  // ---------------------------------------------------------------------
  // Properties of the fold
  // ---------------------------------------------------------------------

  /**
   * The header state holds, for each key, the newest non-empty value among
   * the chunks so far, and is absent only when no chunk had one.
   */
  lemma {:induction false} HeaderIsNewest(cs: seq<Candidate>, k: Key)
    ensures Held(HGet(Run(cs).header, k))
    ensures HGet(Run(cs).header, k).None? <==> forall i :: 0 <= i < |cs| ==> !Truthy(Get(cs[i].data, k))
    ensures HGet(Run(cs).header, k).Some? ==>
      exists i :: 0 <= i < |cs| && Get(cs[i].data, k) == HGet(Run(cs).header, k)
        && forall j :: i < j < |cs| ==> !Truthy(Get(cs[j].data, k))
  {
    if cs != [] {
      var init := cs[..|cs| - 1];
      var c := cs[|cs| - 1];
      HeaderIsNewest(init, k);
      assert cs == init + [c];
      NewestStep(init, c, k, HGet(Run(init).header, k), HGet(Run(cs).header, k));
    }
  }

  /** `v` is the newest non-empty value of key `k` among the chunks `cs`, absent when there is none. */
  predicate IsNewest(cs: seq<Candidate>, k: Key, v: Option<string>)
  {
    && Held(v)
    && (v.None? <==> forall i :: 0 <= i < |cs| ==> !Truthy(Get(cs[i].data, k)))
    && (v.Some? ==> exists i :: 0 <= i < |cs| && Get(cs[i].data, k) == v
                                && forall j :: i < j < |cs| ==> !Truthy(Get(cs[j].data, k)))
  }

  /** One more chunk: its non-empty value becomes the newest, otherwise the newest stays. */
  lemma NewestStep(init: seq<Candidate>, c: Candidate, k: Key, v0: Option<string>, v: Option<string>)
    requires IsNewest(init, k, v0)
    requires v == if Truthy(Get(c.data, k)) then Get(c.data, k) else v0
    ensures IsNewest(init + [c], k, v)
  {
    var cs := init + [c];
    assert forall i :: 0 <= i < |init| ==> cs[i] == init[i];
    if Truthy(Get(c.data, k)) {
      assert Get(cs[|cs| - 1].data, k) == v;
    } else if v.Some? {
      var i :| 0 <= i < |init| && Get(init[i].data, k) == v
        && forall j :: i < j < |init| ==> !Truthy(Get(init[j].data, k));
      assert Get(cs[i].data, k) == v;
    }
  }

  /** A header value never reverts to absent once some chunk has set it. */
  lemma HeaderNeverReverts(cs: seq<Candidate>, n: nat, k: Key)
    requires n <= |cs|
    requires HGet(Run(cs[..n]).header, k).Some?
    ensures HGet(Run(cs).header, k).Some?
  {
    HeaderIsNewest(cs[..n], k);
    HeaderIsNewest(cs, k);
    NewestOfLonger(cs, n, k, HGet(Run(cs[..n]).header, k), HGet(Run(cs).header, k));
  }

  /** A value found among the first `n` chunks leaves a newest value among all of them. */
  lemma NewestOfLonger(cs: seq<Candidate>, n: nat, k: Key, v0: Option<string>, v: Option<string>)
    requires n <= |cs| && v0.Some? && IsNewest(cs[..n], k, v0) && IsNewest(cs, k, v)
    ensures v.Some?
  {
    var i :| 0 <= i < n && Truthy(Get(cs[..n][i].data, k));
    assert cs[..n][i] == cs[i];
  }

  /**
   * One record per promoted chunk, in order; each extends its chunk, and
   * every record header field is absent or non-empty.
   */
  lemma {:induction false} RecordsMatchPromoted(cs: seq<Candidate>)
    ensures |Run(cs).results| == |PromotedOf(cs)|
    ensures forall i :: 0 <= i < |Run(cs).results| ==> Extends(Run(cs).results[i], PromotedOf(cs)[i].data)
    ensures forall i, k :: 0 <= i < |Run(cs).results| ==> Held(Get(Run(cs).results[i], k))
  {
    if cs != [] {
      var init := cs[..|cs| - 1];
      var c := cs[|cs| - 1];
      RecordsMatchPromoted(init);
      forall k ensures Held(HGet(Run(init).header, k)) {
        HeaderIsNewest(init, k);
      }
      var s := Run(init);
      var m := MergeHeader(s.header, c.data);
      assert forall k :: Held(Get(m.1, k));
      assert Extends(m.1, c.data);
      if !Promoted(c) && s.results != [] && !CarriesOther(m.1) {
        var n := |s.results| - 1;
        assert Extends(FillEmpty(s.results[n], m.1), PromotedOf(init)[n].data);
      }
    }
  }

  /**
   * A promoted chunk appends one record whose header fields are the new
   * header state: values the chunk lacks are carried forward.
   */
  lemma PromotedStep(s: State, c: Candidate)
    requires Promoted(c)
    ensures |Step(s, c).results| == |s.results| + 1
    ensures Step(s, c).results[..|s.results|] == s.results
    ensures forall k :: Get(Step(s, c).results[|s.results|], k) == HGet(Step(s, c).header, k)
    ensures Extends(Step(s, c).results[|s.results|], c.data)
  {
    assert (s.results + [MergeHeader(s.header, c.data).1])[..|s.results|] == s.results;
  }

  /**
   * A chunk that is not promoted never changes the number of records or any
   * record but the last, and on the last it only fills empty header fields.
   */
  lemma NonPromotedStep(s: State, c: Candidate)
    requires !Promoted(c)
    ensures |Step(s, c).results| == |s.results|
    ensures forall i :: 0 <= i < |s.results| - 1 ==> Step(s, c).results[i] == s.results[i]
    ensures s.results != [] ==>
      var last, last' := s.results[|s.results| - 1], Step(s, c).results[|s.results| - 1];
      SameBody(last', last) && forall k :: Truthy(Get(last, k)) ==> Get(last', k) == Get(last, k)
  {
  }

  /**
   * An account number (or date, or reference) read anywhere before an
   * advice chunk reaches that advice's record.
   */
  lemma CarriedForward(cs: seq<Candidate>, i: nat, k: Key)
    requires i < |cs| && Truthy(Get(cs[i].data, k))
    requires Promoted(cs[|cs| - 1])
    ensures Run(cs).results != []
    ensures Truthy(Get(Run(cs).results[|Run(cs).results| - 1], k))
  {
    var init := cs[..|cs| - 1];
    assert cs == init + [cs[|cs| - 1]];
    RunAppend(init, cs[|cs| - 1]);
    PromotedStep(Run(init), cs[|cs| - 1]);
    HeaderIsNewest(cs, k);
  }

  /**
   * The line-311 test never holds back a back-fill: a chunk that is not
   * promoted has no transaction, hence no total, and no chunk has a company.
   */
  lemma OtherFieldsNeverSet(h: Header, c: Candidate)
    requires !Promoted(c)
    requires c.data.company.None? && (c.data.total.Some? ==> c.data.txn.Some?)
    ensures !CarriesOther(MergeHeader(h, c.data).1)
  {
  }
}
