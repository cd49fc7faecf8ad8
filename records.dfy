/** The dictionaries the extraction engine passes around, as values. */
module Records {
  import opened Wrappers

  datatype Txn = Debit | Credit

  /** What `extract_chunk` returns: the `fields` dictionary of one chunk. */
  datatype Fields = Fields(
    account: Option<string>,    // "A/C No"
    date: Option<string>,       // "Document Date"
    reference: Option<string>,  // "Reference No"
    total: Option<string>,      // "Total Value"
    bank: Option<string>,       // "Bank Name"
    company: Option<string>,    // "Company Name"
    txn: Option<Txn>)           // "Transaction"

  /**
   * One entry of the engine's result: the chunk's fields plus "Page", and
   * "Currency", which only the master-account enrichment sets (None stands
   * for the key being absent before that).
   */
  datatype Record = Record(
    account: Option<string>,
    date: Option<string>,
    reference: Option<string>,
    total: Option<string>,
    bank: Option<string>,
    company: Option<string>,
    txn: Option<Txn>,
    page: nat,
    currency: Option<string>)

  /** Python truthiness of an optional string: present and not empty. */
  predicate Truthy(v: Option<string>)
  {
    v.Some? && v.value != ""
  }

  /** `data = parser.extract_chunk(chunk); data["Page"] = page`. */
  function WithPage(f: Fields, page: nat): Record
  {
    Record(f.account, f.date, f.reference, f.total, f.bank, f.company, f.txn, page, None)
  }

  /** The three header fields carried from chunk to chunk. */
  datatype Key = DateKey | ReferenceKey | AccountKey

  function Get(r: Record, k: Key): Option<string>
  {
    match k
    case DateKey => r.date
    case ReferenceKey => r.reference
    case AccountKey => r.account
  }

  function Set(r: Record, k: Key, v: Option<string>): (r': Record)
    ensures Get(r', k) == v
    ensures forall j :: j != k ==> Get(r', j) == Get(r, j)
    ensures r'.total == r.total && r'.bank == r.bank && r'.company == r.company
    ensures r'.txn == r.txn && r'.page == r.page && r'.currency == r.currency
  {
    match k
    case DateKey => r.(date := v)
    case ReferenceKey => r.(reference := v)
    case AccountKey => r.(account := v)
  }
}
