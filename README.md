# OCR bank-advice extraction engine and date normaliser, in Dafny

This project models the text-to-records core of a tool that turns OCR text of
scanned bank advices into transaction records, and the date canonicaliser of
its database migration.

`ocr_process.py`:

- **Dialect choice** (`get_bank_parser`). Krungthai when `KRUNGTHAI` occurs in
  the upper-cased text, else CIMB when `CIMB` occurs, else Generic.
- **Per-chunk field extraction** (`extract_chunk` of `KrungthaiParser`,
  `CIMBParser` and `GenericParser`):
  - account, date and reference are first-match cascades over pattern lists;
  - the transaction type comes from `DEBIT ADVICE` / `CREDIT ADVICE`;
  - the total comes from keyword-led amount scanning, with the shipment-receipt
    guard and the last-resort scan;
  - Generic is Krungthai with the bank name blanked.
- **Segmentation and the header merge** (`extract_all_entries`):
  - the zero-width `re.split` at chunk markers;
  - the `--- Page N ---` index and its page lookup loop;
  - the header-state carry-forward, the promotion rule, and the back-fill of
    the last record.
- **Master-account match rule** (`lookup_master`) and the enrichment loop of
  `process_single_pdf`.

`migration_normalize_dates.py`:

- `normalize_date`: four prefix-anchored formats tried in order, each rewritten
  to `YYYY-MM-DD`; anything else comes back trimmed.

Modules, one file each:

| module | file | role |
|---|---|---|
| `Wrappers` | `wrappers.dfy` | `Option` |
| `Chars` | `chars.dfy` | Python's whitespace set, ASCII digits and case, `strip`, substring search, `replace` |
| `Pattern` | `pattern.dfy` | a small matcher for the keyword regexes (`DEBIT\s*ADVICE`, `Total\s*Value`, …), searched leftmost, optionally ignoring ASCII case |
| `Amount` | `amount.dfy` | the amount regex and its two variants as a `findall` scanner, and the `[\s,]` clean-up |
| `Segment` | `segment.dfy` | the chunk split and the page index |
| `Records` | `records.dfy` | the `fields` dictionary and the result record as datatypes |
| `Extract` | `extract.dfy` | the three `extract_chunk` dialects and `get_bank_parser` |
| `Merge` | `merge.dfy` | the header merge and the append/back-fill rule as a fold over candidates, with its invariants |
| `Entries` | `entries.dfy` | `extract_all_entries` as an imperative loop proved equal to the fold |
| `Master` | `master.dfy` | the `lookup_master` match rule and the enrichment loop |
| `Dates` | `dates.dfy` | `normalize_date` |

How the model is built:

- The loop bodies of `extract_all_entries` are methods over a `Header` value and
  a `seq<Record>`:
  - `MergeInto` updates the header dictionary key by key;
  - `BackFill` mutates `results[-1]`;
  - `ProcessChunk` handles one chunk;
  - `ProcessChunks` loops over the chunks with `current_pos` and runs the page
    loop `LookupPage`.
  Each method is proved equal to a specification function (`MergeHeader`,
  `FillEmpty`, `Step`, `Run`). The properties of the engine are proved about
  those functions.
- Python's `re` is not available. Every regex the core's behaviour depends on
  is written out as a scanner, and each scanner's doc comment says why it
  gives the same match, backtracking included:
  - the keyword tests;
  - the amount tokens;
  - the split markers;
  - the page markers;
  - the four date formats.

Points of the code that a reader might not expect:

- **`Amount Credited` takes the first amount, not the last.** In the keyword
  table only the generic `Amount` keyword has `pick_last` set; every other
  keyword, `A[nm]ount Credited` included, takes the first amount after its
  match (`ocr_process.py:142`, `:149`).
- **Hyphens are not normalised.** The directory column loses only apostrophes
  and surrounding whitespace, and the extracted account only surrounding
  whitespace and spaces (`ocr_process.py:328-329`). So `9943-000613-001` in the
  directory does not match an extracted `9943000613001`
  (`Master.HyphenatedEntryMissesPlain`).
- **Enrichment overwrites.** Whenever a master path is given, the loop of
  `process_single_pdf` overwrites Bank Name, Company Name and Currency of every
  entry with the lookup result, None included (`ocr_process.py:348-353`;
  `Master.UnmatchedClearsBank`). The review screen of the app has a fill-only
  variant: it looks up only rows with an empty field and writes only the empty
  fields, and only when a bank was found (`app.py:273-284`). That variant is
  not part of this model.
- **Two transaction types.** Only `DEBIT ADVICE` and `CREDIT ADVICE` set a
  transaction (`ocr_process.py:128-132`), so the model's `Txn` has only
  `Debit` and `Credit`.

Observations the proofs make precise:

- **A dead test.** A chunk that is not appended never holds a total, company
  or transaction, so the `any(...)` test of `ocr_process.py:311` always lets
  the back-fill through (`Merge.OtherFieldsNeverSet`).
- **A guard that never fires.** The shipment-receipt guard of
  `ocr_process.py:140` never fires, because a known transaction already means
  `ADVICE` occurs (`Extract.AdviceNeverSkipped`).
- **A blank row matches everything.** A directory row whose ACNO cleans to the
  empty string matches every account (`Master.BlankAcnoMatchesAll`).
- **Overlapping markers.** A marker keeps its whole text inside its chunk only
  when no other marker starts inside it. In `Shipment Receipt No.` the
  `RECEIPT NO.` marker cuts the first one (`Segment.OverlappingMarkersCut`).
- **Overlapping page markers.** In `--- Page 1 --- Page 2 ---` the second
  marker starts inside the first. `re.finditer` skips it, so only page 1 is
  indexed, but the zero-width split still cuts at offset 11, and that chunk
  gets page 1 (`Segment.OverlappingPagesIndexOnce`).
- **The advice test is looser than the splitter.** The advice test takes any
  whitespace run between `DEBIT` and `ADVICE` (`ocr_process.py:295`); the
  split marker takes one space (`:271`). So `DEBIT` and `ADVICE` on two lines
  is advice wording, but it starts no chunk (`Entries.AdviceWithoutCut`).
- **Not quite idempotent.** A non-empty all-whitespace date is truthy, strips
  to `""` and is returned as `""`; normalising that again gives None. So
  normalising twice equals normalising once for every input except this one
  (`Dates.NormalizeIdempotent`, `Dates.BlankNotIdempotent`).

## Model

| member | source | states |
|---|---|---|
| Chars.StripSpec | migration_normalize_dates.py:10 | `strip()` removes exactly the leading and trailing whitespace (Python's whitespace set) and keeps a contiguous middle that neither starts nor ends with whitespace |
| Chars.StripEmptyIff | migration_normalize_dates.py:10 | stripping gives the empty string exactly when every character is whitespace |
| Chars.RemoveChar | ocr_process.py:328-329 | `replace(c, "")` leaves no `c` and keeps every other character with its multiplicity |
| Chars.RemoveAbsent | ocr_process.py:328-329 | removing a character that does not occur changes nothing |
| Chars.RemoveAppend | ocr_process.py:328-329 | removing a character from a concatenation is removing it from each part, so the kept characters stay in order |
| Chars.ReplaceChar | ocr_process.py:103 | `replace(a, b)` keeps the length, puts `b` exactly where `a` was and leaves every other character |
| Pattern.SearchFrom | ocr_process.py:129 | `re.search` finds the leftmost match: the reported start matches, no earlier start does, and None means no position matches |
| Pattern.OccursIff | ocr_process.py:129-131 | a search succeeds exactly when some position of the text matches |
| Pattern.LitOccursIff | ocr_process.py:245 | a case-sensitive literal search is the substring test |
| Pattern.LitMatch | ocr_process.py:245 | a literal matches at `i` exactly when the text there spells it, and the match ends after its length |
| Amount.PrefixLen | ocr_process.py:156 | the optional currency prefix `[A-Z]{3}`, `[ก-ฮ]{3}` or `[฿$]` is 0, 1 or 3 characters long and fits in the text; a non-zero length is a prefix, and 0 means no prefix starts there |
| Amount.BodyAt | ocr_process.py:156 | the captured amount at `b` is the only match of `(?:\d{1,3}[\s,]*)+\.\d{2}(?!\d)` there: digits, whitespace and commas led by a digit, then `.dd`, not followed by a digit; None exactly when there is no match |
| Amount.TokenAt | ocr_process.py:156-228 | the match of each of the three amount regexes at `i`, with the position of its amount, is the only one the regex admits there, and the amount is a token |
| Amount.FindAll | ocr_process.py:156 | `re.findall` returns, in order, the amount captured at each non-overlapping leftmost match of the scan; empty exactly when no position matches |
| Amount.ScanFrom | ocr_process.py:156-228 | the scan behind `findall`: ascending match starts, the first is the leftmost match, each next is the leftmost at or after the end of the previous, and none is missed |
| Amount.CleanToken | ocr_process.py:159 | removing whitespace and commas from any captured amount gives a stored amount (digits, dot, two digits), keeping its leading digit and its cents |
| Amount.CleanGroup | ocr_process.py:159 | a run of digits, whitespace and commas cleans to digits only |
| Amount.CleanAppend | ocr_process.py:159 | cleaning distributes over concatenation |
| Amount.CleanPlain | ocr_process.py:159 | text without whitespace or commas is unchanged by cleaning |
| Amount.CleanDrops | ocr_process.py:159 | a single separator between separator-free pieces disappears |
| Amount.CleanExamples | ocr_process.py:159 | `48,022.84` and `48 022.84` both become `48022.84`; `1,000.00` becomes `1000.00` |
| Segment.SplitSpec | ocr_process.py:271 | the chunks concatenate back to the text; every chunk after the first starts at a marker and is non-empty; no marker starts strictly inside a chunk; the first chunk is empty exactly when the text is empty or starts with a marker |
| Segment.Split | ocr_process.py:271 | the chunks of the zero-width split concatenate back to the text, every chunk after the first starts at a marker and is non-empty, and no marker starts strictly inside a chunk |
| Segment.MarkerStartsPiece | ocr_process.py:271 | every marker occurrence is the start of a chunk other than the first |
| Segment.MarkerInsidePiece | ocr_process.py:271 | a marker whose text no other marker overlaps lies wholly inside its chunk |
| Segment.OverlappingMarkersCut | ocr_process.py:271 | in `Shipment Receipt No.` the `RECEIPT NO.` marker cuts the `Shipment Receipt` chunk after 9 characters |
| Segment.NoMarkerSplit | ocr_process.py:271 | text without markers is a single chunk |
| Segment.PageMap | ocr_process.py:258-260 | the page index of the whole text is the `finditer` scan from offset 0 |
| Segment.PageMapFrom | ocr_process.py:258-260 | the index is what `re.finditer` yields: ascending marker positions paired with their numbers, every marker not inside a previous match indexed, none skipped |
| Segment.PageTable | ocr_process.py:262-263 | the index in use, with `(0, 1)` standing in when there is no marker, is ascending |
| Segment.PageTableAgrees | ocr_process.py:262-263 | the `(0, 1)` stand-in gives the same pages as an empty index |
| Segment.PageAt | ocr_process.py:287-292 | a position's page is the page of the last index entry at or before it, or 1 when there is none |
| Segment.PageOf | ocr_process.py:286-292 | a position gets the page of the last index entry at or before it, or 1 when every entry lies after it |
| Segment.PageAtIgnoresLater | ocr_process.py:289-292 | index entries after the position do not affect its page (the `break`) |
| Segment.PageAtEntry | ocr_process.py:287-292 | a marker's own offset belongs to its page |
| Segment.LookupPage | ocr_process.py:287-292 | the page loop returns the page of the last entry at or before the position |
| Segment.FallbackPageNotMarker | ocr_process.py:71 | a `--- Page 2 (Fallback Tesseract) ---` tag is neither indexed nor a chunk marker |
| Segment.OverlappingPagesIndexOnce | ocr_process.py:259-271 | in `--- Page 1 --- Page 2 ---` only page 1 is indexed, yet the split cuts at offset 11 and that offset gets page 1 |
| Records.Set | ocr_process.py:304-306 | writing one header key changes that key only |
| Extract.FirstOf | ocr_process.py:100-106 | a pattern loop with `break` yields the value of the first candidate that produces one; None exactly when none does |
| Extract.DetectDialect | ocr_process.py:244-250 | Krungthai exactly when `KRUNGTHAI` occurs in any case; CIMB exactly when it does not and `CIMB` does; Generic otherwise |
| Extract.UpperOccurs | ocr_process.py:245 | `w in text.upper()` for an upper-case word is a case-insensitive search for it |
| Extract.TransactionOf | ocr_process.py:128-132 | DEBIT exactly when `DEBIT\s*ADVICE` occurs in any case; CREDIT exactly when it does not and `CREDIT\s*ADVICE` does; None otherwise |
| Extract.TransactionIff | ocr_process.py:128-132 | a transaction is set exactly when advice wording occurs; DEBIT is chosen whenever `DEBIT ADVICE` occurs; CREDIT only when it does not |
| Extract.AfterKeyword | ocr_process.py:153-155 | the text after a keyword's first match is a suffix of the chunk; None exactly when the keyword does not occur |
| Extract.AmountsAfter | ocr_process.py:153-156 | the amounts after a keyword are the `findall` of the text after its first match, and none when it does not occur |
| Extract.KeywordAmount | ocr_process.py:152-160 | a keyword yields the first amount token after its first match, or the last one for `Amount`; None exactly when the keyword is absent or no token follows it |
| Extract.KeywordTotal | ocr_process.py:151-159 | the total the keyword loop finds, when any, is an amount token |
| Extract.KeywordTotalFirst | ocr_process.py:151-159 | the keyword loop finds nothing exactly when no keyword yields an amount; otherwise it finds the amount of the first keyword in priority order that yields one |
| Extract.CleanLast | ocr_process.py:163-166 | the last found amount, cleaned, exactly when there is one, and it is a stored amount |
| Extract.LastAmount | ocr_process.py:162-166 | the last match of the amount scan, cleaned, is a stored amount; None exactly when the text holds no match |
| Extract.KrungthaiTotal | ocr_process.py:134-166 | a total only with a transaction, always a stored amount; with a transaction it is the cleaned amount of the first keyword in priority order that yields one, else the last amount of the chunk; present whenever the chunk holds any amount |
| Extract.AdviceNeverSkipped | ocr_process.py:137-140 | the shipment-receipt guard never skips a total once a transaction is known |
| Extract.CimbTotal | ocr_process.py:220-230 | a total only with a transaction; then the last currency-led amount when there is one, else the last bare amount, cleaned; None when neither exists |
| Extract.AccountValue | ocr_process.py:103 | the stripped capture with each `=` turned into `-` and every other character kept in place |
| Extract.AccountCandidate | ocr_process.py:102-106 | a pattern gives an account exactly when it captures and the stripped capture has at least 5 characters; the account is that capture with `=` turned into `-` |
| Extract.KrungthaiAccount | ocr_process.py:95-106 | the account is the candidate of the first pattern that gives one, in list order; None exactly when none does; it has at least 5 characters and no `=` |
| Extract.FirstLine | ocr_process.py:122 | `split('\n')[0]` is the longest newline-free prefix, cut at the first newline |
| Extract.ReferenceLineShape | ocr_process.py:122 | the reference kept is one line without surrounding whitespace |
| Extract.KrungthaiReference | ocr_process.py:117-126 | no capture gives None; a first line that mentions `A/C`, `AMOUNT` or `DATE` is replaced by the reference code found in it (None without one); otherwise the line itself is kept |
| Extract.KrungthaiFields | ocr_process.py:83-168 | bank `Krungthai`, no company; the transaction, total, account, date and reference are those of the Krungthai cascades; a transaction exactly for advice text, a stored-amount total only with it and always when an amount occurs, an account of at least 5 characters |
| Extract.CimbFields | ocr_process.py:171-233 | bank `CIMB`, no company; the transaction and total of the CIMB rules; a total present whenever a transaction and any amount are; account, date and reference are the first captures stripped |
| Extract.ExtractChunk | ocr_process.py:235-242 | each dialect sets its own bank name and no company; Krungthai and CIMB fields are their parsers'; Generic's are Krungthai's with the bank name None |
| Merge.HSet | ocr_process.py:304 | updating one header key leaves the other two unchanged |
| Merge.MergeHeader | ocr_process.py:302-306 | for each header key, a truthy chunk value replaces the state, otherwise the state value fills the chunk; the chunk's other fields are untouched |
| Merge.FillEmpty | ocr_process.py:313-316 | the last record takes a chunk's header value only where its own is empty and the chunk's is truthy; nothing else changes |
| Merge.Step | ocr_process.py:294-316 | one chunk merges its header values into the state, appends exactly one record when it is advice or has a transaction and none otherwise, and leaves every record but the last unchanged |
| Merge.Run | ocr_process.py:282-318 | the loop over all candidates keeps one record per promoted candidate, so never more records than candidates |
| Merge.HeaderIsNewest | ocr_process.py:302-306 | after any run, a header field is None exactly when no chunk had a truthy value for it, and otherwise holds the value of the last chunk that did |
| Merge.HeaderNeverReverts | ocr_process.py:302-306 | once a header field is set it stays set |
| Merge.RecordsMatchPromoted | ocr_process.py:308-310 | one record per advice-or-transaction chunk, in order; each keeps its chunk's body and truthy header values; every header value of a record is None or truthy |
| Merge.PromotedStep | ocr_process.py:309-310 | an advice or transaction chunk appends exactly one record carrying the current header state |
| Merge.NonPromotedStep | ocr_process.py:311-316 | any other chunk appends nothing, leaves all records but the last unchanged, and never loses a truthy field of the last |
| Merge.CarriedForward | ocr_process.py:302-310 | a header value seen in any earlier chunk reaches the record of a later advice chunk (an account on page 1 reaches a page-2 record) |
| Merge.OtherFieldsNeverSet | ocr_process.py:311 | a chunk that was not appended never carries a total, company or transaction, so the `any(...)` test never blocks the back-fill |
| Entries.MergeInto | ocr_process.py:302-306 | the key loop leaves the header and the chunk as the merge function says |
| Entries.BackFill | ocr_process.py:313-316 | the in-place update of the last record equals the fill function |
| Entries.ChunkCandidate | ocr_process.py:286-299 | one chunk's page, advice test and extracted fields are the candidate `CandidateAt` builds for it |
| Entries.ProcessChunk | ocr_process.py:294-316 | one loop iteration equals one step of the fold |
| Entries.ProcessPiece | ocr_process.py:282-318 | one iteration of the chunk loop, empty chunks skipped, advances the state from the fold over the chunks before it to the fold including it |
| Entries.ProcessChunks | ocr_process.py:280-320 | the chunk loop, with `current_pos` and the page loop, returns the fold over the non-empty chunks |
| Entries.ExtractAllEntries | ocr_process.py:252-320 | `extract_all_entries` returns the specified entries of the text |
| Entries.Entries | ocr_process.py:252-320 | the entries of a text are one record per promoted chunk, never more than there are chunks |
| Entries.CandidateOrigin | ocr_process.py:282-298 | every candidate comes from a non-empty chunk at its offset |
| Entries.ChunkOrigin | ocr_process.py:282-320 | every record of the chunk loop extends the extracted fields, with page, of a non-empty advice chunk |
| Entries.RecordOrigin | ocr_process.py:252-320 | every record comes from a non-empty advice chunk of the text, lies at its offset, carries that offset's page, and keeps that chunk's extracted fields and truthy header values |
| Entries.NoAdviceNoEntries | ocr_process.py:295-310 | text with no advice wording yields no records |
| Entries.AdviceWithoutCut | ocr_process.py:271-295 | `DEBIT`, a whitespace character other than a space, then `ADVICE` passes the advice test, yet no chunk starts there: the splitter's marker has a single space where the advice test takes `\s*` |
| Master.CleanColumn | ocr_process.py:328 | the cleaned ACNO column has one entry per row, each row's ACNO with apostrophes removed and stripped |
| Master.CleanAcno | ocr_process.py:328 | a cleaned ACNO has no apostrophe, no surrounding whitespace, and only characters of the original |
| Master.CleanAccount | ocr_process.py:329 | a cleaned account has no space, and exactly the characters of the stripped account less its spaces |
| Master.FirstMatchFrom | ocr_process.py:332-334 | the row found is the first whose cleaned ACNO contains or is contained in the account; None when no row is |
| Master.Lookup | ocr_process.py:322-338 | an empty account or a missing or unreadable directory gives (None, None, None); otherwise the triple of the first row, in directory order, that matches the cleaned account |
| Master.LookupRows | ocr_process.py:326-338 | on a loaded directory, the triple of the first matching row in directory order, and (None, None, None) when no row matches |
| Master.LookupFirstRow | ocr_process.py:326-334 | a non-empty account gets the bank, name and currency of the first matching row |
| Master.LookupNoRow | ocr_process.py:332-338 | no matching row gives (None, None, None) |
| Master.Enrich | ocr_process.py:348-353 | without a master path the entries are unchanged; with one, every entry is enriched with its own lookup |
| Master.EnrichOne | ocr_process.py:350-353 | an enriched entry has the lookup of its own account as bank, company and currency, and every other field unchanged |
| Master.EnrichStable | ocr_process.py:348-353 | enrichment changes only bank, company and currency, and doing it twice equals doing it once |
| Master.UnmatchedClearsBank | ocr_process.py:350-353 | an entry whose account matches no row loses its bank name, company and currency |
| Master.BlankAcnoMatchesAll | ocr_process.py:328-332 | a row whose ACNO cleans to the empty string matches every account |
| Master.CleanPlainAccount | ocr_process.py:328-329 | an account without spaces, apostrophes or surrounding whitespace is unchanged by both clean-ups |
| Master.HyphensKept | ocr_process.py:328-332 | `9943-000613-001` and `9943000613001` contain neither each other |
| Master.HyphenatedEntryMissesPlain | ocr_process.py:328-332 | a hyphenated directory entry does not match the same digits without hyphens |
| Master.PlainMatch | ocr_process.py:328-332 | for an entry and an account with nothing to clean, a match is plain containment either way |
| Master.HyphenatedEntryMatchesTail | ocr_process.py:328-332 | it does match a hyphenated tail of itself, `000613-001` |
| Dates.MonthOf | migration_normalize_dates.py:11-14 | the table lookup with default `01` always gives a two-digit month |
| Dates.MonthOfEntry | migration_normalize_dates.py:11-14 | each abbreviation maps to its own month number |
| Dates.MonthOfUnknown | migration_normalize_dates.py:20 | an abbreviation missing from the table maps to `01` |
| Dates.MonthByPrefixAgrees | migration_normalize_dates.py:31-35 | the first table key the lower-cased month word starts with gives the month of its first three letters, and `01` for a word shorter than three |
| Dates.Pad2 | migration_normalize_dates.py:21 | `f"{int(d):02d}"` of one or two digits is two digits with the same value |
| Dates.Digits12 | migration_normalize_dates.py:17 | `\d{1,2}` followed by a separator matches one or two digits followed by it |
| Dates.UpTo2Digits | migration_normalize_dates.py:38 | the final `\d{1,2}` takes two digits when there are two, else one |
| Dates.DayMonthName | migration_normalize_dates.py:16-21 | a match of the first format is rewritten to `YYYY-MM-DD` |
| Dates.DaySlashMonth | migration_normalize_dates.py:22-26 | a match of the second format is rewritten to `YYYY-MM-DD` |
| Dates.MonthNameDay | migration_normalize_dates.py:27-36 | a match of the third format is rewritten to `YYYY-MM-DD` |
| Dates.YearFirst | migration_normalize_dates.py:37-41 | a match of the fourth format is rewritten to `YYYY-MM-DD` |
| Dates.NormalizeDate | migration_normalize_dates.py:7-44 | None exactly for None or empty input; otherwise a canonical date when the trimmed input matches one of the four formats, and the trimmed input itself when it matches none |
| Dates.PaddingIgnored | migration_normalize_dates.py:8-10 | surrounding whitespace does not change the result of a value that is not all whitespace |
| Dates.NormalizeTrimmed | migration_normalize_dates.py:8-10 | a non-empty value without surrounding whitespace goes straight to the format cascade |
| Dates.Cascade | migration_normalize_dates.py:15-44 | when one of the four formats matches, the result is a canonical `YYYY-MM-DD`; when none does, the input comes back unchanged |
| Dates.LetterLed | migration_normalize_dates.py:15-41 | text starting with a letter can only match the month-name format |
| Dates.DigitLed | migration_normalize_dates.py:27-28 | text starting with a digit never matches the month-name format |
| Dates.YearLed | migration_normalize_dates.py:15-36 | text starting with four digits matches none of the first three formats |
| Dates.DayMonthNameForm | migration_normalize_dates.py:16-21 | `D-Mon-YYYY` followed by anything becomes the year, the month of the lower-cased abbreviation and the zero-padded day |
| Dates.DaySlashMonthForm | migration_normalize_dates.py:22-26 | `D/M/YYYY` followed by anything becomes year, padded month, padded day: the day comes first |
| Dates.MonthNameDayForm | migration_normalize_dates.py:27-36 | `Month D, YYYY` followed by anything becomes year, month by prefix, padded day |
| Dates.YearFirstForm | migration_normalize_dates.py:37-41 | `YYYY-M-D` or `YYYY/M/D` followed by any tail becomes year, padded month, padded day; only a one-digit day must not be followed by a digit |
| Dates.IsoReadBack | migration_normalize_dates.py:37-41 | a canonical date followed by anything normalises to itself |
| Dates.IsoFixed | migration_normalize_dates.py:37-41 | a canonical date normalises to itself |
| Dates.DashedDayFirstUnchanged | migration_normalize_dates.py:16-41 | `DD-MM-YYYY` with dashes matches no format and comes back unchanged |
| Dates.NormalizeIdempotent | migration_normalize_dates.py:21-44 | normalising twice equals normalising once, for every input except a non-empty all-whitespace one |
| Dates.BlankNotIdempotent | migration_normalize_dates.py:8-10 | `" "` normalises to `""`, which normalises to None |
| Dates.NoCalendarCheck | migration_normalize_dates.py:16-21 | `31-Feb-2024` becomes `2024-02-31`: no calendar check |
| Dates.UnknownMonthExample | migration_normalize_dates.py:20 | `07-Foo-2024` becomes `2024-01-07` |
| Dates.ExampleDayMonthName | test_date_normalization.py:12 | `01-Jan-2024` becomes `2024-01-01` |
| Dates.ExampleDayMonthNameFeb | test_date_normalization.py:13 | `15-Feb-2025` becomes `2025-02-15` |
| Dates.ExampleDaySlashMonth | test_date_normalization.py:14 | `05/12/2025` becomes `2025-12-05` |
| Dates.ExampleDaySlashMonthShort | test_date_normalization.py:15 | `1/5/2024` becomes `2024-05-01` |
| Dates.ExampleMonthNameDay | test_date_normalization.py:16 | `January 01, 2024` becomes `2024-01-01` |
| Dates.ExampleMonthNameDayShort | test_date_normalization.py:17 | `Dec 31, 2023` becomes `2023-12-31` |
| Dates.ExampleIso | test_date_normalization.py:18 | `2024-05-20` is unchanged |
| Dates.ExampleMissing | test_date_normalization.py:19-20 | None and `""` give None |
| Dates.ExamplePadded | migration_normalize_dates.py:8-26 | `1/5/2024` with a leading space and a trailing newline becomes `2024-05-01` |
| Dates.ExampleTrailingTime | migration_normalize_dates.py:37-41 | `2024-05-20 10:30` becomes `2024-05-20`: trailing text is dropped |

## Left out

- OCR acquisition (`ocr_tesseract`, `ocr_typhoon`): the engine takes the text as a parameter.
  - This covers PDF rasterisation, HTTP, the per-page fallback, and `process_single_pdf`'s OCR engine choice.
- The directory spreadsheet is a parameter.
  - `pd.read_excel` and `os.path.exists` are modelled as a `MasterFile` that is `Missing`, `Unreadable` (the `except` branch) or `Loaded(rows)`.
  - A truthy `master_path` is a present `MasterFile`.
  - Rows carry their ACNO already as text: `astype(str)` of a NaN cell, which reads as `nan`, is not modelled.
- Empty directory cells: pandas reads an empty BankName, AccountName or Currency cell as NaN, and the lookup returns that NaN; the model holds None for it.
- Currency key presence: before enrichment a record has no `Currency` key at all; the model holds None there.
- `print` calls: logging only.
- The `__main__` block, `migrate()`, the Streamlit app, the database and spreadsheet modules, and the scripts: outside this core.
- Regex patterns held abstract: the A/C, date and reference regexes of both dialects are `Matcher` values, each giving the `group(1)` of its `re.search`. The cascades around them are modelled exactly: order, `break`, `strip`, `=` to `-`, the length test, the first line, and the label re-check.
- `[ก-ฮ]` is the code-point range U+0E01..U+0E2E.
- ASCII only for digits and letters:
  - `\d` and `int()` are taken as ASCII digits;
  - case-insensitive matching, `upper()` and `lower()` fold ASCII letters only;
  - Python's Unicode digits and case mappings are not modelled.
  - `\s` and `strip()` use Python's full whitespace set.
- `pd.isna` in `normalize_date`: the input is `None` or a string, so non-string values (NaN, numbers passed through `str()`) are not modelled.
- Page-index loop: the `re.finditer` loop that builds the page index is the function `PageMapFrom` rather than a loop; the page lookup loop is the method `LookupPage`.
- Extract.KrungthaiFields: the date and reference fields are stated only through the abstract matchers; their values are not constrained beyond what `Extract.KrungthaiReference` states.
- Dates.NormalizeIdempotent: holds for every input except a non-empty all-whitespace string. That input returns `""`, which then normalises to None (`Dates.BlankNotIdempotent`).
- Segment.MarkerInsidePiece: needs the marker's text to be free of other markers. Overlapping markers cut each other (`Segment.OverlappingMarkersCut`).
