/**
 * The hash-keyed completion ledger of the configuration-driven pipeline
 * (completed_tracker.go): an in-memory map from contact hash to the
 * completed entry, filled from the ledger CSV at start-up and extended by
 * MarkCompleted, which also appends one record to the ledger file.
 *
 * SHA-256 with hex encoding is the tracker's `digest` function value; the
 * clock is the `now` parameter of MarkCompleted; the ledger file is what
 * encoding/csv decodes from it, or the way opening or decoding it fails.
 */
module Ledger {
  import opened Wrappers
  import opened GoStrings
  import CsvParser

  /** One ledger entry, keyed in the tracker by its hash. */
  datatype CompletedContact = CompletedContact(name: string, phoneNumber: string, hash: string, timestamp: string)

  /** The ledger file as load sees it. */
  datatype LedgerFile =
    | Missing
    | Unopenable
    | Undecodable
    | Decoded(records: seq<seq<string>>)

  datatype LoadError = NotExist | OpenFailed | ReadFailed | MissingColumns

  /** The three error returns of appendToFile: the open, the header write and the
      record write. */
  datatype AppendError = AppendOpenFailed | HeaderWriteFailed | RecordWriteFailed

  /** A header cell as load compares it: lower-cased, then trimmed. */
  function HeaderKey(col: string): string {
    TrimSpace(ToLower(col))
  }

  predicate IsNameHeader(col: string) {
    HeaderKey(col) == "name"
  }

  predicate IsPhoneHeader(col: string) {
    var key := HeaderKey(col);
    key == "phone_number" || key == "phone"
  }

  predicate IsHashHeader(col: string) {
    HeaderKey(col) == "hash"
  }

  predicate IsTimestampHeader(col: string) {
    var key := HeaderKey(col);
    key == "timestamp" || key == "date"
  }

  /** The four column indices of a ledger header, -1 where a column is absent. */
  datatype Columns = Columns(name: int, phone: int, hash: int, timestamp: int)

  /** Header detection: for each kind of column, the last header cell of that kind. */
  function ColumnsOf(header: seq<string>): Columns {
    Columns(
      CsvParser.LastIndexWhere(header, IsNameHeader),
      CsvParser.LastIndexWhere(header, IsPhoneHeader),
      CsvParser.LastIndexWhere(header, IsHashHeader),
      CsvParser.LastIndexWhere(header, IsTimestampHeader))
  }

  /** The name, phone and hash columns are present; the timestamp column may be absent. */
  predicate HasRequiredColumns(cols: Columns) {
    cols.name >= 0 && cols.phone >= 0 && cols.hash >= 0 && cols.timestamp >= -1
  }

  /** The entry a data row gives, or None when the row is skipped. */
  function EntryOf(row: seq<string>, cols: Columns): Option<CompletedContact>
    requires HasRequiredColumns(cols)
  {
    if |row| == 0 || (|row| > cols.hash && TrimSpace(row[cols.hash]) == "") then None
    else if |row| <= cols.hash then None
    else
      Some(CompletedContact(
        if |row| > cols.name then TrimSpace(row[cols.name]) else "",
        if |row| > cols.phone then TrimSpace(row[cols.phone]) else "",
        TrimSpace(row[cols.hash]),
        if cols.timestamp != -1 && |row| > cols.timestamp then TrimSpace(row[cols.timestamp]) else ""))
  }

  /** The map with an entry, if there is one, stored under its hash. */
  function Store(m: map<string, CompletedContact>, entry: Option<CompletedContact>): map<string, CompletedContact> {
    if entry.Some? then m[entry.value.hash := entry.value] else m
  }

  /** The map `m` after the data rows are stored into it one after another. */
  function EntriesInto(m: map<string, CompletedContact>, rows: seq<seq<string>>, cols: Columns): map<string, CompletedContact>
    requires HasRequiredColumns(cols)
  {
    if rows == [] then m
    else Store(EntriesInto(m, rows[..|rows| - 1], cols), EntryOf(rows[|rows| - 1], cols))
  }

  /** What load makes of the map `m` and the ledger file. */
  function LoadLedger(m: map<string, CompletedContact>, file: LedgerFile): Result<map<string, CompletedContact>, LoadError> {
    match file
    case Missing => Err(NotExist)
    case Unopenable => Err(OpenFailed)
    case Undecodable => Err(ReadFailed)
    case Decoded(records) =>
      if records == [] then Ok(m)
      else
        var cols := ColumnsOf(records[0]);
        if !HasRequiredColumns(cols) then Err(MissingColumns)
        else Ok(EntriesInto(m, records[1..], cols))
  }

  /** A ledger header is rejected exactly when it lacks a name, a phone or a hash column. */
  lemma LoadRequiresColumns(m: map<string, CompletedContact>, records: seq<seq<string>>)
    ensures LoadLedger(m, Decoded(records)) == Err(MissingColumns) <==>
      records != [] &&
      ((forall j :: 0 <= j < |records[0]| ==> !IsNameHeader(records[0][j])) ||
       (forall j :: 0 <= j < |records[0]| ==> !IsPhoneHeader(records[0][j])) ||
       (forall j :: 0 <= j < |records[0]| ==> !IsHashHeader(records[0][j])))
  {
  }

  /** A row is skipped exactly when it does not reach the hash column or its hash is
      blank; a stored entry is keyed by the trimmed, non-empty hash. */
  lemma EntryOfSkips(row: seq<string>, cols: Columns)
    requires HasRequiredColumns(cols)
    ensures EntryOf(row, cols).None? <==> |row| <= cols.hash || TrimSpace(row[cols.hash]) == ""
    ensures EntryOf(row, cols).Some? ==>
      EntryOf(row, cols).value.hash == TrimSpace(row[cols.hash]) && EntryOf(row, cols).value.hash != ""
  {
  }

  /** `row` is stored under `h`. */
  predicate StoredUnder(row: seq<string>, cols: Columns, h: string)
    requires HasRequiredColumns(cols)
  {
    EntryOf(row, cols).Some? && EntryOf(row, cols).value.hash == h
  }

  /** Some row of `rows` is stored under `h`. */
  ghost predicate StoresHash(rows: seq<seq<string>>, cols: Columns, h: string)
    requires HasRequiredColumns(cols)
  {
    exists j :: 0 <= j < |rows| && StoredUnder(rows[j], cols, h)
  }

  /** A row of `rows` stored under `h` is the last row or a row of the prefix. */
  lemma StoresHashSplit(rows: seq<seq<string>>, cols: Columns, h: string)
    requires HasRequiredColumns(cols) && rows != []
    requires StoresHash(rows, cols, h)
    ensures StoresHash(rows[..|rows| - 1], cols, h) || StoredUnder(rows[|rows| - 1], cols, h)
  {
    var prefix := rows[..|rows| - 1];
    var j :| 0 <= j < |rows| && StoredUnder(rows[j], cols, h);
    if j < |rows| - 1 {
      assert prefix[j] == rows[j];
    }
  }

  /** A row of the prefix stored under `h` is a row of `rows`. */
  lemma StoresHashPrefix(rows: seq<seq<string>>, cols: Columns, h: string)
    requires HasRequiredColumns(cols) && rows != []
    requires StoresHash(rows[..|rows| - 1], cols, h)
    ensures StoresHash(rows, cols, h)
  {
    var prefix := rows[..|rows| - 1];
    var j :| 0 <= j < |prefix| && StoredUnder(prefix[j], cols, h);
    assert rows[j] == prefix[j];
  }

  /** A row stores `h` iff an earlier row does or the last one is stored under `h`. */
  lemma StoresHashStep(rows: seq<seq<string>>, cols: Columns, h: string)
    requires HasRequiredColumns(cols) && rows != []
    ensures StoresHash(rows, cols, h) <==>
      StoresHash(rows[..|rows| - 1], cols, h) || StoredUnder(rows[|rows| - 1], cols, h)
  {
    if StoresHash(rows, cols, h) {
      StoresHashSplit(rows, cols, h);
    }
    if StoresHash(rows[..|rows| - 1], cols, h) {
      StoresHashPrefix(rows, cols, h);
    }
    if StoredUnder(rows[|rows| - 1], cols, h) {
      assert StoresHash(rows, cols, h);
    }
  }

  /** The keys after loading are the keys before plus the hash of every stored row. */
  lemma {:induction false} EntriesKeys(m: map<string, CompletedContact>, rows: seq<seq<string>>, cols: Columns)
    requires HasRequiredColumns(cols)
    ensures forall h :: h in EntriesInto(m, rows, cols) <==>
      h in m || exists j :: 0 <= j < |rows| && EntryOf(rows[j], cols).Some? && EntryOf(rows[j], cols).value.hash == h
  {
    if rows != [] {
      var prefix := rows[..|rows| - 1];
      EntriesKeys(m, prefix, cols);
      forall h ensures h in EntriesInto(m, rows, cols) <==> h in m || StoresHash(rows, cols, h) {
        StoresHashStep(rows, cols, h);
        assert h in EntriesInto(m, prefix, cols) <==> h in m || StoresHash(prefix, cols, h);
      }
    }
  }

  /** Row j is stored and no later stored row has the same hash. */
  predicate LastRowWithHash(rows: seq<seq<string>>, cols: Columns, j: int)
    requires HasRequiredColumns(cols)
  {
    && 0 <= j < |rows|
    && EntryOf(rows[j], cols).Some?
    && forall l :: j < l < |rows| && EntryOf(rows[l], cols).Some? ==>
         EntryOf(rows[l], cols).value.hash != EntryOf(rows[j], cols).value.hash
  }

  /** A later row with the same hash replaces an earlier one: each stored hash holds the
      entry of its last row. */
  lemma {:induction false} EntriesLastWins(m: map<string, CompletedContact>, rows: seq<seq<string>>, cols: Columns)
    requires HasRequiredColumns(cols)
    ensures forall j :: LastRowWithHash(rows, cols, j) ==>
      EntryOf(rows[j], cols).value.hash in EntriesInto(m, rows, cols) &&
      EntriesInto(m, rows, cols)[EntryOf(rows[j], cols).value.hash] == EntryOf(rows[j], cols).value
  {
    if rows != [] {
      var prefix := rows[..|rows| - 1];
      EntriesLastWins(m, prefix, cols);
      forall j | LastRowWithHash(rows, cols, j)
        ensures EntryOf(rows[j], cols).value.hash in EntriesInto(m, rows, cols) &&
          EntriesInto(m, rows, cols)[EntryOf(rows[j], cols).value.hash] == EntryOf(rows[j], cols).value
      {
        if j < |rows| - 1 {
          assert prefix[j] == rows[j];
          assert LastRowWithHash(prefix, cols, j) by {
            forall l | j < l < |prefix| && EntryOf(prefix[l], cols).Some?
              ensures EntryOf(prefix[l], cols).value.hash != EntryOf(prefix[j], cols).value.hash
            {
              assert prefix[l] == rows[l];
            }
          }
        }
      }
    }
  }

  /** The hashes of the stored rows. */
  function LoadedHashes(rows: seq<seq<string>>, cols: Columns): set<string>
    requires HasRequiredColumns(cols)
  {
    set j | 0 <= j < |rows| && EntryOf(rows[j], cols).Some? :: EntryOf(rows[j], cols).value.hash
  }

  /** Loaded into an empty tracker, the ledger gives one entry per distinct hash. */
  lemma LoadedCount(rows: seq<seq<string>>, cols: Columns)
    requires HasRequiredColumns(cols)
    ensures EntriesInto(map[], rows, cols).Keys == LoadedHashes(rows, cols)
    ensures |EntriesInto(map[], rows, cols)| == |LoadedHashes(rows, cols)|
  {
    EntriesKeys(map[], rows, cols);
    assert EntriesInto(map[], rows, cols).Keys == LoadedHashes(rows, cols);
  }

  /** The fields of a contact followed by `order` (as written: in the order the map is
      ranged over), each as "|key:value". */
  function FieldSuffix(fields: map<string, string>, order: seq<string>): string
    requires forall k :: k in order ==> k in fields
  {
    if order == [] then ""
    else
      var key := order[|order| - 1];
      FieldSuffix(fields, order[..|order| - 1]) + "|" + key + ":" + fields[key]
  }

  /** `order` lists each key of `fields` exactly once: one order a Go range over the map may take. */
  ghost predicate EnumeratesKeys(order: seq<string>, fields: map<string, string>) {
    && (forall i, j :: 0 <= i < j < |order| ==> order[i] != order[j])
    && (forall k :: k in order <==> k in fields)
  }

  /** The hash input as completed_tracker.go:45-53 builds it: phone, name and template,
      then the fields in whichever order the range over the map visits them. */
  function HashInputAsWritten(contact: CsvParser.Contact, template: string, order: seq<string>): string
    requires EnumeratesKeys(order, contact.fields)
  {
    contact.phoneNumber + "|" + contact.name + "|" + template + FieldSuffix(contact.fields, order)
  }

  /** The same contact and template give different hash inputs for two orders of its
      fields, so the key is not the same "regardless of field order". */
  lemma HashInputDependsOnOrder()
    ensures var c := CsvParser.Contact("n", "p", map["A" := "1", "B" := "2"]);
      && EnumeratesKeys(["A", "B"], c.fields) && EnumeratesKeys(["B", "A"], c.fields)
      && HashInputAsWritten(c, "t", ["A", "B"]) != HashInputAsWritten(c, "t", ["B", "A"])
  {
    var c := CsvParser.Contact("n", "p", map["A" := "1", "B" := "2"]);
    var ab, ba: seq<string> := ["A", "B"], ["B", "A"];
    assert ab[..1] == ["A"] && ba[..1] == ["B"] && ab[..1][..0] == [] && ba[..1][..0] == [];
    assert FieldSuffix(c.fields, ["A"]) == "|A:1";
    assert FieldSuffix(c.fields, ["B"]) == "|B:2";
    assert HashInputAsWritten(c, "t", ["A", "B"]) == "p|n|t|A:1|B:2";
    assert HashInputAsWritten(c, "t", ["B", "A"]) == "p|n|t|B:2|A:1";
    assert "p|n|t|A:1|B:2"[6] != "p|n|t|B:2|A:1"[6];
  }

  /** The hash input with the fields in sorted key order, as the comment at
      completed_tracker.go:49-50 intends. */
  function HashInput(contact: CsvParser.Contact, template: string): string {
    var order := SortedElements(contact.fields.Keys);
    assert EnumeratesKeys(order, contact.fields);
    HashInputAsWritten(contact, template, order)
  }

  /** The corrected input is the as-written one for the sorted enumeration, whatever
      order that enumeration was produced in: it depends on the field map alone. */
  lemma HashInputIsSortedOrder(contact: CsvParser.Contact, template: string, order: seq<string>)
    requires EnumeratesKeys(order, contact.fields) && StrictlySorted(order)
    ensures HashInput(contact, template) == HashInputAsWritten(contact, template, order)
  {
    StrictlySortedUnique(order, SortedElements(contact.fields.Keys));
  }

  /** The header load expects and appendToFile writes. */
  function LedgerHeader(): seq<string> { ["name", "phone_number", "hash", "timestamp"] }

  /** The record appendToFile writes for an entry. */
  function LedgerRecord(cc: CompletedContact): seq<string> {
    [cc.name, cc.phoneNumber, cc.hash, cc.timestamp]
  }

  /** The records appendToFile (completed_tracker.go:163-199) writes as written:
      the header only when the file does not exist (`existing` is None). `openOk`,
      `headerOk` and `recordOk` are whether the open and the two writes succeed. */
  function AppendToFileAsWritten(existing: Option<seq<seq<string>>>, openOk: bool, headerOk: bool, recordOk: bool, cc: CompletedContact): Result<seq<seq<string>>, AppendError> {
    if !openOk then Err(AppendOpenFailed)
    else if existing.None? && !headerOk then Err(HeaderWriteFailed)
    else if !recordOk then Err(RecordWriteFailed)
    else if existing.None? then Ok([LedgerHeader(), LedgerRecord(cc)])
    else Ok([LedgerRecord(cc)])
  }

  /** appendToFile succeeds iff the open and every write it attempts succeed; the
      first failing step names the error, and a success writes the record, after the
      header for a file that did not exist. */
  lemma AppendToFileAsWrittenOutcome(existing: Option<seq<seq<string>>>, openOk: bool, headerOk: bool, recordOk: bool, cc: CompletedContact)
    ensures var r := AppendToFileAsWritten(existing, openOk, headerOk, recordOk, cc);
      && (r.Ok? <==> openOk && (existing.None? ==> headerOk) && recordOk)
      && (r == Err(AppendOpenFailed) <==> !openOk)
      && (r == Err(HeaderWriteFailed) <==> openOk && existing.None? && !headerOk)
      && (r.Ok? ==> r.value == (if existing.None? then [LedgerHeader()] else []) + [LedgerRecord(cc)])
  {
  }

  /** The records appended as intended: the header also goes into a ledger file that
      exists but holds no records, the file load itself treats as empty. */
  function AppendToFile(existing: Option<seq<seq<string>>>, openOk: bool, headerOk: bool, recordOk: bool, cc: CompletedContact): Result<seq<seq<string>>, AppendError> {
    var isNew := existing.None? || existing.value == [];
    if !openOk then Err(AppendOpenFailed)
    else if isNew && !headerOk then Err(HeaderWriteFailed)
    else if !recordOk then Err(RecordWriteFailed)
    else if isNew then Ok([LedgerHeader(), LedgerRecord(cc)])
    else Ok([LedgerRecord(cc)])
  }

  /** The corrected append differs from the written one only on an existing empty file. */
  lemma AppendToFileAgreesAsWritten(existing: Option<seq<seq<string>>>, openOk: bool, headerOk: bool, recordOk: bool, cc: CompletedContact)
    requires existing != Some([])
    ensures AppendToFile(existing, openOk, headerOk, recordOk, cc) == AppendToFileAsWritten(existing, openOk, headerOk, recordOk, cc)
  {
  }

  /** The contents of the ledger file after `written` is appended to `existing`. */
  function FileAfter(existing: Option<seq<seq<string>>>, written: seq<seq<string>>): seq<seq<string>> {
    if existing.None? then written else existing.value + written
  }

  /** A cell of plain characters, as the standard header's cells are, is its own key. */
  lemma HeaderKeyOfPlain(s: string)
    requires PlainKey(s)
    ensures HeaderKey(s) == s
  {
    LowerOfPlain(s);
    if s != [] {
      assert !IsSpace(s[0]) && !IsSpace(s[|s| - 1]);
    }
    TrimSpaceOfTrimmed(s);
  }

  /** LastIndexWhere on a four-cell header, spelled out. */
  lemma LastIndexOfFour(h: seq<string>, matches: string -> bool)
    requires |h| == 4
    ensures CsvParser.LastIndexWhere(h, matches) ==
      if matches(h[3]) then 3 else if matches(h[2]) then 2 else if matches(h[1]) then 1 else if matches(h[0]) then 0 else -1
  {
    assert h[..3][..2][..1][..0] == [];
  }

  /** The standard header's cells are their own header keys. */
  lemma LedgerHeaderKeys()
    ensures forall j :: 0 <= j < |LedgerHeader()| ==> HeaderKey(LedgerHeader()[j]) == LedgerHeader()[j]
  {
    forall j | 0 <= j < |LedgerHeader()| ensures HeaderKey(LedgerHeader()[j]) == LedgerHeader()[j] {
      HeaderKeyOfPlain(LedgerHeader()[j]);
    }
  }

  /** A four-cell header whose keys are the standard ones has its columns at 0 to 3. */
  lemma ColumnsOfStandardKeys(h: seq<string>)
    requires |h| == 4
    requires HeaderKey(h[0]) == "name" && HeaderKey(h[1]) == "phone_number"
    requires HeaderKey(h[2]) == "hash" && HeaderKey(h[3]) == "timestamp"
    ensures ColumnsOf(h) == Columns(0, 1, 2, 3)
  {
    LastIndexOfFour(h, IsNameHeader);
    LastIndexOfFour(h, IsPhoneHeader);
    LastIndexOfFour(h, IsHashHeader);
    LastIndexOfFour(h, IsTimestampHeader);
  }

  /** The standard header has the name, phone, hash and timestamp columns at 0 to 3. */
  lemma LedgerHeaderColumns()
    ensures ColumnsOf(LedgerHeader()) == Columns(0, 1, 2, 3)
  {
    LedgerHeaderKeys();
    ColumnsOfStandardKeys(LedgerHeader());
  }

  /** An entry written to an empty existing ledger file as written: the file then starts
      with a record instead of the header, and the next load rejects it. */
  lemma AppendToEmptyFileAsWritten()
    ensures var cc := CompletedContact("a", "1", "h", "t");
      && AppendToFileAsWritten(Some([]), true, true, true, cc) == Ok([LedgerRecord(cc)])
      && LoadLedger(map[], Decoded(FileAfter(Some([]), [LedgerRecord(cc)]))) == Err(MissingColumns)
  {
    var cc := CompletedContact("a", "1", "h", "t");
    HeaderKeyOfPlain("a");
    HeaderKeyOfPlain("1");
    HeaderKeyOfPlain("h");
    HeaderKeyOfPlain("t");
    assert FileAfter(Some([]), [LedgerRecord(cc)])[0] == ["a", "1", "h", "t"];
    assert forall j :: 0 <= j < 4 ==> !IsNameHeader(["a", "1", "h", "t"][j]);
  }

  /** A record of trimmed values with a non-empty hash reads back, under the standard
      columns, as the entry it was written from. */
  lemma EntryOfLedgerRecord(cc: CompletedContact)
    requires cc.hash != "" && Trimmed(cc.hash) && Trimmed(cc.name) && Trimmed(cc.phoneNumber) && Trimmed(cc.timestamp)
    ensures EntryOf(LedgerRecord(cc), Columns(0, 1, 2, 3)) == Some(cc)
  {
    TrimSpaceOfTrimmed(cc.name);
    TrimSpaceOfTrimmed(cc.phoneNumber);
    TrimSpaceOfTrimmed(cc.hash);
    TrimSpaceOfTrimmed(cc.timestamp);
  }

  /** Appending a record to records whose header has the standard columns adds its entry. */
  lemma LoadAfterRecord(m: map<string, CompletedContact>, records: seq<seq<string>>, cc: CompletedContact)
    requires records != [] && ColumnsOf(records[0]) == Columns(0, 1, 2, 3)
    requires cc.hash != "" && Trimmed(cc.hash) && Trimmed(cc.name) && Trimmed(cc.phoneNumber) && Trimmed(cc.timestamp)
    ensures LoadLedger(m, Decoded(records)).Ok?
    ensures LoadLedger(m, Decoded(records + [LedgerRecord(cc)])) == Ok(LoadLedger(m, Decoded(records)).value[cc.hash := cc])
  {
    EntryOfLedgerRecord(cc);
    var after := records + [LedgerRecord(cc)];
    assert after[0] == records[0];
    assert after[1..] == records[1..] + [LedgerRecord(cc)];
    assert after[1..][..|after[1..]| - 1] == records[1..];
  }

  /** A header with the standard columns followed by one record loads as that record's entry. */
  lemma LoadHeaderAndRecord(m: map<string, CompletedContact>, header: seq<string>, cc: CompletedContact)
    requires ColumnsOf(header) == Columns(0, 1, 2, 3)
    requires cc.hash != "" && Trimmed(cc.hash) && Trimmed(cc.name) && Trimmed(cc.phoneNumber) && Trimmed(cc.timestamp)
    ensures LoadLedger(m, Decoded([header, LedgerRecord(cc)])) == Ok(m[cc.hash := cc])
  {
    assert [header, LedgerRecord(cc)] == [header] + [LedgerRecord(cc)];
    assert [header][1..] == [];
    LoadAfterRecord(m, [header], cc);
  }

  /** A stored entry is recovered by the next load, for a ledger file that does not exist
      yet or holds no records: the file then holds the header and the entry's record, and
      loads as the entry alone added to the map. */
  lemma AppendToNewLedger(m: map<string, CompletedContact>, existing: Option<seq<seq<string>>>, cc: CompletedContact)
    requires existing.None? || existing == Some([])
    requires cc.hash != "" && Trimmed(cc.hash) && Trimmed(cc.name) && Trimmed(cc.phoneNumber) && Trimmed(cc.timestamp)
    ensures AppendToFile(existing, true, true, true, cc) == Ok([LedgerHeader(), LedgerRecord(cc)])
    ensures LoadLedger(m, Decoded(FileAfter(existing, [LedgerHeader(), LedgerRecord(cc)]))) == Ok(m[cc.hash := cc])
  {
    LedgerHeaderColumns();
    assert FileAfter(existing, [LedgerHeader(), LedgerRecord(cc)]) == [LedgerHeader(), LedgerRecord(cc)];
    LoadHeaderAndRecord(m, LedgerHeader(), cc);
  }

  /** A stored entry is recovered by the next load, for a ledger file that starts with the
      standard header: the record is appended alone and loads as the entry added to what
      the file held before. */
  lemma AppendToExistingLedger(m: map<string, CompletedContact>, records: seq<seq<string>>, cc: CompletedContact)
    requires records != [] && records[0] == LedgerHeader()
    requires cc.hash != "" && Trimmed(cc.hash) && Trimmed(cc.name) && Trimmed(cc.phoneNumber) && Trimmed(cc.timestamp)
    ensures AppendToFile(Some(records), true, true, true, cc) == Ok([LedgerRecord(cc)])
    ensures LoadLedger(m, Decoded(records)).Ok?
    ensures LoadLedger(m, Decoded(records + [LedgerRecord(cc)])) == Ok(LoadLedger(m, Decoded(records)).value[cc.hash := cc])
  {
    LedgerHeaderColumns();
    LoadAfterRecord(m, records, cc);
  }

  class CompletedTracker {
    const filePath: string
    /** The message template, part of every hash. */
    const messageTemplate: string
    /** SHA-256 of a string, hex encoded. */
    const digest: string -> string
    /** Completed entries by hash. */
    var completed: map<string, CompletedContact>

    constructor (filePath: string, messageTemplate: string, digest: string -> string)
      ensures this.filePath == filePath && this.messageTemplate == messageTemplate && this.digest == digest
      ensures completed == map[]
    {
      this.filePath := filePath;
      this.messageTemplate := messageTemplate;
      this.digest := digest;
      completed := map[];
    }

    /** generateHash: the digest of the contact's hash input. */
    function GenerateHash(contact: CsvParser.Contact): string {
      digest(HashInput(contact, messageTemplate))
    }

    function IsCompleted(contact: CsvParser.Contact): bool
      reads this
    {
      GenerateHash(contact) in completed
    }

    function GetCompletedCount(): nat
      reads this
    {
      |completed|
    }

    /** load (completed_tracker.go:59-139): store every usable ledger row into the map,
        or fail leaving the map as it was. */
    method Load(file: LedgerFile) returns (err: Option<LoadError>)
      modifies this
      ensures LoadLedger(old(completed), file).Ok? ==> err == None && completed == LoadLedger(old(completed), file).value
      ensures LoadLedger(old(completed), file).Err? ==> err == Some(LoadLedger(old(completed), file).error) && completed == old(completed)
    {
      match file {
        case Missing => return Some(NotExist);
        case Unopenable => return Some(OpenFailed);
        case Undecodable => return Some(ReadFailed);
        case Decoded(records) =>
          if |records| == 0 {
            return None;
          }
          var cols := DetectLedgerColumns(records[0]);
          if cols.name == -1 || cols.phone == -1 || cols.hash == -1 {
            return Some(MissingColumns);
          }
          StoreRows(records, cols);
          return None;
      }
    }

    /** The row loop of load, completed_tracker.go:104-134. */
    method StoreRows(records: seq<seq<string>>, cols: Columns)
      requires HasRequiredColumns(cols) && |records| >= 1
      modifies this
      ensures completed == EntriesInto(old(completed), records[1..], cols)
    {
      for i := 1 to |records|
        invariant completed == EntriesInto(old(completed), records[1..i], cols)
      {
        EntriesIntoStep(old(completed), records, cols, i);
        var entry := ReadEntry(records[i], cols);
        if entry.Some? {
          completed := completed[entry.value.hash := entry.value];
        }
      }
      assert records[1..|records|] == records[1..];
    }

    /** MarkCompleted (completed_tracker.go:147-161): store the entry under the contact's
        hash, then append its record to the ledger file. */
    method MarkCompleted(contact: CsvParser.Contact, now: string, existing: Option<seq<seq<string>>>, openOk: bool, headerOk: bool, recordOk: bool)
      returns (appended: Result<seq<seq<string>>, AppendError>)
      modifies this
      ensures completed == old(completed)[GenerateHash(contact) :=
        CompletedContact(contact.name, contact.phoneNumber, GenerateHash(contact), now)]
      ensures IsCompleted(contact)
      ensures forall h :: h in old(completed) && h != GenerateHash(contact) ==> h in completed && completed[h] == old(completed)[h]
      ensures old(GetCompletedCount()) <= GetCompletedCount() <= old(GetCompletedCount()) + 1
      ensures appended == AppendToFileAsWritten(existing, openOk, headerOk, recordOk, completed[GenerateHash(contact)])
    {
      var hash := GenerateHash(contact);
      var completedContact := CompletedContact(contact.name, contact.phoneNumber, hash, now);
      completed := completed[hash := completedContact];
      appended := AppendToFileAsWritten(existing, openOk, headerOk, recordOk, completedContact);
    }
  }

  /** The header loop of load, completed_tracker.go:86-97. */
  method DetectLedgerColumns(header: seq<string>) returns (cols: Columns)
    ensures cols == ColumnsOf(header)
  {
    var nameIdx, phoneIdx, hashIdx, timestampIdx := -1, -1, -1, -1;
    for i := 0 to |header|
      invariant nameIdx == CsvParser.LastIndexWhere(header[..i], IsNameHeader)
      invariant phoneIdx == CsvParser.LastIndexWhere(header[..i], IsPhoneHeader)
      invariant hashIdx == CsvParser.LastIndexWhere(header[..i], IsHashHeader)
      invariant timestampIdx == CsvParser.LastIndexWhere(header[..i], IsTimestampHeader)
    {
      CsvParser.LastIndexWhereStep(header, IsNameHeader, i);
      CsvParser.LastIndexWhereStep(header, IsPhoneHeader, i);
      CsvParser.LastIndexWhereStep(header, IsHashHeader, i);
      CsvParser.LastIndexWhereStep(header, IsTimestampHeader, i);
      var col := TrimSpace(ToLower(header[i]));
      if col == "name" {
        nameIdx := i;
      } else if col == "phone_number" || col == "phone" {
        phoneIdx := i;
      } else if col == "hash" {
        hashIdx := i;
      } else if col == "timestamp" || col == "date" {
        timestampIdx := i;
      }
    }
    assert header[..|header|] == header;
    cols := Columns(nameIdx, phoneIdx, hashIdx, timestampIdx);
  }

  /** The body of the row loop, completed_tracker.go:105-131: skip the row, or build its entry. */
  method ReadEntry(row: seq<string>, cols: Columns) returns (entry: Option<CompletedContact>)
    requires HasRequiredColumns(cols)
    ensures entry == EntryOf(row, cols)
  {
    if |row| == 0 || (|row| > cols.hash && TrimSpace(row[cols.hash]) == "") {
      return None;
    }
    if |row| <= cols.hash {
      return None;
    }
    var hash := TrimSpace(row[cols.hash]);
    var contact := CompletedContact("", "", hash, "");
    if |row| > cols.phone {
      contact := contact.(phoneNumber := TrimSpace(row[cols.phone]));
    }
    if |row| > cols.name {
      contact := contact.(name := TrimSpace(row[cols.name]));
    }
    if cols.timestamp != -1 && |row| > cols.timestamp {
      contact := contact.(timestamp := TrimSpace(row[cols.timestamp]));
    }
    return Some(contact);
  }

  lemma EntriesIntoStep(m: map<string, CompletedContact>, records: seq<seq<string>>, cols: Columns, i: nat)
    requires HasRequiredColumns(cols) && 1 <= i < |records|
    ensures EntriesInto(m, records[1..i + 1], cols) == Store(EntriesInto(m, records[1..i], cols), EntryOf(records[i], cols))
  {
    assert records[1..i + 1][..i - 1] == records[1..i];
  }

  /** NewCompletedTracker (completed_tracker.go:26-42): a missing ledger gives an empty
      tracker; any other load failure fails construction. */
  method NewCompletedTracker(filePath: string, messageTemplate: string, digest: string -> string, file: LedgerFile)
    returns (r: Result<CompletedTracker, LoadError>)
    ensures r.Ok? ==> fresh(r.value) && r.value.messageTemplate == messageTemplate && r.value.digest == digest
    ensures LoadLedger(map[], file) == Err(NotExist) ==> r.Ok? && r.value.completed == map[]
    ensures LoadLedger(map[], file).Ok? ==> r.Ok? && r.value.completed == LoadLedger(map[], file).value
    ensures LoadLedger(map[], file).Err? && LoadLedger(map[], file).error != NotExist ==> r == Err(LoadLedger(map[], file).error)
  {
    var tracker := new CompletedTracker(filePath, messageTemplate, digest);
    var err := tracker.Load(file);
    if err.Some? && err.value != NotExist {
      return Err(err.value);
    }
    return Ok(tracker);
  }
}
