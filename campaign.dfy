/**
 * The number-keyed pipeline of main.go: reading the contacts file
 * (readContacts), reading and appending the ledger of completed numbers
 * (readCompleted, appendCompleted), the delay between messages
 * (randomDelay) and the send loop that skips blank and completed numbers.
 * Files are given as what the CSV decoder delivers; the browser, the
 * template engine, file creation and the random source are oracles.
 */
module Campaign {
  import opened Wrappers
  import opened GoStrings

  /** A contact: its cells by header, and the header order. */
  datatype ContactRecord = ContactRecord(data: map<string, string>, order: seq<string>)

  /** A CSV file as the decoder delivers it: the records read, then either end of
      file or a read error. */
  datatype CsvStream = CsvStream(records: seq<seq<string>>, endsInError: bool)

  /** A path as os.Open and os.Stat see it. */
  datatype FileState = Absent | Inaccessible | Readable(stream: CsvStream)

  datatype ReadError = OpenFailed | HeaderUnreadable | RowUnreadable

  datatype AppendError = AccessFailed | CreateOrOpenFailed | HeaderReadFailed | WriteFailed

  /** A Go map read: the zero value "" for a missing key. */
  function Lookup(m: map<string, string>, key: string): string {
    if key in m then m[key] else ""
  }

  // ---------------------------------------------------------------------------
  // readContacts, main.go:110-145

  /** The cell under header i, or "" when the row is too short. */
  function Cell(row: seq<string>, i: nat): string {
    if i < |row| then row[i] else ""
  }

  /** The data map of one row: every header set to its cell, later headers
      overwriting earlier ones with the same name. */
  function RowData(headers: seq<string>, row: seq<string>): map<string, string> {
    if headers == [] then map[]
    else RowData(headers[..|headers| - 1], row)[headers[|headers| - 1] := Cell(row, |headers| - 1)]
  }

  function ContactOf(headers: seq<string>, row: seq<string>): ContactRecord {
    ContactRecord(RowData(headers, row), headers)
  }

  /** What readContacts returns for a file. */
  function ContactsOf(file: FileState): Result<seq<ContactRecord>, ReadError> {
    if !file.Readable? then Err(OpenFailed)
    else if file.stream.records == [] then Err(HeaderUnreadable)
    else if file.stream.endsInError then Err(RowUnreadable)
    else
      var headers := file.stream.records[0];
      var rows := file.stream.records[1..];
      Ok(seq(|rows|, i requires 0 <= i < |rows| => ContactOf(headers, rows[i])))
  }

  /** The keys are exactly the headers; a header's value is the cell of its last
      column, "" past the end of the row. */
  lemma RowDataProperties(headers: seq<string>, row: seq<string>)
    ensures RowData(headers, row).Keys == set h | h in headers
    ensures forall i :: 0 <= i < |headers| && (forall j :: i < j < |headers| ==> headers[j] != headers[i]) ==>
      RowData(headers, row)[headers[i]] == Cell(row, i)
  {
    RowDataKeys(headers, row);
    forall i | 0 <= i < |headers| && (forall j :: i < j < |headers| ==> headers[j] != headers[i])
      ensures RowData(headers, row)[headers[i]] == Cell(row, i)
    {
      RowDataLast(headers, row, i);
    }
  }

  lemma {:induction false} RowDataKeys(headers: seq<string>, row: seq<string>)
    ensures RowData(headers, row).Keys == set h | h in headers
  {
    if headers != [] {
      var n := |headers| - 1;
      var init := headers[..n];
      RowDataKeys(init, row);
      assert (set h | h in headers) == (set h | h in init) + {headers[n]} by {
        assert headers == init + [headers[n]];
      }
    }
  }

  /** A header with no later duplicate holds its own cell. */
  lemma {:induction false} RowDataLast(headers: seq<string>, row: seq<string>, i: nat)
    requires i < |headers|
    requires forall j :: i < j < |headers| ==> headers[j] != headers[i]
    ensures headers[i] in RowData(headers, row) && RowData(headers, row)[headers[i]] == Cell(row, i)
  {
    var n := |headers| - 1;
    var init := headers[..n];
    assert RowData(headers, row) == RowData(init, row)[headers[n] := Cell(row, n)];
    if i < n {
      assert init[i] == headers[i];
      assert headers[n] != headers[i];
      RowDataLast(init, row, i);
    }
  }

  /** Cells past the last header are ignored. */
  lemma {:induction false} RowDataIgnoresExtraCells(headers: seq<string>, row: seq<string>)
    requires |headers| <= |row|
    ensures RowData(headers, row) == RowData(headers, row[..|headers|])
  {
    if headers != [] {
      var n := |headers| - 1;
      RowDataPrefixOfRow(headers[..n], row, |headers|);
    }
  }

  lemma {:induction false} RowDataPrefixOfRow(headers: seq<string>, row: seq<string>, m: nat)
    requires |headers| <= m <= |row|
    ensures RowData(headers, row) == RowData(headers, row[..m])
  {
    if headers != [] {
      RowDataPrefixOfRow(headers[..|headers| - 1], row, m);
    }
  }

  /** The outcome of readContacts: an unopenable file or a missing header is an
      error, so is a row the decoder rejects; otherwise one contact per data row,
      each with exactly the header keys and a copy of the headers as its order. */
  lemma ContactsOfProperties(file: FileState)
    ensures ContactsOf(file) == Err(OpenFailed) <==> !file.Readable?
    ensures ContactsOf(file) == Err(HeaderUnreadable) <==> file.Readable? && file.stream.records == []
    ensures ContactsOf(file) == Err(RowUnreadable) <==>
      file.Readable? && file.stream.records != [] && file.stream.endsInError
    ensures ContactsOf(file).Ok? ==>
      var headers := file.stream.records[0];
      && |ContactsOf(file).value| == |file.stream.records| - 1
      && forall i :: 0 <= i < |ContactsOf(file).value| ==>
        ContactsOf(file).value[i].order == headers && ContactsOf(file).value[i].data.Keys == set h | h in headers
  {
    if ContactsOf(file).Ok? {
      var headers := file.stream.records[0];
      RowDataProperties(headers, []);
      forall i | 0 <= i < |ContactsOf(file).value|
        ensures ContactsOf(file).value[i].data.Keys == set h | h in headers
      {
        RowDataProperties(headers, file.stream.records[1..][i]);
      }
    }
  }

  /** The inner loop of readContacts, main.go:134-140. */
  method FillRow(headers: seq<string>, row: seq<string>) returns (data: map<string, string>)
    ensures data == RowData(headers, row)
  {
    data := map[];
    for i := 0 to |headers|
      invariant data == RowData(headers[..i], row)
    {
      assert headers[..i + 1][..i] == headers[..i];
      if i < |row| {
        data := data[headers[i] := row[i]];
      } else {
        data := data[headers[i] := ""];
      }
    }
    assert headers[..|headers|] == headers;
  }

  method ReadContacts(file: FileState) returns (r: Result<seq<ContactRecord>, ReadError>)
    ensures r == ContactsOf(file)
  {
    if !file.Readable? {
      return Err(OpenFailed);
    }
    var records := file.stream.records;
    if records == [] {
      return Err(HeaderUnreadable);
    }
    var headers := records[0];
    var contacts: seq<ContactRecord> := [];
    var k := 1;
    while k < |records|
      invariant 1 <= k <= |records|
      invariant |contacts| == k - 1
      invariant forall i :: 0 <= i < k - 1 ==> contacts[i] == ContactOf(headers, records[i + 1])
    {
      var data := FillRow(headers, records[k]);
      contacts := contacts + [ContactRecord(data, headers)];
      k := k + 1;
    }
    if file.stream.endsInError {
      return Err(RowUnreadable);
    }
    ghost var rows := records[1..];
    assert contacts == seq(|rows|, i requires 0 <= i < |rows| => ContactOf(headers, rows[i]));
    return Ok(contacts);
  }

  // ---------------------------------------------------------------------------
  // readCompleted, main.go:147-192

  /** strings.EqualFold(h, "number"), with case folding restricted to ASCII. */
  predicate IsNumberHeader(h: string) {
    ToLower(h) == "number"
  }

  /** The first "number" column, as the header loop with `break` finds it. */
  function NumberColumn(headers: seq<string>): (r: Option<nat>)
    ensures r.Some? ==> r.value < |headers| && IsNumberHeader(headers[r.value])
    ensures r.Some? ==> forall j :: 0 <= j < r.value ==> !IsNumberHeader(headers[j])
    ensures r.None? <==> forall j :: 0 <= j < |headers| ==> !IsNumberHeader(headers[j])
  {
    if headers == [] then None
    else if IsNumberHeader(headers[0]) then Some(0)
    else match NumberColumn(headers[1..])
      case None => None
      case Some(k) => Some(k + 1)
  }

  /** The trimmed cells of column `index` of the rows long enough to have it. */
  function CompletedNumbers(rows: seq<seq<string>>, index: nat): set<string> {
    if rows == [] then {}
    else
      var last := rows[|rows| - 1];
      CompletedNumbers(rows[..|rows| - 1], index) + (if index < |last| then {TrimSpace(last[index])} else {})
  }

  lemma {:induction false} CompletedNumbersMembers(rows: seq<seq<string>>, index: nat)
    ensures forall x :: x in CompletedNumbers(rows, index) <==>
      exists i :: 0 <= i < |rows| && index < |rows[i]| && TrimSpace(rows[i][index]) == x
  {
    if rows != [] {
      var init := rows[..|rows| - 1];
      CompletedNumbersMembers(init, index);
      forall x | x in CompletedNumbers(rows, index)
        ensures exists i :: 0 <= i < |rows| && index < |rows[i]| && TrimSpace(rows[i][index]) == x
      {
        if x in CompletedNumbers(init, index) {
          var i :| 0 <= i < |init| && index < |init[i]| && TrimSpace(init[i][index]) == x;
          assert rows[i] == init[i];
        }
      }
      forall x | exists i :: 0 <= i < |rows| && index < |rows[i]| && TrimSpace(rows[i][index]) == x
        ensures x in CompletedNumbers(rows, index)
      {
        var i :| 0 <= i < |rows| && index < |rows[i]| && TrimSpace(rows[i][index]) == x;
        if i < |init| {
          assert init[i] == rows[i];
        }
      }
    }
  }

  /** What readCompleted returns for a file. */
  function CompletedOf(file: FileState): Result<set<string>, ReadError> {
    match file
    case Absent => Ok({})
    case Inaccessible => Err(OpenFailed)
    case Readable(s) =>
      if s.records == [] then (if s.endsInError then Err(HeaderUnreadable) else Ok({}))
      else match NumberColumn(s.records[0])
        case None => Ok({})
        case Some(k) => if s.endsInError then Err(RowUnreadable) else Ok(CompletedNumbers(s.records[1..], k))
  }

  /** A missing file, an empty file and a header without a "number" column all give
      the empty set; otherwise the set holds the trimmed cells of the first such
      column, from every row long enough to have one. */
  lemma CompletedOfProperties(file: FileState)
    ensures file.Absent? ==> CompletedOf(file) == Ok({})
    ensures file == Readable(CsvStream([], false)) ==> CompletedOf(file) == Ok({})
    ensures file.Readable? && file.stream.records != [] && NumberColumn(file.stream.records[0]).None? ==>
      CompletedOf(file) == Ok({})
    ensures file.Readable? && file.stream.records != [] && NumberColumn(file.stream.records[0]).Some? && !file.stream.endsInError ==>
      var k := NumberColumn(file.stream.records[0]).value;
      var rows := file.stream.records[1..];
      CompletedOf(file).Ok? && forall x :: x in CompletedOf(file).value <==>
        exists i :: 0 <= i < |rows| && k < |rows[i]| && TrimSpace(rows[i][k]) == x
  {
    if file.Readable? && file.stream.records != [] && NumberColumn(file.stream.records[0]).Some? {
      CompletedNumbersMembers(file.stream.records[1..], NumberColumn(file.stream.records[0]).value);
    }
  }

  method ReadCompleted(file: FileState) returns (r: Result<set<string>, ReadError>)
    ensures r == CompletedOf(file)
  {
    if file.Absent? {
      return Ok({});
    }
    if file.Inaccessible? {
      return Err(OpenFailed);
    }
    var records := file.stream.records;
    if records == [] {
      if file.stream.endsInError {
        return Err(HeaderUnreadable);
      }
      return Ok({});
    }
    var headers := records[0];
    var index := FindNumberColumn(headers);
    if index.None? {
      return Ok({});
    }
    var completed: set<string> := {};
    var k := 1;
    while k < |records|
      invariant 1 <= k <= |records|
      invariant completed == CompletedNumbers(records[1..k], index.value)
    {
      assert records[1..k + 1][..k - 1] == records[1..k];
      if index.value < |records[k]| {
        completed := completed + {TrimSpace(records[k][index.value])};
      }
      k := k + 1;
    }
    assert k == |records|;
    assert records[1..k] == records[1..];
    if file.stream.endsInError {
      return Err(RowUnreadable);
    }
    return Ok(completed);
  }

  /** The header loop of readCompleted, main.go:164-170. */
  method FindNumberColumn(headers: seq<string>) returns (index: Option<nat>)
    ensures index == NumberColumn(headers)
  {
    index := None;
    var i := 0;
    while i < |headers|
      invariant 0 <= i <= |headers|
      invariant forall j :: 0 <= j < i ==> !IsNumberHeader(headers[j])
    {
      if ToLower(headers[i]) == "number" {
        index := Some(i);
        NumberColumnIsFirst(headers, i);
        return;
      }
      i := i + 1;
    }
  }

  /** The first number column is determined by the columns up to it. */
  lemma NumberColumnIsFirst(headers: seq<string>, i: nat)
    requires i < |headers| && IsNumberHeader(headers[i])
    requires forall j :: 0 <= j < i ==> !IsNumberHeader(headers[j])
    ensures NumberColumn(headers) == Some(i)
  {
  }

  // ---------------------------------------------------------------------------
  // appendCompleted, main.go:194-253

  /** The header of a new ledger: the contact's order, or its keys sorted when the
      order is empty. */
  function NewLedgerHeader(c: ContactRecord): seq<string> {
    if c.order != [] then c.order else SortedElements(c.data.Keys)
  }

  /** The record written under a header: each header's value, "" when missing. */
  function RecordFor(headers: seq<string>, data: map<string, string>): seq<string> {
    seq(|headers|, i requires 0 <= i < |headers| => Lookup(data, headers[i]))
  }

  /** A new ledger's header holds every key of the contact when the order is
      empty, in strictly increasing order. */
  lemma NewLedgerHeaderProperties(c: ContactRecord)
    ensures c.order == [] ==> StrictlySorted(NewLedgerHeader(c)) && (set h | h in NewLedgerHeader(c)) == c.data.Keys
    ensures c.order != [] ==> NewLedgerHeader(c) == c.order
  {
  }

  /** Reading a record back under the header it was written with gives the
      contact's values for those headers; for a contact read under the same
      header, it gives the contact back. */
  lemma RecordRoundTrip(headers: seq<string>, row: seq<string>)
    ensures ContactOf(headers, RecordFor(headers, RowData(headers, row))) == ContactOf(headers, row)
  {
    var data := RowData(headers, row);
    var record := RecordFor(headers, data);
    RowDataProperties(headers, row);
    RowDataProperties(headers, record);
    forall x | x in data
      ensures RowData(headers, record)[x] == data[x]
    {
      var i := LastIndexOf(headers, x);
      assert record[i] == Lookup(data, headers[i]);
    }
  }

  /** The last position of a header. */
  function LastIndexOf(headers: seq<string>, x: string): (i: nat)
    requires x in headers
    ensures i < |headers| && headers[i] == x && forall j :: i < j < |headers| ==> headers[j] != x
  {
    if headers[|headers| - 1] == x then |headers| - 1 else LastIndexOf(headers[..|headers| - 1], x)
  }

  /** appendCompleted as written: the rows it writes, or the error. An existing file
      whose header cannot be read, an empty one included, is an error. */
  function AppendAsWritten(file: FileState, c: ContactRecord, openOk: bool, writeOk: bool): Result<seq<seq<string>>, AppendError> {
    match file
    case Absent =>
      var headers := NewLedgerHeader(c);
      if !openOk then Err(CreateOrOpenFailed)
      else if !writeOk then Err(WriteFailed)
      else Ok([headers, RecordFor(headers, c.data)])
    case Inaccessible => Err(AccessFailed)
    case Readable(s) =>
      if s.records == [] then Err(HeaderReadFailed)
      else if !openOk then Err(CreateOrOpenFailed)
      else if !writeOk then Err(WriteFailed)
      else Ok([RecordFor(s.records[0], c.data)])
  }

  /** An empty ledger file: readCompleted reads it as "nothing completed", but
      appendCompleted can never add to it, so every number sent stays unrecorded
      and is messaged again on the next run. */
  lemma EmptyLedgerNeverRecords(c: ContactRecord, openOk: bool, writeOk: bool)
    ensures CompletedOf(Readable(CsvStream([], false))) == Ok({})
    ensures AppendAsWritten(Readable(CsvStream([], false)), c, openOk, writeOk) == Err(HeaderReadFailed)
  {
  }

  /** appendCompleted with an empty existing ledger treated as a new one. */
  function Append(file: FileState, c: ContactRecord, openOk: bool, writeOk: bool): Result<seq<seq<string>>, AppendError> {
    if file == Readable(CsvStream([], false)) then AppendAsWritten(Absent, c, openOk, writeOk)
    else AppendAsWritten(file, c, openOk, writeOk)
  }

  /** The corrected append differs from the written one only on an empty ledger. */
  lemma AppendAgreesAsWritten(file: FileState, c: ContactRecord, openOk: bool, writeOk: bool)
    requires file != Readable(CsvStream([], false))
    ensures Append(file, c, openOk, writeOk) == AppendAsWritten(file, c, openOk, writeOk)
  {
  }

  /** The file after the rows are appended. */
  function LedgerAfter(file: FileState, written: seq<seq<string>>): FileState {
    match file
    case Readable(s) => Readable(CsvStream(s.records + written, s.endsInError))
    case _ => Readable(CsvStream(written, false))
  }

  /** The header the record is written under. */
  function HeaderFor(file: FileState, c: ContactRecord): seq<string> {
    if file.Readable? && file.stream.records != [] then file.stream.records[0] else NewLedgerHeader(c)
  }

  /** The number a record adds to the set readCompleted builds. */
  function RecordedNumber(headers: seq<string>, data: map<string, string>): set<string> {
    match NumberColumn(headers)
    case None => {}
    case Some(k) => {TrimSpace(Lookup(data, headers[k]))}
  }

  /** A successful append adds exactly the record's number to what the next
      readCompleted returns, for a new, an empty or a readable ledger. */
  lemma AppendThenReadCompleted(file: FileState, c: ContactRecord, openOk: bool, writeOk: bool)
    requires Append(file, c, openOk, writeOk).Ok?
    requires file.Readable? ==> !file.stream.endsInError
    ensures CompletedOf(file).Ok?
    ensures CompletedOf(LedgerAfter(file, Append(file, c, openOk, writeOk).value)) ==
      Ok(CompletedOf(file).value + RecordedNumber(HeaderFor(file, c), c.data))
  {
    var headers := HeaderFor(file, c);
    var record := RecordFor(headers, c.data);
    if file.Readable? && file.stream.records != [] {
      ReadAfterRecord(file.stream.records, record);
    } else {
      assert CompletedOf(file) == Ok({});
      assert LedgerAfter(file, Append(file, c, openOk, writeOk).value) == Readable(CsvStream([headers] + [record], false));
      ReadAfterRecord([headers], record);
      assert [headers][1..] == [];
    }
  }

  /** The trimmed cell of the record in the header's first number column. */
  function NumberCell(headers: seq<string>, record: seq<string>): set<string>
    requires |record| == |headers|
  {
    match NumberColumn(headers)
    case None => {}
    case Some(k) => {TrimSpace(record[k])}
  }

  /** One more record under the header adds its cell in the number column. */
  lemma ReadAfterRecord(recs: seq<seq<string>>, record: seq<string>)
    requires recs != [] && |record| == |recs[0]|
    ensures CompletedOf(Readable(CsvStream(recs + [record], false))) ==
      Ok(CompletedOf(Readable(CsvStream(recs, false))).value + NumberCell(recs[0], record))
  {
    assert (recs + [record])[0] == recs[0];
    var rows := (recs + [record])[1..];
    assert rows == recs[1..] + [record];
    assert rows[..|rows| - 1] == recs[1..] && rows[|rows| - 1] == record;
    match NumberColumn(recs[0])
    case None =>
      assert CompletedOf(Readable(CsvStream(recs, false))).value + NumberCell(recs[0], record) == {};
    case Some(k) =>
      assert CompletedNumbers(rows, k) == CompletedNumbers(recs[1..], k) + {TrimSpace(record[k])};
  }

  /** When the first number column is the "number" key itself, the number the send
      loop checks is in the set read at the next start. */
  lemma AppendRecordsLoopNumber(file: FileState, c: ContactRecord, openOk: bool, writeOk: bool)
    requires Append(file, c, openOk, writeOk).Ok?
    requires file.Readable? ==> !file.stream.endsInError
    requires NumberColumn(HeaderFor(file, c)).Some?
    requires HeaderFor(file, c)[NumberColumn(HeaderFor(file, c)).value] == "number"
    ensures Number(c) in CompletedOf(LedgerAfter(file, Append(file, c, openOk, writeOk).value)).value
  {
    AppendThenReadCompleted(file, c, openOk, writeOk);
  }

  /** The record loop of appendCompleted, main.go:213-216 and 244-247. */
  method BuildRecord(headers: seq<string>, data: map<string, string>) returns (record: seq<string>)
    ensures record == RecordFor(headers, data)
  {
    var cells := new string[|headers|];
    for i := 0 to |headers|
      invariant forall j :: 0 <= j < i ==> cells[j] == Lookup(data, headers[j])
    {
      cells[i] := if headers[i] in data then data[headers[i]] else "";
    }
    record := cells[..];
  }

  /** appendCompleted, main.go:194-253, as written: an existing file whose
      header cannot be read, an empty one included, is an error. */
  method AppendCompleted(file: FileState, c: ContactRecord, openOk: bool, writeOk: bool)
    returns (r: Result<seq<seq<string>>, AppendError>)
    ensures r == AppendAsWritten(file, c, openOk, writeOk)
  {
    if file.Absent? {
      if !openOk {
        return Err(CreateOrOpenFailed);
      }
      var headers := c.order;
      if |headers| == 0 {
        headers := SortedElements(c.data.Keys);
      }
      var record := BuildRecord(headers, c.data);
      if !writeOk {
        return Err(WriteFailed);
      }
      return Ok([headers, record]);
    }
    if file.Inaccessible? {
      return Err(AccessFailed);
    }
    if file.stream.records == [] {
      return Err(HeaderReadFailed);
    }
    var headers := file.stream.records[0];
    if !openOk {
      return Err(CreateOrOpenFailed);
    }
    var record := BuildRecord(headers, c.data);
    if !writeOk {
      return Err(WriteFailed);
    }
    return Ok([record]);
  }

  // ---------------------------------------------------------------------------
  // randomDelay and the delay flags, main.go:40-42 and 396-402

  /** `draw` is rand.Int63n(max - min + 1), which lies in [0, max - min]. */
  function RandomDelay(min: int, max: int, draw: int): (d: int)
    requires max > min ==> 0 <= draw <= max - min
    ensures max <= min ==> d == min
    ensures max > min ==> min <= d <= max && d - min == draw
  {
    if max <= min then min else min + draw
  }

  /** The start-up check: max-delay must not be below min-delay. */
  predicate DelaysAccepted(min: int, max: int) {
    !(max < min)
  }

  /** With accepted flags every delay lies in [min, max], and every value there is
      the delay of exactly one draw. */
  lemma RandomDelayRange(min: int, max: int, draw: int, d: int)
    requires DelaysAccepted(min, max)
    requires max > min ==> 0 <= draw <= max - min
    ensures min <= RandomDelay(min, max, draw) <= max
    ensures max > min && min <= d <= max ==> RandomDelay(min, max, d - min) == d
    ensures max > min && RandomDelay(min, max, draw) == d ==> draw == d - min
  {
  }

  // ---------------------------------------------------------------------------
  // The send loop, main.go:70-107

  datatype SendResult = Delivered | InvalidNumber | SendFailed

  /** What happened to one contact. */
  datatype Outcome = NoNumber | AlreadyCompleted | RenderFailed | Invalid | Failed | Unrecorded | Sent

  /** The effects outside the loop, per contact index: rendering the template,
      sending, appending to the ledger, and the random draw for the delay. */
  datatype Environment = Environment(renderOk: nat -> bool, send: nat -> SendResult, appendOk: nat -> bool, draw: nat -> int)

  /** The loop's key: the trimmed value under the exact key "number". */
  function Number(c: ContactRecord): string {
    TrimSpace(Lookup(c.data, "number"))
  }

  function OutcomeOf(c: ContactRecord, idx: nat, completed: set<string>, env: Environment): Outcome {
    var number := Number(c);
    if number == "" then NoNumber
    else if number in completed then AlreadyCompleted
    else if !env.renderOk(idx) then RenderFailed
    else if env.send(idx) == InvalidNumber then Invalid
    else if env.send(idx) == SendFailed then Failed
    else if !env.appendOk(idx) then Unrecorded
    else Sent
  }

  /** A delivered message is followed by a delay, recorded or not. */
  predicate Delivers(o: Outcome) {
    o == Sent || o == Unrecorded
  }

  datatype Progress = Progress(completed: set<string>, outcomes: seq<Outcome>, delays: seq<int>)

  ghost predicate DrawsInRange(env: Environment, min: int, max: int) {
    forall i: nat :: max > min ==> 0 <= env.draw(i) <= max - min
  }

  /** The state after the loop has handled `contacts`. */
  function Run(contacts: seq<ContactRecord>, completed0: set<string>, env: Environment, min: int, max: int): (p: Progress)
    requires DrawsInRange(env, min, max)
    ensures |p.outcomes| == |contacts|
  {
    if contacts == [] then Progress(completed0, [], [])
    else
      var idx := |contacts| - 1;
      var p := Run(contacts[..idx], completed0, env, min, max);
      var o := OutcomeOf(contacts[idx], idx, p.completed, env);
      Progress(
        if o == Sent then p.completed + {Number(contacts[idx])} else p.completed,
        p.outcomes + [o],
        if Delivers(o) then p.delays + [RandomDelay(min, max, env.draw(idx))] else p.delays)
  }

  method RunCampaign(contacts: seq<ContactRecord>, completed0: set<string>, env: Environment, min: int, max: int)
    returns (completed: set<string>, outcomes: seq<Outcome>, delays: seq<int>)
    requires DrawsInRange(env, min, max)
    ensures Progress(completed, outcomes, delays) == Run(contacts, completed0, env, min, max)
  {
    completed, outcomes, delays := completed0, [], [];
    for idx := 0 to |contacts|
      invariant Progress(completed, outcomes, delays) == Run(contacts[..idx], completed0, env, min, max)
    {
      assert contacts[..idx + 1][..idx] == contacts[..idx];
      var c := contacts[idx];
      var number := TrimSpace(if "number" in c.data then c.data["number"] else "");
      if number == "" {
        outcomes := outcomes + [NoNumber];
        continue;
      }
      if number in completed {
        outcomes := outcomes + [AlreadyCompleted];
        continue;
      }
      if !env.renderOk(idx) {
        outcomes := outcomes + [RenderFailed];
        continue;
      }
      var result := env.send(idx);
      if result == InvalidNumber {
        outcomes := outcomes + [Invalid];
        continue;
      }
      if result == SendFailed {
        outcomes := outcomes + [Failed];
        continue;
      }
      if env.appendOk(idx) {
        completed := completed + {number};
        outcomes := outcomes + [Sent];
      } else {
        outcomes := outcomes + [Unrecorded];
      }
      var delay := RandomDelay(min, max, env.draw(idx));
      delays := delays + [delay];
    }
    assert contacts[..|contacts|] == contacts;
  }

  /** Some contact before position k was sent and recorded under `x`. */
  ghost predicate SentBefore(contacts: seq<ContactRecord>, outcomes: seq<Outcome>, k: nat, x: string)
    requires k <= |contacts| && k <= |outcomes|
  {
    exists i :: 0 <= i < k && outcomes[i] == Sent && Number(contacts[i]) == x
  }

  /** The outcomes of a prefix are a prefix of the outcomes. */
  lemma {:induction false} RunPrefix(contacts: seq<ContactRecord>, completed0: set<string>, env: Environment, min: int, max: int, k: nat)
    requires DrawsInRange(env, min, max)
    requires k <= |contacts|
    ensures Run(contacts[..k], completed0, env, min, max).outcomes == Run(contacts, completed0, env, min, max).outcomes[..k]
    decreases |contacts| - k
  {
    if k < |contacts| {
      var n := |contacts| - 1;
      assert contacts[..n][..k] == contacts[..k];
      RunPrefix(contacts[..n], completed0, env, min, max, k);
    } else {
      assert contacts[..k] == contacts;
    }
  }

  /** The completed set grows only by the numbers of contacts that were sent and
      recorded. */
  lemma {:induction false} RunCompleted(contacts: seq<ContactRecord>, completed0: set<string>, env: Environment, min: int, max: int)
    requires DrawsInRange(env, min, max)
    ensures forall x :: x in Run(contacts, completed0, env, min, max).completed <==>
      x in completed0 || SentBefore(contacts, Run(contacts, completed0, env, min, max).outcomes, |contacts|, x)
  {
    if contacts != [] {
      var n := |contacts| - 1;
      var init := contacts[..n];
      RunCompleted(init, completed0, env, min, max);
      var p := Run(init, completed0, env, min, max);
      var q := Run(contacts, completed0, env, min, max);
      assert q.outcomes[..n] == p.outcomes;
      forall x
        ensures x in q.completed <==> x in completed0 || SentBefore(contacts, q.outcomes, |contacts|, x)
      {
        if SentBefore(init, p.outcomes, n, x) {
          var i :| 0 <= i < n && p.outcomes[i] == Sent && Number(init[i]) == x;
          assert q.outcomes[i] == Sent && Number(contacts[i]) == x;
        }
        if SentBefore(contacts, q.outcomes, |contacts|, x) {
          var i :| 0 <= i < |contacts| && q.outcomes[i] == Sent && Number(contacts[i]) == x;
          if i < n {
            assert p.outcomes[i] == Sent && Number(init[i]) == x;
          }
        }
      }
    }
  }

  /** The outcome at position i is decided by the set completed before it. */
  lemma RunOutcomeAt(contacts: seq<ContactRecord>, completed0: set<string>, env: Environment, min: int, max: int, i: nat)
    requires DrawsInRange(env, min, max)
    requires i < |contacts|
    ensures Run(contacts, completed0, env, min, max).outcomes[i] ==
      OutcomeOf(contacts[i], i, Run(contacts[..i], completed0, env, min, max).completed, env)
  {
    RunPrefix(contacts, completed0, env, min, max, i + 1);
    assert contacts[..i + 1][..i] == contacts[..i];
  }

  /** A contact is skipped for a blank number, or for a number already in the
      ledger or sent earlier in the run; otherwise it is attempted. So no number is
      sent and recorded twice. */
  lemma RunSkipsCompleted(contacts: seq<ContactRecord>, completed0: set<string>, env: Environment, min: int, max: int, i: nat)
    requires DrawsInRange(env, min, max)
    requires i < |contacts|
    ensures var outcomes := Run(contacts, completed0, env, min, max).outcomes;
      && (outcomes[i] == NoNumber <==> Number(contacts[i]) == "")
      && (outcomes[i] == AlreadyCompleted <==>
          Number(contacts[i]) != "" && (Number(contacts[i]) in completed0 || SentBefore(contacts, outcomes, i, Number(contacts[i]))))
  {
    var outcomes := Run(contacts, completed0, env, min, max).outcomes;
    RunOutcomeAt(contacts, completed0, env, min, max, i);
    RunCompleted(contacts[..i], completed0, env, min, max);
    RunPrefix(contacts, completed0, env, min, max, i);
    SentBeforePrefix(contacts, outcomes, i, Number(contacts[i]));
  }

  lemma SentBeforePrefix(contacts: seq<ContactRecord>, outcomes: seq<Outcome>, i: nat, x: string)
    requires i <= |contacts| && i <= |outcomes|
    ensures SentBefore(contacts[..i], outcomes[..i], i, x) <==> SentBefore(contacts, outcomes, i, x)
  {
    if SentBefore(contacts[..i], outcomes[..i], i, x) {
      var j :| 0 <= j < i && outcomes[..i][j] == Sent && Number(contacts[..i][j]) == x;
      assert outcomes[j] == Sent && Number(contacts[j]) == x;
    }
    if SentBefore(contacts, outcomes, i, x) {
      var j :| 0 <= j < i && outcomes[j] == Sent && Number(contacts[j]) == x;
      assert outcomes[..i][j] == Sent && Number(contacts[..i][j]) == x;
    }
  }

  /** Two contacts with the same number are never both sent and recorded. */
  lemma RunSendsOnce(contacts: seq<ContactRecord>, completed0: set<string>, env: Environment, min: int, max: int, i: nat, j: nat)
    requires DrawsInRange(env, min, max)
    requires i < j < |contacts| && Number(contacts[i]) == Number(contacts[j])
    requires Run(contacts, completed0, env, min, max).outcomes[i] == Sent
    ensures Run(contacts, completed0, env, min, max).outcomes[j] == AlreadyCompleted
  {
    var outcomes := Run(contacts, completed0, env, min, max).outcomes;
    RunSkipsCompleted(contacts, completed0, env, min, max, i);
    RunSkipsCompleted(contacts, completed0, env, min, max, j);
    assert SentBefore(contacts, outcomes, j, Number(contacts[j]));
  }

  /** One delay per delivered message, each within the accepted range. */
  lemma {:induction false} RunDelays(contacts: seq<ContactRecord>, completed0: set<string>, env: Environment, min: int, max: int)
    requires DrawsInRange(env, min, max) && DelaysAccepted(min, max)
    ensures forall k :: 0 <= k < |Run(contacts, completed0, env, min, max).delays| ==>
      min <= Run(contacts, completed0, env, min, max).delays[k] <= max
  {
    if contacts != [] {
      var n := |contacts| - 1;
      RunDelays(contacts[..n], completed0, env, min, max);
      RandomDelayRange(min, max, env.draw(n), min);
      var p := Run(contacts[..n], completed0, env, min, max);
      var q := Run(contacts, completed0, env, min, max);
      assert q.delays == p.delays || q.delays == p.delays + [RandomDelay(min, max, env.draw(n))];
      forall k | 0 <= k < |q.delays|
        ensures min <= q.delays[k] <= max
      {
        if k < |p.delays| {
          assert q.delays[k] == p.delays[k];
          assert min <= p.delays[k] <= max;
        } else {
          assert q.delays[k] == RandomDelay(min, max, env.draw(n));
        }
      }
    }
  }
}
