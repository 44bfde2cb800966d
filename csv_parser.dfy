/**
 * The contact CSV of the configuration-driven pipeline (csv_parser.go):
 * what ParseCSV does with the records once encoding/csv has decoded them.
 * Decoding itself (quoting, TrimLeadingSpace, equal-length records) is not
 * modelled; the decoded records are the input.
 */
module CsvParser {
  import opened Wrappers
  import opened GoStrings

  /** A contact: the name and phone columns plus every other column by capitalised header. */
  datatype Contact = Contact(name: string, phoneNumber: string, fields: map<string, string>)

  /** The four errors ParseCSV reports once the records are decoded. Row numbers count the header as row 1. */
  datatype ParseError =
    | EmptyFile
    | MissingColumns
    | InsufficientColumns(row: nat)
    | EmptyPhone(row: nat)

  /** What one data row contributes. */
  datatype RowOutcome = Skip | Keep(contact: Contact) | Reject(error: ParseError)

  predicate IsNameColumn(col: string) {
    ToLower(TrimSpace(col)) == "name"
  }

  predicate IsPhoneColumn(col: string) {
    var lower := ToLower(TrimSpace(col));
    lower == "phone_number" || lower == "phone"
  }

  /** The last cell that `matches`, or -1: the index a Go loop ends with when it
      assigns the index of every matching cell in turn. */
  function LastIndexWhere(cells: seq<string>, matches: string -> bool): (i: int)
    ensures -1 <= i < |cells|
    ensures i >= 0 ==> matches(cells[i])
    ensures forall k :: i < k < |cells| ==> !matches(cells[k])
  {
    if cells == [] then -1
    else if matches(cells[|cells| - 1]) then |cells| - 1
    else LastIndexWhere(cells[..|cells| - 1], matches)
  }

  /** The column ParseCSV takes as the name: the last header cell that matches, or -1. */
  function NameIndex(header: seq<string>): int {
    LastIndexWhere(header, IsNameColumn)
  }

  /** The column ParseCSV takes as the phone number: the last header cell that matches, or -1. */
  function PhoneIndex(header: seq<string>): int {
    LastIndexWhere(header, IsPhoneColumn)
  }

  /** The header cells with white space trimmed. */
  function Normalize(header: seq<string>): (norm: seq<string>)
    ensures |norm| == |header|
    ensures forall k :: 0 <= k < |header| ==> norm[k] == TrimSpace(header[k])
  {
    if header == [] then [] else Normalize(header[..|header| - 1]) + [TrimSpace(header[|header| - 1])]
  }

  /** The field key of a header: its first character upper-cased. */
  function Capitalize(name: string): (key: string)
    ensures |key| == |name|
    ensures name != [] ==> key[0] == UpperChar(name[0]) && key[1..] == name[1..]
  {
    if |name| > 0 then [UpperChar(name[0])] + name[1..] else name
  }

  /** The map ParseCSV fills column by column: each column other than name and
      phone under its capitalised header, a later column overwriting an earlier one. */
  function FieldsOf(row: seq<string>, norm: seq<string>, nameIdx: int, phoneIdx: int): map<string, string>
    requires |row| <= |norm|
  {
    if row == [] then map[]
    else
      var j := |row| - 1;
      var earlier := FieldsOf(row[..j], norm, nameIdx, phoneIdx);
      if j != nameIdx && j != phoneIdx then earlier[Capitalize(norm[j]) := TrimSpace(row[j])] else earlier
  }

  /** Column j is copied into the fields. */
  predicate IsFieldColumn(j: int, n: int, nameIdx: int, phoneIdx: int) {
    0 <= j < n && j != nameIdx && j != phoneIdx
  }

  /** Column j is a field column and no later field column has the same key. */
  predicate LastFieldColumnWithKey(row: seq<string>, norm: seq<string>, nameIdx: int, phoneIdx: int, j: int)
    requires |row| <= |norm|
  {
    && IsFieldColumn(j, |row|, nameIdx, phoneIdx)
    && forall l :: j < l < |row| && IsFieldColumn(l, |row|, nameIdx, phoneIdx) ==> Capitalize(norm[l]) != Capitalize(norm[j])
  }

  /** Every column other than name and phone gives a key of the fields. */
  lemma {:induction false} FieldsOfHasEveryColumn(row: seq<string>, norm: seq<string>, nameIdx: int, phoneIdx: int)
    requires |row| <= |norm|
    ensures forall j :: IsFieldColumn(j, |row|, nameIdx, phoneIdx) ==> Capitalize(norm[j]) in FieldsOf(row, norm, nameIdx, phoneIdx)
  {
    if row != [] {
      var j := |row| - 1;
      var prefix := row[..j];
      FieldsOfHasEveryColumn(prefix, norm, nameIdx, phoneIdx);
      forall i | IsFieldColumn(i, |row|, nameIdx, phoneIdx) ensures Capitalize(norm[i]) in FieldsOf(row, norm, nameIdx, phoneIdx) {
        if i < j {
          assert IsFieldColumn(i, |prefix|, nameIdx, phoneIdx);
        }
      }
    }
  }

  /** Every key of the fields comes from a column other than name and phone. */
  lemma {:induction false} FieldsOfOnlyColumns(row: seq<string>, norm: seq<string>, nameIdx: int, phoneIdx: int)
    requires |row| <= |norm|
    ensures forall key :: key in FieldsOf(row, norm, nameIdx, phoneIdx) ==>
      exists j :: IsFieldColumn(j, |row|, nameIdx, phoneIdx) && Capitalize(norm[j]) == key
  {
    if row != [] {
      var j := |row| - 1;
      var prefix := row[..j];
      FieldsOfOnlyColumns(prefix, norm, nameIdx, phoneIdx);
      var earlier := FieldsOf(prefix, norm, nameIdx, phoneIdx);
      forall key | key in FieldsOf(row, norm, nameIdx, phoneIdx)
        ensures exists i :: IsFieldColumn(i, |row|, nameIdx, phoneIdx) && Capitalize(norm[i]) == key
      {
        if j != nameIdx && j != phoneIdx && key == Capitalize(norm[j]) {
          assert IsFieldColumn(j, |row|, nameIdx, phoneIdx);
        } else {
          assert key in earlier;
          var i :| IsFieldColumn(i, |prefix|, nameIdx, phoneIdx) && Capitalize(norm[i]) == key;
          assert IsFieldColumn(i, |row|, nameIdx, phoneIdx);
        }
      }
    }
  }

  /** Each key holds the trimmed cell of the last column with that key. */
  lemma {:induction false} FieldsOfValues(row: seq<string>, norm: seq<string>, nameIdx: int, phoneIdx: int)
    requires |row| <= |norm|
    ensures forall j :: LastFieldColumnWithKey(row, norm, nameIdx, phoneIdx, j) ==>
      Capitalize(norm[j]) in FieldsOf(row, norm, nameIdx, phoneIdx) &&
      FieldsOf(row, norm, nameIdx, phoneIdx)[Capitalize(norm[j])] == TrimSpace(row[j])
  {
    if row != [] {
      var j := |row| - 1;
      var prefix := row[..j];
      FieldsOfValues(prefix, norm, nameIdx, phoneIdx);
      var m := FieldsOf(row, norm, nameIdx, phoneIdx);
      forall i | LastFieldColumnWithKey(row, norm, nameIdx, phoneIdx, i)
        ensures Capitalize(norm[i]) in m && m[Capitalize(norm[i])] == TrimSpace(row[i])
      {
        if i < j {
          assert prefix[i] == row[i];
          assert LastFieldColumnWithKey(prefix, norm, nameIdx, phoneIdx, i) by {
            forall l | i < l < |prefix| && IsFieldColumn(l, |prefix|, nameIdx, phoneIdx)
              ensures Capitalize(norm[l]) != Capitalize(norm[i])
            {
              assert IsFieldColumn(l, |row|, nameIdx, phoneIdx);
            }
          }
          if j != nameIdx && j != phoneIdx {
            assert IsFieldColumn(j, |row|, nameIdx, phoneIdx);
          }
        }
      }
    }
  }

  /** What ParseCSV does with data row `row`, reported as row number `rowNumber`. */
  function RowOutcomeOf(row: seq<string>, norm: seq<string>, nameIdx: nat, phoneIdx: nat, rowNumber: nat): RowOutcome
    requires |row| <= |norm|
  {
    if |row| == 0 || (|row| > nameIdx && TrimSpace(row[nameIdx]) == "") then Skip
    else if |row| <= nameIdx || |row| <= phoneIdx then Reject(InsufficientColumns(rowNumber))
    else if TrimSpace(row[phoneIdx]) == "" then Reject(EmptyPhone(rowNumber))
    else Keep(Contact(TrimSpace(row[nameIdx]), TrimSpace(row[phoneIdx]), FieldsOf(row, norm, nameIdx, phoneIdx)))
  }

  /** encoding/csv's ReadAll gives every record the header's length; the model needs only that no row is longer. */
  predicate RowsFitHeader(records: seq<seq<string>>) {
    forall i :: 0 <= i < |records| ==> |records[i]| <= |records[0]|
  }

  /** The outcome of the first `k - 1` data rows (records[1..k]): the contacts kept so far, or the first error. */
  function Collect(records: seq<seq<string>>, norm: seq<string>, nameIdx: nat, phoneIdx: nat, k: nat): Result<seq<Contact>, ParseError>
    requires 1 <= k <= |records|
    requires RowsFitHeader(records) && |norm| == |records[0]|
  {
    if k == 1 then Ok([])
    else
      match Collect(records, norm, nameIdx, phoneIdx, k - 1)
      case Err(e) => Err(e)
      case Ok(contacts) =>
        match RowOutcomeOf(records[k - 1], norm, nameIdx, phoneIdx, k)
        case Skip => Ok(contacts)
        case Keep(c) => Ok(contacts + [c])
        case Reject(e) => Err(e)
  }

  /** ParseCSV from csv_parser.go:32 on, as a function of the decoded records. */
  function ParseRecords(records: seq<seq<string>>): Result<seq<Contact>, ParseError>
    requires RowsFitHeader(records)
  {
    if records == [] then Err(EmptyFile)
    else
      var header := records[0];
      var nameIdx := NameIndex(header);
      var phoneIdx := PhoneIndex(header);
      if nameIdx == -1 || phoneIdx == -1 then Err(MissingColumns)
      else Collect(records, Normalize(header), nameIdx, phoneIdx, |records|)
  }

  /** Once a row is rejected, later rows change nothing: the first error is the one reported. */
  lemma {:induction false} CollectErrorPersists(records: seq<seq<string>>, norm: seq<string>, nameIdx: nat, phoneIdx: nat, k: nat, m: nat)
    requires 1 <= k <= m <= |records|
    requires RowsFitHeader(records) && |norm| == |records[0]|
    requires Collect(records, norm, nameIdx, phoneIdx, k).Err?
    ensures Collect(records, norm, nameIdx, phoneIdx, m) == Collect(records, norm, nameIdx, phoneIdx, k)
    decreases m - k
  {
    if m > k {
      CollectErrorPersists(records, norm, nameIdx, phoneIdx, k, m - 1);
    }
  }

  lemma LastIndexWhereStep(cells: seq<string>, matches: string -> bool, i: nat)
    requires i < |cells|
    ensures LastIndexWhere(cells[..i + 1], matches) ==
      if matches(cells[i]) then i else LastIndexWhere(cells[..i], matches)
  {
    assert cells[..i + 1][..i] == cells[..i];
  }

  /** The contacts of the rows among records[1..k] that are kept, in row order, errors ignored. */
  function KeptContacts(records: seq<seq<string>>, norm: seq<string>, nameIdx: nat, phoneIdx: nat, k: nat): seq<Contact>
    requires 1 <= k <= |records|
    requires RowsFitHeader(records) && |norm| == |records[0]|
  {
    if k == 1 then []
    else
      var earlier := KeptContacts(records, norm, nameIdx, phoneIdx, k - 1);
      match RowOutcomeOf(records[k - 1], norm, nameIdx, phoneIdx, k)
      case Keep(c) => earlier + [c]
      case _ => earlier
  }

  /** No row among records[1..k] is rejected. */
  predicate NoRejectBefore(records: seq<seq<string>>, norm: seq<string>, nameIdx: nat, phoneIdx: nat, k: nat)
    requires 1 <= k <= |records|
    requires RowsFitHeader(records) && |norm| == |records[0]|
  {
    forall j :: 1 <= j < k ==> !RowOutcomeOf(records[j], norm, nameIdx, phoneIdx, j + 1).Reject?
  }

  /** The row pass succeeds iff no row is rejected, and then yields the kept contacts
      in row order; otherwise it reports the error of the first rejected row. */
  lemma {:induction false} CollectIsFirstRejectOrKept(records: seq<seq<string>>, norm: seq<string>, nameIdx: nat, phoneIdx: nat, k: nat)
    requires 1 <= k <= |records|
    requires RowsFitHeader(records) && |norm| == |records[0]|
    ensures Collect(records, norm, nameIdx, phoneIdx, k).Ok? <==> NoRejectBefore(records, norm, nameIdx, phoneIdx, k)
    ensures Collect(records, norm, nameIdx, phoneIdx, k).Ok? ==>
      Collect(records, norm, nameIdx, phoneIdx, k).value == KeptContacts(records, norm, nameIdx, phoneIdx, k)
    ensures Collect(records, norm, nameIdx, phoneIdx, k).Err? ==>
      exists j :: 1 <= j < k && NoRejectBefore(records, norm, nameIdx, phoneIdx, j) &&
        RowOutcomeOf(records[j], norm, nameIdx, phoneIdx, j + 1) == Reject(Collect(records, norm, nameIdx, phoneIdx, k).error)
  {
    if k > 1 {
      CollectIsFirstRejectOrKept(records, norm, nameIdx, phoneIdx, k - 1);
      var outcome := RowOutcomeOf(records[k - 1], norm, nameIdx, phoneIdx, k);
      if Collect(records, norm, nameIdx, phoneIdx, k - 1).Ok? {
        if outcome.Reject? {
          assert !NoRejectBefore(records, norm, nameIdx, phoneIdx, k);
          assert NoRejectBefore(records, norm, nameIdx, phoneIdx, k - 1);
        }
      } else {
        assert !NoRejectBefore(records, norm, nameIdx, phoneIdx, k);
      }
    }
  }

  /** What one row contributes: a rejection reports the given row number, and a kept
      contact has a non-empty, trimmed name and phone and the fields of its row. */
  lemma RowOutcomeProperties(row: seq<string>, norm: seq<string>, nameIdx: nat, phoneIdx: nat, rowNumber: nat)
    requires |row| <= |norm|
    ensures var outcome := RowOutcomeOf(row, norm, nameIdx, phoneIdx, rowNumber);
      && (outcome.Skip? <==> |row| == 0 || (nameIdx < |row| && TrimSpace(row[nameIdx]) == ""))
      && (outcome.Reject? ==> outcome.error.row == rowNumber)
      && (outcome == Reject(InsufficientColumns(rowNumber)) <==>
            !outcome.Skip? && (|row| <= nameIdx || |row| <= phoneIdx))
      && (outcome.Keep? ==>
            && nameIdx < |row| && phoneIdx < |row|
            && outcome.contact.name == TrimSpace(row[nameIdx]) && outcome.contact.name != ""
            && Trimmed(outcome.contact.name)
            && outcome.contact.phoneNumber == TrimSpace(row[phoneIdx]) && outcome.contact.phoneNumber != ""
            && Trimmed(outcome.contact.phoneNumber)
            && outcome.contact.fields == FieldsOf(row, norm, nameIdx, phoneIdx))
  {
    if nameIdx < |row| {
      TrimSpaceSlice(row[nameIdx]);
    }
    if phoneIdx < |row| {
      TrimSpaceSlice(row[phoneIdx]);
    }
  }

  /** Every contact the row pass keeps has a non-empty trimmed name and phone number. */
  lemma {:induction false} KeptContactsWellFormed(records: seq<seq<string>>, norm: seq<string>, nameIdx: nat, phoneIdx: nat, k: nat)
    requires 1 <= k <= |records|
    requires RowsFitHeader(records) && |norm| == |records[0]|
    ensures forall c :: c in KeptContacts(records, norm, nameIdx, phoneIdx, k) ==>
      c.name != "" && Trimmed(c.name) && c.phoneNumber != "" && Trimmed(c.phoneNumber)
  {
    if k > 1 {
      KeptContactsWellFormed(records, norm, nameIdx, phoneIdx, k - 1);
      RowOutcomeProperties(records[k - 1], norm, nameIdx, phoneIdx, k);
    }
  }

  /** The empty-file error is reported exactly for zero records. */
  lemma ParseRecordsEmptyFile(records: seq<seq<string>>)
    requires RowsFitHeader(records)
    ensures ParseRecords(records) == Err(EmptyFile) <==> records == []
  {
    if records != [] && NameIndex(records[0]) != -1 && PhoneIndex(records[0]) != -1 {
      CollectIsFirstRejectOrKept(records, Normalize(records[0]), NameIndex(records[0]), PhoneIndex(records[0]), |records|);
    }
  }

  /** The missing-columns error is reported exactly when the header has no name column
      or no phone column, cells compared trimmed and lower-cased. */
  lemma ParseRecordsMissingColumns(records: seq<seq<string>>)
    requires RowsFitHeader(records)
    ensures ParseRecords(records) == Err(MissingColumns) <==>
      records != [] &&
      ((forall j :: 0 <= j < |records[0]| ==> !IsNameColumn(records[0][j])) ||
       (forall j :: 0 <= j < |records[0]| ==> !IsPhoneColumn(records[0][j])))
  {
    if records != [] && NameIndex(records[0]) != -1 && PhoneIndex(records[0]) != -1 {
      CollectIsFirstRejectOrKept(records, Normalize(records[0]), NameIndex(records[0]), PhoneIndex(records[0]), |records|);
    }
  }

  /** A parse that gets past the header succeeds iff no data row is rejected, and then
      returns the kept rows' contacts in input order, each with a non-empty trimmed name
      and phone number. */
  lemma ParseRecordsContacts(records: seq<seq<string>>)
    requires RowsFitHeader(records)
    requires records != [] && NameIndex(records[0]) != -1 && PhoneIndex(records[0]) != -1
    ensures var norm, n, p := Normalize(records[0]), NameIndex(records[0]), PhoneIndex(records[0]);
      && (ParseRecords(records).Ok? <==> NoRejectBefore(records, norm, n, p, |records|))
      && (ParseRecords(records).Ok? ==> ParseRecords(records).value == KeptContacts(records, norm, n, p, |records|))
    ensures ParseRecords(records).Ok? ==> forall c :: c in ParseRecords(records).value ==>
      c.name != "" && Trimmed(c.name) && c.phoneNumber != "" && Trimmed(c.phoneNumber)
  {
    var norm, n, p := Normalize(records[0]), NameIndex(records[0]), PhoneIndex(records[0]);
    CollectIsFirstRejectOrKept(records, norm, n, p, |records|);
    KeptContactsWellFormed(records, norm, n, p, |records|);
  }

  /** A row error comes from the first rejected data row and names it by its position
      counting the header as row 1. */
  lemma ParseRecordsRowError(records: seq<seq<string>>)
    requires RowsFitHeader(records)
    requires records != [] && NameIndex(records[0]) != -1 && PhoneIndex(records[0]) != -1
    requires ParseRecords(records).Err?
    ensures var norm, n, p := Normalize(records[0]), NameIndex(records[0]), PhoneIndex(records[0]);
      exists i :: 1 <= i < |records| && NoRejectBefore(records, norm, n, p, i) &&
        RowOutcomeOf(records[i], norm, n, p, i + 1) == Reject(ParseRecords(records).error) &&
        ParseRecords(records).error.row == i + 1
  {
    var norm, n, p := Normalize(records[0]), NameIndex(records[0]), PhoneIndex(records[0]);
    var e := ParseRecords(records).error;
    assert ParseRecords(records) == Collect(records, norm, n, p, |records|);
    CollectIsFirstRejectOrKept(records, norm, n, p, |records|);
    var i :| 1 <= i < |records| && NoRejectBefore(records, norm, n, p, i) &&
      RowOutcomeOf(records[i], norm, n, p, i + 1) == Reject(e);
    RowOutcomeProperties(records[i], norm, n, p, i + 1);
  }

  /** ParseCSV (csv_parser.go:32-98): header detection into an array of trimmed
      headers, then one pass over the data rows that skips, rejects or keeps each. */
  method ParseCSV(records: seq<seq<string>>) returns (r: Result<seq<Contact>, ParseError>)
    requires RowsFitHeader(records)
    ensures r == ParseRecords(records)
  {
    if |records| == 0 {
      return Err(EmptyFile);
    }
    var header := records[0];
    var normalizedHeaders, nameIdx, phoneIdx := DetectColumns(header);
    if nameIdx == -1 || phoneIdx == -1 {
      return Err(MissingColumns);
    }
    r := ParseRows(records, normalizedHeaders, nameIdx, phoneIdx);
  }

  /** The row loop, csv_parser.go:57-98. */
  method ParseRows(records: seq<seq<string>>, normalizedHeaders: array<string>, nameIdx: nat, phoneIdx: nat)
    returns (r: Result<seq<Contact>, ParseError>)
    requires |records| >= 1 && RowsFitHeader(records) && normalizedHeaders.Length == |records[0]|
    ensures r == Collect(records, normalizedHeaders[..], nameIdx, phoneIdx, |records|)
  {
    ghost var norm := normalizedHeaders[..];
    var contacts: seq<Contact> := [];
    var i := 1;
    while i < |records|
      invariant 1 <= i <= |records|
      invariant Collect(records, norm, nameIdx, phoneIdx, i) == Ok(contacts)
    {
      var outcome := ClassifyRow(records[i], normalizedHeaders, nameIdx, phoneIdx, i + 1);
      CollectStep(records, norm, nameIdx, phoneIdx, i);
      match outcome {
        case Skip =>
        case Reject(e) =>
          CollectErrorPersists(records, norm, nameIdx, phoneIdx, i + 1, |records|);
          return Err(e);
        case Keep(c) =>
          contacts := contacts + [c];
      }
      i := i + 1;
    }
    return Ok(contacts);
  }

  /** The header loop, csv_parser.go:37-51: trim every header cell into a fresh
      array and remember the last name column and the last phone column. */
  method DetectColumns(header: seq<string>) returns (normalizedHeaders: array<string>, nameIdx: int, phoneIdx: int)
    ensures fresh(normalizedHeaders)
    ensures normalizedHeaders[..] == Normalize(header)
    ensures nameIdx == NameIndex(header) && phoneIdx == PhoneIndex(header)
  {
    nameIdx := -1;
    phoneIdx := -1;
    normalizedHeaders := new string[|header|];
    for i := 0 to |header|
      invariant forall k :: 0 <= k < i ==> normalizedHeaders[k] == TrimSpace(header[k])
      invariant nameIdx == LastIndexWhere(header[..i], IsNameColumn)
      invariant phoneIdx == LastIndexWhere(header[..i], IsPhoneColumn)
    {
      LastIndexWhereStep(header, IsNameColumn, i);
      LastIndexWhereStep(header, IsPhoneColumn, i);
      normalizedHeaders[i] := TrimSpace(header[i]);
      var colLower := ToLower(normalizedHeaders[i]);
      if colLower == "name" {
        nameIdx := i;
      } else if colLower == "phone_number" || colLower == "phone" {
        phoneIdx := i;
      }
    }
    assert header[..|header|] == header;
  }

  lemma CollectStep(records: seq<seq<string>>, norm: seq<string>, nameIdx: nat, phoneIdx: nat, k: nat)
    requires 1 <= k < |records|
    requires RowsFitHeader(records) && |norm| == |records[0]|
    requires Collect(records, norm, nameIdx, phoneIdx, k).Ok?
    ensures Collect(records, norm, nameIdx, phoneIdx, k + 1) ==
      match RowOutcomeOf(records[k], norm, nameIdx, phoneIdx, k + 1)
      case Skip => Collect(records, norm, nameIdx, phoneIdx, k)
      case Keep(c) => Ok(Collect(records, norm, nameIdx, phoneIdx, k).value + [c])
      case Reject(e) => Err(e)
  {
  }

  /** The body of the row loop, csv_parser.go:60-95: skip, reject or keep one row. */
  method ClassifyRow(row: seq<string>, normalizedHeaders: array<string>, nameIdx: nat, phoneIdx: nat, rowNumber: nat) returns (outcome: RowOutcome)
    requires |row| <= normalizedHeaders.Length
    ensures outcome == RowOutcomeOf(row, normalizedHeaders[..], nameIdx, phoneIdx, rowNumber)
  {
    if |row| == 0 || (|row| > nameIdx && TrimSpace(row[nameIdx]) == "") {
      return Skip;
    }
    if |row| <= nameIdx || |row| <= phoneIdx {
      return Reject(InsufficientColumns(rowNumber));
    }
    var name := TrimSpace(row[nameIdx]);
    var phone := TrimSpace(row[phoneIdx]);
    if phone == "" {
      return Reject(EmptyPhone(rowNumber));
    }
    var fields := FillFields(row, normalizedHeaders, nameIdx, phoneIdx);
    return Keep(Contact(name, phone, fields));
  }

  /** One column more: FieldsOf on a prefix of the row extended by column j. */
  lemma FieldsOfStep(row: seq<string>, norm: seq<string>, nameIdx: int, phoneIdx: int, j: nat)
    requires j < |row| <= |norm|
    ensures FieldsOf(row[..j + 1], norm, nameIdx, phoneIdx) ==
      if j != nameIdx && j != phoneIdx
      then FieldsOf(row[..j], norm, nameIdx, phoneIdx)[Capitalize(norm[j]) := TrimSpace(row[j])]
      else FieldsOf(row[..j], norm, nameIdx, phoneIdx)
  {
    assert row[..j + 1][..j] == row[..j];
  }

  /** The inner loop of csv_parser.go:83-93. */
  method FillFields(row: seq<string>, normalizedHeaders: array<string>, nameIdx: int, phoneIdx: int) returns (fields: map<string, string>)
    requires |row| <= normalizedHeaders.Length
    ensures fields == FieldsOf(row, normalizedHeaders[..], nameIdx, phoneIdx)
  {
    ghost var norm := normalizedHeaders[..];
    fields := map[];
    for j := 0 to |row|
      invariant fields == FieldsOf(row[..j], norm, nameIdx, phoneIdx)
    {
      FieldsOfStep(row, norm, nameIdx, phoneIdx, j);
      if j != nameIdx && j != phoneIdx {
        var fieldName := normalizedHeaders[j];
        if |fieldName| > 0 {
          fieldName := [UpperChar(fieldName[0])] + fieldName[1..];
        }
        assert fieldName == Capitalize(norm[j]);
        fields := fields[fieldName := TrimSpace(row[j])];
      }
    }
    assert row[..|row|] == row;
  }
}
