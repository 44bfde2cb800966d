# WhatsApp bulk sender: the deterministic core, in Dafny

The repository sends templated WhatsApp messages to a list of contacts. A
headless Chrome drives WhatsApp Web through chromedp. Around the browser
code sits a layer of small, deterministic logic. This project models that
layer and proves what it promises. The browser itself is an oracle: every
send, click or key event is a success or failure parameter.

The repository holds two pipelines in one Go package. This model keeps them
apart in the same way.

- **The configuration-driven pipeline** has five parts, one module each:
  - `CsvParser`: contacts come from `ParseCSV`.
  - `Ledger`: the hash-keyed `CompletedTracker` decides who is already done.
  - `MessageText` and `ClientPolicy`: the client cleans numbers, normalises
    and types the message, builds the HTML and JavaScript fallbacks, picks
    a MIME type, retries with backoff and paces sends.
  - `Logging`: the logger filters by level.
  - `Configuration` and `Templates`: configuration defaulting and the data
    map given to the template.
- **The flag-driven pipeline** (main.go) is module `Campaign`:
  - `readContacts` maps rows onto the header;
  - `readCompleted` and `appendCompleted` keep a number-keyed ledger;
  - the main loop skips, sends, records and waits a random delay.

Two further modules hold shared pieces:
- `GoStrings` models the parts of Go's `strings` and `sort` packages that
  the code relies on: TrimSpace, ASCII case mapping, ReplaceAll, Split and
  byte-wise string order.
- `Wrappers` holds `Option` and `Result`.

Each part of the code that changes state step by step is an imperative
method, proved equal to a specification function:
- the loops of `ParseCSV`, `load`, `readContacts`, `readCompleted`,
  `appendCompleted`, the main loop, the typing loop, the HTML loop, the
  retry loop and the selector searches;
- the in-place updates of the tracker's map, the logger's variables, the
  configuration struct and the template data map.

The properties are lemmas about those functions. Some lemmas relate two
operations: loading what was appended, parsing the HTML that was built,
decoding an escaped string. The field-by-field contract of
`Configuration.WithDefaults` sits on the function itself.

## Model

| member | source | states |
|---|---|---|
| CsvParser.LastIndexWhere | csv_parser.go:43-51 | The column index the header loop ends with is -1 or a matching cell, and no later cell matches: the last match wins. |
| CsvParser.Normalize | csv_parser.go:42-44 | The normalised header has one entry per header cell, each the cell with white space trimmed. |
| CsvParser.Capitalize | csv_parser.go:86-90 | A field key has its header's length, its first character upper-cased and the rest unchanged. For an ASCII first character this is Go's first-byte upper-casing. |
| CsvParser.FieldsOfHasEveryColumn | csv_parser.go:83-93 | Every column other than the name and phone columns gives a key of Fields. |
| CsvParser.FieldsOfOnlyColumns | csv_parser.go:83-93 | Every key of Fields is the capitalised header of a column other than name and phone. |
| CsvParser.FieldsOfValues | csv_parser.go:83-93 | Each key holds the trimmed cell of the last column with that key. |
| CsvParser.CollectErrorPersists | csv_parser.go:59-96 | Once a row is rejected, later rows do not change the result: the first error is the one returned. |
| CsvParser.CollectIsFirstRejectOrKept | csv_parser.go:57-98 | The row loop succeeds iff no row is rejected, and then returns the kept rows' contacts in row order; otherwise it returns the error of the first rejected row. |
| CsvParser.RowOutcomeProperties | csv_parser.go:60-95 | A row is skipped iff it is empty or its name cell is blank. A rejection names the row. It is "insufficient columns" iff an unskipped row does not reach the name or phone column. A kept contact has the trimmed, non-empty name and phone and the row's fields. |
| CsvParser.KeptContactsWellFormed | csv_parser.go:71-80 | Every kept contact has a non-empty trimmed name and phone number. |
| CsvParser.ParseRecordsEmptyFile | csv_parser.go:32-34 | The empty-file error is returned exactly when there are no records. |
| CsvParser.ParseRecordsMissingColumns | csv_parser.go:42-55 | The missing-columns error is returned exactly when no header cell is "name", or none is "phone_number" or "phone", after trimming and lower-casing. |
| CsvParser.ParseRecordsContacts | csv_parser.go:57-98 | Past the header, the parse succeeds iff no row is rejected. It then returns the kept contacts in input order, each with a non-empty trimmed name and phone. |
| CsvParser.ParseRecordsRowError | csv_parser.go:67-80 | A row error comes from the first rejected data row and reports its number, counting the header as row 1. |
| CsvParser.ParseCSV | csv_parser.go:32-98 | The method returns exactly ParseRecords of the decoded records. |
| CsvParser.ParseRows | csv_parser.go:57-98 | The row loop returns the contacts or the first error, as Collect defines them. |
| CsvParser.DetectColumns | csv_parser.go:37-51 | The header loop fills a fresh array with the trimmed header and ends with the last name and phone columns. |
| CsvParser.ClassifyRow | csv_parser.go:60-95 | The loop body skips, rejects or keeps the row exactly as RowOutcomeOf says. |
| CsvParser.FillFields | csv_parser.go:83-93 | The inner loop builds exactly FieldsOf of the row. |
| Ledger.LoadRequiresColumns | completed_tracker.go:86-101 | A decoded ledger is rejected for missing columns exactly when its header lacks a name, a phone or a hash column. Cells are matched lower-cased and trimmed; the timestamp column is optional. |
| Ledger.EntryOfSkips | completed_tracker.go:105-131 | A row is skipped iff it does not reach the hash column or its trimmed hash is blank. A kept row's entry is keyed by its trimmed, non-empty hash. |
| Ledger.EntriesKeys | completed_tracker.go:104-134 | After loading, the keys are the previous keys plus the hash of every stored row. |
| Ledger.EntriesLastWins | completed_tracker.go:116-133 | Each stored hash holds the entry of the last row with that hash. |
| Ledger.LoadedCount | completed_tracker.go:202-204 | Loaded into an empty tracker, the count (Ledger.CompletedTracker.GetCompletedCount, the map's size) is the number of distinct hashes among the stored rows. |
| Ledger.HashInputDependsOnOrder | completed_tracker.go:45-53 | As written, one contact and template give two different hash inputs for two iteration orders of its fields. |
| Ledger.HashInputIsSortedOrder | completed_tracker.go:49-53 | The corrected hash input is the as-written input for the sorted key order, so it depends on the field map alone. |
| Ledger.HeaderKeyOfPlain | completed_tracker.go:87 | A cell of lower-case letters, digits and '_' is its own header key. |
| Ledger.LedgerHeaderKeys | completed_tracker.go:182 | The header appendToFile writes is unchanged by load's lower-casing and trimming. |
| Ledger.ColumnsOfStandardKeys | completed_tracker.go:86-97 | A four-cell header whose keys are name, phone_number, hash and timestamp has those columns at 0 to 3. |
| Ledger.LedgerHeaderColumns | completed_tracker.go:86-97 | The written header gives the name, phone, hash and timestamp columns 0 to 3 under load's detection. |
| Ledger.AppendToEmptyFileAsWritten | completed_tracker.go:163-199 | As written, an entry appended to an existing empty ledger file is written without the header, and the next load rejects the file for missing columns. |
| Ledger.EntryOfLedgerRecord | completed_tracker.go:105-131 | A written record of trimmed values with a non-empty hash reads back as the same entry. |
| Ledger.LoadAfterRecord | completed_tracker.go:104-134 | Appending one record to a ledger with the standard columns adds exactly that record's entry to what load returns. |
| Ledger.LoadHeaderAndRecord | completed_tracker.go:86-134 | A standard header followed by one record loads as that record's entry. |
| Ledger.AppendToNewLedger | completed_tracker.go:163-199 | The corrected append writes the header and the record into a missing or empty ledger file, and the next load recovers the entry. |
| Ledger.AppendToExistingLedger | completed_tracker.go:163-199 | Appending to a ledger that starts with the standard header writes only the record, and the next load adds exactly that entry. |
| Ledger.CompletedTracker.constructor | completed_tracker.go:27-31 | A new tracker keeps its path, template and digest and starts with an empty map. |
| Ledger.CompletedTracker.Load | completed_tracker.go:59-139 | On success the map becomes LoadLedger of the old map and the file. On failure the error is returned and the map is unchanged. |
| Ledger.CompletedTracker.StoreRows | completed_tracker.go:104-134 | The row loop stores the rows into the map exactly as EntriesInto defines. |
| Ledger.AppendToFileAsWrittenOutcome | completed_tracker.go:163-199 | The append succeeds iff the open, the header write (attempted only for a file that did not exist) and the record write succeed. The first failing step names the error. A success writes the record, after the header only for a new file. |
| Ledger.AppendToFileAgreesAsWritten | completed_tracker.go:163-199 | The corrected AppendToFile and the written AppendToFileAsWritten agree on every ledger but an existing empty file. |
| Ledger.CompletedTracker.MarkCompleted | completed_tracker.go:147-161 | The entry at the contact's hash is set before the append, so IsCompleted holds whether the append succeeds or not. Every other entry is unchanged. The count (GetCompletedCount) grows by at most one. The append result is AppendToFileAsWritten of the new entry, given the outcomes of the open, the header write and the record write: the code as written, which puts no header into an existing empty file. IsCompleted (the hash is a key of the map) holds under the sorted-order hash of GenerateHash (the digest of HashInput). |
| Ledger.DetectLedgerColumns | completed_tracker.go:86-97 | The header loop returns ColumnsOf the header. |
| Ledger.ReadEntry | completed_tracker.go:105-131 | The loop body returns EntryOf the row. |
| Ledger.NewCompletedTracker | completed_tracker.go:26-42 | A missing ledger gives an empty tracker. A loadable one gives its entries. Any other load error is returned. |
| MessageText.CleanPhoneIsFilter | whatsapp_client.go:205 | Cleaning a number removes every '+' and ' ' and keeps the other characters in order. |
| MessageText.CleanPhoneIdempotent | whatsapp_client.go:205 | A cleaned number has no '+' or ' ', and cleaning it again changes nothing. |
| MessageText.NormalizeIsOnePass | whatsapp_client.go:361-362 | The two ReplaceAll calls equal one pass that turns "\r\n" and a lone '\r' each into one '\n'. |
| MessageText.NormalizeNewlinesProperties | whatsapp_client.go:361-362 | The normalised message has no '\r'. Text without '\r' is unchanged, and normalising twice equals normalising once. |
| MessageText.PlanCounts | whatsapp_client.go:369-396 | For k lines the typing plan holds k-1 Shift+Enter events and types exactly the non-empty lines, in order. |
| MessageText.TypeMessage | whatsapp_client.go:347-398 | The typing loop runs a prefix of the plan and stops at the first failed event. Every event before the last succeeded. If all succeed the whole plan runs. The loop ends without error iff the last event succeeded, or, when none ran, iff clearing the input did. |
| MessageText.PlanPrefix | whatsapp_client.go:371-396 | The plan of the first i lines is a prefix of the whole plan. |
| MessageText.EscapeHtmlIsPerChar | whatsapp_client.go:427-429 | The three ReplaceAll calls escape character by character: '&' first, so nothing is escaped twice. |
| MessageText.EscapeHtmlProperties | whatsapp_client.go:427-429 | An escaped line has no raw '<' or '>', and unescaping it returns the line. |
| MessageText.BuildHtml | whatsapp_client.go:420-432 | The loop builds exactly HtmlOf the lines: "<br>" for an empty line and "<div>escaped</div>" otherwise. |
| MessageText.ParseHtmlOf | whatsapp_client.go:420-432 | Reading the fragments back from the built HTML returns exactly the lines: one fragment per line, in order. |
| MessageText.EscapeJSIsPerChar | whatsapp_client.go:977-983 | The seven ReplaceAll calls escape character by character, the backslash first. |
| MessageText.EscapeJSStringProperties | whatsapp_client.go:974-985 | The escaped string starts and ends with '"' and has no raw newline, carriage return or tab. Decoding the backslash escapes between the quotes returns the input. |
| ClientPolicy.TickIntervalProperties | whatsapp_client.go:30-33 | A rate limiter exists iff limiting is enabled and 0 < rate <= 10^9 per second. Its interval is the truncated quotient of one second by the rate. |
| ClientPolicy.Waits | whatsapp_client.go:175-189 | The retry loop sleeps once before each attempt after the first. |
| ClientPolicy.WaitsBounds | whatsapp_client.go:175-188 | The first wait is the initial delay, uncapped; every later wait is at most the maximum delay. |
| ClientPolicy.WaitsNondecreasing | whatsapp_client.go:182-188 | With a multiplier that does not shrink non-negative delays and a non-negative initial delay within the cap, the waits never decrease and never exceed the cap. |
| ClientPolicy.SendWithRetry | whatsapp_client.go:174-200 | The loop makes at most MaxRetries+1 attempts and stops at the first success. It succeeds iff the last attempt did. All earlier attempts failed, and a failure uses the whole budget. The sleeps are the backoff schedule. |
| ClientPolicy.ExtIndex | whatsapp_client.go:660 | The backward scan for the extension's dot returns a position before where it started. |
| ClientPolicy.ExtIndexProperties | whatsapp_client.go:660 | The scan finds no dot iff a '/' or the start comes first. Otherwise it finds the last dot before the scan's start, with no '/' or dot between them. |
| ClientPolicy.ExtProperties | whatsapp_client.go:660 | filepath.Ext, with '/' as the separator, is empty iff no dot follows the last '/'. Otherwise it is the path's suffix from its last dot. |
| ClientPolicy.ExtOfDotSuffix | whatsapp_client.go:660 | The extension of a stem followed by a dot suffix is that suffix. |
| ClientPolicy.MimeTypeOfExtension | whatsapp_client.go:659-670 | The MIME type follows the lower-cased extension and is always one of image/jpeg, image/png, image/gif, image/webp. |
| ClientPolicy.MimeTypeWithoutExtension | whatsapp_client.go:659 | A path without an extension is sent as image/png. |
| ClientPolicy.IsXPath | whatsapp_client.go:784 | A selector is XPath iff it starts with "//" or "(". |
| ClientPolicy.FindSelector | whatsapp_client.go:780-800 | The search returns the first selector that becomes visible, and none iff no selector does. |
| Campaign.RowDataProperties | main.go:134-141 | A contact's keys are exactly the headers. A header's value is the cell of its last column, or "" past the end of the row. |
| Campaign.RowDataIgnoresExtraCells | main.go:135-141 | Cells past the last header are ignored. |
| Campaign.ContactsOfProperties | main.go:110-145 | readContacts fails iff the file cannot be opened, the header cannot be read or a row cannot be decoded. Otherwise it returns one contact per data row with the header keys and a copy of the headers as Order. |
| Campaign.FillRow | main.go:134-141 | The inner loop builds exactly RowData of the headers and the row. |
| Campaign.ReadContacts | main.go:110-145 | The method returns exactly ContactsOf the file. |
| Campaign.NumberColumn | main.go:168-174 | The number column is the first header equal to "number" ignoring case, and none iff no header is. |
| Campaign.CompletedNumbersMembers | main.go:179-190 | The completed set is exactly the trimmed "number" cells of the rows long enough to have one. |
| Campaign.CompletedOfProperties | main.go:147-192 | The set is empty for a missing file, an empty file or a header without a "number" column. Otherwise it is built from the first such column. |
| Campaign.ReadCompleted | main.go:147-192 | The method returns exactly CompletedOf the file. |
| Campaign.FindNumberColumn | main.go:168-174 | The search loop returns NumberColumn of the headers. |
| Campaign.NumberColumnIsFirst | main.go:168-174 | The first header equal to "number", ignoring case, is the column chosen. |
| Campaign.NewLedgerHeaderProperties | main.go:205-211 | A new ledger's header is the contact's Order or, when that is empty, its keys strictly sorted. |
| Campaign.RecordRoundTrip | main.go:216-219 | A record built from a row's data and read back under the same headers gives the same contact. |
| Campaign.EmptyLedgerNeverRecords | main.go:227-234 | As written, an existing empty ledger reads as "nothing completed" while every append to it fails at readHeader. |
| Campaign.AppendThenReadCompleted | main.go:194-253 | With an empty ledger treated as new, a successful append adds exactly the record's number to the next read. This holds for a new, an empty or a readable ledger whose header cells do not start with white space. |
| Campaign.AppendRecordsLoopNumber | main.go:97-100 | When the ledger's number column is exactly "number", a successful append puts the loop's key into the next read (for a header whose cells do not start with white space). |
| Campaign.BuildRecord | main.go:216-219 | The record has one cell per header: the contact's value or "". |
| Campaign.AppendCompleted | main.go:194-253 | The method returns exactly AppendAsWritten, the code as written: what is written, or the error, including the header-read error on an existing empty ledger. |
| Campaign.AppendAgreesAsWritten | main.go:194-253 | The corrected Append and the written AppendAsWritten agree on every file but an existing empty ledger. |
| Campaign.RandomDelay | main.go:396-402 | When max <= min the delay is min. Otherwise it is min plus the draw, within [min, max]. |
| Campaign.RandomDelayRange | main.go:396-402 | For accepted bounds (min <= max) every delay is within [min, max]. Each value in the range comes from exactly one draw. |
| Campaign.RunCampaign | main.go:70-107 | The loop's completed set, outcomes and delays are exactly those of Run. |
| Campaign.RunCompleted | main.go:77-100 | After the loop, a number is in the set iff it was there at the start or was sent and recorded during the run. |
| Campaign.RunSkipsCompleted | main.go:70-80 | A contact is skipped without sending iff its trimmed number is blank, or that number was completed before or sent and recorded earlier in the run. |
| Campaign.RunSendsOnce | main.go:77-100 | Once a number is sent and recorded, every later contact with that number is skipped as already completed. |
| Campaign.RunDelays | main.go:104-106 | Every delay the loop waits is within [min, max]. |
| Logging.Logger.constructor | logger.go:11-17 | The package variables start as zero values, with no logger set. |
| Logging.Logger.InitLogger | logger.go:19-45 | The configured level is lower-cased. Init fails iff an output file is named and cannot be opened, and then leaves the loggers as they were. Otherwise all three write to the file, or to stdout, stdout and stderr. |
| Logging.Logger.EmissionsFilter | logger.go:53-90 | A message is written iff its level is known and not below the configured priority. It then reaches the console once (stderr for errors) and its level's logger once when that is set. |
| Logging.Logger.ErrorsAlwaysLogged | logger.go:57-69 | An error message is never suppressed. |
| Logging.Logger.EmissionsCaseInsensitive | logger.go:54 | A message level and its lower-case form give the same output. |
| Logging.Logger.ConsoleOnlyAfterInit | logger.go:74-90 | Without an output file, every message that passes is written twice, to stderr for an error and stdout otherwise. |
| Configuration.WithDefaults | config.go:62-88 | Each default fills exactly an empty or zero setting: "./chrome-data", the detected Chrome, 60, 30, "completed.csv". Set values are kept. Defaulting fails iff the directory cannot be made absolute. Retry, rate limiting, logging and the other paths are untouched. |
| Configuration.WithDefaultsIdempotent | config.go:63-87 | With filepath.Abs stable on absolute paths, defaulting twice equals defaulting once. |
| Configuration.ApplyDefaults | config.go:62-88 | The field-by-field updates give exactly WithDefaults. |
| Templates.StandardData | template.go:34-36 | The standard entries are Name and PhoneNumber, holding the contact's values. |
| Templates.TemplateData | template.go:34-41 | The keys are exactly Name, PhoneNumber and the field keys. Every field keeps its value, so a field named Name or PhoneNumber overrides the standard entry, which otherwise holds. |
| Templates.RenderData | template.go:34-41 | The loop copying the fields, in any key order, builds exactly TemplateData. |
| GoStrings.TrimSpaceIdempotent | csv_parser.go:44 | Trimming twice equals trimming once. |
| GoStrings.ToLowerIdempotent | logger.go:20 | Lower-casing keeps the length, and lower-casing twice equals lower-casing once. |
| GoStrings.SplitProperties | whatsapp_client.go:369 | Splitting on '\n' gives one more part than there are newlines. No part holds one, and joining the parts gives the input back. |
| GoStrings.SortedElements | main.go:207-210 | The sorted headers are strictly increasing and hold exactly the keys. |

## Left out

- The chromedp browser work is not modelled: navigation, waits, clicks, key events, DOM evaluation, screenshots, the QR login and the image upload. Each send, click or key event is a success/failure oracle parameter. `sendMessageAttempt` beyond the pieces above is not modelled, and neither are the literal selector lists.
- `time.Tick`, the rate limiter channel and every sleep are left out; only the interval and the delay values are modelled.
- ClientPolicy.Waits: the backoff multiplies a `time.Duration` by a `float64` and truncates. The model takes the multiplication as an abstract integer function `grow`. int64 overflow of durations is not modelled.
- Campaign.RandomDelay: `rand.Int63n` is the `draw` parameter, assumed within [0, max-min]. int64 overflow of `diff + 1` is not modelled.
- CSV decoding (quoting, `TrimLeadingSpace`, field-count checks) is not modelled: every reader is given its decoded records. In the ledger load (`Unopenable`, `Undecodable`) and in `readContacts`, `readCompleted` and `appendCompleted`, an open or decoder failure is an error value. `ParseCSV` starts from the decoded records: its "failed to open CSV file" and "failed to read CSV file" returns are not modelled. It is modelled for rows no longer than the header, as `ReadAll` guarantees.
- Campaign.AppendCompleted, Campaign.AppendThenReadCompleted, Campaign.AppendRecordsLoopNumber: one decoded header serves both `readHeader` (main.go:262) and `readCompleted` (main.go:158-159). Go decodes it twice: `readHeader` keeps a cell's leading white space, `readCompleted` sets `TrimLeadingSpace`. The two agree, and these members' promises hold, only when no ledger header cell starts with white space. For a header such as `name, number`, Go writes the value of key " number" (empty) and the next read records "".
- SHA-256 and hex encoding are the tracker's `digest` function.
- Go's map iteration order is not modelled. Ledger.HashInputAsWritten takes the order as a parameter (see Findings); Ledger.CompletedTracker.GenerateHash uses the sorted-order input of Ledger.HashInput. In `appendCompleted` the order does not matter, since the keys are sorted.
- Ledger.CompletedTracker.GenerateHash, Ledger.CompletedTracker.IsCompleted, Ledger.CompletedTracker.MarkCompleted: the class hashes the fields in sorted key order, the corrected input of Findings row 1. Go ranges over the map on each call, so IsCompleted right after MarkCompleted is promised only under that fixed order.
- CsvParser.Capitalize: upper-cases the first character. Go upper-cases the first byte, so for a header whose first character is not ASCII the Go key differs. Bytes are not modelled.
- ClientPolicy.Ext, ClientPolicy.ExtIndex: model filepath.Ext with '/' as the only separator. On Windows Go also stops at a backslash.
- Case mapping covers ASCII only: `strings.ToLower`, `strings.ToUpper` and `strings.EqualFold` on other letters are not modelled.
- Ledger.CompletedTracker.Load: the "Loaded N completed contacts" log line is not modelled.
- The log line formats, the date and time flags of Go's loggers, and the clock are left out. The timestamp is a parameter. `CloseLogger` and `Logf` are not modelled.
- Campaign.AppendCompleted: a failed write is an error value; what part of the record reaches the file before the failure is not modelled.
- Ledger.AppendToFileAsWritten, Ledger.CompletedTracker.MarkCompleted: the header and record write failures are error values, but what part reaches the file before a failure is not modelled. The deferred `writer.Flush()` discards its error, so Go reports success for a record that may never reach the file; the model takes a successful record write as written.
- `text/template` parsing and execution (including its errors) and YAML decoding are not modelled.
- `filepath.Abs` and `findChromePath` are parameters of `Configuration.WithDefaults`.
- The client reads `Files.ImagePath`, but the configuration struct declares no such field. The model carries it as an optional value that defaulting never touches.
- The main loop keys contacts by the exact map key "number", while `readCompleted` matches the column case-insensitively. Campaign.AppendRecordsLoopNumber therefore states the recorded number only for a column named exactly "number".

## Findings

| source | as written | input that shows it | evidently intended | confidence | as-written member | corrected member |
|---|---|---|---|---|---|---|
| completed_tracker.go:45-53 | The hash input appends the fields in Go map iteration order, despite the comment promising sorted order. | A contact with fields A=1 and B=2 gives "p\|n\|t\|A:1\|B:2" or "p\|n\|t\|B:2\|A:1", so two runs can hash it differently and miss the ledger entry. | Fields appended in sorted key order, so the hash depends on the contact alone. | not executed | Ledger.HashInputDependsOnOrder | Ledger.HashInputIsSortedOrder |
| completed_tracker.go:163-199 | The header is written only when the ledger file does not exist. | An existing empty completed file: the first record becomes the header, and the next load fails for missing columns, so the tracker cannot be built. | The header also goes into a ledger file that holds no records. | not executed | Ledger.AppendToEmptyFileAsWritten | Ledger.AppendToNewLedger |
| main.go:227-234 | appendCompleted reads the header of an existing ledger and fails on an empty file. readCompleted accepts that same file as "nothing completed". | An existing empty completed.csv: every send succeeds but is never recorded, so every contact is messaged again on each run. | An empty ledger is treated as a new one: it gets the header, then the record. | not executed | Campaign.EmptyLedgerNeverRecords | Campaign.AppendThenReadCompleted |
