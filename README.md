# Wedding RSVP — a verified model of the form logic

The wedding-RSVP page is one React component (`src/App.js`). A guest fills in
their name, email, whether they attend and how many people come. For each
person they also give a name and dietary note. The page validates the form,
saves each accepted submission to a log kept on the device, and can export
that log as a CSV file whose guest columns are flattened into numbered pairs
(`guest1Name`, `guest1Dietary`, …).

This project models that logic in Dafny and proves what the code promises:

- `Records` holds the data: the draft form, a guest row, and a saved entry. A
  saved entry's fields may be missing, so each one is an `Option`.
- `GuestList` covers the effect that resizes the guest list whenever the
  count changes, and `handleGuestChange`.
- `Validation` covers `validate`: the first failing rule wins, the email
  regular expression is decided exactly, and the guest loop returns early.
- `Csv` covers `toCSV` and its `escape`. Its partner is a reference CSV
  reader: reading back what `toCSV` writes gives exactly the header and one
  row of raw field values per entry, in order.
- `Text` covers the JavaScript `trim` whitespace set, decimal rendering of
  the count, and `Array.prototype.join`.
- `RsvpForm` holds the component state as a class: the form, the guest list,
  and the saved log as a sequence that each accepted submission extends. Its
  handlers are proved against the functions above.

The count is modelled as already read by `Number`: `Some(n)` for a whole
number, `None` for text that is not a number (`NaN`). The empty text reads
as `Some(0)`.

Three details of the code shape the model:

- `handleGuestChange` does not guard its index; every caller passes an index
  of the current list, so `GuestChanged` requires the index to be in range.
- The missing-guest message numbers guests from 1 (`guest ${i + 1}`).
- The submitted payload carries the guest list as it stands, without
  truncating it to the count; for an accepted form the two coincide.

## Model

| member | source | states |
|---|---|---|
| Text.TrimStartShape | src/App.js:218 | trimming the front removes exactly a leading run of JS whitespace and stops at a non-whitespace character |
| Text.TrimEndShape | src/App.js:218 | trimming the end removes exactly a trailing run of JS whitespace and stops at a non-whitespace character |
| Text.TrimEmptyIffAllWhitespace | src/App.js:218-219 | `trim()` is empty exactly when every character is JS whitespace, which is what `!x.trim()` tests |
| Text.NatToDecimal | src/App.js:79 | a count's decimal text is non-empty, all digits and has no leading zero |
| Text.DecimalRoundTrip | src/App.js:79 | reading the decimal text of a count back gives the count |
| Text.Trim | src/App.js:218 | no contract of its own: `TrimStartShape`, `TrimEndShape` and `TrimEmptyIffAllWhitespace` state what `trim()` removes and when the result is empty |
| Text.Join | src/App.js:91 | no contract of its own: `ReadRecordRoundTrip` and `ReadDocumentRoundTrip` show that `join(",")` and `join("\n")` of escaped fields read back as the fields and lines |
| Text.IntToDecimal | src/App.js:79 | `String(n)` of a non-negative count is digits that read back as the count; of a negative one, a `-` followed by digits that read back as its magnitude; neither has a leading zero, so the text is the canonical one `String(n)` writes |
| GuestList.GuestSlots | src/App.js:191 | no contract of its own: `Math.max(0, Number(count) \|\| 0)`, and `Resize` and `RsvpForm.Session.SetGuests` state the list length it fixes |
| GuestList.Resized | src/App.js:191-195 | after a resize to `n` the list has length `n`, entries below the old length are kept, and the rest are `{name: "", dietary: ""}` |
| GuestList.Resize | src/App.js:190-197 | the slice-then-push loop yields `Resized(prev, max(0, Number(count) \|\| 0))` |
| GuestList.ResizeIdempotent | src/App.js:191-195 | resizing twice to the same count equals resizing once |
| GuestList.ResizeAllShape | src/App.js:190-197 | over any run of count edits, what is typed survives only below the smallest count in the run, and the length is the last count's |
| GuestList.ResizeAllKeepsCommonPrefix | src/App.js:190-197 | from any start, after a run of count edits the entries that no edit cut off are the original ones and the length follows the last edit |
| GuestList.GuestChanged | src/App.js:210-215 | the copy has the same length, field `key` of entry `i` is the new value, and the other field and every other entry are unchanged |
| GuestList.EditCommutesWithResize | src/App.js:190-197 | editing a guest that stays in the list and then resizing equals resizing and then editing |
| Validation.Message | src/App.js:218-227 | no contract of its own: the source's message for each error; `MessageDetermines` states that the message alone tells which rule failed and which guest |
| Validation.MessageDetermines | src/App.js:218-227 | two errors with the same message are the same error, guest number included |
| Validation.EmailShaped | src/App.js:219-220 | no contract of its own: `EmailShapedMatchesPattern` states that it accepts exactly the strings matching the email pattern |
| Validation.IndexOf | src/App.js:219-220 | the position found holds the character and no earlier position does; none means the character is absent |
| Validation.IndexOfFirst | src/App.js:219-220 | a position holding the character with none before it is the one `IndexOf` finds |
| Validation.EmailShapedMatchesPattern | src/App.js:219-220 | the executable email test accepts exactly the strings matching `^[^@\s]+@[^@\s]+\.[^@\s]+$` |
| Validation.ShapedEmailMatches | src/App.js:219-220 | every string the executable test accepts has a split `run @ run . run` the pattern matches |
| Validation.MatchingEmailShaped | src/App.js:219-220 | every string the pattern matches passes the executable test |
| Validation.RunsJoin | src/App.js:219-220 | two `[^@\s]` runs joined by a `.` form one run, as the domain after the `@` must be |
| Validation.BlankEmailNeverShaped | src/App.js:219-220 | an email that trims to empty never matches the pattern; both failures give the same message, so the blank check never changes the outcome |
| Validation.FirstUnnamedGuest | src/App.js:224-228 | the result is the lowest index below the count whose guest is absent or has a blank name; none when every guest is named |
| Validation.FirstUnnamedGuestAt | src/App.js:225-227 | a scan from the front that stops at the first unnamed guest finds that same index |
| Validation.FirstProblem | src/App.js:217-232 | the name error occurs exactly when the name is blank. The email error occurs exactly when the name passes and the email is blank or off-pattern. The count error occurs exactly when both pass and the count is `NaN` or negative. A guest error names the first unnamed guest, 1-based, and only when attending is "yes" with a positive count. No error occurs exactly when every rule holds |
| Validation.Validate | src/App.js:217-232 | the loop with its early return gives the same answer as `FirstProblem` |
| Validation.ExampleEmailAccepted | src/App.js:219-220 | `alex@example.com` passes the email rule |
| Validation.SecondGuestUnnamed | src/App.js:223-229 | an attending party of two whose name and email pass, whose first guest is named and whose second is not, is told to name guest 2 |
| Csv.DoubleQuotes | src/App.js:64 | no contract of its own: `replaceAll('"', '""')`; `ReadQuotedRoundTrip`, `DoubleQuotesAppend` and `DoubleQuotesNoQuote` state that it can be undone, distributes over concatenation and leaves quote-free text alone |
| Csv.Escape | src/App.js:56-67 | no contract of its own: `EscapeRoundTrip` states that every escaped field reads back as the original, `PlainNeedsNoEscape` that a field without specials is unchanged, `EscapeQuotedWord` how quotes are doubled inside the wrapping quotes |
| Csv.EscapeAllAppend | src/App.js:74-89 | escaping the fixed values and then the guest values is escaping the whole row |
| Csv.GuestColumns | src/App.js:49-52 | `2m` columns, `guest{i}Name` then `guest{i}Dietary` for `i = 1..m` |
| Csv.GuestColumnAtPair | src/App.js:49-52 | columns `2i` and `2i + 1` of the guest block are guest `i + 1`'s name and dietary columns |
| Csv.GuestColumnsSnoc | src/App.js:49-52 | appending guest `m`'s two columns to the first `m - 1` guests' block keeps every column in its place |
| Csv.Header | src/App.js:33-54 | the header is the 8 fixed names followed by the guest columns, `8 + 2m` in all |
| Csv.OrEmpty | src/App.js:75-88 | no contract of its own: `x \|\| ""`; `MissingGuestFieldsEmpty` states that absent guest fields are written as `""` |
| Csv.CountText | src/App.js:79 | no contract of its own: `r.guests ?? ""`; `CountColumnRoundTrip` states that a count is written as digits that read back as it, 0 as `"0"` |
| Csv.MaxGuests | src/App.js:44-47 | no entry's guest list is longer; 0 for no entries; a missing or non-array list counts as 0 |
| Csv.MaxGuestsAttained | src/App.js:44-47 | some entry's guest list has exactly the maximum length |
| Csv.GuestValues | src/App.js:85-89 | `2m` values: the guest's name then dietary note for each slot, `""` where absent |
| Csv.RawRow | src/App.js:71-91 | a data row has `8 + 2m` fields, the 8 fixed values first, then the guest pairs |
| Csv.CsvText | src/App.js:30-95 | no contract of its own: `ToCsv` builds it with the source's loops, `CsvRoundTrip` states that it reads back as `Table`, `CsvEmptyIffNoRows` that it is `""` exactly for no entries |
| Csv.RowLinesSnoc | src/App.js:71-92 | pushing the next entry's line extends the lines built so far by exactly that line |
| Csv.Table | src/App.js:31-94 | no entries give no lines. Otherwise the header comes first, then one row per entry in order, and every line has `8 + 2m` fields |
| Csv.EscapedValues | src/App.js:72-89 | the two push loops build exactly the escaped raw row |
| Csv.HeaderColumns | src/App.js:33-54 | the loop that pushes a name and a dietary column per guest slot builds exactly `Header`: the 8 fixed names, then `guest{i}Name`, `guest{i}Dietary` for `i = 1..m` |
| Csv.PushRowLines | src/App.js:69-92 | the row loop appends, after the lines it starts from, exactly one escaped comma-joined line per entry, in input order (`RowLines`) |
| Csv.EscapeAllPlain | src/App.js:63-66 | a record whose fields hold no comma, quote or line feed is unchanged by escaping |
| Csv.ToCsv | src/App.js:30-95 | the loops build exactly `CsvText`: `""` for no entries, otherwise the header line and the entries' lines joined by `\n` |
| Csv.ReadBare | src/App.js:63-66 | helper of the reference reader, termination bound only: it returns no more text than it is given; `ReadBareRoundTrip` carries what it reads |
| Csv.ReadQuoted | src/App.js:63-64 | helper of the reference reader, termination bound only: it returns no more text than it is given; `ReadQuotedRoundTrip` carries what it reads |
| Csv.ReadField | src/App.js:56-67 | helper of the reference reader, termination bound only: it returns no more text than it is given; `EscapeRoundTrip` carries what it reads |
| Csv.ReadRecord | src/App.js:91 | helper of the reference reader, termination bound only: it returns no more text than it is given, so the document reader ends; `ReadRecordRoundTrip` carries what it reads |
| Csv.ReadBareRoundTrip | src/App.js:66 | a field with no comma, quote or line feed reads back whole, up to the next comma, line feed or end of text |
| Csv.ReadQuotedRoundTrip | src/App.js:64 | un-doubling the quotes of a doubled field gives the original |
| Csv.QuotedFieldRoundTrip | src/App.js:63-64 | a field that needed quoting reads back as the original |
| Csv.BareFieldRoundTrip | src/App.js:63-66 | a field that did not need quoting reads back as the original |
| Csv.EscapeRoundTrip | src/App.js:56-67 | every escaped field reads back as the original, whatever follows it on the line |
| Csv.ReadRecordRoundTrip | src/App.js:91 | a non-empty comma-joined escaped record, followed by the end of the text or a line feed, reads back as its fields |
| Csv.RenderRecordNonEmpty | src/App.js:91 | a rendered record of two or more fields is never the empty line |
| Csv.ReadDocumentRoundTrip | src/App.js:94 | a table whose records each have at least two fields (every line of the export has eight or more) reads back from its records joined by `\n` |
| Csv.PlainConcat | src/App.js:51 | generic helper for `GuestColumnPlain`: joining two plain texts gives plain text |
| Csv.GuestColumnPlain | src/App.js:51 | guest column names contain no comma, quote or line feed |
| Csv.CommonColumnsPlain | src/App.js:33-42 | the fixed column names contain no comma, quote or line feed |
| Csv.GuestColumnsPlain | src/App.js:49-52 | every guest column name contains no comma, quote or line feed |
| Csv.AllPlainAppend | src/App.js:54 | generic helper for `HeaderPlain`: two all-plain lists of names appended, as `[...common, ...guestCols]` is, give an all-plain list |
| Csv.PlainNeedsNoEscape | src/App.js:63-66 | escaping leaves a string without a comma, quote or line feed unchanged |
| Csv.HeaderPlain | src/App.js:33-54 | no header name, fixed or per guest, holds a comma, quote or line feed |
| Csv.HeaderNeedsNoEscape | src/App.js:54-69 | the header line is the column names joined as they are, so escaping them changes nothing |
| Csv.RenderAllCons | src/App.js:69-91 | the header line comes first and the data lines follow |
| Csv.RenderAllRawRows | src/App.js:71-92 | rendering the raw rows gives the lines the loop pushes |
| Csv.RenderedTableLines | src/App.js:69-92 | the lines before the final join are the header line and then one line per entry |
| Csv.CsvTextRendersTable | src/App.js:30-95 | the exported text is the table's lines joined by `\n` |
| Csv.CsvRoundTrip | src/App.js:30-95 | reading the export back gives the header and each entry's raw values, in order |
| Csv.CsvDeterminesTable | src/App.js:30-95 | two logs with the same export have the same table, so nothing is lost to escaping or joining |
| Csv.CsvEmptyIffNoRows | src/App.js:31 | the export is `""` exactly when there are no entries |
| Csv.MissingGuestFieldsEmpty | src/App.js:85-88 | slots past an entry's list are `""`; within it, a missing name or note is `""` |
| Csv.SubmittedEntryRow | src/App.js:240-246 | a submitted payload's row holds the form's values (dietary as the form has it) and each guest's name and note in order, with `""` after the list |
| Csv.CountColumnRoundTrip | src/App.js:79 | the count column is decimal digits that read back as the count, and a count of 0 is written `"0"` |
| Csv.SubmittedDietaryEmpty | src/App.js:80 | a submitted entry's dietary column is empty, since no input sets the form's dietary field |
| Csv.DoubleQuotesAppend | src/App.js:64 | doubling quotes distributes over concatenation |
| Csv.DoubleQuotesNoQuote | src/App.js:64 | text without quotes is left unchanged by the doubling |
| Csv.DoubleQuotesAround | src/App.js:64 | doubling quotes in `a q b q c` doubles only the two `q`s when `a`, `b` and `c` hold no quote |
| Csv.EscapeQuotedWord | src/App.js:63-64 | a field with one quoted word is wrapped in quotes and the word's quotes are doubled |
| Records.Payload | src/App.js:240-246 | no contract of its own: `Csv.SubmittedEntryRow` states which export column each part of the payload lands in |
| RsvpForm.Session.constructor | src/App.js:163-174 | the form starts as attending "yes" with one guest and one empty guest row, over the stored log |
| RsvpForm.Session.SetField | src/App.js:209 | one text field of the form changes; the count, guest list and log are unchanged |
| RsvpForm.Session.SetGuests | src/App.js:190-197 | the count changes and the guest list is resized to it, keeping what was typed and padding with empty rows |
| RsvpForm.Session.SetGuestField | src/App.js:210-215 | one field of one guest changes; everything else is unchanged |
| RsvpForm.Session.Submit | src/App.js:234-251 | the result is `validate`'s verdict. A rejected form saves nothing; an accepted one appends exactly its payload to the log, its guest list already has one row per counted guest, and its dietary field is empty |
| RsvpForm.Session.ExportCsv | src/App.js:278-281 | the export is `toCSV` of the log, and reading it back gives the log's table |

## Left out

- Rendering, styling, font loading and the page title are presentation only.
- `saveLocal`/`loadLocal`: `localStorage` and JSON parsing are not modelled. The log is a sequence that submission extends, and a failed save is not modelled.
- The webhook `fetch` is a network call whose outcome is ignored, so it is left out. The error line after a failed post is also left out.
- `download` (the Blob and the link) is left out. `RsvpForm.Session.ExportCsv` returns the text that would be downloaded.
- `clearAll` is left out: it needs `window.confirm` and a page reload.
- `RsvpForm.Session.ExportCsv`: reads the log itself. The source reads a `useMemo` copy that is refreshed only when the "submitted" flag changes, so the copy can lag behind the log. The `submitting`, `submitted` and `error` flags are React state for the view and are not modelled.
- `Validation.Validate`: returns the error as a value of `ValidationError`; `Validation.Message` gives the source's text for each.
- `Number()` coercion is left out. The count arrives as `Option<int>`, so fractional counts such as `"2.5"` (where the slice truncates but the loop pads up) and exponent forms are not modelled.
- `Csv.CountColumnRoundTrip`: the count is written as plain decimal digits. JavaScript's exponent notation for very large numbers is not modelled.
- The `JSON.stringify` branch of `escape` (object values) is left out: after flattening, every field is a string or the count.
- The timestamp and `navigator.userAgent` are string parameters of `RsvpForm.Session.Submit`.
- `Csv.ReadDocument`: a reference reader that exists only to state the round trip. It reads only what `toCSV` writes: `\n` line ends, not the CRLF that RFC 4180 section 2 asks for.
- `GuestList.Resize`: counts are unbounded integers here. In the source the count is a double, exact only up to 2^53, and `push` throws once the array would exceed 2^32 − 1 rows (memory runs out well before); the model resizes to any count instead.
- `GuestList.GuestChanged`: requires the index to be in range. The source does not guard it, and an out-of-range index in JavaScript would grow a sparse array.
