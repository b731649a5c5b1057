/**
 * The CSV export: `toCSV` flattens the saved entries into one document whose
 * guest columns widen to the longest guest list, quoting fields the way
 * section 2 of RFC 4180 does (rules 6 and 7) but joining lines with a bare
 * line feed. `ReadDocument` is an independent CSV reader; the round-trip
 * theorem `CsvRoundTrip` says it gets back every field of every line.
 */
module Csv {
  import opened Wrappers
  import opened Text
  import opened Records

  // ---------------------------------------------------------------------
  // Field escaping

  predicate IsSpecial(c: char) {
    c == ',' || c == '\n' || c == '"'
  }

  /** `s.includes(",") || s.includes("\n") || s.includes('"')` */
  predicate NeedsQuoting(s: string) {
    exists k :: 0 <= k < |s| && IsSpecial(s[k])
  }

  /** `s.replaceAll('"', '""')` */
  function DoubleQuotes(s: string): string {
    if s == [] then []
    else (if s[0] == '"' then "\"\"" else [s[0]]) + DoubleQuotes(s[1..])
  }

  /** `escape`: a field with a comma, a line feed or a quote is quoted, its quotes doubled. */
  function Escape(s: string): string {
    if NeedsQuoting(s) then "\"" + DoubleQuotes(s) + "\"" else s
  }

  function EscapeAll(fields: seq<string>): (r: seq<string>)
    ensures |r| == |fields|
    ensures forall k :: 0 <= k < |fields| ==> r[k] == Escape(fields[k])
  {
    seq(|fields|, k requires 0 <= k < |fields| => Escape(fields[k]))
  }

  lemma EscapeAllAppend(a: seq<string>, b: seq<string>)
    ensures EscapeAll(a + b) == EscapeAll(a) + EscapeAll(b)
  {
    assert forall k :: 0 <= k < |a + b| ==> EscapeAll(a + b)[k] == (EscapeAll(a) + EscapeAll(b))[k];
  }

  // ---------------------------------------------------------------------
  // Columns and values

  const CommonColumns: seq<string> :=
    ["submittedAt", "fullName", "email", "attending", "guests", "dietary", "message", "userAgent"]

  function GuestNameColumn(i: nat): string {
    "guest" + NatToDecimal(i) + "Name"
  }

  function GuestDietaryColumn(i: nat): string {
    "guest" + NatToDecimal(i) + "Dietary"
  }

  /** Column `k` of the guest block: guest `k / 2 + 1`'s name for even `k`, dietary note for odd `k`. */
  function GuestColumnAt(k: nat): string {
    if k % 2 == 0 then GuestNameColumn(k / 2 + 1) else GuestDietaryColumn(k / 2 + 1)
  }

  /** The guest columns for `count` guests: `guest1Name, guest1Dietary, ..., guest{count}Dietary`. */
  function GuestColumns(count: nat): (cols: seq<string>)
    ensures |cols| == 2 * count
    ensures forall k :: 0 <= k < |cols| ==> cols[k] == GuestColumnAt(k)
  {
    if count == 0 then []
    else
      var prev := GuestColumns(count - 1);
      GuestColumnsSnoc(prev, count);
      prev + [GuestNameColumn(count), GuestDietaryColumn(count)]
  }

  lemma GuestColumnsSnoc(prev: seq<string>, count: nat)
    requires count >= 1 && |prev| == 2 * (count - 1)
    requires forall k :: 0 <= k < |prev| ==> prev[k] == GuestColumnAt(k)
    ensures forall k :: 0 <= k < |prev| + 2 ==>
      (prev + [GuestNameColumn(count), GuestDietaryColumn(count)])[k] == GuestColumnAt(k)
  {
    var cols := prev + [GuestNameColumn(count), GuestDietaryColumn(count)];
    GuestColumnAtPair(count - 1);
    forall k | 0 <= k < |cols|
      ensures cols[k] == GuestColumnAt(k)
    {
      if k < |prev| {
        assert cols[k] == prev[k];
      } else if k == |prev| {
        assert cols[k] == GuestNameColumn(count);
      } else {
        assert cols[k] == GuestDietaryColumn(count);
      }
    }
  }

  lemma GuestColumnAtPair(i: nat)
    ensures GuestColumnAt(2 * i) == GuestNameColumn(i + 1)
    ensures GuestColumnAt(2 * i + 1) == GuestDietaryColumn(i + 1)
  {
    assert (2 * i) % 2 == 0 && (2 * i) / 2 == i;
    assert (2 * i + 1) % 2 == 1 && (2 * i + 1) / 2 == i;
  }

  /** The header fields for a batch whose longest guest list has `maxGuests` rows. */
  function Header(maxGuests: nat): (h: seq<string>)
    ensures |h| == 8 + 2 * maxGuests
    ensures h[..8] == CommonColumns
    ensures forall k :: 8 <= k < |h| ==> h[k] == GuestColumnAt(k - 8)
  {
    CommonColumns + GuestColumns(maxGuests)
  }

  /** `x || ""` for a text field. */
  function OrEmpty(o: Option<string>): string {
    match o
    case None => ""
    case Some(s) => s
  }

  /** `r.guests ?? ""`: a present count is written in decimal, 0 included. */
  function CountText(o: Option<int>): string {
    match o
    case None => ""
    case Some(n) => IntToDecimal(n)
  }

  /** `Array.isArray(r.guestsDetails) ? r.guestsDetails : []` */
  function GuestsOf(r: Entry): seq<StoredGuest> {
    match r.guestsDetails
    case None => []
    case Some(gd) => gd
  }

  /** `rows.reduce((m, r) => Math.max(m, guest-list length of r), 0)` */
  function MaxGuests(rows: seq<Entry>): (m: nat)
    ensures forall k :: 0 <= k < |rows| ==> |GuestsOf(rows[k])| <= m
    ensures rows == [] ==> m == 0
  {
    if rows == [] then 0
    else
      var before := MaxGuests(rows[..|rows| - 1]);
      var last := |GuestsOf(rows[|rows| - 1])|;
      if before < last then last else before
  }

  /** The widest guest list is one of the entries' lists, so no column is there for nobody. */
  lemma {:induction false} MaxGuestsAttained(rows: seq<Entry>)
    requires rows != []
    ensures exists k :: 0 <= k < |rows| && |GuestsOf(rows[k])| == MaxGuests(rows)
  {
    var init := rows[..|rows| - 1];
    var last := |rows| - 1;
    if MaxGuests(rows) != |GuestsOf(rows[last])| {
      assert MaxGuests(rows) == MaxGuests(init);
      MaxGuestsAttained(init);
      var k :| 0 <= k < |init| && |GuestsOf(init[k])| == MaxGuests(init);
      assert init[k] == rows[k];
    }
  }

  /** The unescaped values of the fixed columns, in header order. */
  function CommonValues(r: Entry): seq<string> {
    [OrEmpty(r.submittedAt), OrEmpty(r.fullName), OrEmpty(r.email), OrEmpty(r.attending),
     CountText(r.guests), OrEmpty(r.dietary), OrEmpty(r.message), OrEmpty(r.userAgent)]
  }

  /** Guest `i`'s name and dietary note, or two empty values past the end of the list (`gd[i] || {}`). */
  function GuestPair(gd: seq<StoredGuest>, i: nat): seq<string> {
    var g := if i < |gd| then gd[i] else StoredGuest(None, None);
    [OrEmpty(g.name), OrEmpty(g.dietary)]
  }

  function GuestValueAt(gd: seq<StoredGuest>, k: nat): string {
    GuestPair(gd, k / 2)[k % 2]
  }

  /** The unescaped values of the guest block for `count` guest slots. */
  function GuestValues(gd: seq<StoredGuest>, count: nat): (vals: seq<string>)
    ensures |vals| == 2 * count
    ensures forall k :: 0 <= k < |vals| ==> vals[k] == GuestValueAt(gd, k)
  {
    if count == 0 then [] else GuestValues(gd, count - 1) + GuestPair(gd, count - 1)
  }

  /** The unescaped values of one entry's line. */
  function RawRow(r: Entry, maxGuests: nat): (vals: seq<string>)
    ensures |vals| == 8 + 2 * maxGuests
    ensures vals[..8] == CommonValues(r)
    ensures forall k :: 8 <= k < |vals| ==> vals[k] == GuestValueAt(GuestsOf(r), k - 8)
  {
    CommonValues(r) + GuestValues(GuestsOf(r), maxGuests)
  }

  // ---------------------------------------------------------------------
  // The document

  /** Fields escaped and joined with commas. */
  function RenderRecord(fields: seq<string>): string {
    Join(EscapeAll(fields), ',')
  }

  function RowLines(rows: seq<Entry>, maxGuests: nat): (lines: seq<string>)
    ensures |lines| == |rows|
    ensures forall k :: 0 <= k < |rows| ==> lines[k] == RenderRecord(RawRow(rows[k], maxGuests))
  {
    seq(|rows|, k requires 0 <= k < |rows| => RenderRecord(RawRow(rows[k], maxGuests)))
  }

  lemma RowLinesSnoc(rows: seq<Entry>, k: nat, maxGuests: nat)
    requires k < |rows|
    ensures RowLines(rows[..k + 1], maxGuests) == RowLines(rows[..k], maxGuests) + [RenderRecord(RawRow(rows[k], maxGuests))]
  {
    assert rows[..k + 1] == rows[..k] + [rows[k]];
  }

  /**
   * `toCSV(rows)`: nothing at all for no rows; otherwise the header line
   * (not escaped) and one line per entry in input order, joined by "\n".
   */
  function CsvText(rows: seq<Entry>): string {
    if |rows| == 0 then ""
    else
      var m := MaxGuests(rows);
      Join([Join(Header(m), ',')] + RowLines(rows, m), '\n')
  }

  function RawRows(rows: seq<Entry>, maxGuests: nat): (t: seq<seq<string>>)
    ensures |t| == |rows|
    ensures forall k :: 0 <= k < |rows| ==> t[k] == RawRow(rows[k], maxGuests)
  {
    seq(|rows|, k requires 0 <= k < |rows| => RawRow(rows[k], maxGuests))
  }

  /**
   * The document as fields: the header, then each entry's unescaped values
   * in input order, every line as wide as the header.
   */
  function Table(rows: seq<Entry>): (t: seq<seq<string>>)
    ensures rows == [] ==> t == []
    ensures rows != [] ==>
      |t| == |rows| + 1 && t[0] == Header(MaxGuests(rows)) && t[1..] == RawRows(rows, MaxGuests(rows))
    ensures forall k :: 0 <= k < |t| ==> |t[k]| == 8 + 2 * MaxGuests(rows)
  {
    if rows == [] then []
    else
      var m := MaxGuests(rows);
      [Header(m)] + RawRows(rows, m)
  }

  /** The body of `toCSV`'s entry loop: push the escaped fixed values, then each guest slot's pair. */
  method EscapedValues(r: Entry, maxGuests: nat) returns (vals: seq<string>)
    ensures vals == EscapeAll(RawRow(r, maxGuests))
  {
    vals := EscapeAll(CommonValues(r));
    var gd := GuestsOf(r);
    for i := 0 to maxGuests
      invariant vals == EscapeAll(CommonValues(r) + GuestValues(gd, i))
    {
      var guest := if i < |gd| then gd[i] else StoredGuest(None, None);
      EscapeAllAppend(CommonValues(r) + GuestValues(gd, i), GuestPair(gd, i));
      vals := vals + [Escape(OrEmpty(guest.name)), Escape(OrEmpty(guest.dietary))];
    }
  }

  /** The header part of `toCSV`: the fixed names, then a pair of guest columns pushed per guest slot. */
  method HeaderColumns(maxGuests: nat) returns (headers: seq<string>)
    ensures headers == Header(maxGuests)
  {
    var guestCols: seq<string> := [];
    for i := 1 to maxGuests + 1
      invariant guestCols == GuestColumns(i - 1)
    {
      guestCols := guestCols + [GuestNameColumn(i), GuestDietaryColumn(i)];
    }
    headers := CommonColumns + guestCols;
  }

  /** The row loop of `toCSV`: one escaped, comma-joined line pushed per entry, in order. */
  method PushRowLines(start: seq<string>, rows: seq<Entry>, maxGuests: nat) returns (lines: seq<string>)
    ensures lines == start + RowLines(rows, maxGuests)
  {
    lines := start;
    for k := 0 to |rows|
      invariant lines == start + RowLines(rows[..k], maxGuests)
    {
      var vals := EscapedValues(rows[k], maxGuests);
      RowLinesSnoc(rows, k, maxGuests);
      var line := Join(vals, ',');
      assert start + RowLines(rows[..k + 1], maxGuests) == (start + RowLines(rows[..k], maxGuests)) + [line];
      lines := lines + [line];
    }
    assert rows[..|rows|] == rows;
  }

  /** `toCSV` as the source writes it: loops that push header columns, values and lines. */
  method ToCsv(rows: seq<Entry>) returns (text: string)
    ensures text == CsvText(rows)
  {
    if |rows| == 0 {
      return "";
    }
    var maxGuests := MaxGuests(rows);
    var headers := HeaderColumns(maxGuests);
    var lines := PushRowLines([Join(headers, ',')], rows, maxGuests);
    text := Join(lines, '\n');
  }

  // ---------------------------------------------------------------------
  // Reading the document back

  /** A field ends at the end of the text, at a comma or at a line feed. */
  predicate FieldEnds(t: string) {
    t == [] || t[0] == ',' || t[0] == '\n'
  }

  /** An unquoted field: everything up to the next comma or line feed. */
  function ReadBare(s: string): (res: (string, string))
    ensures |res.1| <= |s|
  {
    if FieldEnds(s) then ([], s)
    else
      var (f, rest) := ReadBare(s[1..]);
      ([s[0]] + f, rest)
  }

  /**
   * The inside of a quoted field, after its opening quote: up to the quote
   * that is not doubled, with each doubled quote read as one. An unclosed
   * field runs to the end of the text.
   */
  function ReadQuoted(s: string): (res: (string, string))
    ensures |res.1| <= |s|
  {
    if s == [] then ([], [])
    else if s[0] == '"' then
      if |s| > 1 && s[1] == '"' then
        var (f, rest) := ReadQuoted(s[2..]);
        (['"'] + f, rest)
      else
        ([], s[1..])
    else
      var (f, rest) := ReadQuoted(s[1..]);
      ([s[0]] + f, rest)
  }

  /** One field and the text after it. */
  function ReadField(s: string): (res: (string, string))
    ensures |res.1| <= |s|
  {
    if s != [] && s[0] == '"' then ReadQuoted(s[1..]) else ReadBare(s)
  }

  /** One line's fields, separated by commas, and the text after the line. */
  function ReadRecord(s: string): (res: (seq<string>, string))
    ensures |res.1| <= |s|
    decreases |s|
  {
    var (f, rest) := ReadField(s);
    if rest != [] && rest[0] == ',' then
      var (fs, rest') := ReadRecord(rest[1..]);
      ([f] + fs, rest')
    else
      ([f], rest)
  }

  /** All lines of a document, separated by line feeds; the empty text has no lines. */
  function ReadDocument(s: string): seq<seq<string>>
    decreases |s|
  {
    if s == [] then []
    else
      var (fs, rest) := ReadRecord(s);
      if rest != [] && rest[0] == '\n' then [fs] + ReadDocument(rest[1..]) else [fs]
  }

  lemma {:induction false} ReadBareRoundTrip(s: string, t: string)
    requires !NeedsQuoting(s) && FieldEnds(t)
    ensures ReadBare(s + t) == (s, t)
  {
    if s == [] {
      assert s + t == t;
    } else {
      assert !IsSpecial(s[0]);
      assert !NeedsQuoting(s[1..]) by {
        forall k | 0 <= k < |s[1..]| ensures !IsSpecial(s[1..][k]) {
          assert s[1..][k] == s[k + 1];
        }
      }
      ReadBareRoundTrip(s[1..], t);
      assert (s + t)[0] == s[0] && (s + t)[1..] == s[1..] + t;
      assert [s[0]] + s[1..] == s;
    }
  }

  lemma {:induction false} ReadQuotedRoundTrip(s: string, t: string)
    requires t == [] || t[0] != '"'
    ensures ReadQuoted(DoubleQuotes(s) + "\"" + t) == (s, t)
  {
    var input := DoubleQuotes(s) + "\"" + t;
    if s == [] {
      assert input == "\"" + t;
    } else if s[0] == '"' {
      ReadQuotedRoundTrip(s[1..], t);
      assert input[2..] == DoubleQuotes(s[1..]) + "\"" + t;
      assert ['"'] + s[1..] == s;
    } else {
      ReadQuotedRoundTrip(s[1..], t);
      assert input[1..] == DoubleQuotes(s[1..]) + "\"" + t;
      assert [s[0]] + s[1..] == s;
    }
  }

  lemma QuotedFieldRoundTrip(s: string, t: string)
    requires NeedsQuoting(s) && FieldEnds(t)
    ensures ReadField(Escape(s) + t) == (s, t)
  {
    var input := "\"" + (DoubleQuotes(s) + "\"" + t);
    assert Escape(s) + t == input;
    ReadQuotedRoundTrip(s, t);
  }

  lemma BareFieldRoundTrip(s: string, t: string)
    requires !NeedsQuoting(s) && FieldEnds(t)
    ensures ReadField(Escape(s) + t) == (s, t)
  {
    assert Escape(s) + t == s + t;
    assert s != [] ==> !IsSpecial(s[0]);
    ReadBareRoundTrip(s, t);
  }

  /** Reading an escaped field back gives the field, and stops where the field ends. */
  lemma EscapeRoundTrip(s: string, t: string)
    requires FieldEnds(t)
    ensures ReadField(Escape(s) + t) == (s, t)
  {
    if NeedsQuoting(s) {
      QuotedFieldRoundTrip(s, t);
    } else {
      BareFieldRoundTrip(s, t);
    }
  }

  lemma {:induction false} ReadRecordRoundTrip(fields: seq<string>, t: string)
    requires fields != []
    requires t == [] || t[0] == '\n'
    ensures ReadRecord(RenderRecord(fields) + t) == (fields, t)
    decreases |fields|
  {
    var e := EscapeAll(fields);
    if |fields| == 1 {
      assert RenderRecord(fields) == Escape(fields[0]);
      EscapeRoundTrip(fields[0], t);
      assert [fields[0]] == fields;
    } else {
      var tail := Join(EscapeAll(fields[1..]), ',');
      assert e[1..] == EscapeAll(fields[1..]);
      var rest := [','] + tail + t;
      assert RenderRecord(fields) + t == Escape(fields[0]) + rest;
      EscapeRoundTrip(fields[0], rest);
      assert rest[1..] == RenderRecord(fields[1..]) + t;
      ReadRecordRoundTrip(fields[1..], t);
      assert [fields[0]] + fields[1..] == fields;
    }
  }

  function RenderAll(table: seq<seq<string>>): (lines: seq<string>)
    ensures |lines| == |table|
    ensures forall k :: 0 <= k < |table| ==> lines[k] == RenderRecord(table[k])
  {
    seq(|table|, k requires 0 <= k < |table| => RenderRecord(table[k]))
  }

  /** A line of two or more fields always has a comma, so it is never empty. */
  lemma RenderRecordNonEmpty(fields: seq<string>)
    requires |fields| >= 2
    ensures RenderRecord(fields) != []
  {
    var e := EscapeAll(fields);
    assert Join(e, ',') == e[0] + [','] + Join(e[1..], ',');
  }

  /** Any table whose lines have at least two fields is read back from its rendering. */
  lemma {:induction false} ReadDocumentRoundTrip(table: seq<seq<string>>)
    requires forall k :: 0 <= k < |table| ==> |table[k]| >= 2
    ensures ReadDocument(Join(RenderAll(table), '\n')) == table
    decreases |table|
  {
    if table != [] {
      var lines := RenderAll(table);
      RenderRecordNonEmpty(table[0]);
      if |table| == 1 {
        ReadRecordRoundTrip(table[0], []);
        assert lines[0] + [] == lines[0];
      } else {
        assert lines[1..] == RenderAll(table[1..]);
        var rest := ['\n'] + Join(lines[1..], '\n');
        assert Join(lines, '\n') == lines[0] + rest;
        ReadRecordRoundTrip(table[0], rest);
        assert rest[1..] == Join(RenderAll(table[1..]), '\n');
        ReadDocumentRoundTrip(table[1..]);
        assert [table[0]] + table[1..] == table;
      }
    }
  }

  // ---------------------------------------------------------------------
  // The header needs no quoting

  predicate PlainText(s: string) {
    forall k :: 0 <= k < |s| ==> !IsSpecial(s[k])
  }

  lemma PlainConcat(a: string, b: string)
    requires PlainText(a) && PlainText(b)
    ensures PlainText(a + b)
  {
    assert forall k :: 0 <= k < |a + b| ==> (a + b)[k] == if k < |a| then a[k] else b[k - |a|];
  }

  lemma GuestColumnPlain(k: nat)
    ensures PlainText(GuestColumnAt(k))
  {
    var d := NatToDecimal(k / 2 + 1);
    assert PlainText(d);
    assert PlainText("guest");
    assert PlainText("Name");
    assert PlainText("Dietary");
    PlainConcat("guest", d);
    PlainConcat("guest" + d, "Name");
    PlainConcat("guest" + d, "Dietary");
  }

  /** Every field of the record is plain text. */
  predicate AllPlain(fields: seq<string>) {
    forall k :: 0 <= k < |fields| ==> PlainText(fields[k])
  }

  lemma CommonColumnsPlain()
    ensures AllPlain(CommonColumns)
  {
    assert PlainText("submittedAt");
    assert PlainText("fullName");
    assert PlainText("email");
    assert PlainText("attending");
    assert PlainText("guests");
    assert PlainText("dietary");
    assert PlainText("message");
    assert PlainText("userAgent");
  }

  lemma GuestColumnsPlain(count: nat)
    ensures AllPlain(GuestColumns(count))
  {
    var cols := GuestColumns(count);
    forall k | 0 <= k < |cols|
      ensures PlainText(cols[k])
    {
      GuestColumnPlain(k);
    }
  }

  lemma PlainNeedsNoEscape(s: string)
    requires PlainText(s)
    ensures Escape(s) == s
  {
  }

  /** Escaping a record of plain fields leaves it as it is. */
  lemma EscapeAllPlain(fields: seq<string>)
    requires AllPlain(fields)
    ensures EscapeAll(fields) == fields
  {
    forall k | 0 <= k < |fields|
      ensures EscapeAll(fields)[k] == fields[k]
    {
      PlainNeedsNoEscape(fields[k]);
    }
  }

  lemma AllPlainAppend(a: seq<string>, b: seq<string>)
    requires AllPlain(a) && AllPlain(b)
    ensures AllPlain(a + b)
  {
    forall k | 0 <= k < |a + b|
      ensures PlainText((a + b)[k])
    {
      if k < |a| {
        assert (a + b)[k] == a[k];
      } else {
        assert (a + b)[k] == b[k - |a|];
      }
    }
  }

  /** Every column name, fixed or per guest, is plain text. */
  lemma HeaderPlain(maxGuests: nat)
    ensures AllPlain(Header(maxGuests))
  {
    CommonColumnsPlain();
    GuestColumnsPlain(maxGuests);
    AllPlainAppend(CommonColumns, GuestColumns(maxGuests));
  }

  /** No column name holds a comma, quote or line feed, so the unescaped header line reads back as its names. */
  lemma HeaderNeedsNoEscape(maxGuests: nat)
    ensures EscapeAll(Header(maxGuests)) == Header(maxGuests)
  {
    HeaderPlain(maxGuests);
    EscapeAllPlain(Header(maxGuests));
  }

  // ---------------------------------------------------------------------
  // What the export promises

  lemma RenderAllCons(first: seq<string>, rest: seq<seq<string>>)
    ensures RenderAll([first] + rest) == [RenderRecord(first)] + RenderAll(rest)
  {
    var l, r := RenderAll([first] + rest), [RenderRecord(first)] + RenderAll(rest);
    assert |l| == |r|;
    forall k | 0 <= k < |l|
      ensures l[k] == r[k]
    {
      if k > 0 {
        assert ([first] + rest)[k] == rest[k - 1];
      }
    }
  }

  lemma RenderAllRawRows(rows: seq<Entry>, maxGuests: nat)
    ensures RenderAll(RawRows(rows, maxGuests)) == RowLines(rows, maxGuests)
  {
    var l, r := RenderAll(RawRows(rows, maxGuests)), RowLines(rows, maxGuests);
    assert |l| == |r|;
    forall k | 0 <= k < |l|
      ensures l[k] == r[k]
    {
    }
  }

  lemma RenderedTableLines(rows: seq<Entry>)
    requires rows != []
    ensures RenderAll(Table(rows)) == [Join(Header(MaxGuests(rows)), ',')] + RowLines(rows, MaxGuests(rows))
  {
    var m := MaxGuests(rows);
    HeaderNeedsNoEscape(m);
    RenderAllCons(Header(m), RawRows(rows, m));
    RenderAllRawRows(rows, m);
  }

  /** The document is the header and the entries' values, rendered line by line. */
  lemma CsvTextRendersTable(rows: seq<Entry>)
    ensures CsvText(rows) == Join(RenderAll(Table(rows)), '\n')
  {
    if rows != [] {
      RenderedTableLines(rows);
    }
  }

  /**
   * Reading the exported text back gives the header followed by every
   * entry's values, in input order, each line exactly as wide as the header.
   */
  lemma CsvRoundTrip(rows: seq<Entry>)
    ensures ReadDocument(CsvText(rows)) == Table(rows)
  {
    CsvTextRendersTable(rows);
    ReadDocumentRoundTrip(Table(rows));
  }

  /** Equal exports come from equal tables: flattening and escaping lose no value. */
  lemma CsvDeterminesTable(a: seq<Entry>, b: seq<Entry>)
    requires CsvText(a) == CsvText(b)
    ensures Table(a) == Table(b)
  {
    CsvRoundTrip(a);
    CsvRoundTrip(b);
  }

  /** The export is empty, with not even a header, exactly when there are no entries. */
  lemma CsvEmptyIffNoRows(rows: seq<Entry>)
    ensures CsvText(rows) == "" <==> rows == []
  {
    if rows != [] {
      var m := MaxGuests(rows);
      RenderRecordNonEmpty(Header(m));
      HeaderNeedsNoEscape(m);
      var lines := [Join(Header(m), ',')] + RowLines(rows, m);
      assert Join(lines, '\n') == lines[0] + ['\n'] + Join(lines[1..], '\n');
    }
  }


  /** Guest slots past an entry's own list, and missing names or notes, are empty fields. */
  lemma MissingGuestFieldsEmpty(r: Entry, maxGuests: nat, k: nat)
    requires 8 <= k < 8 + 2 * maxGuests
    ensures (k - 8) / 2 >= |GuestsOf(r)| ==> RawRow(r, maxGuests)[k] == ""
    ensures (k - 8) / 2 < |GuestsOf(r)| && k % 2 == 0 ==> RawRow(r, maxGuests)[k] == OrEmpty(GuestsOf(r)[(k - 8) / 2].name)
    ensures (k - 8) / 2 < |GuestsOf(r)| && k % 2 == 1 ==> RawRow(r, maxGuests)[k] == OrEmpty(GuestsOf(r)[(k - 8) / 2].dietary)
  {
  }

  /**
   * What the export writes for a submitted payload: the form's own values in
   * the fixed columns (the dietary column is the form's, which no input sets,
   * so it is empty), each guest's name and note in its slot, and empty fields
   * in the slots past the party's list.
   */
  lemma SubmittedEntryRow(form: Form, guests: seq<Guest>, submittedAt: string, userAgent: string, maxGuests: nat)
    requires |guests| <= maxGuests
    ensures var row := RawRow(Payload(form, guests, submittedAt, userAgent), maxGuests);
      row[..8] == [submittedAt, form.fullName, form.email, form.attending, CountText(form.guests),
                   form.dietary, form.message, userAgent]
      && (forall j :: 0 <= j < |guests| ==> row[8 + 2 * j] == guests[j].name && row[9 + 2 * j] == guests[j].dietary)
      && (forall k :: 8 + 2 * |guests| <= k < |row| ==> row[k] == "")
  {
    var e := Payload(form, guests, submittedAt, userAgent);
    var row := RawRow(e, maxGuests);
    forall j | 0 <= j < |guests|
      ensures row[8 + 2 * j] == guests[j].name && row[9 + 2 * j] == guests[j].dietary
    {
      assert (8 + 2 * j - 8) / 2 == j && (9 + 2 * j - 8) / 2 == j;
      assert (8 + 2 * j - 8) % 2 == 0 && (9 + 2 * j - 8) % 2 == 1;
    }
  }

  /** A count the form accepted is written as digits that read back as the count; a count of 0 as "0". */
  lemma CountColumnRoundTrip(n: nat)
    ensures AllDigits(CountText(Some(n))) && DecimalValue(CountText(Some(n))) == n
    ensures CountText(Some(0)) == "0"
  {
    DecimalRoundTrip(n);
  }

  /** A submitted entry's dietary column is the form's, which no input sets, so it is empty. */
  lemma SubmittedDietaryEmpty(form: Form, guests: seq<Guest>, submittedAt: string, userAgent: string, maxGuests: nat)
    requires form.dietary == ""
    ensures RawRow(Payload(form, guests, submittedAt, userAgent), maxGuests)[5] == ""
  {
    var e := Payload(form, guests, submittedAt, userAgent);
    assert RawRow(e, maxGuests)[..8][5] == OrEmpty(e.dietary);
  }

  /** `DoubleQuotes` distributes over concatenation. */
  lemma {:induction false} DoubleQuotesAppend(a: string, b: string)
    ensures DoubleQuotes(a + b) == DoubleQuotes(a) + DoubleQuotes(b)
  {
    if a != [] {
      var head := if a[0] == '"' then "\"\"" else [a[0]];
      assert (a + b)[0] == a[0] && (a + b)[1..] == a[1..] + b;
      DoubleQuotesAppend(a[1..], b);
      assert DoubleQuotes(a + b) == head + (DoubleQuotes(a[1..]) + DoubleQuotes(b));
    } else {
      assert a + b == b;
    }
  }

  /** Text without a quote is left as it is by `DoubleQuotes`. */
  lemma {:induction false} DoubleQuotesNoQuote(s: string)
    requires forall k :: 0 <= k < |s| ==> s[k] != '"'
    ensures DoubleQuotes(s) == s
  {
    if s != [] {
      DoubleQuotesNoQuote(s[1..]);
    }
  }

  /** `DoubleQuotes` of `a q b q c`, from its value on each piece. */
  lemma DoubleQuotesAround(a: string, b: string, c: string, q: string, d: string)
    requires DoubleQuotes(a) == a && DoubleQuotes(b) == b && DoubleQuotes(c) == c
    requires DoubleQuotes(q) == d
    ensures DoubleQuotes(a + q + b + q + c) == a + d + b + d + c
  {
    var s1 := a + q;
    DoubleQuotesAppend(a, q);
    var s2 := s1 + b;
    DoubleQuotesAppend(s1, b);
    var s3 := s2 + q;
    DoubleQuotesAppend(s2, q);
    DoubleQuotesAppend(s3, c);
  }

  /** A field holding one quoted word is quoted as a whole and the word's quotes are doubled. */
  lemma EscapeQuotedWord(a: string, b: string, c: string)
    requires forall k :: 0 <= k < |a| ==> a[k] != '"'
    requires forall k :: 0 <= k < |b| ==> b[k] != '"'
    requires forall k :: 0 <= k < |c| ==> c[k] != '"'
    ensures Escape(a + "\"" + b + "\"" + c) == "\"" + (a + "\"\"" + b + "\"\"" + c) + "\""
  {
    var s := a + "\"" + b + "\"" + c;
    assert IsSpecial(s[|a|]);
    DoubleQuotesNoQuote(a);
    DoubleQuotesNoQuote(b);
    DoubleQuotesNoQuote(c);
    assert DoubleQuotes("\"") == "\"\"" + DoubleQuotes([]);
    DoubleQuotesAround(a, b, c, "\"", "\"\"");
  }

}
