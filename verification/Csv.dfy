/**
  CSV export (`utils/csv.ts`) and a reader for it that follows section 2 of RFC 4180: fields separated by commas,
  records by CRLF, quoted fields with doubled quotes. A CR that no LF follows is ordinary data.
 */
module Csv {
  import opened Wrappers

  /** A formatted table: its column names and its rows of formatted values. */
  datatype FormattedTable = FormattedTable(columns: seq<string>, rows: seq<seq<string>>)

  // ----- the writer

  function DoubleQuotes(s: string): string {
    if s == "" then "" else (if s[0] == '"' then "\"\"" else [s[0]]) + DoubleQuotes(s[1..])
  }

  predicate NeedsQuoting(s: string) {
    '"' in s || ',' in s || '\n' in s
  }

  function EscapeCell(s: string): string {
    if NeedsQuoting(s) then "\"" + DoubleQuotes(s) + "\"" else s
  }

  function RenderRecord(cells: seq<string>): string {
    if cells == [] then ""
    else if |cells| == 1 then EscapeCell(cells[0])
    else EscapeCell(cells[0]) + "," + RenderRecord(cells[1..])
  }

  function RenderRecords(records: seq<seq<string>>): string
    requires records != []
  {
    if |records| == 1 then RenderRecord(records[0])
    else RenderRecord(records[0]) + "\r\n" + RenderRecords(records[1..])
  }

  function TableToCsv(table: FormattedTable): string {
    RenderRecords([table.columns] + table.rows)
  }

  /** Cells that need no quotes are written as they are; the others between quotes. */
  lemma CellsAreQuotedWhenNeeded(s: string)
    ensures '"' !in s && ',' !in s && '\n' !in s ==> EscapeCell(s) == s
    ensures '"' in s || ',' in s || '\n' in s ==>
              var e := EscapeCell(s); |e| >= |s| + 2 && e[0] == '"' && e[|e| - 1] == '"'
  {
    DoubledIsLonger(s);
  }

  lemma {:induction false} DoubledIsLonger(s: string)
    ensures |DoubleQuotes(s)| >= |s| && ('"' !in s ==> DoubleQuotes(s) == s)
    decreases |s|
  {
    if s != "" {
      DoubledIsLonger(s[1..]);
      assert s == [s[0]] + s[1..];
    }
  }

  // ----- the reader

  /** A field's value, and the text after it. */
  type Scanned = Option<(string, string)>

  /** The rest of a quoted field, after its opening quote; fails if the closing quote is missing. */
  function ScanQuoted(s: string): (r: Scanned)
    ensures r.Some? ==> |r.value.1| < |s|
    decreases |s|
  {
    if s == "" then None
    else if s[0] != '"' then Prepend(s[0], ScanQuoted(s[1..]))
    else if |s| >= 2 && s[1] == '"' then Prepend('"', ScanQuoted(s[2..]))
    else Some(("", s[1..]))
  }

  function Prepend(c: char, r: Scanned): Scanned {
    if r.Some? then Some(([c] + r.value.0, r.value.1)) else None
  }

  predicate EndsField(s: string) {
    s == "" || s[0] == ',' || "\r\n" <= s
  }

  function ScanPlain(s: string): (r: Scanned)
    ensures r.Some? ==> |r.value.1| <= |s|
    decreases |s|
  {
    if EndsField(s) then Some(("", s))
    else if s[0] == '"' then None
    else Prepend(s[0], ScanPlain(s[1..]))
  }

  function ScanField(s: string): (r: Scanned)
    ensures r.Some? ==> |r.value.1| <= |s|
  {
    if s != "" && s[0] == '"' then
      var r := ScanQuoted(s[1..]);
      if r.Some? && EndsField(r.value.1) then r else None
    else ScanPlain(s)
  }

  /** Every record of the text, the current one starting with the fields already read. */
  function ParseFrom(read: seq<string>, s: string): Option<seq<seq<string>>>
    decreases |s|
  {
    match ScanField(s)
    case None => None
    case Some((value, rest)) =>
      if rest == "" then Some([read + [value]])
      else if rest[0] == ',' then ParseFrom(read + [value], rest[1..])
      else if "\r\n" <= rest then
        match ParseFrom([], rest[2..])
        case None => None
        case Some(records) => Some([read + [value]] + records)
      else None
  }

  /** CRLF separates records. */
  function Parse(s: string): Option<seq<seq<string>>> {
    ParseFrom([], s)
  }

  /** CRLF may also end the last record: an empty line at the very end is not a record. */
  function ParseLenient(s: string): Option<seq<seq<string>>> {
    match Parse(s)
    case None => None
    case Some(records) =>
      if |records| > 1 && records[|records| - 1] == [""] then Some(records[..|records| - 1]) else Some(records)
  }

  // ----- the reader undoes the writer

  lemma {:induction false} QuotedRoundTrip(s: string, rest: string)
    requires rest == "" || rest[0] != '"'
    ensures ScanQuoted(DoubleQuotes(s) + "\"" + rest) == Some((s, rest))
    decreases |s|
  {
    var text := DoubleQuotes(s) + "\"" + rest;
    if s == "" {
      assert text[1..] == rest;
    } else {
      QuotedRoundTrip(s[1..], rest);
      var tail := DoubleQuotes(s[1..]) + "\"" + rest;
      if s[0] == '"' {
        assert text == "\"\"" + tail;
        assert text[2..] == tail;
      } else {
        assert text == [s[0]] + tail;
        assert text[1..] == tail;
      }
      assert [s[0]] + s[1..] == s;
    }
  }

  /** An unquoted field neither ends nor breaks off at any character of its own. */
  lemma PlainGoesOn(s: string, rest: string)
    requires s != "" && !NeedsQuoting(s) && EndsField(rest)
    ensures !EndsField(s + rest) && (s + rest)[0] == s[0] && s[0] != '"'
  {
    assert s[0] in s;
    if |s| > 1 {
      assert (s + rest)[1] == s[1] && s[1] in s;
    } else {
      assert (s + rest)[1..] == rest;
    }
  }

  lemma {:induction false} PlainRoundTrip(s: string, rest: string)
    requires !NeedsQuoting(s) && EndsField(rest)
    ensures ScanPlain(s + rest) == Some((s, rest))
    decreases |s|
  {
    if s == "" {
      assert s + rest == rest;
    } else {
      PlainRoundTrip(s[1..], rest);
      PlainGoesOn(s, rest);
      assert (s + rest)[1..] == s[1..] + rest;
      assert [s[0]] + s[1..] == s;
    }
  }

  lemma OpeningQuote(body: string)
    requires ScanQuoted(body).Some? && EndsField(ScanQuoted(body).value.1)
    ensures ScanField("\"" + body) == ScanQuoted(body)
  {
    assert ("\"" + body)[1..] == body;
  }

  lemma QuotedCellRoundTrip(s: string, rest: string)
    requires EndsField(rest)
    ensures ScanField("\"" + DoubleQuotes(s) + "\"" + rest) == Some((s, rest))
  {
    hide ScanQuoted, DoubleQuotes, ScanField;
    var body := DoubleQuotes(s) + "\"" + rest;
    QuotedRoundTrip(s, rest);
    OpeningQuote(body);
    assert "\"" + DoubleQuotes(s) + "\"" + rest == "\"" + body;
  }

  lemma PlainCellRoundTrip(s: string, rest: string)
    requires !NeedsQuoting(s) && EndsField(rest)
    ensures ScanField(s + rest) == Some((s, rest))
  {
    PlainRoundTrip(s, rest);
    var text := s + rest;
    assert text != "" ==> text[0] != '"' by {
      if s == "" {
        assert text == rest;
      } else {
        assert text[0] == s[0] && s[0] in s;
      }
    }
  }

  lemma CellRoundTrip(s: string, rest: string)
    requires EndsField(rest)
    ensures ScanField(EscapeCell(s) + rest) == Some((s, rest))
  {
    if NeedsQuoting(s) {
      QuotedCellRoundTrip(s, rest);
    } else {
      PlainCellRoundTrip(s, rest);
    }
  }

  /** What reading a rendered record gives: an empty record reads as one empty field. */
  function Readable(record: seq<string>): seq<string> {
    if record == [] then [""] else record
  }

  function ReadableAll(records: seq<seq<string>>): seq<seq<string>> {
    if records == [] then [] else [Readable(records[0])] + ReadableAll(records[1..])
  }

  /** How a field that reads as `value` is followed up, by what comes after it. */
  lemma ReadField(read: seq<string>, s: string, value: string, rest: string)
    requires ScanField(s) == Some((value, rest))
    ensures rest == "" ==> ParseFrom(read, s) == Some([read + [value]])
    ensures rest != "" && rest[0] == ',' ==> ParseFrom(read, s) == ParseFrom(read + [value], rest[1..])
    ensures "\r\n" <= rest ==>
              ParseFrom(read, s) ==
              match ParseFrom([], rest[2..])
              case None => None
              case Some(records) => Some([read + [value]] + records)
  {
    hide ScanField;
  }

  lemma Regroup(first: string, comma: string, others: string, rest: string)
    ensures first + comma + others + rest == first + (comma + (others + rest))
  {
  }

  lemma {:induction false} RecordRoundTrip(read: seq<string>, cells: seq<string>, rest: string)
    requires rest == "" || "\r\n" <= rest
    ensures ParseFrom(read, RenderRecord(cells) + rest) ==
            if rest == "" then Some([read + Readable(cells)])
            else match ParseFrom([], rest[2..])
                 case None => None
                 case Some(records) => Some([read + Readable(cells)] + records)
    decreases |cells|
  {
    if |cells| <= 1 {
      var cell := if cells == [] then "" else cells[0];
      assert RenderRecord(cells) == EscapeCell(cell);
      CellRoundTrip(cell, rest);
      hide ScanField, EscapeCell, RenderRecord, ParseFrom;
      ReadField(read, RenderRecord(cells) + rest, cell, rest);
      assert Readable(cells) == [cell];
    } else {
      var first, others := EscapeCell(cells[0]), RenderRecord(cells[1..]);
      assert RenderRecord(cells) == first + "," + others;
      hide ScanField, EscapeCell, RenderRecord, ParseFrom;
      var after := others + rest;
      var tail := "," + after;
      CellRoundTrip(cells[0], tail);
      Regroup(first, ",", others, rest);
      ReadField(read, first + tail, cells[0], tail);
      assert tail[1..] == after;
      RecordRoundTrip(read + [cells[0]], cells[1..], rest);
      assert read + [cells[0]] + Readable(cells[1..]) == read + Readable(cells);
    }
  }

  lemma {:induction false} RecordsRoundTrip(records: seq<seq<string>>)
    requires records != []
    ensures Parse(RenderRecords(records)) == Some(ReadableAll(records))
    decreases |records|
  {
    var first := records[0];
    assert [] + Readable(first) == Readable(first);
    if |records| == 1 {
      RecordRoundTrip([], first, "");
      assert RenderRecord(first) + "" == RenderRecord(first);
      assert ReadableAll(records) == [Readable(first)];
    } else {
      var rest := "\r\n" + RenderRecords(records[1..]);
      RecordRoundTrip([], first, rest);
      assert RenderRecords(records) == RenderRecord(first) + rest;
      assert rest[2..] == RenderRecords(records[1..]);
      RecordsRoundTrip(records[1..]);
    }
  }

  lemma {:induction false} ReadableAllIdentity(records: seq<seq<string>>)
    ensures |ReadableAll(records)| == |records|
    ensures forall i :: 0 <= i < |records| ==> ReadableAll(records)[i] == Readable(records[i])
    ensures ReadableAll(records) == records <==> [] !in records
    decreases |records|
  {
    if records != [] {
      ReadableAllIdentity(records[1..]);
      assert records == [records[0]] + records[1..];
      if ReadableAll(records) == records {
        assert ReadableAll(records)[1..] == ReadableAll(records[1..]);
        assert records[0] == Readable(records[0]);
      }
    }
  }

  /** A table comes back exactly when no record of it is empty, in particular when it has a column and full rows. */
  lemma TableRoundTrip(table: FormattedTable)
    ensures Parse(TableToCsv(table)) == Some([table.columns] + table.rows) <==>
              table.columns != [] && [] !in table.rows
    ensures (table.columns != [] && forall row :: row in table.rows ==> |row| == |table.columns|) ==>
              Parse(TableToCsv(table)) == Some([table.columns] + table.rows)
  {
    var records := [table.columns] + table.rows;
    RecordsRoundTrip(records);
    ReadableAllIdentity(records);
    assert [] in records <==> table.columns == [] || [] in table.rows by {
      assert records[0] == table.columns;
      assert forall row :: row in table.rows ==> row in records;
    }
  }

  /**
    A reader that lets CRLF end the last record loses a last row that is a single empty value,
    and nothing else, for tables with a column and full rows.
   */
  lemma LenientRoundTrip(table: FormattedTable)
    requires table.columns != [] && forall row :: row in table.rows ==> |row| == |table.columns|
    ensures ParseLenient(TableToCsv(table)) == Some([table.columns] + table.rows) <==>
              !(|table.columns| == 1 && table.rows != [] && table.rows[|table.rows| - 1] == [""])
  {
    TableRoundTrip(table);
    var records := [table.columns] + table.rows;
    if table.rows != [] {
      assert records[|records| - 1] == table.rows[|table.rows| - 1];
      assert table.rows[|table.rows| - 1] in table.rows;
    }
  }
}
