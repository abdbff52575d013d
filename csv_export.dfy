/**
 * CSV export: field escaping following section 2 of RFC 4180 and the
 * assembly of the document, with a reader for that format against which
 * the export is proved to round-trip.
 */
module CsvExport {
  import opened Wrappers
  import opened Text

  /** The byte-order mark that starts the document. */
  const Bom: char := '\U{FEFF}'

  /** A column: its header label, how to get its value from a row, and an optional formatter. */
  datatype CsvColumn<!R, !V> = CsvColumn(columnLabel: string, getValue: R -> V, formatValue: Option<V -> string>)

  /** A field must be quoted when it holds a comma, a double quote, a line feed or a carriage return. */
  predicate NeedsQuoting(s: string)
  {
    ',' in s || '"' in s || '\n' in s || '\r' in s
  }

  /** Every double quote written twice. */
  function DoubleQuotes(s: string): (r: string)
    ensures forall i :: 0 <= i < |r| && r[i] != '"' ==> r[i] in s
  {
    if |s| == 0 then ""
    else (if s[0] == '"' then "\"\"" else [s[0]]) + DoubleQuotes(s[1..])
  }

  /** `escapeCsv`: a field needing quotes is quoted with its quotes doubled; any other is unchanged. */
  function EscapeCsv(s: string): (r: string)
    ensures !NeedsQuoting(s) ==> r == s
    ensures NeedsQuoting(s) ==> |r| >= 2 && r[0] == '"' && r[|r| - 1] == '"'
  {
    if NeedsQuoting(s) then "\"" + DoubleQuotes(s) + "\"" else s
  }

  /** Each field escaped, in order. */
  function EscapeAll(fields: seq<string>): (r: seq<string>)
    ensures |r| == |fields|
  {
    if |fields| == 0 then [] else [EscapeCsv(fields[0])] + EscapeAll(fields[1..])
  }

  /** A record: the escaped fields joined by commas. */
  function Record(fields: seq<string>): string
  {
    JoinWith(EscapeAll(fields), ",")
  }

  /** The text of a cell: `formatValue(v)` when given, otherwise `String(v ?? "")`, passed in as `show`. */
  function CellText<R, V>(c: CsvColumn<R, V>, row: R, show: V -> string): string
  {
    if c.formatValue.Some? then c.formatValue.value(c.getValue(row)) else show(c.getValue(row))
  }

  function Labels<R, V>(columns: seq<CsvColumn<R, V>>): (r: seq<string>)
    ensures |r| == |columns|
  {
    seq(|columns|, i requires 0 <= i < |columns| => columns[i].columnLabel)
  }

  function RowTexts<R, V>(columns: seq<CsvColumn<R, V>>, row: R, show: V -> string): (r: seq<string>)
    ensures |r| == |columns|
  {
    seq(|columns|, i requires 0 <= i < |columns| => CellText(columns[i], row, show))
  }

  /** The table the document holds: the labels, then one line of cell texts per row. */
  function Table<R, V>(columns: seq<CsvColumn<R, V>>, rows: seq<R>, show: V -> string): (t: seq<seq<string>>)
    ensures |t| == |rows| + 1
  {
    [Labels(columns)] + seq(|rows|, i requires 0 <= i < |rows| => RowTexts(columns, rows[i], show))
  }

  /** The document: the byte-order mark, then the records of the table joined by CRLF. */
  function Document(table: seq<seq<string>>): string
  {
    [Bom] + JoinWith(seq(|table|, i requires 0 <= i < |table| => Record(table[i])), "\r\n")
  }

  /**
   * `exportCsv` without the download: the header line, one line per row
   * in order, and the document built from them.
   */
  method ExportCsv<R, V>(columns: seq<CsvColumn<R, V>>, rows: seq<R>, show: V -> string) returns (doc: string)
    ensures doc == Document(Table(columns, rows, show))
  {
    var lines: seq<string> := [Record(Labels(columns))];
    for k := 0 to |rows|
      invariant |lines| == k + 1
      invariant forall i :: 0 <= i < k + 1 ==> lines[i] == Record(Table(columns, rows, show)[i])
    {
      var cells: seq<string> := [];
      for j := 0 to |columns|
        invariant cells == RowTexts(columns, rows[k], show)[..j]
      {
        cells := cells + [CellText(columns[j], rows[k], show)];
      }
      assert cells == RowTexts(columns, rows[k], show);
      lines := lines + [Record(cells)];
    }
    var table := Table(columns, rows, show);
    assert lines == seq(|table|, i requires 0 <= i < |table| => Record(table[i]));
    doc := [Bom] + JoinWith(lines, "\r\n");
  }

  // ---- The format, read back ----

  /** An unquoted field: the characters up to a comma, a carriage return or the end. */
  function ReadPlain(t: string, acc: string): (r: (string, string))
    ensures |r.1| <= |t|
  {
    if |t| == 0 || t[0] == ',' || t[0] == '\r' then (acc, t)
    else ReadPlain(t[1..], acc + [t[0]])
  }

  /** The inside of a quoted field: a doubled quote stands for one quote, a single quote closes it. */
  function ReadQuoted(t: string, acc: string): (r: (string, string))
    ensures |r.1| <= |t|
  {
    if |t| == 0 then (acc, "")
    else if t[0] == '"' then
      if |t| > 1 && t[1] == '"' then ReadQuoted(t[2..], acc + ['"'])
      else (acc, t[1..])
    else ReadQuoted(t[1..], acc + [t[0]])
  }

  /** One field and what follows it. */
  function ReadField(t: string): (r: (string, string))
    ensures |r.1| <= |t|
  {
    if |t| > 0 && t[0] == '"' then ReadQuoted(t[1..], "") else ReadPlain(t, "")
  }

  /** The comma-separated fields of one record and what follows it. */
  function ReadRecord(t: string): (r: (seq<string>, string))
    ensures |r.1| <= |t|
    decreases |t|
  {
    var (f, rest) := ReadField(t);
    if |rest| > 0 && rest[0] == ',' then
      var (fs, after) := ReadRecord(rest[1..]);
      ([f] + fs, after)
    else ([f], rest)
  }

  /** The CRLF-separated records of a text. */
  function ReadRecords(t: string): seq<seq<string>>
    decreases |t|
  {
    var (fs, rest) := ReadRecord(t);
    if |rest| >= 2 && rest[0] == '\r' && rest[1] == '\n' then [fs] + ReadRecords(rest[2..])
    else [fs]
  }

  /** A reader of the document: an optional leading byte-order mark, then the records. */
  function ReadCsv(doc: string): seq<seq<string>>
  {
    if |doc| > 0 && doc[0] == Bom then ReadRecords(doc[1..]) else ReadRecords(doc)
  }

  /** What may follow a field: nothing, a comma, or a line break. */
  predicate FieldEnd(rest: string)
  {
    |rest| == 0 || rest[0] == ',' || rest[0] == '\r'
  }

  lemma {:induction false} ReadPlainOf(s: string, rest: string, acc: string)
    requires ',' !in s && '\r' !in s && FieldEnd(rest)
    ensures ReadPlain(s + rest, acc) == (acc + s, rest)
  {
    if |s| == 0 {
      assert s + rest == rest && acc + s == acc;
    } else {
      assert (s + rest)[1..] == s[1..] + rest;
      ReadPlainOf(s[1..], rest, acc + [s[0]]);
      assert acc + [s[0]] + s[1..] == acc + s;
    }
  }

  lemma {:induction false} ReadQuotedOf(s: string, rest: string, acc: string)
    requires |rest| == 0 || rest[0] != '"'
    ensures ReadQuoted(DoubleQuotes(s) + "\"" + rest, acc) == (acc + s, rest)
  {
    var t := DoubleQuotes(s) + "\"" + rest;
    if |s| == 0 {
      assert t == "\"" + rest;
      assert t[1..] == rest && acc + s == acc;
    } else {
      ReadQuotedOf(s[1..], rest, acc + [s[0]]);
      assert acc + [s[0]] + s[1..] == acc + s;
      if s[0] == '"' {
        assert t == "\"\"" + (DoubleQuotes(s[1..]) + "\"" + rest);
      } else {
        assert t == [s[0]] + (DoubleQuotes(s[1..]) + "\"" + rest);
      }
    }
  }

  /** An escaped field followed by a field end reads back as the field. */
  lemma {:induction false} ReadFieldOf(s: string, rest: string)
    requires FieldEnd(rest)
    ensures ReadField(EscapeCsv(s) + rest) == (s, rest)
  {
    if NeedsQuoting(s) {
      ReadQuotedField(s, rest);
    } else {
      ReadPlainField(s, rest);
    }
  }

  lemma {:induction false} ReadQuotedField(s: string, rest: string)
    requires FieldEnd(rest)
    ensures ReadField("\"" + DoubleQuotes(s) + "\"" + rest) == (s, rest)
  {
    var t := "\"" + DoubleQuotes(s) + "\"" + rest;
    assert t[0] == '"' && t[1..] == DoubleQuotes(s) + "\"" + rest;
    ReadQuotedOf(s, rest, "");
    assert "" + s == s;
  }

  lemma {:induction false} ReadPlainField(s: string, rest: string)
    requires FieldEnd(rest) && !NeedsQuoting(s)
    ensures ReadField(s + rest) == (s, rest)
  {
    assert |s| > 0 ==> s[0] != '"';
    ReadPlainOf(s, rest, "");
    assert "" + s == s;
  }

  /** A record of at least one field, followed by nothing or a line break, reads back as its fields. */
  lemma {:induction false} ReadRecordOf(fields: seq<string>, rest: string)
    requires |fields| >= 1
    requires |rest| == 0 || rest[0] == '\r'
    ensures ReadRecord(Record(fields) + rest) == (fields, rest)
  {
    var esc := EscapeAll(fields);
    if |fields| == 1 {
      assert EscapeAll(fields) == [EscapeCsv(fields[0])];
      assert Record(fields) == EscapeCsv(fields[0]);
      ReadFieldOf(fields[0], rest);
      assert fields == [fields[0]];
    } else {
      assert EscapeAll(fields[1..]) == esc[1..];
      JoinWithCons(esc[0], esc[1..], ",");
      assert esc == [esc[0]] + esc[1..];
      var tail := Record(fields[1..]) + rest;
      assert Record(fields) + rest == EscapeCsv(fields[0]) + ("," + tail);
      ReadFieldOf(fields[0], "," + tail);
      assert ("," + tail)[1..] == tail;
      ReadRecordOf(fields[1..], rest);
      assert [fields[0]] + fields[1..] == fields;
    }
  }

  /** Records of at least one field each, joined by CRLF, read back as the records. */
  lemma {:induction false} ReadRecordsOf(table: seq<seq<string>>)
    requires |table| >= 1
    requires forall i :: 0 <= i < |table| ==> |table[i]| >= 1
    ensures ReadRecords(JoinWith(seq(|table|, i requires 0 <= i < |table| => Record(table[i])), "\r\n")) == table
  {
    var lines := seq(|table|, i requires 0 <= i < |table| => Record(table[i]));
    if |table| == 1 {
      ReadRecordOf(table[0], "");
      assert Record(table[0]) + "" == Record(table[0]);
    } else {
      var tailLines := seq(|table| - 1, i requires 0 <= i < |table| - 1 => Record(table[1..][i]));
      assert lines[1..] == tailLines;
      assert lines == [lines[0]] + lines[1..];
      JoinWithCons(lines[0], lines[1..], "\r\n");
      var after := JoinWith(tailLines, "\r\n");
      assert JoinWith(lines, "\r\n") == Record(table[0]) + ("\r\n" + after);
      ReadRecordOf(table[0], "\r\n" + after);
      assert ("\r\n" + after)[2..] == after;
      ReadRecordsOf(table[1..]);
      assert [table[0]] + table[1..] == table;
    }
  }

  /**
   * The exported document reads back, under section 2 of RFC 4180, as the
   * column labels followed by the cell texts of every row, whatever the
   * texts contain, as long as there is at least one column.
   */
  lemma ExportReadsBack<R, V>(columns: seq<CsvColumn<R, V>>, rows: seq<R>, show: V -> string)
    requires |columns| >= 1
    ensures ReadCsv(Document(Table(columns, rows, show))) == Table(columns, rows, show)
  {
    var table := Table(columns, rows, show);
    ReadRecordsOf(table);
    var doc := Document(table);
    assert doc[1..] == JoinWith(seq(|table|, i requires 0 <= i < |table| => Record(table[i])), "\r\n");
  }

  /** Without rows the document is the header line alone. */
  lemma NoRowsHeaderOnly<R, V>(columns: seq<CsvColumn<R, V>>, show: V -> string)
    ensures Document(Table(columns, [], show)) == [Bom] + Record(Labels(columns))
  {
    var table := Table(columns, [], show);
    assert seq(|table|, i requires 0 <= i < |table| => Record(table[i])) == [Record(Labels(columns))];
  }
}
