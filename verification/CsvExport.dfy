/** What an importer finds in an exported table and in plain text, cell by cell. */
module CsvExport {
  import opened Wrappers
  import opened Ordering
  import opened Csv

  // ---------------------------------------------------------------------------
  // Cells that a spreadsheet could take for a formula

  /** Exactly the values that start with one of four characters are prefixed, and no printed value starts with one. */
  lemma FormulaSafeExactly(value: string)
    ensures FormulaSafe(value) == value <==> value == "" || (value[0] != '=' && value[0] != '+' && value[0] != '-' && value[0] != '@')
    ensures FormulaSafe(value) != value ==> FormulaSafe(value) == ['\''] + value
    ensures FormulaSafe(value) != "" ==> FormulaSafe(value)[0] !in {'=', '+', '-', '@'}
  {
    if value != "" {
      assert FormulaSafe(value) == value || |FormulaSafe(value)| == |value| + 1;
    }
  }

  // ---------------------------------------------------------------------------
  // Records that are left out

  predicate HasText(record: Record) {
    exists j :: 0 <= j < |record| && record[j] != ""
  }

  lemma {:induction false} NonBlankHaveText(records: seq<Record>)
    ensures forall r :: r in NonBlank(records) <==> r in records && HasText(r)
    ensures (forall r :: r in records ==> HasText(r)) ==> NonBlank(records) == records
  {
    if records != [] {
      NonBlankHaveText(records[1..]);
      assert records == [records[0]] + records[1..];
      assert Blank(records[0]) <==> !HasText(records[0]);
    }
  }

  /** The importer returns records with some text only. */
  lemma ImportedHaveText(s: string)
    ensures Parse(s).Ok? ==> forall r :: r in Parse(s).value ==> HasText(r)
  {
    NonBlankHaveText(ReadText(s).records);
  }

  // ---------------------------------------------------------------------------
  // Exported values under their headers

  function ValueOf(row: map<string, string>, header: string): string {
    if header in row then row[header] else ""
  }

  predicate EndsWithCr(value: string) {
    value != "" && value[|value| - 1] == '\r'
  }

  /** A row with some text under the headers whose last value does not end in a carriage return. */
  predicate Printable(headers: Record, row: map<string, string>)
    requires headers != []
  {
    && (exists j :: 0 <= j < |headers| && ValueOf(row, headers[j]) != "")
    && !EndsWithCr(ValueOf(row, headers[|headers| - 1]))
  }

  lemma SafeKeepsEnd(value: string)
    ensures FormulaSafe(value) == "" <==> value == ""
    ensures EndsWithCr(FormulaSafe(value)) <==> EndsWithCr(value)
  {
  }

  lemma ReadAsPrinted(record: Record)
    requires record != [] && HasText(record) && !EndsWithCr(record[|record| - 1])
    ensures HasText(AsRead(record)) && |AsRead(record)| == |record|
    ensures forall j :: 0 <= j < |record| ==> AsRead(record)[j] == FormulaSafe(record[j])
  {
    SafeKeepsEnd(record[|record| - 1]);
    AsReadLength(record);
    var j :| 0 <= j < |record| && record[j] != "";
    SafeKeepsEnd(record[j]);
    assert AsRead(record)[j] != "";
  }

  lemma TabulatedRow(headers: Record, rows: seq<map<string, string>>, i: nat)
    requires i < |rows|
    ensures |Tabulate(headers, rows)| == 1 + |rows| && Tabulate(headers, rows)[0] == headers
    ensures |Tabulate(headers, rows)[i + 1]| == |headers|
    ensures forall j :: 0 <= j < |headers| ==> Tabulate(headers, rows)[i + 1][j] == ValueOf(rows[i], headers[j])
  {
  }

  /** Under each header the record has the value of the row, and nothing where it has none. */
  ghost predicate RowRead(headers: Record, row: map<string, string>, record: Record) {
    |record| == |headers| && forall j :: 0 <= j < |headers| ==> record[j] == FormulaSafe(ValueOf(row, headers[j]))
  }

  ghost predicate HeadersRead(headers: Record, record: Record) {
    |record| == |headers| && forall j :: 0 <= j < |headers| ==> record[j] == FormulaSafe(headers[j])
  }

  /** One record for the headers and one for each row. */
  ghost predicate ReadByHeader(headers: Record, rows: seq<map<string, string>>, records: seq<Record>) {
    && |records| == 1 + |rows| && HeadersRead(headers, records[0])
    && forall i :: 0 <= i < |rows| ==> RowRead(headers, rows[i], records[i + 1])
  }

  lemma ValuesReadAsPrinted(headers: Record, row: map<string, string>, record: Record)
    requires headers != [] && Printable(headers, row) && |record| == |headers|
    requires forall j :: 0 <= j < |headers| ==> record[j] == ValueOf(row, headers[j])
    ensures HasText(AsRead(record)) && RowRead(headers, row, AsRead(record))
  {
    var j :| 0 <= j < |headers| && ValueOf(row, headers[j]) != "";
    assert record[j] != "";
    ReadAsPrinted(record);
  }

  lemma RowReadAsPrinted(headers: Record, rows: seq<map<string, string>>, i: nat)
    requires headers != [] && i < |rows| && Printable(headers, rows[i])
    ensures var records := AllAsRead(Tabulate(headers, rows));
      |records| == 1 + |rows| && HasText(records[i + 1]) && RowRead(headers, rows[i], records[i + 1])
  {
    TabulatedRow(headers, rows, i);
    ValuesReadAsPrinted(headers, rows[i], Tabulate(headers, rows)[i + 1]);
  }

  lemma HeadersReadAsPrinted(headers: Record, rows: seq<map<string, string>>)
    requires headers != [] && HasText(headers) && !EndsWithCr(headers[|headers| - 1])
    ensures var records := AllAsRead(Tabulate(headers, rows));
      |records| == 1 + |rows| && HasText(records[0]) && HeadersRead(headers, records[0])
  {
    assert Tabulate(headers, rows)[0] == headers;
    ReadAsPrinted(headers);
  }

  lemma ReadRecords(headers: Record, rows: seq<map<string, string>>)
    requires headers != [] && HasText(headers) && !EndsWithCr(headers[|headers| - 1])
    requires forall i :: 0 <= i < |rows| ==> Printable(headers, rows[i])
    ensures ReadByHeader(headers, rows, AllAsRead(Tabulate(headers, rows)))
  {
    var records := AllAsRead(Tabulate(headers, rows));
    HeadersReadAsPrinted(headers, rows);
    forall i | 0 <= i < |rows| ensures RowRead(headers, rows[i], records[i + 1]) {
      RowReadAsPrinted(headers, rows, i);
    }
  }

  lemma ReadRecordHasText(headers: Record, rows: seq<map<string, string>>, k: nat)
    requires headers != [] && HasText(headers) && !EndsWithCr(headers[|headers| - 1])
    requires k <= |rows| && (k > 0 ==> Printable(headers, rows[k - 1]))
    ensures k < |AllAsRead(Tabulate(headers, rows))| && HasText(AllAsRead(Tabulate(headers, rows))[k])
  {
    if k == 0 {
      HeadersReadAsPrinted(headers, rows);
    } else {
      RowReadAsPrinted(headers, rows, k - 1);
    }
  }

  lemma AllHaveText(records: seq<Record>)
    requires forall k :: 0 <= k < |records| ==> HasText(records[k])
    ensures NonBlank(records) == records
  {
    NonBlankHaveText(records);
    forall r | r in records ensures HasText(r) {
      var k :| 0 <= k < |records| && records[k] == r;
    }
  }

  /** Importing a managed export gives back every value of every row under its own header. */
  lemma ExportReadsByHeader(headers: Record, rows: seq<map<string, string>>)
    requires headers != [] && HasText(headers) && !EndsWithCr(headers[|headers| - 1])
    requires forall i :: 0 <= i < |rows| ==> Printable(headers, rows[i])
    ensures var r := Parse(ExportCsv(headers, rows)); r.Ok? && ReadByHeader(headers, rows, r.value)
  {
    ReadRecords(headers, rows);
    var records := AllAsRead(Tabulate(headers, rows));
    forall k | 0 <= k < |records| ensures HasText(records[k]) {
      ReadRecordHasText(headers, rows, k);
    }
    AllHaveText(records);
    ImportUndoesManagedExport(headers, rows);
  }

  // ---------------------------------------------------------------------------
  // Plain text: no quotes, cells between commas, records between line ends

  predicate PlainCell(cell: string) {
    forall i :: 0 <= i < |cell| ==> cell[i] != '"' && cell[i] != ',' && cell[i] != '\n' && cell[i] != '\r'
  }

  predicate PlainTable(table: seq<Record>) {
    forall i :: 0 <= i < |table| ==> table[i] != [] && HasText(table[i]) && PlainRecord(table[i])
  }

  predicate PlainRecord(record: Record) {
    forall j :: 0 <= j < |record| ==> PlainCell(record[j])
  }

  function PlainLines(table: seq<Record>, cr: string): seq<string> {
    seq(|table|, i requires 0 <= i < |table| => JoinWith(',', table[i]) + cr)
  }

  lemma {:induction false} ReadPlain(cell: string, tail: string)
    requires forall i :: 0 <= i < |cell| ==> cell[i] != '"' && cell[i] != ',' && cell[i] != '\n'
    requires tail == "" || tail[0] == ',' || tail[0] == '\n'
    ensures ReadCell(false, cell + tail) == Scan(cell, tail, false)
  {
    if cell == "" {
      assert cell + tail == tail;
    } else {
      assert (cell + tail)[1..] == cell[1..] + tail;
      ReadPlain(cell[1..], tail);
    }
  }

  function AfterBreak(tail: string): string {
    if tail == "" then "" else tail[1..]
  }

  lemma ReadLastPlain(cell: string, cr: string, tail: string)
    requires PlainCell(cell) && (cr == "" || cr == "\r") && (tail == "" || tail[0] == '\n')
    ensures ReadRow(false, "", cell + cr + tail) == Row([cell], AfterBreak(tail), false)
  {
    ReadPlain(cell + cr, tail);
    assert "" + (cell + cr) == cell + cr;
    assert cr == "\r" ==> (cell + cr)[..|cell + cr| - 1] == cell;
    assert cr == "" ==> cell + cr == cell;
    assert StripCr(cell + cr) == cell;
  }

  lemma ReadFirstPlain(cell: string, others: string, row: Row)
    requires PlainCell(cell) && row == ReadRow(false, "", others)
    ensures ReadRow(false, "", cell + ([','] + others)) == row.(cells := [cell] + row.cells)
  {
    var tail := [','] + others;
    ReadPlain(cell, tail);
    assert tail[1..] == others && "" + cell == cell;
  }

  lemma Regrouped(first: string, separator: char, others: string, cr: string, tail: string)
    ensures first + [separator] + others + cr + tail == first + ([separator] + (others + cr + tail))
  {
  }

  lemma {:induction false} ReadPlainLine(record: Record, cr: string, tail: string)
    requires record != [] && PlainRecord(record) && (cr == "" || cr == "\r") && (tail == "" || tail[0] == '\n')
    ensures ReadRow(false, "", JoinWith(',', record) + cr + tail) == Row(record, AfterBreak(tail), false)
  {
    if |record| == 1 {
      ReadLastPlain(record[0], cr, tail);
      assert record == [record[0]];
    } else {
      var others := JoinWith(',', record[1..]) + cr + tail;
      ReadPlainLine(record[1..], cr, tail);
      ReadFirstPlain(record[0], others, ReadRow(false, "", others));
      Regrouped(record[0], ',', JoinWith(',', record[1..]), cr, tail);
      assert record == [record[0]] + record[1..];
    }
  }

  lemma {:induction false} LineHasText(record: Record)
    requires HasText(record)
    ensures JoinWith(',', record) != ""
  {
    if |record| > 1 {
      assert |JoinWith(',', record)| >= 1;
    }
  }

  lemma ReadPlainRecord(record: Record, cr: string, tail: string)
    requires record != [] && HasText(record) && PlainRecord(record)
    requires (cr == "" || cr == "\r") && (tail == "" || tail[0] == '\n')
    ensures var others := ReadText(AfterBreak(tail));
      ReadText(JoinWith(',', record) + cr + tail) == Text([record] + others.records, others.open)
  {
    LineHasText(record);
    ReadPlainLine(record, cr, tail);
  }

  lemma PlainTextCons(table: seq<Record>, cr: string)
    requires |table| > 1
    ensures JoinWith('\n', PlainLines(table, cr)) ==
            JoinWith(',', table[0]) + cr + (['\n'] + JoinWith('\n', PlainLines(table[1..], cr)))
  {
    assert PlainLines(table, cr)[1..] == PlainLines(table[1..], cr);
    Regrouped(JoinWith(',', table[0]) + cr, '\n', JoinWith('\n', PlainLines(table[1..], cr)), "", "");
  }

  lemma {:induction false} ReadPlainTable(table: seq<Record>, cr: string)
    requires table != [] && PlainTable(table) && (cr == "" || cr == "\r")
    ensures ReadText(JoinWith('\n', PlainLines(table, cr))) == Text(table, false)
  {
    var lines := PlainLines(table, cr);
    if |table| == 1 {
      ReadPlainRecord(table[0], cr, "");
      assert JoinWith('\n', lines) == JoinWith(',', table[0]) + cr + "";
      assert table == [table[0]];
    } else {
      ReadPlainTable(table[1..], cr);
      PlainTextCons(table, cr);
      var tail := ['\n'] + JoinWith('\n', PlainLines(table[1..], cr));
      assert tail[1..] == JoinWith('\n', PlainLines(table[1..], cr));
      ReadPlainRecord(table[0], cr, tail);
      assert table == [table[0]] + table[1..];
    }
  }

  /** Text without quotes is read cell by cell and line by line, whether lines end in LF or in CR LF. */
  lemma PlainTextReadsBack(table: seq<Record>, cr: string)
    requires table != [] && PlainTable(table) && (cr == "" || cr == "\r")
    ensures Parse(JoinWith('\n', PlainLines(table, cr))) == Ok(table)
  {
    ReadPlainTable(table, cr);
    AllHaveText(table);
  }
}
