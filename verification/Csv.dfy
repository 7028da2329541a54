/** The CSV text that exports write and imports read back. */
module Csv {
  import opened Wrappers
  import opened Ordering

  type Record = seq<string>

  datatype CsvError = UnclosedQuote

  // ---------------------------------------------------------------------------
  // The grammar of a CSV text

  /** One cell: its text, what follows it, and whether a quote was left open. */
  datatype Scan = Scan(text: string, rest: string, open: bool)

  function Prepend(c: char, scan: Scan): Scan {
    scan.(text := [c] + scan.text)
  }

  /** Reads on to the delimiter that ends the cell, inside quotes or outside. */
  function ReadCell(quoted: bool, s: string): (scan: Scan)
    ensures |scan.rest| <= |s|
    ensures scan.open ==> scan.rest == ""
    ensures scan.rest != "" ==> scan.rest[0] == ',' || scan.rest[0] == '\n'
    decreases |s|
  {
    if s == "" then Scan("", "", quoted)
    else if quoted then
      if s[0] == '"' && |s| > 1 && s[1] == '"' then Prepend('"', ReadCell(true, s[2..]))
      else if s[0] == '"' then ReadCell(false, s[1..])
      else Prepend(s[0], ReadCell(true, s[1..]))
    else if s[0] == '"' then ReadCell(true, s[1..])
    else if s[0] == ',' || s[0] == '\n' then Scan("", s, false)
    else Prepend(s[0], ReadCell(false, s[1..]))
  }

  /** Drops one carriage return at the very end. */
  function StripCr(cell: string): string {
    if cell != "" && cell[|cell| - 1] == '\r' then cell[..|cell| - 1] else cell
  }

  /** One record: its cells and what follows its line break. */
  datatype Row = Row(cells: Record, rest: string, open: bool)

  /** Reads the rest of a record whose current cell begins with start. */
  function ReadRow(quoted: bool, start: string, s: string): (row: Row)
    ensures s != "" ==> |row.rest| < |s|
    ensures s == "" ==> row.rest == ""
    decreases |s|
  {
    var scan := ReadCell(quoted, s);
    if scan.rest == "" then Row([StripCr(start + scan.text)], "", scan.open)
    else if scan.rest[0] == ',' then
      var row := ReadRow(false, "", scan.rest[1..]);
      row.(cells := [start + scan.text] + row.cells)
    else Row([StripCr(start + scan.text)], scan.rest[1..], false)
  }

  datatype Text = Text(records: seq<Record>, open: bool)

  function ReadText(s: string): Text
    decreases |s|
  {
    if s == "" then Text([], false)
    else
      var row := ReadRow(false, "", s);
      var others := ReadText(row.rest);
      Text([row.cells] + others.records, row.open || others.open)
  }

  predicate Blank(record: Record) {
    forall i :: 0 <= i < |record| ==> record[i] == ""
  }

  function NonBlank(records: seq<Record>): seq<Record> {
    if records == [] then []
    else (if Blank(records[0]) then [] else [records[0]]) + NonBlank(records[1..])
  }

  /** What the importer makes of a text: its records that are not blank, or a refusal. */
  function Parse(s: string): Result<seq<Record>, CsvError> {
    if ReadText(s).open then Err(UnclosedQuote) else Ok(NonBlank(ReadText(s).records))
  }

  lemma {:induction false} NonBlankAppend(xs: seq<Record>, ys: seq<Record>)
    ensures NonBlank(xs + ys) == NonBlank(xs) + NonBlank(ys)
  {
    if xs == [] {
      assert xs + ys == ys;
    } else {
      NonBlankAppend(xs[1..], ys);
      assert (xs + ys)[1..] == xs[1..] + ys;
      var head := if Blank(xs[0]) then [] else [xs[0]];
      assert head + (NonBlank(xs[1..]) + NonBlank(ys)) == (head + NonBlank(xs[1..])) + NonBlank(ys);
    }
  }

  // ---------------------------------------------------------------------------
  // The quote left open is a matter of parity

  function Quotes(s: string): nat {
    if s == "" then 0 else (if s[0] == '"' then 1 else 0) + Quotes(s[1..])
  }

  predicate OddQuotes(s: string) {
    s != "" && ((s[0] == '"') != OddQuotes(s[1..]))
  }

  lemma {:induction false} OddQuotesCounts(s: string)
    ensures OddQuotes(s) <==> Quotes(s) % 2 == 1
  {
    if s != "" {
      OddQuotesCounts(s[1..]);
    }
  }

  lemma {:induction false} QuotesAppend(s: string, c: char)
    ensures OddQuotes(s + [c]) == (OddQuotes(s) != (c == '"'))
  {
    if s == "" {
      assert s + [c] == [c];
    } else {
      QuotesAppend(s[1..], c);
      assert (s + [c])[1..] == s[1..] + [c];
    }
  }

  lemma {:induction false} CellParity(quoted: bool, s: string)
    ensures var scan := ReadCell(quoted, s);
      scan.open == (quoted != (OddQuotes(s) != OddQuotes(scan.rest)))
    decreases |s|
  {
    if s != "" {
      if quoted && s[0] == '"' && |s| > 1 && s[1] == '"' {
        CellParity(true, s[2..]);
        assert s[1..][1..] == s[2..];
      } else if quoted {
        CellParity(s[0] != '"', s[1..]);
      } else if s[0] != ',' && s[0] != '\n' {
        CellParity(s[0] == '"', s[1..]);
      }
    }
  }

  lemma {:induction false} RowParity(quoted: bool, start: string, s: string)
    ensures var row := ReadRow(quoted, start, s);
      && row.open == (quoted != (OddQuotes(s) != OddQuotes(row.rest)))
      && (row.open ==> row.rest == "")
    decreases |s|
  {
    CellParity(quoted, s);
    var scan := ReadCell(quoted, s);
    if scan.rest != "" && scan.rest[0] == ',' {
      RowParity(false, "", scan.rest[1..]);
    }
  }

  /** A quote is left open exactly when the text holds an odd number of quotes. */
  lemma {:induction false} OpenIffOddQuotes(s: string)
    ensures ReadText(s).open <==> OddQuotes(s)
    decreases |s|
  {
    if s != "" {
      RowParity(false, "", s);
      OpenIffOddQuotes(ReadRow(false, "", s).rest);
    }
  }

  // ---------------------------------------------------------------------------
  // The importer's loop

  /** The records still to come when the loop is inside a record, at the suffix s. */
  function Ahead(record: Record, field: string, quoted: bool, s: string): Text {
    var row := ReadRow(quoted, field, s);
    var others := ReadText(row.rest);
    Text([record + row.cells] + others.records, row.open || others.open)
  }

  /** One loop iteration moves one step through the grammar. */
  lemma AheadInside(record: Record, field: string, s: string)
    requires s != ""
    ensures |s| > 1 && s[0] == '"' && s[1] == '"' ==>
      Ahead(record, field, true, s) == Ahead(record, field + ['"'], true, s[2..])
    ensures s[0] == '"' && !(|s| > 1 && s[1] == '"') ==>
      Ahead(record, field, true, s) == Ahead(record, field, false, s[1..])
    ensures s[0] != '"' ==>
      Ahead(record, field, true, s) == Ahead(record, field + [s[0]], true, s[1..])
  {
    var next := if |s| > 1 && s[0] == '"' && s[1] == '"' then ReadCell(true, s[2..]) else ReadCell(true, s[1..]);
    assert field + ([s[0]] + next.text) == (field + [s[0]]) + next.text;
  }

  lemma AheadOutside(record: Record, field: string, s: string)
    requires s != ""
    ensures s[0] == '"' ==> Ahead(record, field, false, s) == Ahead(record, field, true, s[1..])
    ensures s[0] == ',' ==> Ahead(record, field, false, s) == Ahead(record + [field], "", false, s[1..])
    ensures s[0] == '\n' ==>
      Ahead(record, field, false, s).records == [record + [StripCr(field)]] + ReadText(s[1..]).records &&
      Ahead(record, field, false, s).open == ReadText(s[1..]).open
    ensures s[0] != '"' && s[0] != ',' && s[0] != '\n' ==>
      Ahead(record, field, false, s) == Ahead(record, field + [s[0]], false, s[1..])
  {
    var next := ReadCell(false, s[1..]);
    assert field + ([s[0]] + next.text) == (field + [s[0]]) + next.text;
    assert field + "" == field;
    if s[0] == ',' {
      var row := ReadRow(false, "", s[1..]);
      assert record + ([field] + row.cells) == (record + [field]) + row.cells;
    }
  }

  /** At the start of a record, what is ahead is the text itself, blank records apart. */
  lemma AheadAtStart(s: string)
    ensures NonBlank(Ahead([], "", false, s).records) == NonBlank(ReadText(s).records)
    ensures Ahead([], "", false, s).open == ReadText(s).open
  {
    var row := ReadRow(false, "", s);
    assert [] + row.cells == row.cells;
  }

  /** The loop's state, with the suffix s still to read, leads to the records of the whole text. */
  ghost predicate LeadsTo(
      whole: string, records: seq<Record>, record: Record, field: string, quoted: bool, s: string)
  {
    && records + NonBlank(Ahead(record, field, quoted, s).records) == NonBlank(ReadText(whole).records)
    && Ahead(record, field, quoted, s).open == ReadText(whole).open
  }

  /** Keeps the record unless all its cells are empty. */
  function Keep(records: seq<Record>, record: Record): seq<Record> {
    if Blank(record) then records else records + [record]
  }

  lemma KeepNonBlank(records: seq<Record>, record: Record, others: seq<Record>)
    ensures records + NonBlank([record] + others) == Keep(records, record) + NonBlank(others)
  {
    NonBlankAppend([record], others);
    assert [record][1..] == [];
  }

  lemma InsideLeads(whole: string, records: seq<Record>, record: Record, field: string, s: string)
    requires s != "" && LeadsTo(whole, records, record, field, true, s)
    ensures |s| > 1 && s[0] == '"' && s[1] == '"' ==> LeadsTo(whole, records, record, field + ['"'], true, s[2..])
    ensures s[0] == '"' && !(|s| > 1 && s[1] == '"') ==> LeadsTo(whole, records, record, field, false, s[1..])
    ensures s[0] != '"' ==> LeadsTo(whole, records, record, field + [s[0]], true, s[1..])
  {
    AheadInside(record, field, s);
  }

  lemma OutsideLeads(whole: string, records: seq<Record>, record: Record, field: string, s: string)
    requires s != "" && LeadsTo(whole, records, record, field, false, s)
    ensures s[0] == '"' ==> LeadsTo(whole, records, record, field, true, s[1..])
    ensures s[0] == ',' ==> LeadsTo(whole, records, record + [field], "", false, s[1..])
    ensures s[0] == '\n' ==> LeadsTo(whole, Keep(records, record + [StripCr(field)]), [], "", false, s[1..])
    ensures s[0] != '"' && s[0] != ',' && s[0] != '\n' ==>
      LeadsTo(whole, records, record, field + [s[0]], false, s[1..])
  {
    AheadOutside(record, field, s);
    if s[0] == '\n' {
      NewRecordLeads(whole, records, record, field, s);
    }
  }

  lemma NewRecordLeads(whole: string, records: seq<Record>, record: Record, field: string, s: string)
    requires s != "" && s[0] == '\n' && LeadsTo(whole, records, record, field, false, s)
    ensures LeadsTo(whole, Keep(records, record + [StripCr(field)]), [], "", false, s[1..])
  {
    AheadOutside(record, field, s);
    AheadAtStart(s[1..]);
    KeepNonBlank(records, record + [StripCr(field)], ReadText(s[1..]).records);
  }

  lemma EndLeads(whole: string, records: seq<Record>, record: Record, field: string, quoted: bool)
    requires LeadsTo(whole, records, record, field, quoted, "")
    ensures NonBlank(ReadText(whole).records) == Keep(records, record + [StripCr(field)])
    ensures ReadText(whole).open == quoted
    ensures field == "" && record == [] ==> Keep(records, record + [StripCr(field)]) == records
  {
    assert field + "" == field;
    KeepNonBlank(records, record + [StripCr(field)], []);
  }

  /** The loop invariant: what was read is accounted for, and quoted is the parity of its quotes. */
  ghost predicate Reached(
      input: string, index: int, records: seq<Record>, record: Record, field: string, quoted: bool)
  {
    && 0 <= index <= |input|
    && LeadsTo(input, records, record, field, quoted, input[index..])
    && (quoted <==> OddQuotes(input[..index]))
  }

  lemma QuotesUpTo(input: string, index: nat)
    requires index < |input|
    ensures OddQuotes(input[..index + 1]) == (OddQuotes(input[..index]) != (input[index] == '"'))
  {
    assert input[..index + 1] == input[..index] + [input[index]];
    QuotesAppend(input[..index], input[index]);
  }

  lemma StepInside(input: string, index: int, records: seq<Record>, record: Record, field: string)
    requires Reached(input, index, records, record, field, true) && index < |input|
    ensures var doubled := index + 1 < |input| && input[index + 1] == '"';
      if input[index] == '"' && doubled then Reached(input, index + 2, records, record, field + ['"'], true)
      else if input[index] == '"' then Reached(input, index + 1, records, record, field, false)
      else Reached(input, index + 1, records, record, field + [input[index]], true)
  {
    var s := input[index..];
    assert s[1..] == input[index + 1..];
    InsideLeads(input, records, record, field, s);
    QuotesUpTo(input, index);
    if index + 1 < |input| {
      assert s[2..] == input[index + 2..];
      QuotesUpTo(input, index + 1);
    }
  }

  lemma StepOutside(input: string, index: int, records: seq<Record>, record: Record, field: string)
    requires Reached(input, index, records, record, field, false) && index < |input|
    ensures match input[index]
      case '"' => Reached(input, index + 1, records, record, field, true)
      case ',' => Reached(input, index + 1, records, record + [field], "", false)
      case '\n' => Reached(input, index + 1, Keep(records, record + [StripCr(field)]), [], "", false)
      case c => Reached(input, index + 1, records, record, field + [c], false)
  {
    var s := input[index..];
    assert s[1..] == input[index + 1..];
    OutsideLeads(input, records, record, field, s);
    QuotesUpTo(input, index);
  }

  lemma ReachedStart(input: string)
    ensures Reached(input, 0, [], [], "", false)
  {
    assert input[0..] == input;
    AheadAtStart(input);
  }

  lemma ReachedEnd(input: string, records: seq<Record>, record: Record, field: string, quoted: bool)
    requires Reached(input, |input|, records, record, field, quoted)
    ensures quoted <==> Quotes(input) % 2 == 1
    ensures Parse(input) == if quoted then Err(UnclosedQuote) else Ok(Keep(records, record + [StripCr(field)]))
    ensures field == "" && record == [] ==> Keep(records, record + [StripCr(field)]) == records
  {
    assert input[|input|..] == "" && input[..|input|] == input;
    EndLeads(input, records, record, field, quoted);
    OddQuotesCounts(input);
  }

  /** The importer's loop. */
  method ParseCsvRecords(input: string) returns (r: Result<seq<Record>, CsvError>)
    ensures r == Parse(input)
    ensures r.Err? <==> Quotes(input) % 2 == 1
  {
    var records: seq<Record>, record: Record, field, quoted := [], [], "", false;
    var index := 0;
    ReachedStart(input);
    while index < |input|
      invariant Reached(input, index, records, record, field, quoted)
    {
      var character := input[index];
      if quoted {
        StepInside(input, index, records, record, field);
        if character == '"' && index + 1 < |input| && input[index + 1] == '"' {
          field := field + ['"'];
          index := index + 1;
        } else if character == '"' {
          quoted := false;
        } else {
          field := field + [character];
        }
      } else {
        StepOutside(input, index, records, record, field);
        if character == '"' {
          quoted := true;
        } else if character == ',' {
          record := record + [field];
          field := "";
        } else if character == '\n' {
          record := record + [StripCr(field)];
          records := Keep(records, record);
          record := [];
          field := "";
        } else {
          field := field + [character];
        }
      }
      index := index + 1;
    }
    ReachedEnd(input, records, record, field, quoted);
    if field != "" || record != [] {
      record := record + [StripCr(field)];
      if !Blank(record) {
        records := records + [record];
      }
    }
    if quoted {
      return Err(UnclosedQuote);
    }
    return Ok(records);
  }

  // ---------------------------------------------------------------------------
  // The printer

  function JoinWith(separator: char, parts: seq<string>): string {
    if parts == [] then ""
    else if |parts| == 1 then parts[0]
    else parts[0] + [separator] + JoinWith(separator, parts[1..])
  }

  predicate LooksLikeFormula(value: string) {
    value != "" && value[0] in {'=', '+', '-', '@'}
  }

  /** Text that a spreadsheet would take for a formula is prefixed with an apostrophe. */
  function FormulaSafe(value: string): string {
    if LooksLikeFormula(value) then "'" + value else value
  }

  function DoubleQuotes(value: string): string {
    if value == "" then ""
    else (if value[0] == '"' then "\"\"" else [value[0]]) + DoubleQuotes(value[1..])
  }

  function CsvCell(value: string): string {
    "\"" + DoubleQuotes(FormulaSafe(value)) + "\""
  }

  function CsvCells(record: Record): seq<string> {
    seq(|record|, i requires 0 <= i < |record| => CsvCell(record[i]))
  }

  function CsvLine(record: Record): string {
    JoinWith(',', CsvCells(record))
  }

  function CsvLines(table: seq<Record>): seq<string> {
    seq(|table|, i requires 0 <= i < |table| => CsvLine(table[i]))
  }

  function CsvText(table: seq<Record>): string {
    JoinWith('\n', CsvLines(table))
  }

  /** The header and the rows of an export; a row has no value for some headers perhaps. */
  function Tabulate(headers: Record, rows: seq<map<string, string>>): seq<Record> {
    [headers] + seq(|rows|, i requires 0 <= i < |rows| =>
      seq(|headers|, j requires 0 <= j < |headers| =>
        if headers[j] in rows[i] then rows[i][headers[j]] else ""))
  }

  function ExportCsv(headers: Record, rows: seq<map<string, string>>): string {
    CsvText(Tabulate(headers, rows))
  }

  // ---------------------------------------------------------------------------
  // Reading back what was printed

  /** Where a printed cell may end. */
  predicate AtDelimiter(tail: string) {
    tail == "" || tail[0] == ',' || tail[0] == '\n'
  }

  lemma {:induction false} ReadQuoted(value: string, tail: string)
    requires AtDelimiter(tail)
    ensures ReadCell(true, DoubleQuotes(value) + ("\"" + tail)) == Scan(value, tail, false)
  {
    if value == "" {
      CloseQuote(tail);
    } else {
      ReadQuoted(value[1..], tail);
      QuotedCons(value[0], DoubleQuotes(value[1..]) + ("\"" + tail));
      assert value == [value[0]] + value[1..];
      var c := if value[0] == '"' then "\"\"" else [value[0]];
      assert c + DoubleQuotes(value[1..]) + ("\"" + tail) == c + (DoubleQuotes(value[1..]) + ("\"" + tail));
    }
  }

  lemma CloseQuote(tail: string)
    requires AtDelimiter(tail)
    ensures ReadCell(true, "" + ("\"" + tail)) == Scan("", tail, false)
  {
    var s := "" + ("\"" + tail);
    assert s == "\"" + tail;
    assert s[1..] == tail;
  }

  lemma QuotedCons(c: char, rest: string)
    ensures ReadCell(true, (if c == '"' then "\"\"" else [c]) + rest) == Prepend(c, ReadCell(true, rest))
  {
    if c == '"' {
      assert ("\"\"" + rest)[2..] == rest;
    } else {
      assert ([c] + rest)[1..] == rest;
    }
  }

  lemma ReadPrintedCell(value: string, tail: string)
    requires AtDelimiter(tail)
    ensures ReadCell(false, CsvCell(value) + tail) == Scan(FormulaSafe(value), tail, false)
  {
    ReadQuoted(FormulaSafe(value), tail);
    var s := CsvCell(value) + tail;
    assert s[0] == '"';
    assert s[1..] == DoubleQuotes(FormulaSafe(value)) + ("\"" + tail);
  }

  function SafeCells(record: Record): Record {
    seq(|record|, i requires 0 <= i < |record| => FormulaSafe(record[i]))
  }

  /** A record as the importer sees it: a carriage return that ends it is lost. */
  function StripLast(record: Record): Record {
    if record == [] then [] else record[..|record| - 1] + [StripCr(record[|record| - 1])]
  }

  function AsRead(record: Record): Record {
    StripLast(SafeCells(record))
  }

  function AllAsRead(table: seq<Record>): seq<Record> {
    seq(|table|, i requires 0 <= i < |table| => AsRead(table[i]))
  }

  lemma CellThenRow(value: string, others: string, row: Row)
    requires row == ReadRow(false, "", others)
    ensures ReadRow(false, "", CsvCell(value) + ([','] + others)) == row.(cells := [FormulaSafe(value)] + row.cells)
  {
    var tail := [','] + others;
    ReadPrintedCell(value, tail);
    assert tail[1..] == others;
    assert "" + FormulaSafe(value) == FormulaSafe(value);
  }

  lemma LastCell(value: string, tail: string)
    requires tail == "" || tail[0] == '\n'
    ensures ReadRow(false, "", CsvCell(value) + tail) ==
            Row([StripCr(FormulaSafe(value))], if tail == "" then "" else tail[1..], false)
  {
    ReadPrintedCell(value, tail);
    assert "" + FormulaSafe(value) == FormulaSafe(value);
  }

  lemma AsReadCons(record: Record)
    requires |record| > 1
    ensures AsRead(record) == [FormulaSafe(record[0])] + AsRead(record[1..])
  {
    assert SafeCells(record)[1..] == SafeCells(record[1..]);
  }

  lemma LineCons(record: Record, tail: string)
    requires |record| > 1
    ensures CsvLine(record) + tail == CsvCell(record[0]) + ([','] + (CsvLine(record[1..]) + tail))
  {
    assert CsvCells(record)[1..] == CsvCells(record[1..]);
  }

  lemma {:induction false} ReadPrintedLine(record: Record, tail: string)
    requires record != []
    requires tail == "" || tail[0] == '\n'
    ensures ReadRow(false, "", CsvLine(record) + tail) ==
            Row(AsRead(record), if tail == "" then "" else tail[1..], false)
  {
    if |record| == 1 {
      LastCell(record[0], tail);
      assert AsRead(record) == [StripCr(FormulaSafe(record[0]))];
    } else {
      ReadPrintedLine(record[1..], tail);
      LineCons(record, tail);
      CellThenRow(record[0], CsvLine(record[1..]) + tail, ReadRow(false, "", CsvLine(record[1..]) + tail));
      AsReadCons(record);
    }
  }

  lemma LineNotEmpty(record: Record)
    requires record != []
    ensures CsvLine(record) != "" && CsvLine(record)[0] == '"'
  {
  }

  lemma LineThenText(record: Record, others: string)
    requires record != []
    ensures ReadText(CsvLine(record) + (['\n'] + others)) ==
            Text([AsRead(record)] + ReadText(others).records, ReadText(others).open)
  {
    var tail := ['\n'] + others;
    LineNotEmpty(record);
    ReadPrintedLine(record, tail);
    assert tail[1..] == others;
  }

  lemma LastLine(record: Record)
    requires record != []
    ensures ReadText(CsvLine(record)) == Text([AsRead(record)], false)
  {
    LineNotEmpty(record);
    ReadPrintedLine(record, "");
    assert CsvLine(record) + "" == CsvLine(record);
  }

  lemma AllAsReadCons(table: seq<Record>)
    requires table != []
    ensures AllAsRead(table) == [AsRead(table[0])] + AllAsRead(table[1..])
  {
  }

  lemma TextCons(table: seq<Record>)
    requires |table| > 1
    ensures CsvText(table) == CsvLine(table[0]) + (['\n'] + CsvText(table[1..]))
  {
    assert CsvLines(table)[1..] == CsvLines(table[1..]);
  }

  /** Records that have at least one cell are read back one by one. */
  lemma {:induction false} ReadPrintedTable(table: seq<Record>)
    requires table != [] && forall i :: 0 <= i < |table| ==> table[i] != []
    ensures ReadText(CsvText(table)) == Text(AllAsRead(table), false)
  {
    if |table| == 1 {
      LastLine(table[0]);
      assert AllAsRead(table) == [AsRead(table[0])];
    } else {
      ReadPrintedTable(table[1..]);
      LineThenText(table[0], CsvText(table[1..]));
      TextCons(table);
      AllAsReadCons(table);
    }
  }

  lemma {:induction false} BlankLinesReadBlank(n: nat)
    ensures var s := seq(n, _ => '\n');
      ReadText(s) == Text(seq(n, _ => [""]), false) && NonBlank(seq(n, _ => [""])) == []
  {
    if n > 0 {
      BlankLinesReadBlank(n - 1);
      var s := seq(n, _ => '\n');
      assert s[1..] == seq(n - 1, _ => '\n');
      assert seq<Record>(n, _ => [""]) == [[""]] + seq(n - 1, _ => [""]);
    }
  }

  lemma {:induction false} NonBlankOfEmpty(table: seq<Record>)
    requires forall i :: 0 <= i < |table| ==> table[i] == []
    ensures NonBlank(AllAsRead(table)) == []
  {
    if table != [] {
      NonBlankOfEmpty(table[1..]);
      assert AllAsRead(table)[1..] == AllAsRead(table[1..]);
    }
  }

  lemma {:induction false} TextWithoutColumns(table: seq<Record>)
    requires table != [] && forall i :: 0 <= i < |table| ==> table[i] == []
    ensures CsvText(table) == seq(|table| - 1, _ => '\n')
  {
    if |table| > 1 {
      TextWithoutColumns(table[1..]);
      assert CsvLines(table)[1..] == CsvLines(table[1..]);
      assert CsvText(table) == ['\n'] + CsvText(table[1..]);
    } else {
      assert CsvText(table) == "";
    }
  }

  /** All records of the table have the same number of cells. */
  predicate Rectangular(table: seq<Record>) {
    forall i, j :: 0 <= i < |table| && 0 <= j < |table| ==> |table[i]| == |table[j]|
  }

  /**
   Importing what was exported gives the header and the rows that are not blank, cell for
   cell up to the formula prefix and a carriage return at the very end of a record,
   whatever quotes, commas and line breaks the cells contain.
   */
  lemma ImportUndoesExport(table: seq<Record>)
    requires table != [] && Rectangular(table)
    ensures Parse(CsvText(table)) == Ok(NonBlank(AllAsRead(table)))
  {
    if table[0] == [] {
      assert forall i :: 0 <= i < |table| ==> |table[i]| == |table[0]|;
      TextWithoutColumns(table);
      BlankLinesReadBlank(|table| - 1);
      NonBlankOfEmpty(table);
    } else {
      assert forall i :: 0 <= i < |table| ==> |table[i]| == |table[0]|;
      ReadPrintedTable(table);
    }
  }

  lemma ImportUndoesManagedExport(headers: Record, rows: seq<map<string, string>>)
    ensures Parse(ExportCsv(headers, rows)) == Ok(NonBlank(AllAsRead(Tabulate(headers, rows))))
  {
    ImportUndoesExport(Tabulate(headers, rows));
  }

  // ---------------------------------------------------------------------------
  // When nothing at all is lost

  predicate EndsInCr(record: Record) {
    record != [] &&
    var last := FormulaSafe(record[|record| - 1]);
    last != "" && last[|last| - 1] == '\r'
  }

  function AllSafe(table: seq<Record>): seq<Record> {
    seq(|table|, i requires 0 <= i < |table| => SafeCells(table[i]))
  }

  function CellLengths(record: Record): nat {
    if record == [] then 0 else CellLengths(record[..|record| - 1]) + |record[|record| - 1]|
  }

  function TextLength(records: seq<Record>): nat {
    if records == [] then 0 else CellLengths(records[0]) + TextLength(records[1..])
  }

  lemma {:induction false} BlankHasNoLength(record: Record)
    requires Blank(record)
    ensures CellLengths(record) == 0
  {
    if record != [] {
      BlankHasNoLength(record[..|record| - 1]);
    }
  }

  lemma {:induction false} NonBlankKeepsLength(records: seq<Record>)
    ensures TextLength(NonBlank(records)) == TextLength(records)
  {
    if records != [] {
      NonBlankKeepsLength(records[1..]);
      if Blank(records[0]) {
        BlankHasNoLength(records[0]);
        assert [] + NonBlank(records[1..]) == NonBlank(records[1..]);
      } else {
        assert ([records[0]] + NonBlank(records[1..]))[1..] == NonBlank(records[1..]);
      }
    }
  }

  lemma AsReadLength(record: Record)
    ensures CellLengths(AsRead(record)) == CellLengths(SafeCells(record)) - (if EndsInCr(record) then 1 else 0)
    ensures !EndsInCr(record) ==> AsRead(record) == SafeCells(record)
  {
    if record != [] {
      var safe := SafeCells(record);
      var front := safe[..|safe| - 1];
      assert AsRead(record)[..|record| - 1] == front;
    }
  }

  lemma {:induction false} AllAsReadLength(table: seq<Record>)
    ensures TextLength(AllAsRead(table)) <= TextLength(AllSafe(table))
    ensures (exists i :: 0 <= i < |table| && EndsInCr(table[i])) ==>
      TextLength(AllAsRead(table)) < TextLength(AllSafe(table))
  {
    if table != [] {
      AllAsReadLength(table[1..]);
      AsReadLength(table[0]);
      assert AllAsRead(table)[1..] == AllAsRead(table[1..]);
      assert AllSafe(table)[1..] == AllSafe(table[1..]);
      if i :| 0 <= i < |table| && EndsInCr(table[i]) {
        assert i > 0 ==> EndsInCr(table[1..][i - 1]);
      }
    }
  }

  /** The import returns every cell of every non-blank record exactly if no record ends in a carriage return. */
  lemma ImportExact(table: seq<Record>)
    requires table != [] && Rectangular(table)
    ensures Parse(CsvText(table)) == Ok(NonBlank(AllSafe(table))) <==>
            forall i :: 0 <= i < |table| ==> !EndsInCr(table[i])
  {
    ImportUndoesExport(table);
    NonBlankKeepsLength(AllAsRead(table));
    NonBlankKeepsLength(AllSafe(table));
    AllAsReadLength(table);
    if forall i :: 0 <= i < |table| ==> !EndsInCr(table[i]) {
      forall i | 0 <= i < |table| ensures AllAsRead(table)[i] == AllSafe(table)[i] {
        AsReadLength(table[i]);
      }
      assert AllAsRead(table) == AllSafe(table);
    }
  }

  /** The prefix is the only thing an import cannot undo: when two cells print alike. */
  lemma FormulaPrefixAmbiguity(v: string, w: string)
    ensures CsvCell(v) == CsvCell(w) <==>
            v == w || (LooksLikeFormula(w) && v == "'" + w) || (LooksLikeFormula(v) && w == "'" + v)
  {
    ReadPrintedCell(v, "");
    ReadPrintedCell(w, "");
    assert CsvCell(v) + "" == CsvCell(v) && CsvCell(w) + "" == CsvCell(w);
    assert ("'" + v)[1..] == v && ("'" + w)[1..] == w;
  }
}
