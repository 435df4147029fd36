/** The catalog's CSV reader and writer (section 2 of RFC 4180, read leniently). The reader is
    the loop of `parseCsv`; what it computes is stated by looking at each character together
    with the text before it. */
module Csv {
  import opened Wrappers
  import opened JsText

  const QUOTE: CodeUnit := 0x22
  const COMMA: CodeUnit := 0x2C
  const LF: CodeUnit := 0x0A
  const CR: CodeUnit := 0x0D
  const BOM: CodeUnit := 0xFEFF

  // ---- what a character means after a given text ----------------------------------------------

  function QuoteCount(p: Text): nat {
    if |p| == 0 then 0
    else QuoteCount(p[..|p| - 1]) + if p[|p| - 1] == QUOTE then 1 else 0
  }

  predicate Inside(p: Text) {
    QuoteCount(p) % 2 == 1
  }

  predicate EndsWithQuote(p: Text) {
    |p| > 0 && p[|p| - 1] == QUOTE
  }

  /** After `p`, `c` ends a cell: a comma or a line break preceded by an even number of quotes. */
  predicate Boundary(p: Text, c: CodeUnit) {
    (c == COMMA || c == LF) && !Inside(p)
  }

  /** After `p`, `c` is part of its cell's text: it is no boundary, and if it is a quote then it
      is the second of a doubled quote inside quotes. */
  predicate Kept(p: Text, c: CodeUnit) {
    !Boundary(p, c) && (c == QUOTE ==> !Inside(p) && EndsWithQuote(p))
  }

  /** The text, so far, of the cell that `p` ends in. */
  function CellText(p: Text): Text {
    if |p| == 0 then []
    else
      var q, c := p[..|p| - 1], p[|p| - 1];
      if Boundary(q, c) then [] else if Kept(q, c) then CellText(q) + [c] else CellText(q)
  }

  /** The finished cells of the record that `p` ends in. */
  function RowCells(p: Text): seq<Text> {
    if |p| == 0 then []
    else
      var q, c := p[..|p| - 1], p[|p| - 1];
      if !Boundary(q, c) then RowCells(q)
      else if c == COMMA then RowCells(q) + [CellText(q)]
      else []
  }

  /** The finished records of `p`. */
  function Records(p: Text): seq<seq<Text>> {
    if |p| == 0 then []
    else
      var q, c := p[..|p| - 1], p[|p| - 1];
      if Boundary(q, c) && c == LF then Records(q) + [RowCells(q) + [CellText(q)]] else Records(q)
  }

  function AllRecords(s: Text): seq<seq<Text>> {
    Records(s) + [RowCells(s) + [CellText(s)]]
  }

  predicate HasContent(record: seq<Text>) {
    exists i :: 0 <= i < |record| && !Blank(record[i])
  }

  function WithContent(records: seq<seq<Text>>): seq<seq<Text>> {
    if |records| == 0 then []
    else
      var rest, last := WithContent(records[..|records| - 1]), records[|records| - 1];
      if HasContent(last) then rest + [last] else rest
  }

  // ---- rows ---------------------------------------------------------------------------------------

  type Row = map<Text, Text>

  datatype CsvError = UnterminatedQuote | DuplicateHeaders

  function Trimmed(cells: seq<Text>): (r: seq<Text>)
    ensures |r| == |cells| && forall i :: 0 <= i < |cells| ==> r[i] == Trim(cells[i])
  {
    seq(|cells|, i requires 0 <= i < |cells| => Trim(cells[i]))
  }

  predicate Distinct(cells: seq<Text>) {
    forall i, j :: 0 <= i < j < |cells| ==> cells[i] != cells[j]
  }

  function ValueAt(values: seq<Text>, i: nat): Text {
    if i < |values| then values[i] else []
  }

  /** A row by column name: a value that is missing reads as empty, and of columns with one name the
      last one counts. */
  function RowOf(headers: seq<Text>, values: seq<Text>): Row {
    if |headers| == 0 then map[]
    else
      var last := |headers| - 1;
      RowOf(headers[..last], values)[headers[last] := ValueAt(values, last)]
  }

  function RowsOf(headers: seq<Text>, records: seq<seq<Text>>): (r: seq<Row>)
    ensures |r| == |records|
    ensures forall i :: 0 <= i < |records| ==> r[i] == RowOf(headers, records[i])
  {
    seq(|records|, i requires 0 <= i < |records| => RowOf(headers, records[i]))
  }

  function WithoutBom(text: Text): Text {
    if |text| > 0 && text[0] == BOM then text[1..] else text
  }

  /** Every CRLF and every other CR becomes LF. */
  function Newlines(t: Text): Text {
    if |t| == 0 then []
    else if t[0] != CR then [t[0]] + Newlines(t[1..])
    else if |t| > 1 && t[1] == LF then [LF] + Newlines(t[2..])
    else [LF] + Newlines(t[1..])
  }

  /** What parsing should give: an error when the quotes are odd in number, otherwise the records
      between boundaries, those without content left out, the first one naming the columns. */
  function Parsed(text: Text): Result<seq<Row>, CsvError> {
    var s := Newlines(WithoutBom(text));
    if Inside(s) then Err(UnterminatedQuote)
    else
      var records := WithContent(AllRecords(s));
      var headers := if |records| == 0 then [] else Trimmed(records[0]);
      if !Distinct(headers) then Err(DuplicateHeaders)
      else Ok(RowsOf(headers, if |records| == 0 then [] else records[1..]))
  }

  // ---- the reader ------------------------------------------------------------------------------------

  lemma OneMore(s: Text, i: nat)
    requires i < |s|
    ensures s[..i + 1][..|s[..i + 1]| - 1] == s[..i]
    ensures s[..i + 1][|s[..i + 1]| - 1] == s[i]
  {
  }

  /** The scanning loop of `parseCsv`, on text whose line breaks are already LF. */
  method Scan(normalized: Text) returns (quoted: bool, record: seq<Text>, field: Text, records: seq<seq<Text>>)
    ensures quoted == Inside(normalized)
    ensures field == CellText(normalized)
    ensures record == RowCells(normalized)
    ensures records == WithContent(Records(normalized))
  {
    quoted, record, field, records := false, [], [], [];
    var index := 0;
    while index < |normalized|
      invariant index <= |normalized|
      invariant quoted == Inside(normalized[..index])
      invariant !quoted && EndsWithQuote(normalized[..index]) ==>
        index == |normalized| || normalized[index] != QUOTE
      invariant field == CellText(normalized[..index])
      invariant record == RowCells(normalized[..index])
      invariant records == WithContent(Records(normalized[..index]))
    {
      var character := normalized[index];
      OneMore(normalized, index);
      if quoted {
        if character == QUOTE && index + 1 < |normalized| && normalized[index + 1] == QUOTE {
          OneMore(normalized, index + 1);
          assert QuoteCount(normalized[..index + 2]) == QuoteCount(normalized[..index]) + 2;
          field := field + [QUOTE];
          index := index + 1;
        } else if character == QUOTE {
          quoted := false;
        } else {
          field := field + [character];
        }
      } else if character == QUOTE {
        quoted := true;
      } else if character == COMMA {
        record := record + [field];
        field := [];
      } else if character == LF {
        record := record + [field];
        if HasContent(record) {
          records := records + [record];
        }
        record := [];
        field := [];
      } else {
        field := field + [character];
      }
      index := index + 1;
    }
    assert normalized[..|normalized|] == normalized;
  }

  method ParseCsv(text: Text) returns (r: Result<seq<Row>, CsvError>)
    ensures r == Parsed(text)
  {
    var normalized := Newlines(WithoutBom(text));
    var quoted, record, field, records := Scan(normalized);
    if quoted {
      return Err(UnterminatedQuote);
    }
    record := record + [field];
    ghost var all := AllRecords(normalized);
    assert all[..|all| - 1] == Records(normalized) && all[|all| - 1] == record;
    if HasContent(record) {
      records := records + [record];
    }
    var headers := [];
    if |records| > 0 {
      headers := Trimmed(records[0]);
      records := records[1..];
    }
    if !Distinct(headers) {
      return Err(DuplicateHeaders);
    }
    return Ok(RowsOf(headers, records));
  }

  // ---- the writer -------------------------------------------------------------------------------------

  predicate Special(c: CodeUnit) {
    c == QUOTE || c == COMMA || c == LF || c == CR
  }

  predicate NeedsQuotes(v: Text) {
    exists i :: 0 <= i < |v| && Special(v[i])
  }

  function Doubled(v: Text): Text {
    if |v| == 0 then [] else (if v[0] == QUOTE then [QUOTE, QUOTE] else [v[0]]) + Doubled(v[1..])
  }

  function Encode(v: Text): Text {
    if NeedsQuotes(v) then [QUOTE] + Doubled(v) + [QUOTE] else v
  }

  function Encoded(cells: seq<Text>): (r: seq<Text>)
    ensures |r| == |cells| && forall i :: 0 <= i < |cells| ==> r[i] == Encode(cells[i])
  {
    if |cells| == 0 then [] else [Encode(cells[0])] + Encoded(cells[1..])
  }

  /** A row to write: a column may be absent or null, and is then written empty. */
  type Source = map<Text, Option<Text>>

  function Printed(row: Source, column: Text): Text {
    if column in row && row[column].Some? then row[column].value else []
  }

  function PrintedCells(row: Source, columns: seq<Text>): (r: seq<Text>)
    ensures |r| == |columns| && forall i :: 0 <= i < |columns| ==> r[i] == Printed(row, columns[i])
  {
    seq(|columns|, i requires 0 <= i < |columns| => Printed(row, columns[i]))
  }

  function Lines(columns: seq<Text>, rows: seq<Source>): seq<Text> {
    if |rows| == 0 then []
    else [JoinWith(Encoded(PrintedCells(rows[0], columns)), COMMA)] + Lines(columns, rows[1..])
  }

  function SerializeCsv(columns: seq<Text>, rows: seq<Source>): Text {
    JoinWith([JoinWith(columns, COMMA)] + Lines(columns, rows), LF) + [LF]
  }
}
