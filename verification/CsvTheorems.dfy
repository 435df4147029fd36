/** Writing rows and reading them back gives the same rows. */
module CsvTheorems {
  import opened Wrappers
  import opened JsText
  import opened Csv

  // ---- line breaks ------------------------------------------------------------------------------

  /** How many characters the first line break or other character of a text takes. */
  function FirstWidth(t: Text): (n: nat)
    requires |t| > 0
    ensures 1 <= n <= |t|
  {
    if t[0] == CR && |t| > 1 && t[1] == LF then 2 else 1
  }

  /** Line breaks are unified from the front. */
  lemma {:induction false} NewlinesFirst(t: Text)
    requires |t| > 0
    ensures Newlines(t) == [if t[0] == CR then LF else t[0]] + Newlines(t[FirstWidth(t)..])
  {
    if t[0] != CR {
    } else if |t| > 1 && t[1] == LF {
    } else {
    }
  }

  lemma {:induction false} NewlinesConcat(a: Text, b: Text)
    requires |a| > 0 && |b| > 0 ==> a[|a| - 1] != CR || b[0] != LF
    ensures Newlines(a + b) == Newlines(a) + Newlines(b)
    decreases |a|
  {
    if |a| == 0 {
      assert a + b == b;
    } else {
      var n := FirstWidth(a);
      var t := a + b;
      assert FirstWidth(t) == n && t[n..] == a[n..] + b;
      NewlinesFirst(a);
      NewlinesFirst(t);
      NewlinesConcat(a[n..], b);
    }
  }

  lemma {:induction false} NewlinesUntouched(a: Text)
    requires CR !in a
    ensures Newlines(a) == a
  {
    if |a| != 0 {
      NewlinesUntouched(a[1..]);
    }
  }

  lemma {:induction false} DoubledConcat(a: Text, b: Text)
    ensures Doubled(a + b) == Doubled(a) + Doubled(b)
  {
    if |a| == 0 {
      assert a + b == b;
    } else {
      DoubledConcat(a[1..], b);
      assert (a + b)[1..] == a[1..] + b;
    }
  }

  /** The first line break or other character of a text. */
  function FirstPiece(v: Text): Text
    requires |v| > 0
  {
    if v[0] == CR && |v| > 1 && v[1] == LF then v[..2] else v[..1]
  }

  lemma NewlinesPiece(v: Text)
    requires |v| > 0
    ensures Newlines(Doubled(FirstPiece(v))) == Doubled(Newlines(FirstPiece(v)))
    ensures Newlines(v) == Newlines(FirstPiece(v)) + Newlines(v[|FirstPiece(v)|..])
    ensures Newlines(Doubled(v)) == Newlines(Doubled(FirstPiece(v))) + Newlines(Doubled(v[|FirstPiece(v)|..]))
  {
    var h := FirstPiece(v);
    var rest := v[|h|..];
    assert v == h + rest;
    DoubledConcat(h, rest);
    DoubledHead(rest);
    if |h| == 2 {
      assert h == [CR, LF] && h[1..] == [LF] && h[2..] == [] && [LF][1..] == [];
      assert Doubled([LF]) == [LF] && Doubled(h) == h;
      assert Newlines(h) == [LF];
    } else {
      assert h == [v[0]] && h[1..] == [];
      assert Doubled(h) == if v[0] == QUOTE then [QUOTE, QUOTE] else h;
      assert [QUOTE, QUOTE][1..] == [QUOTE] && [QUOTE][1..] == [];
      NewlinesUntouched([QUOTE, QUOTE]);
    }
    NewlinesConcat(h, rest);
    NewlinesConcat(Doubled(h), Doubled(rest));
  }

  lemma {:induction false} NewlinesDoubled(v: Text)
    ensures Newlines(Doubled(v)) == Doubled(Newlines(v))
    decreases |v|
  {
    if |v| != 0 {
      var h := FirstPiece(v);
      NewlinesPiece(v);
      NewlinesDoubled(v[|h|..]);
      DoubledConcat(Newlines(h), Newlines(v[|h|..]));
    }
  }

  lemma DoubledHead(v: Text)
    ensures |Doubled(v)| > 0 <==> |v| > 0
    ensures |v| > 0 ==> Doubled(v)[0] == v[0]
  {
  }

  lemma {:induction false} NewlinesSpecial(v: Text)
    ensures NeedsQuotes(Newlines(v)) <==> NeedsQuotes(v)
    decreases |v|
  {
    if |v| == 0 {
    } else if v[0] == CR {
      assert Special(v[0]) && Newlines(v)[0] == LF;
    } else {
      NewlinesSpecial(v[1..]);
      var r := Newlines(v);
      assert r == [v[0]] + Newlines(v[1..]);
      assert NeedsQuotes(v) <==> Special(v[0]) || NeedsQuotes(v[1..]) by { SplitSpecial(v); }
      assert NeedsQuotes(r) <==> Special(r[0]) || NeedsQuotes(r[1..]) by { SplitSpecial(r); }
    }
  }

  lemma SplitSpecial(v: Text)
    requires |v| > 0
    ensures NeedsQuotes(v) <==> Special(v[0]) || NeedsQuotes(v[1..])
  {
    if NeedsQuotes(v) && !Special(v[0]) {
      var i :| 0 <= i < |v| && Special(v[i]);
      assert Special(v[1..][i - 1]);
    }
    if NeedsQuotes(v[1..]) {
      var i :| 0 <= i < |v[1..]| && Special(v[1..][i]);
      assert Special(v[i + 1]);
    }
  }

  /** Encoding a cell and unifying line breaks can be done in either order. */
  lemma NewlinesEncode(v: Text)
    ensures Newlines(Encode(v)) == Encode(Newlines(v))
    ensures |Encode(v)| > 0 ==> Encode(v)[0] != LF && Encode(v)[|Encode(v)| - 1] != CR
  {
    NewlinesSpecial(v);
    if NeedsQuotes(v) {
      NewlinesDoubled(v);
      NewlinesConcat([QUOTE], Doubled(v) + [QUOTE]);
      NewlinesConcat(Doubled(v), [QUOTE]);
      NewlinesUntouched([QUOTE]);
      assert [QUOTE] + Doubled(v) + [QUOTE] == [QUOTE] + (Doubled(v) + [QUOTE]);
    } else {
      assert forall i :: 0 <= i < |v| ==> !Special(v[i]);
      NewlinesUntouched(v);
    }
  }

  // ---- reading one cell ---------------------------------------------------------------------------

  /** Where a cell may start: at the beginning, or after a boundary. */
  predicate CellStart(p: Text) {
    |p| == 0 || Boundary(p[..|p| - 1], p[|p| - 1])
  }

  lemma Step(p: Text, c: CodeUnit)
    ensures QuoteCount(p + [c]) == QuoteCount(p) + if c == QUOTE then 1 else 0
    ensures CellText(p + [c]) == if Boundary(p, c) then [] else if Kept(p, c) then CellText(p) + [c] else CellText(p)
    ensures RowCells(p + [c])
         == if !Boundary(p, c) then RowCells(p) else if c == COMMA then RowCells(p) + [CellText(p)] else []
    ensures Records(p + [c])
         == if Boundary(p, c) && c == LF then Records(p) + [RowCells(p) + [CellText(p)]] else Records(p)
    ensures EndsWithQuote(p + [c]) == (c == QUOTE)
    ensures CellStart(p + [c]) == Boundary(p, c)
  {
    assert (p + [c])[..|p + [c]| - 1] == p;
  }

  lemma CellStartState(p: Text)
    requires CellStart(p)
    ensures !Inside(p) && !EndsWithQuote(p) && CellText(p) == []
  {
  }

  /** Reading `v` inside the current cell of `p` adds `text` to the cell and touches nothing else. */
  ghost predicate Adds(p: Text, v: Text, text: Text) {
    && CellText(p + v) == CellText(p) + text
    && RowCells(p + v) == RowCells(p)
    && Records(p + v) == Records(p)
  }

  lemma AddsTwice(p: Text, u: Text, v: Text, s: Text, t: Text)
    requires Adds(p, u, s) && Adds(p + u, v, t)
    ensures Adds(p, u + v, s + t)
  {
    assert p + u + v == p + (u + v);
  }

  lemma {:induction false} ReadPlain(p: Text, v: Text)
    requires !Inside(p) && !NeedsQuotes(v)
    ensures Adds(p, v, v) && !Inside(p + v)
    decreases |v|
  {
    if |v| == 0 {
      assert p + v == p;
    } else {
      assert v == [v[0]] + v[1..];
      SplitSpecial(v);
      assert !Special(v[0]);
      Step(p, v[0]);
      ReadPlain(p + [v[0]], v[1..]);
      AddsTwice(p, [v[0]], v[1..], [v[0]], v[1..]);
      assert p + [v[0]] + v[1..] == p + v;
    }
  }

  lemma ReadDoubledUnit(p: Text, c: CodeUnit)
    requires Inside(p)
    ensures var u := if c == QUOTE then [QUOTE, QUOTE] else [c]; Adds(p, u, [c]) && Inside(p + u)
  {
    Step(p, c);
    if c == QUOTE {
      Step(p + [QUOTE], QUOTE);
      assert p + [QUOTE] + [QUOTE] == p + [QUOTE, QUOTE];
    }
  }

  lemma {:induction false} ReadDoubled(p: Text, v: Text)
    requires Inside(p)
    ensures Adds(p, Doubled(v), v) && Inside(p + Doubled(v))
    decreases |v|
  {
    if |v| == 0 {
      assert p + Doubled(v) == p;
    } else {
      var head := if v[0] == QUOTE then [QUOTE, QUOTE] else [v[0]];
      ReadDoubledUnit(p, v[0]);
      ReadDoubled(p + head, v[1..]);
      AddsTwice(p, head, Doubled(v[1..]), [v[0]], v[1..]);
      assert p + head + Doubled(v[1..]) == p + Doubled(v);
      assert v == [v[0]] + v[1..];
    }
  }

  lemma AddsBetween(p: Text, u: Text, v: Text, w: Text, t: Text)
    requires Adds(p, u, []) && Adds(p + u, v, t) && Adds(p + u + v, w, [])
    ensures Adds(p, u + v + w, t) && p + u + v + w == p + (u + v + w)
  {
    assert p + u + v + w == p + (u + v + w);
    assert CellText(p) + [] + t + [] == CellText(p) + t;
  }

  lemma ReadQuote(p: Text)
    requires !Inside(p) ==> !EndsWithQuote(p)
    ensures Adds(p, [QUOTE], []) && Inside(p + [QUOTE]) == !Inside(p)
  {
    Step(p, QUOTE);
  }

  lemma ReadQuoted(p: Text, v: Text)
    requires !Inside(p) && !EndsWithQuote(p)
    ensures Adds(p, [QUOTE] + Doubled(v) + [QUOTE], v) && !Inside(p + ([QUOTE] + Doubled(v) + [QUOTE]))
  {
    ReadQuote(p);
    ReadDoubled(p + [QUOTE], v);
    ReadQuote(p + [QUOTE] + Doubled(v));
    AddsBetween(p, [QUOTE], Doubled(v), [QUOTE], v);
  }

  lemma ReadCell(p: Text, v: Text)
    requires CellStart(p)
    ensures Adds(p, Encode(v), v) && !Inside(p + Encode(v))
  {
    CellStartState(p);
    if NeedsQuotes(v) {
      ReadQuoted(p, v);
    } else {
      ReadPlain(p, v);
    }
  }

  // ---- reading records ------------------------------------------------------------------------------

  /** One line, as written. */
  function Line(cells: seq<Text>): Text {
    JoinWith(Encoded(cells), COMMA)
  }

  /** Reading `v` after `p` ends the current cell, with `cell` as its text. */
  ghost predicate EndsCell(p: Text, v: Text, cell: Text) {
    && CellStart(p + v)
    && RowCells(p + v) == RowCells(p) + [cell]
    && Records(p + v) == Records(p)
  }

  /** Reading `v` after `p` ends the current record, `cells` being the rest of its cells. */
  ghost predicate EndsRecord(p: Text, v: Text, cells: seq<Text>) {
    && CellStart(p + v)
    && RowCells(p + v) == []
    && Records(p + v) == Records(p) + [RowCells(p) + cells]
  }

  /** Reading `v` between records adds `records`. */
  ghost predicate AddsRecords(p: Text, v: Text, records: seq<seq<Text>>) {
    && CellStart(p + v)
    && RowCells(p + v) == []
    && Records(p + v) == Records(p) + records
  }

  lemma CellThenRecord(p: Text, u: Text, v: Text, cell: Text, cells: seq<Text>)
    requires EndsCell(p, u, cell) && EndsRecord(p + u, v, cells)
    ensures EndsRecord(p, u + v, [cell] + cells)
  {
    assert p + u + v == p + (u + v);
    assert RowCells(p) + [cell] + cells == RowCells(p) + ([cell] + cells);
  }

  lemma RecordThenRecords(p: Text, u: Text, v: Text, record: seq<Text>, records: seq<seq<Text>>)
    requires RowCells(p) == [] && EndsRecord(p, u, record) && AddsRecords(p + u, v, records)
    ensures AddsRecords(p, u + v, [record] + records)
  {
    assert p + u + v == p + (u + v);
    assert RowCells(p) + record == record;
    assert Records(p) + [record] + records == Records(p) + ([record] + records);
  }

  lemma CellThenComma(p: Text, u: Text, v: Text)
    requires CellText(p) == [] && Adds(p, u, v) && !Inside(p + u)
    ensures EndsCell(p, u + [COMMA], v)
  {
    Step(p + u, COMMA);
    assert [] + v == v;
    assert p + u + [COMMA] == p + (u + [COMMA]);
  }

  lemma CellThenBreak(p: Text, u: Text, v: Text)
    requires CellText(p) == [] && Adds(p, u, v) && !Inside(p + u)
    ensures EndsRecord(p, u + [LF], [v])
  {
    Step(p + u, LF);
    assert [] + v == v;
    assert p + u + [LF] == p + (u + [LF]);
  }

  lemma EndCell(p: Text, v: Text)
    requires CellStart(p)
    ensures EndsCell(p, Encode(v) + [COMMA], v)
    ensures EndsRecord(p, Encode(v) + [LF], [v])
  {
    CellStartState(p);
    ReadCell(p, v);
    CellThenComma(p, Encode(v), v);
    CellThenBreak(p, Encode(v), v);
  }

  lemma LineSplit(cells: seq<Text>)
    requires |cells| > 0
    ensures |cells| == 1 ==> Line(cells) == Encode(cells[0])
    ensures |cells| > 1 ==> Line(cells) == Encode(cells[0]) + [COMMA] + Line(cells[1..])
  {
    assert Encoded(cells)[1..] == Encoded(cells[1..]);
  }

  lemma {:induction false} ReadLine(p: Text, cells: seq<Text>)
    requires CellStart(p) && |cells| > 0
    ensures EndsRecord(p, Line(cells) + [LF], cells)
    decreases |cells|
  {
    EndCell(p, cells[0]);
    LineSplit(cells);
    if |cells| == 1 {
      assert cells == [cells[0]];
    } else {
      var head := Encode(cells[0]) + [COMMA];
      ReadLine(p + head, cells[1..]);
      CellThenRecord(p, head, Line(cells[1..]) + [LF], cells[0], cells[1..]);
      assert head + (Line(cells[1..]) + [LF]) == Line(cells) + [LF];
      assert [cells[0]] + cells[1..] == cells;
    }
  }

  function Written(records: seq<seq<Text>>): Text {
    if |records| == 0 then [] else Line(records[0]) + [LF] + Written(records[1..])
  }

  lemma {:induction false} ReadWritten(p: Text, records: seq<seq<Text>>)
    requires CellStart(p) && RowCells(p) == []
    requires forall i :: 0 <= i < |records| ==> |records[i]| > 0
    ensures AddsRecords(p, Written(records), records)
    decreases |records|
  {
    if |records| == 0 {
      assert p + Written(records) == p;
    } else {
      var line := Line(records[0]) + [LF];
      ReadLine(p, records[0]);
      ReadWritten(p + line, records[1..]);
      RecordThenRecords(p, line, Written(records[1..]), records[0], records[1..]);
      assert [records[0]] + records[1..] == records;
    }
  }

  // ---- the written text, line breaks unified ----------------------------------------------------------

  function UnifiedCells(cells: seq<Text>): (r: seq<Text>)
    ensures |r| == |cells| && forall i :: 0 <= i < |cells| ==> r[i] == Newlines(cells[i])
  {
    if |cells| == 0 then [] else [Newlines(cells[0])] + UnifiedCells(cells[1..])
  }

  function Unified(records: seq<seq<Text>>): (r: seq<seq<Text>>)
    ensures |r| == |records| && forall i :: 0 <= i < |records| ==> r[i] == UnifiedCells(records[i])
  {
    if |records| == 0 then [] else [UnifiedCells(records[0])] + Unified(records[1..])
  }

  lemma {:induction false} NewlinesLine(cells: seq<Text>)
    ensures Newlines(Line(cells)) == Line(UnifiedCells(cells))
    ensures |Line(cells)| > 0 ==> Line(cells)[0] != LF && Line(cells)[|Line(cells)| - 1] != CR
    decreases |cells|
  {
    if |cells| != 0 {
      NewlinesEncode(cells[0]);
      if |cells| > 1 {
        var e, rest := Encode(cells[0]), Line(cells[1..]);
        NewlinesLine(cells[1..]);
        assert Encoded(cells)[1..] == Encoded(cells[1..]);
        assert Line(cells) == e + [COMMA] + rest;
        NewlinesConcat(e + [COMMA], rest);
        NewlinesConcat(e, [COMMA]);
        NewlinesUntouched([COMMA]);
        var u := UnifiedCells(cells);
        assert u[1..] == UnifiedCells(cells[1..]);
        assert Encoded(u)[1..] == Encoded(u[1..]);
        assert Line(u) == Encode(u[0]) + [COMMA] + Line(u[1..]);
        assert (e + [COMMA] + rest)[|e + [COMMA] + rest| - 1] == if |rest| == 0 then COMMA else rest[|rest| - 1];
        assert (e + [COMMA] + rest)[0] == if |e| == 0 then COMMA else e[0];
      }
    }
  }

  lemma {:induction false} NewlinesWritten(records: seq<seq<Text>>)
    ensures Newlines(Written(records)) == Written(Unified(records))
    decreases |records|
  {
    if |records| != 0 {
      var line, rest := Line(records[0]), Written(records[1..]);
      NewlinesLine(records[0]);
      NewlinesWritten(records[1..]);
      NewlinesConcat(line + [LF], rest);
      NewlinesConcat(line, [LF]);
      NewlinesUntouched([LF]);
      assert Unified(records)[1..] == Unified(records[1..]);
    }
  }

  // ---- the writer writes records ------------------------------------------------------------------------

  function SourceRecords(columns: seq<Text>, rows: seq<Source>): (r: seq<seq<Text>>)
    ensures |r| == |rows| && forall i :: 0 <= i < |rows| ==> r[i] == PrintedCells(rows[i], columns)
  {
    if |rows| == 0 then [] else [PrintedCells(rows[0], columns)] + SourceRecords(columns, rows[1..])
  }

  lemma {:induction false} JoinedLines(columns: seq<Text>, first: Text, rows: seq<Source>)
    ensures JoinWith([first] + Lines(columns, rows), LF) + [LF]
         == first + [LF] + Written(SourceRecords(columns, rows))
    decreases |rows|
  {
    var lines := Lines(columns, rows);
    if |rows| == 0 {
      assert [first] + lines == [first];
      assert first + [LF] + [] == first + [LF];
    } else {
      JoinedLines(columns, lines[0], rows[1..]);
      assert ([first] + lines)[1..] == lines == [lines[0]] + Lines(columns, rows[1..]);
      var r := SourceRecords(columns, rows);
      assert r[1..] == SourceRecords(columns, rows[1..]);
      assert JoinWith([first] + lines, LF) == first + [LF] + JoinWith(lines, LF);
      assert first + [LF] + JoinWith(lines, LF) + [LF] == first + [LF] + (JoinWith(lines, LF) + [LF]);
      assert lines[0] == Line(r[0]);
    }
  }

  /** Column names as the catalog's sheets have them: distinct, trimmed, not blank, no character
      that a cell would have to be quoted for. */
  ghost predicate GoodColumns(columns: seq<Text>) {
    && |columns| > 0
    && Distinct(columns)
    && forall i :: 0 <= i < |columns| ==> columns[i] != [] && Trim(columns[i]) == columns[i] && !NeedsQuotes(columns[i])
  }

  lemma {:induction false} PlainColumns(columns: seq<Text>)
    requires forall i :: 0 <= i < |columns| ==> !NeedsQuotes(columns[i])
    ensures Encoded(columns) == columns
    ensures UnifiedCells(columns) == columns
  {
    if |columns| != 0 {
      PlainColumns(columns[1..]);
      assert forall i :: 0 <= i < |columns[0]| ==> !Special(columns[0][i]);
      NewlinesUntouched(columns[0]);
    }
  }

  lemma SerializedIsWritten(columns: seq<Text>, rows: seq<Source>)
    requires GoodColumns(columns)
    ensures SerializeCsv(columns, rows) == Written([columns] + SourceRecords(columns, rows))
  {
    PlainColumns(columns);
    JoinedLines(columns, Line(columns), rows);
    var all := [columns] + SourceRecords(columns, rows);
    assert all[1..] == SourceRecords(columns, rows);
  }

  // ---- blank cells ----------------------------------------------------------------------------------------

  lemma {:induction false} NewlinesSpace(s: Text)
    ensures AllSpace(Newlines(s)) <==> AllSpace(s)
    decreases |s|
  {
    if |s| == 0 {
    } else if s[0] == CR && |s| > 1 && s[1] == LF {
      NewlinesSpace(s[2..]);
      assert AllSpace(s) <==> AllSpace(s[2..]);
      assert Newlines(s)[1..] == Newlines(s[2..]);
      assert AllSpace(Newlines(s)) <==> AllSpace(Newlines(s)[1..]);
    } else {
      NewlinesSpace(s[1..]);
      assert AllSpace(s) <==> IsSpace(s[0]) && AllSpace(s[1..]);
      assert Newlines(s)[1..] == Newlines(s[1..]);
      assert AllSpace(Newlines(s)) <==> IsSpace(Newlines(s)[0]) && AllSpace(Newlines(s)[1..]);
    }
  }

  lemma UnifiedContent(cells: seq<Text>)
    ensures HasContent(UnifiedCells(cells)) <==> HasContent(cells)
  {
    forall i | 0 <= i < |cells| ensures Blank(Newlines(cells[i])) <==> Blank(cells[i]) {
      BlankIff(cells[i]);
      BlankIff(Newlines(cells[i]));
      NewlinesSpace(cells[i]);
    }
  }

  // ---- main results -----------------------------------------------------------------------------------------

  /** What the reader should give back for a written row. */
  function ReadBack(columns: seq<Text>, row: Source): Row {
    map column | column in columns :: if column in row && row[column].Some? then Newlines(row[column].value) else []
  }

  /** Some column of the row holds a character that is not white space. */
  predicate Survives(columns: seq<Text>, row: Source) {
    exists i :: 0 <= i < |columns| && columns[i] in row && row[columns[i]].Some? && SaysSomething(row[columns[i]].value)
  }

  lemma SurvivesIff(columns: seq<Text>, row: Source)
    ensures HasContent(PrintedCells(row, columns)) <==> Survives(columns, row)
  {
    var cells := PrintedCells(row, columns);
    forall i | 0 <= i < |columns| ensures !Blank(cells[i]) <==> SaysSomething(cells[i]) {
      BlankIff(cells[i]);
    }
    if i :| 0 <= i < |columns| && columns[i] in row && row[columns[i]].Some? && SaysSomething(row[columns[i]].value) {
      assert cells[i] == row[columns[i]].value;
    }
  }

  function Surviving(columns: seq<Text>, rows: seq<Source>): seq<Row> {
    if |rows| == 0 then []
    else
      var last := |rows| - 1;
      Surviving(columns, rows[..last])
      + if Survives(columns, rows[last]) then [ReadBack(columns, rows[last])] else []
  }

  /** A text read from its start, each record with at least one cell. */
  lemma ReadAll(records: seq<seq<Text>>)
    requires forall i :: 0 <= i < |records| ==> |records[i]| > 0
    ensures AllRecords(Written(records)) == records + [[[]]] && !Inside(Written(records))
  {
    var text := Written(records);
    ReadWritten([], records);
    assert [] + text == text;
    assert Records(text) == Records([]) + records;
    assert Records([]) + records == records;
    CellStartState(text);
    EmptyLine(RowCells(text), CellText(text));
  }

  lemma EmptyLine(cells: seq<Text>, cell: Text)
    requires cells == [] && cell == []
    ensures cells + [cell] == [[]]
  {
  }

  lemma ReadBackMore(columns: seq<Text>, row: Source)
    requires |columns| > 0
    ensures var n := |columns| - 1;
      ReadBack(columns, row) == ReadBack(columns[..n], row)[columns[n] := Newlines(Printed(row, columns[n]))]
  {
    var n := |columns| - 1;
    assert columns == columns[..n] + [columns[n]];
    assert forall column :: column in columns <==> column in columns[..n] || column == columns[n];
  }

  lemma {:induction false} RowOfColumns(columns: seq<Text>, row: Source, values: seq<Text>)
    requires |columns| <= |values|
    requires forall i :: 0 <= i < |columns| ==> values[i] == Newlines(Printed(row, columns[i]))
    ensures RowOf(columns, values) == ReadBack(columns, row)
  {
    if |columns| == 0 {
      assert ReadBack(columns, row) == map[];
    } else {
      RowOfColumns(columns[..|columns| - 1], row, values);
      ReadBackMore(columns, row);
    }
  }

  lemma ColumnsHaveContent(columns: seq<Text>)
    requires GoodColumns(columns)
    ensures WithContent([columns]) == [columns]
  {
    assert !Blank(columns[0]);
    assert [columns][..0] == [];
  }

  lemma WithContentStep(records: seq<seq<Text>>, last: seq<Text>)
    ensures WithContent(records + [last]) == WithContent(records) + if HasContent(last) then [last] else []
  {
    var all := records + [last];
    assert all[..|all| - 1] == records;
  }

  /** `kept` is the header and the rows that survive. */
  ghost predicate Reads(columns: seq<Text>, kept: seq<seq<Text>>, rows: seq<Source>) {
    && kept != []
    && kept[0] == columns
    && RowsOf(columns, kept[1..]) == Surviving(columns, rows)
  }

  lemma ReadsOneMore(columns: seq<Text>, kept: seq<seq<Text>>, rows: seq<Source>, row: Source, record: seq<Text>)
    requires Reads(columns, kept, rows)
    requires Survives(columns, row) ==> RowOf(columns, record) == ReadBack(columns, row)
    ensures Reads(columns, kept + if Survives(columns, row) then [record] else [], rows + [row])
  {
    var all := rows + [row];
    assert all[..|all| - 1] == rows;
    if Survives(columns, row) {
      assert (kept + [record])[1..] == kept[1..] + [record];
      assert RowsOf(columns, kept[1..] + [record]) == RowsOf(columns, kept[1..]) + [RowOf(columns, record)];
    } else {
      assert kept + [] == kept;
    }
  }

  lemma RecordOfRow(columns: seq<Text>, row: Source)
    ensures HasContent(UnifiedCells(PrintedCells(row, columns))) <==> Survives(columns, row)
    ensures RowOf(columns, UnifiedCells(PrintedCells(row, columns))) == ReadBack(columns, row)
  {
    UnifiedContent(PrintedCells(row, columns));
    SurvivesIff(columns, row);
    RowOfColumns(columns, row, UnifiedCells(PrintedCells(row, columns)));
  }

  lemma OneMoreRecord(columns: seq<Text>, rows: seq<Source>, before: seq<seq<Text>>, row: Source)
    requires Reads(columns, WithContent(before), rows)
    ensures Reads(columns, WithContent(before + [UnifiedCells(PrintedCells(row, columns))]), rows + [row])
  {
    var record := UnifiedCells(PrintedCells(row, columns));
    WithContentStep(before, record);
    RecordOfRow(columns, row);
    ReadsOneMore(columns, WithContent(before), rows, row, record);
  }

  lemma HeaderThenRecords(columns: seq<Text>, records: seq<seq<Text>>)
    ensures |records| == 0 ==> [columns] + records == [columns]
    ensures |records| > 0 ==>
      [columns] + records == [columns] + records[..|records| - 1] + [records[|records| - 1]]
  {
  }

  lemma RowsSplit(rows: seq<Source>)
    requires |rows| > 0
    ensures rows[..|rows| - 1] + [rows[|rows| - 1]] == rows
  {
  }

  /** The records that stay after the written rows have been read. */
  lemma {:induction false} SurvivingRecords(columns: seq<Text>, rows: seq<Source>, records: seq<seq<Text>>)
    requires GoodColumns(columns) && |records| == |rows|
    requires forall i :: 0 <= i < |rows| ==> records[i] == UnifiedCells(PrintedCells(rows[i], columns))
    ensures Reads(columns, WithContent([columns] + records), rows)
  {
    HeaderThenRecords(columns, records);
    if |rows| == 0 {
      ColumnsHaveContent(columns);
    } else {
      var last := |rows| - 1;
      SurvivingRecords(columns, rows[..last], records[..last]);
      OneMoreRecord(columns, rows[..last], [columns] + records[..last], rows[last]);
      RowsSplit(rows);
    }
  }

  /** Round trip: the rows that come back are exactly the written rows that have some content, in
      order, each cell as it was printed with its line breaks unified. */
  lemma RoundTrip(columns: seq<Text>, rows: seq<Source>)
    requires GoodColumns(columns)
    ensures Parsed(SerializeCsv(columns, rows)) == Ok(Surviving(columns, rows))
  {
    var cells := SourceRecords(columns, rows);
    var records := [columns] + cells;
    var unified := Unified(records);
    SerializedIsWritten(columns, rows);
    NoBom(columns, rows);
    NewlinesWritten(records);
    ReadAll(unified);
    PlainColumns(columns);
    assert unified == [columns] + unified[1..];
    SurvivingRecords(columns, rows, unified[1..]);
    DropEmptyLast(unified);
    assert Trimmed(columns) == columns;
  }

  lemma DropEmptyLast(records: seq<seq<Text>>)
    ensures WithContent(records + [[[]]]) == WithContent(records)
  {
    var none: Text := [];
    WithContentStep(records, [none]);
    assert Blank(none);
  }

  lemma NoBom(columns: seq<Text>, rows: seq<Source>)
    requires GoodColumns(columns)
    ensures WithoutBom(SerializeCsv(columns, rows)) == SerializeCsv(columns, rows)
  {
    SerializedIsWritten(columns, rows);
    PlainColumns(columns);
    var c := columns[0];
    assert Line(columns)[0] == c[0];
    if c[0] == BOM {
      assert IsSpace(c[0]);
      TrimStartShorter(c);
    }
  }

  lemma {:induction false} TrimStartShorter(s: Text)
    requires |s| > 0 && IsSpace(s[0])
    ensures |Trim(s)| < |s|
  {
    TrimLengths(s[1..]);
  }

  lemma {:induction false} TrimLengths(s: Text)
    ensures |TrimStart(s)| <= |s| && |TrimEnd(s)| <= |s| && |Trim(s)| <= |s|
  {
    TrimStartLength(s);
    TrimEndLength(s);
    TrimEndLength(TrimStart(s));
  }

  lemma TrimStartLength(s: Text)
    ensures |TrimStart(s)| <= |s|
  {
  }

  lemma TrimEndLength(s: Text)
    ensures |TrimEnd(s)| <= |s|
  {
  }
}
