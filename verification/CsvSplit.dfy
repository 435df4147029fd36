/** The reader is a split: cells and records end exactly at the boundaries, the commas and line
    breaks with an even number of quotes before them, and what a cell says depends on the text
    between its boundaries alone. */
module CsvSplit {
  import opened JsText
  import opened Csv
  import opened CsvTheorems

  /** `records` with `cells` put before the cells of the first one. */
  function Prepend(cells: seq<Text>, records: seq<seq<Text>>): seq<seq<Text>>
    requires |records| > 0
  {
    [cells + records[0]] + records[1..]
  }

  /** Reading goes on after a boundary as it would from the start of a text. */
  ghost predicate Restarts(p: Text, q: Text) {
    && Inside(p + q) == Inside(q)
    && (|q| > 0 ==> EndsWithQuote(p + q) == EndsWithQuote(q))
    && CellText(p + q) == CellText(q)
    && if |Records(q)| == 0 then
         Records(p + q) == Records(p) && RowCells(p + q) == RowCells(p) + RowCells(q)
       else
         Records(p + q) == Records(p) + Prepend(RowCells(p), Records(q)) && RowCells(p + q) == RowCells(q)
  }

  lemma PrependMore(cells: seq<Text>, records: seq<seq<Text>>, last: seq<Text>)
    requires |records| > 0
    ensures Prepend(cells, records + [last]) == Prepend(cells, records) + [last]
  {
    assert (records + [last])[1..] == records[1..] + [last];
  }

  lemma SameMeaning(p: Text, q: Text, c: CodeUnit)
    requires CellStart(p) && Restarts(p, q)
    ensures Boundary(p + q, c) == Boundary(q, c) && Kept(p + q, c) == Kept(q, c)
  {
    if |q| == 0 {
      CellStartState(p);
      assert p + q == p;
    }
  }

  lemma RestartBreak(p: Text, q: Text)
    requires Restarts(p, q) && Boundary(q, LF) && Boundary(p + q, LF)
    ensures Restarts(p, q + [LF])
  {
    Step(q, LF);
    Step(p + q, LF);
    assert p + q + [LF] == p + (q + [LF]);
    var record := RowCells(q) + [CellText(q)];
    if |Records(q)| == 0 {
      assert RowCells(p) + RowCells(q) + [CellText(q)] == RowCells(p) + record;
      assert Prepend(RowCells(p), [record]) == [RowCells(p) + record];
      assert Records(q) + [record] == [record];
    } else {
      PrependMore(RowCells(p), Records(q), record);
      assert Records(p) + Prepend(RowCells(p), Records(q)) + [record]
          == Records(p) + (Prepend(RowCells(p), Records(q)) + [record]);
    }
  }

  lemma RestartComma(p: Text, q: Text)
    requires Restarts(p, q) && Boundary(q, COMMA) && Boundary(p + q, COMMA)
    ensures Restarts(p, q + [COMMA])
  {
    Step(q, COMMA);
    Step(p + q, COMMA);
    assert p + q + [COMMA] == p + (q + [COMMA]);
    var cell := [CellText(q)];
    if |Records(q)| == 0 {
      assert RowCells(p) + RowCells(q) + cell == RowCells(p) + (RowCells(q) + cell);
    }
  }

  lemma StepInside(p: Text, c: CodeUnit)
    requires !Boundary(p, c)
    ensures Adds(p, [c], if Kept(p, c) then [c] else [])
    ensures QuoteCount(p + [c]) == QuoteCount(p) + if c == QUOTE then 1 else 0
  {
    Step(p, c);
  }

  lemma RestartAdds(p: Text, q: Text, c: CodeUnit, t: Text)
    requires Restarts(p, q) && Adds(q, [c], t) && Adds(p + q, [c], t)
    requires Inside(p + q + [c]) == Inside(q + [c])
    ensures Restarts(p, q + [c])
  {
    assert p + q + [c] == p + (q + [c]);
  }

  lemma RestartInside(p: Text, q: Text, c: CodeUnit)
    requires Restarts(p, q) && !Boundary(p + q, c) && !Boundary(q, c) && Kept(p + q, c) == Kept(q, c)
    ensures Restarts(p, q + [c])
  {
    StepInside(q, c);
    StepInside(p + q, c);
    RestartAdds(p, q, c, if Kept(q, c) then [c] else []);
  }

  lemma {:induction false} Restart(p: Text, q: Text)
    requires CellStart(p)
    ensures Restarts(p, q)
    decreases |q|
  {
    if |q| == 0 {
      CellStartState(p);
      assert p + q == p;
      assert RowCells(p) + [] == RowCells(p);
    } else {
      var r, c := q[..|q| - 1], q[|q| - 1];
      Restart(p, r);
      SameMeaning(p, r, c);
      if Boundary(r, c) && c == LF {
        RestartBreak(p, r);
      } else if Boundary(r, c) {
        RestartComma(p, r);
      } else {
        RestartInside(p, r, c);
      }
      assert r + [c] == q;
    }
  }

  /** At a line break that is a boundary, the records before and after it are read separately. */
  lemma SplitAtBreak(p: Text, q: Text)
    requires !Inside(p)
    ensures AllRecords(p + [LF] + q) == AllRecords(p) + AllRecords(q)
    ensures Inside(p + [LF] + q) == Inside(q)
  {
    var s := p + [LF];
    Step(p, LF);
    Restart(s, q);
    var none: seq<Text> := [];
    if |Records(q)| > 0 {
      assert none + Records(q)[0] == Records(q)[0];
      assert Prepend(none, Records(q)) == Records(q);
      assert Records(s) + Records(q) + [RowCells(q) + [CellText(q)]] == AllRecords(p) + AllRecords(q);
    } else {
      assert none + RowCells(q) == RowCells(q);
      assert AllRecords(q) == [RowCells(q) + [CellText(q)]];
    }
  }

  /** At a comma that is a boundary, the last record before it and the first one after it are one
      record, cut in two cells there. */
  lemma SplitAtComma(p: Text, q: Text)
    requires !Inside(p)
    ensures AllRecords(p + [COMMA] + q) == Records(p) + Prepend(RowCells(p) + [CellText(p)], AllRecords(q))
    ensures Inside(p + [COMMA] + q) == Inside(q)
  {
    var s := p + [COMMA];
    Step(p, COMMA);
    Restart(s, q);
    var last := RowCells(q) + [CellText(q)];
    if |Records(q)| > 0 {
      PrependMore(RowCells(s), Records(q), last);
      assert Records(s) + Prepend(RowCells(s), Records(q)) + [last]
          == Records(s) + (Prepend(RowCells(s), Records(q)) + [last]);
    } else {
      assert AllRecords(q) == [last];
      assert Prepend(RowCells(s), [last]) == [RowCells(s) + last];
      assert RowCells(s) + RowCells(q) + [CellText(q)] == RowCells(s) + last;
    }
  }

  /** No character of `q` is a boundary. */
  ghost predicate Uncut(q: Text) {
    forall i :: 0 <= i < |q| ==> !Boundary(q[..i], q[i])
  }

  /** A text is a single cell exactly when it has no boundary. */
  lemma {:induction false} SingleCellIff(q: Text)
    ensures Uncut(q) <==> AllRecords(q) == [[CellText(q)]]
    ensures Uncut(q) <==> Records(q) == [] && RowCells(q) == []
    decreases |q|
  {
    SingleCell(q);
    var none: seq<Text> := [];
    assert none + [CellText(q)] == [CellText(q)];
    if AllRecords(q) == [[CellText(q)]] {
      assert |Records(q)| == 0;
      assert AllRecords(q)[0] == RowCells(q) + [CellText(q)];
      assert |RowCells(q)| == 0;
    }
  }

  lemma {:induction false} SingleCell(q: Text)
    ensures Uncut(q) <==> Records(q) == [] && RowCells(q) == []
    decreases |q|
  {
    if |q| > 0 {
      var r, c := q[..|q| - 1], q[|q| - 1];
      SingleCell(r);
      assert forall i :: 0 <= i < |r| ==> r[..i] == q[..i] && r[i] == q[i];
      if Uncut(q) {
        assert Uncut(r);
      }
      if Records(q) == [] && RowCells(q) == [] {
        assert Uncut(r) && !Boundary(r, c);
        forall i | 0 <= i < |q| ensures !Boundary(q[..i], q[i]) {
          if i < |r| {
            assert !Boundary(r[..i], r[i]);
          }
        }
      }
    }
  }

  lemma UncutPrefix(r: Text, c: CodeUnit)
    requires Uncut(r + [c])
    ensures Uncut(r) && !Boundary(r, c)
  {
    var q := r + [c];
    assert q[..|r|] == r && !Boundary(q[..|r|], q[|r|]);
    forall i | 0 <= i < |r| ensures !Boundary(r[..i], r[i]) {
      assert r[..i] == q[..i] && !Boundary(q[..i], q[i]);
    }
  }

  /** A cell without quotes says exactly what is written, and holds no separator. */
  lemma {:induction false} PlainCell(q: Text)
    requires QUOTE !in q && Uncut(q)
    ensures CellText(q) == q && COMMA !in q && LF !in q
    decreases |q|
  {
    if |q| > 0 {
      var r, c := q[..|q| - 1], q[|q| - 1];
      assert q == r + [c];
      UncutPrefix(r, c);
      PlainCell(r);
      NoQuotes(r);
      StepInside(r, c);
    }
  }

  lemma {:induction false} NoQuotes(q: Text)
    requires QUOTE !in q
    ensures QuoteCount(q) == 0
  {
    if |q| > 0 {
      NoQuotes(q[..|q| - 1]);
    }
  }
}
