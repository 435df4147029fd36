/** What reading and writing CSV comes to, character by character, told without the reader's own
    definitions. */
module CsvMeaning {
  import opened Wrappers
  import opened JsText
  import opened Csv
  import opened CsvTheorems

  // ---- line breaks -------------------------------------------------------------------------------------

  lemma {:induction false} NoCarriageReturn(t: Text)
    ensures 0x0D !in Newlines(t)
    decreases |t|
  {
    if |t| == 0 {
    } else if t[0] == CR && |t| > 1 && t[1] == LF {
      NoCarriageReturn(t[2..]);
    } else {
      NoCarriageReturn(t[1..]);
    }
  }

  /** A carriage return with the line feed that follows it becomes one line feed, and what stands
      before and after is treated alone. */
  lemma PairBecomesLineFeed(a: Text, b: Text)
    ensures Newlines(a + [0x0D, 0x0A] + b) == Newlines(a) + [0x0A] + Newlines(b)
  {
    var both := [CR, LF] + b;
    assert a + [CR, LF] + b == a + both && both[2..] == b;
    NewlinesConcat(a, both);
    NewlinesFirst(both);
    assert Newlines(a) + ([LF] + Newlines(b)) == Newlines(a) + [LF] + Newlines(b);
  }

  /** So does one that stands alone. */
  lemma ReturnBecomesLineFeed(a: Text, b: Text)
    requires |b| == 0 || b[0] != 0x0A
    ensures Newlines(a + [0x0D] + b) == Newlines(a) + [0x0A] + Newlines(b)
  {
    var one := [CR] + b;
    assert a + [CR] + b == a + one && one[1..] == b;
    NewlinesConcat(a, one);
    NewlinesFirst(one);
    assert Newlines(a) + ([LF] + Newlines(b)) == Newlines(a) + [LF] + Newlines(b);
  }

  /** Nothing else changes. */
  lemma LineBreaksAreUnified(t: Text)
    ensures 0x0D !in Newlines(t)
    ensures 0x0D !in t ==> Newlines(t) == t
  {
    NoCarriageReturn(t);
    if 0x0D !in t {
      NewlinesUntouched(t);
    }
  }

  // ---- quotes ------------------------------------------------------------------------------------------

  lemma {:induction false} QuotesCounted(t: Text)
    ensures QuoteCount(t) == multiset(t)[0x22]
  {
    if |t| > 0 {
      QuotesCounted(t[..|t| - 1]);
      assert t == t[..|t| - 1] + [t[|t| - 1]];
    }
  }

  lemma {:induction false} LineBreaksKeepQuotes(t: Text)
    ensures multiset(Newlines(t))[0x22] == multiset(t)[0x22]
    decreases |t|
  {
    if |t| > 0 {
      var n := FirstWidth(t);
      NewlinesFirst(t);
      LineBreaksKeepQuotes(t[n..]);
      assert t == t[..n] + t[n..];
      assert t[..n] == if n == 2 then [CR, LF] else [t[0]];
    }
  }

  /** The text is refused for an open quote exactly when its quotes are odd in number. */
  lemma UnterminatedIff(text: Text)
    ensures Parsed(text) == Err(UnterminatedQuote) <==> multiset(text)[0x22] % 2 == 1
  {
    var t := WithoutBom(text);
    LineBreaksKeepQuotes(t);
    QuotesCounted(Newlines(t));
    if t != text {
      assert text == [text[0]] + t;
    }
  }

  /** A byte order mark in front makes no difference. */
  lemma ByteOrderMark(text: Text)
    requires |text| == 0 || text[0] != 0xFEFF
    ensures Parsed([0xFEFF] + text) == Parsed(text)
  {
    assert ([0xFEFF] + text)[1..] == text;
  }

  // ---- which records give rows --------------------------------------------------------------------------

  predicate SomeCellSays(record: seq<Text>) {
    exists i :: 0 <= i < |record| && SaysSomething(record[i])
  }

  /** `picked` are the places, in order, of the records with a cell that says something. */
  ghost predicate Picks(records: seq<seq<Text>>, picked: seq<nat>) {
    && (forall i :: 0 <= i < |picked| ==> picked[i] < |records|)
    && (forall i, j :: 0 <= i < j < |picked| ==> picked[i] < picked[j])
    && (forall k :: k in picked <==> 0 <= k < |records| && SomeCellSays(records[k]))
  }

  lemma ContentIff(record: seq<Text>)
    ensures HasContent(record) <==> SomeCellSays(record)
  {
    forall i | 0 <= i < |record| ensures Blank(record[i]) <==> !SaysSomething(record[i]) {
      BlankIff(record[i]);
    }
  }

  lemma {:induction false} PickedRecords(records: seq<seq<Text>>) returns (picked: seq<nat>)
    ensures Picks(records, picked)
    ensures |WithContent(records)| == |picked|
    ensures forall i :: 0 <= i < |picked| ==> WithContent(records)[i] == records[picked[i]]
  {
    picked := [];
    if |records| > 0 {
      var last := |records| - 1;
      var before := PickedRecords(records[..last]);
      ContentIff(records[last]);
      picked := before;
      if SomeCellSays(records[last]) {
        picked := before + [last];
      }
      forall k ensures k in picked <==> 0 <= k < |records| && SomeCellSays(records[k]) {
        assert k in before <==> 0 <= k < last && SomeCellSays(records[..last][k]);
      }
    }
  }

  /** The units that count as white space. */
  const WHITE_SPACE: seq<int> := [
    0x09, 0x0A, 0x0B, 0x0C, 0x0D, 0x20, 0xA0, 0x1680, 0x2000, 0x2001, 0x2002, 0x2003, 0x2004, 0x2005, 0x2006, 0x2007,
    0x2008, 0x2009, 0x200A, 0x2028, 0x2029, 0x202F, 0x205F, 0x3000, 0xFEFF]

  lemma WhiteSpaceMeaning(c: CodeUnit)
    ensures IsSpace(c) <==> c in WHITE_SPACE
  {
    if IsSpace(c) {
      if 0x09 <= c <= 0x0D {
        assert WHITE_SPACE[c - 0x09] == c;
      } else if 0x2000 <= c <= 0x200A {
        assert WHITE_SPACE[c - 0x2000 + 8] == c;
      }
    }
  }

  /** `h` is `cell` without the white space around it. */
  ghost predicate IsTrimmed(cell: Text, h: Text) {
    && (exists a: nat :: a + |h| <= |cell| && cell[a..a + |h|] == h
          && AllSpace(cell[..a]) && AllSpace(cell[a + |h|..]))
    && (h != [] ==> !IsSpace(h[0]) && !IsSpace(h[|h| - 1]))
  }

  lemma {:induction false} StartTrimmed(s: Text) returns (a: nat)
    ensures a <= |s| && TrimStart(s) == s[a..] && AllSpace(s[..a])
    ensures TrimStart(s) != [] ==> !IsSpace(TrimStart(s)[0])
  {
    a := 0;
    if |s| > 0 && IsSpace(s[0]) {
      var rest := StartTrimmed(s[1..]);
      a := rest + 1;
      assert s[..a] == [s[0]] + s[1..][..rest];
    }
  }

  lemma {:induction false} EndTrimmed(s: Text) returns (n: nat)
    ensures n <= |s| && TrimEnd(s) == s[..n] && AllSpace(s[n..])
    ensures TrimEnd(s) != [] ==> !IsSpace(TrimEnd(s)[n - 1])
  {
    n := |s|;
    if |s| > 0 && IsSpace(s[|s| - 1]) {
      n := EndTrimmed(s[..|s| - 1]);
      assert s[n..] == s[..|s| - 1][n..] + [s[|s| - 1]];
      assert s[..|s| - 1][..n] == s[..n];
    }
  }

  lemma TrimMeaning(cell: Text)
    ensures IsTrimmed(cell, Trim(cell))
  {
    var a := StartTrimmed(cell);
    var n := EndTrimmed(cell[a..]);
    var h := Trim(cell);
    assert h == cell[a..][..n] == cell[a..a + n];
    assert cell[a..][n..] == cell[a + n..];
  }

  /** A row by its columns: exactly the headers, each with the value in its place, or empty if the
      record is too short. */
  ghost predicate IsRow(headers: seq<Text>, record: seq<Text>, row: Row) {
    && (forall k :: k in row <==> k in headers)
    && forall i :: 0 <= i < |headers| ==>
         headers[i] in row && row[headers[i]] == if i < |record| then record[i] else []
  }

  lemma {:induction false} RowMeaning(headers: seq<Text>, record: seq<Text>)
    requires Distinct(headers)
    ensures IsRow(headers, record, RowOf(headers, record))
  {
    if |headers| > 0 {
      var last := |headers| - 1;
      RowMeaning(headers[..last], record);
      var before := RowOf(headers[..last], record);
      assert headers == headers[..last] + [headers[last]];
      forall i | 0 <= i < |headers|
        ensures headers[i] in RowOf(headers, record)
        ensures RowOf(headers, record)[headers[i]] == if i < |record| then record[i] else []
      {
        if i < last {
          assert headers[..last][i] == headers[i] && headers[i] != headers[last];
          assert before[headers[..last][i]] == if i < |record| then record[i] else [];
        }
      }
    }
  }

  /** The first of the picked records names the columns, without white space around the names. */
  ghost predicate AreHeaders(records: seq<seq<Text>>, picked: seq<nat>, headers: seq<Text>)
    requires Picks(records, picked)
  {
    if |picked| == 0 then headers == []
    else
      && |headers| == |records[picked[0]]|
      && forall i :: 0 <= i < |headers| ==> IsTrimmed(records[picked[0]][i], headers[i])
  }

  /** Each picked record but the first is a row. */
  ghost predicate AreRows(records: seq<seq<Text>>, picked: seq<nat>, headers: seq<Text>, rows: seq<Row>)
    requires Picks(records, picked)
  {
    && |rows| == (if |picked| == 0 then 0 else |picked| - 1)
    && forall i :: 0 <= i < |rows| ==> IsRow(headers, records[picked[i + 1]], rows[i])
  }

  function HeadersOf(kept: seq<seq<Text>>): seq<Text> {
    if |kept| == 0 then [] else Trimmed(kept[0])
  }

  function RestOf(kept: seq<seq<Text>>): seq<seq<Text>> {
    if |kept| == 0 then [] else kept[1..]
  }

  lemma RecordsMeaning(records: seq<seq<Text>>) returns (picked: seq<nat>)
    ensures Picks(records, picked) && AreHeaders(records, picked, HeadersOf(WithContent(records)))
    ensures var headers := HeadersOf(WithContent(records));
      Distinct(headers) ==> AreRows(records, picked, headers, RowsOf(headers, RestOf(WithContent(records))))
  {
    picked := PickedRecords(records);
    var kept, headers := WithContent(records), HeadersOf(WithContent(records));
    forall i | 0 <= i < |headers| ensures IsTrimmed(records[picked[0]][i], headers[i]) {
      TrimMeaning(kept[0][i]);
    }
    if Distinct(headers) {
      forall i | 1 <= i < |kept| ensures IsRow(headers, records[picked[i]], RowOf(headers, kept[i])) {
        RowMeaning(headers, kept[i]);
      }
    }
  }

  predicate Repeats(headers: seq<Text>) {
    exists i, j :: 0 <= i < j < |headers| && headers[i] == headers[j]
  }

  /** The records of a text, between the boundaries. */
  function RecordsIn(text: Text): seq<seq<Text>> {
    AllRecords(Newlines(WithoutBom(text)))
  }

  /** A text with an even number of quotes is refused exactly when two of its column names are equal
      once trimmed; otherwise it gives a row for every record, but the first, that has a cell with a
      character that is not white space. */
  lemma ParsedMeaning(text: Text) returns (picked: seq<nat>, headers: seq<Text>)
    requires multiset(text)[0x22] % 2 == 0
    ensures Picks(RecordsIn(text), picked) && AreHeaders(RecordsIn(text), picked, headers)
    ensures Repeats(headers) ==> Parsed(text) == Err(DuplicateHeaders)
    ensures !Repeats(headers) ==> Parsed(text).Ok? && AreRows(RecordsIn(text), picked, headers, Parsed(text).value)
  {
    UnterminatedIff(text);
    picked := RecordsMeaning(RecordsIn(text));
    headers := HeadersOf(WithContent(RecordsIn(text)));
    EvenIsClosed(text);
    if Repeats(headers) {
      var i, j :| 0 <= i < j < |headers| && headers[i] == headers[j];
      assert !Distinct(headers);
    } else {
      assert Distinct(headers);
    }
  }

  lemma EvenIsClosed(text: Text)
    requires multiset(text)[0x22] % 2 == 0
    ensures var kept := WithContent(RecordsIn(text));
      Parsed(text) == if Distinct(HeadersOf(kept)) then Ok(RowsOf(HeadersOf(kept), RestOf(kept))) else Err(DuplicateHeaders)
  {
    UnterminatedIff(text);
  }

  // ---- writing -----------------------------------------------------------------------------------------

  /** A cell is written as it is unless it holds a quote, a comma, a line feed or a carriage return;
      then it is written in quotes. */
  lemma CellMeaning(v: Text)
    ensures Encode(v)
         == if 0x22 in v || 0x2C in v || 0x0A in v || 0x0D in v then [0x22] + Doubled(v) + [0x22] else v
  {
    if NeedsQuotes(v) {
      var i :| 0 <= i < |v| && Special(v[i]);
      assert v[i] in v;
    }
  }

  /** Inside quotes, each quote is written twice and everything else once. */
  lemma DoubledMeaning(a: Text, b: Text)
    ensures 0x22 !in a ==> Doubled(a) == a
    ensures Doubled(a + [0x22] + b) == Doubled(a) + [0x22, 0x22] + Doubled(b)
  {
    if 0x22 !in a {
      NothingDoubled(a);
    }
    DoubledConcat(a + [QUOTE], b);
    DoubledConcat(a, [QUOTE]);
    assert Doubled([QUOTE]) == [QUOTE, QUOTE];
  }

  lemma {:induction false} NothingDoubled(a: Text)
    requires 0x22 !in a
    ensures Doubled(a) == a
  {
    if |a| > 0 {
      NothingDoubled(a[1..]);
    }
  }
}
