/** A reader of JSON texts without insignificant white space (sections 2 to 7 of RFC 8259, integer
    numbers), written apart from the printer: reading a canonical text gives the printed value with
    the keys of each object in ascending order of their code units. */
module JsonReader {
  import opened Wrappers
  import opened JsText
  import opened Sorting
  import opened CanonicalJson
  import opened UniqueReading
  import opened CanonicalTheorems

  // ---- strings -----------------------------------------------------------------------------------------

  /** The value of a hexadecimal digit of either case. */
  function HexOf(c: CodeUnit): Option<nat> {
    if 0x30 <= c <= 0x39 then Some(c - 0x30)
    else if 0x41 <= c <= 0x46 then Some(c - 0x41 + 10)
    else if 0x61 <= c <= 0x66 then Some(c - 0x61 + 10)
    else None
  }

  function FourHex(t: Text): Option<CodeUnit>
    requires |t| == 4
  {
    var a, b, c, d := HexOf(t[0]), HexOf(t[1]), HexOf(t[2]), HexOf(t[3]);
    if a.Some? && b.Some? && c.Some? && d.Some? && a.value < 16 && b.value < 16 && c.value < 16 && d.value < 16 then
      Some(a.value * 4096 + b.value * 256 + c.value * 16 + d.value)
    else None
  }

  /** The unit that a two-character escape stands for. */
  function ShortEscape(c: CodeUnit): Option<CodeUnit> {
    if c == 0x22 || c == 0x5C || c == 0x2F then Some(c)
    else if c == 0x62 then Some(8)
    else if c == 0x66 then Some(12)
    else if c == 0x6E then Some(10)
    else if c == 0x72 then Some(13)
    else if c == 0x74 then Some(9)
    else None
  }

  function Prepend(c: CodeUnit, read: Option<(Text, Text)>): Option<(Text, Text)> {
    if read.None? then None else Some(([c] + read.value.0, read.value.1))
  }

  /** The units up to the closing quotation mark, and what follows it. */
  function ReadUnits(t: Text): (r: Option<(Text, Text)>)
    ensures r.Some? ==> |r.value.1| < |t|
  {
    if |t| == 0 then None
    else if t[0] == 0x22 then Some(([], t[1..]))
    else if t[0] < 0x20 then None
    else if t[0] != 0x5C then Prepend(t[0], ReadUnits(t[1..]))
    else if |t| < 2 then None
    else if t[1] != 0x75 then
      if ShortEscape(t[1]).None? then None else Prepend(ShortEscape(t[1]).value, ReadUnits(t[2..]))
    else if |t| < 6 || FourHex(t[2..6]).None? then None
    else Prepend(FourHex(t[2..6]).value, ReadUnits(t[6..]))
  }

  function ReadString(t: Text): (r: Option<(Text, Text)>)
    ensures r.Some? ==> |r.value.1| < |t|
  {
    if |t| > 0 && t[0] == 0x22 then ReadUnits(t[1..]) else None
  }

  lemma HexReads(d: int)
    requires 0 <= d < 16
    ensures HexOf(HexDigit(d)) == Some(d)
  {
  }

  lemma FourHexReads(c: CodeUnit)
    ensures FourHex(Hex4(c)) == Some(c)
  {
    HexReads(c / 0x1000);
    HexReads(c / 0x100 % 0x10);
    HexReads(c / 0x10 % 0x10);
    HexReads(c % 0x10);
    assert c == c / 0x10 * 0x10 + c % 0x10;
    assert c / 0x10 == c / 0x100 * 0x10 + c / 0x10 % 0x10;
    assert c / 0x100 == c / 0x1000 * 0x10 + c / 0x100 % 0x10;
  }

  lemma LongEscapeReads(c: CodeUnit, more: Text)
    ensures ReadUnits([0x5C, 0x75] + Hex4(c) + more) == Prepend(c, ReadUnits(more))
  {
    var t := [0x5C, 0x75] + Hex4(c) + more;
    assert t[2..6] == Hex4(c) && t[6..] == more;
    FourHexReads(c);
  }

  lemma UnitReads(c: CodeUnit, more: Text)
    ensures ReadUnits(EscapeUnit(c) + more) == Prepend(c, ReadUnits(more))
  {
    var e := EscapeUnit(c);
    var t := e + more;
    if |e| == 1 {
      assert t[0] == c && t[1..] == more;
    } else if |e| == 2 {
      assert t[0] == 0x5C && t[1] == e[1] && t[2..] == more;
    } else {
      LongEscapeReads(c, more);
    }
  }

  lemma PlainReads(c: CodeUnit, more: Text)
    requires c >= 0x20 && c != 0x22 && c != 0x5C
    ensures ReadUnits([c] + more) == Prepend(c, ReadUnits(more))
  {
    assert ([c] + more)[1..] == more;
  }

  lemma PairReads(s: Text, rest: Text, more: Text)
    requires StartsWithPair(s) && ReadUnits(rest) == Some((s[2..], more))
    ensures ReadUnits(s[..2] + rest) == Some((s, more))
  {
    assert s[..2] + rest == [s[0]] + ([s[1]] + rest);
    PlainReads(s[1], rest);
    PlainReads(s[0], [s[1]] + rest);
    assert s == [s[0]] + ([s[1]] + s[2..]);
  }

  lemma {:induction false} EscapeReads(s: Text, more: Text)
    ensures ReadUnits(Escape(s) + [0x22] + more) == Some((s, more))
    decreases |s|
  {
    if |s| == 0 {
      assert Escape(s) + [0x22] + more == [0x22] + more;
      assert ([0x22] + more)[1..] == more;
    } else if StartsWithPair(s) {
      EscapeReads(s[2..], more);
      BodySplit(s, more);
      PairReads(s, Escape(s[2..]) + [0x22] + more, more);
    } else {
      EscapeReads(s[1..], more);
      BodySplit(s, more);
      UnitReads(s[0], Escape(s[1..]) + [0x22] + more);
      assert s == [s[0]] + s[1..];
    }
  }

  /** A quoted text reads back to the text, whatever follows it. */
  lemma QuoteReads(s: Text, more: Text)
    ensures ReadString(Quote(s) + more) == Some((s, more))
  {
    EscapeReads(s, more);
    assert (Quote(s) + more)[1..] == Escape(s) + [0x22] + more;
  }

  /** What is escaped and how: the two-character form where there is one, four lower-case digits for
      the other control characters and for surrogates without a partner, and nothing else. */
  lemma EscapeForms(c: CodeUnit)
    ensures |EscapeUnit(c)| == 2 <==> c in [0x22, 0x5C, 8, 9, 10, 12, 13]
    ensures |EscapeUnit(c)| == 1 <==> c >= 0x20 && c != 0x22 && c != 0x5C && !(0xD800 <= c <= 0xDFFF)
    ensures |EscapeUnit(c)| == 1 ==> EscapeUnit(c) == [c]
    ensures |EscapeUnit(c)| != 1 ==> EscapeUnit(c)[0] == 0x5C
    ensures forall i :: 0 <= i < |EscapeUnit(c)| && |EscapeUnit(c)| == 6 ==> !(0x41 <= EscapeUnit(c)[i] <= 0x46)
  {
  }

  // ---- numbers -----------------------------------------------------------------------------------------

  predicate DigitAt(t: Text, i: nat) {
    i < |t| && 0x30 <= t[i] <= 0x39
  }

  /** How many digits the text starts with. */
  function DigitRun(t: Text): (n: nat)
    ensures n <= |t|
  {
    if DigitAt(t, 0) then 1 + DigitRun(t[1..]) else 0
  }

  function DecimalValue(digits: Text): int {
    if |digits| == 0 then 0
    else DecimalValue(digits[..|digits| - 1]) * 10 + (digits[|digits| - 1] as int - 0x30)
  }

  /** Digits without a leading zero. */
  function ReadNatural(t: Text): (r: Option<(int, Text)>)
    ensures r.Some? ==> |r.value.1| < |t|
  {
    var n := DigitRun(t);
    if n == 0 || (n > 1 && t[0] == 0x30) then None else Some((DecimalValue(t[..n]), t[n..]))
  }

  function ReadNumber(t: Text): (r: Option<(int, Text)>)
    ensures r.Some? ==> |r.value.1| < |t|
  {
    if |t| > 0 && t[0] == 0x2D then
      var read := ReadNatural(t[1..]);
      if read.None? then None else Some((-read.value.0, read.value.1))
    else ReadNatural(t)
  }

  lemma {:induction false} RunOfDigits(digits: Text, more: Text)
    requires forall i :: 0 <= i < |digits| ==> 0x30 <= digits[i] <= 0x39
    requires !DigitAt(more, 0)
    ensures DigitRun(digits + more) == |digits|
  {
    if |digits| > 0 {
      RunOfDigits(digits[1..], more);
      assert (digits + more)[1..] == digits[1..] + more;
    } else {
      assert digits + more == more;
    }
  }

  lemma {:induction false} DigitsRead(n: nat)
    ensures DecimalValue(Digits(n)) == n
    ensures |Digits(n)| > 1 ==> Digits(n)[0] != 0x30
    ensures n > 0 ==> Digits(n)[0] != 0x30
    ensures forall i :: 0 <= i < |Digits(n)| ==> 0x30 <= Digits(n)[i] <= 0x39
  {
    var d := Digits(n);
    if n >= 10 {
      DigitsRead(n / 10);
      assert d[..|d| - 1] == Digits(n / 10);
      assert d[0] == Digits(n / 10)[0];
    } else {
      assert d[..0] == [];
      assert DecimalValue(d) == DecimalValue(d[..0]) * 10 + (d[0] - 0x30);
    }
  }

  lemma NaturalReads(n: nat, more: Text)
    requires !DigitAt(more, 0)
    ensures ReadNatural(Digits(n) + more) == Some((n as int, more))
  {
    var d := Digits(n);
    DigitsRead(n);
    RunOfDigits(d, more);
    assert (d + more)[..|d|] == d && (d + more)[|d|..] == more;
  }

  lemma NegativeReads(digits: Text, n: nat, more: Text)
    requires ReadNatural(digits + more) == Some((n as int, more))
    ensures ReadNumber([0x2D] + digits + more) == Some((-(n as int), more))
  {
    assert ([0x2D] + digits + more)[1..] == digits + more;
  }

  lemma NumberReads(n: int, more: Text)
    requires !DigitAt(more, 0)
    ensures ReadNumber(Decimal(n) + more) == Some((n, more))
  {
    if n < 0 {
      NaturalReads(-n, more);
      NegativeReads(Digits(-n), -n, more);
    } else {
      NaturalReads(n, more);
      DigitsRead(n);
      assert (Decimal(n) + more)[0] == Digits(n)[0];
    }
  }

  // ---- values ------------------------------------------------------------------------------------------

  predicate StartsWith(t: Text, word: string) {
    |t| >= |word| && forall i :: 0 <= i < |word| ==> t[i] == UnitOf(word[i])
  }

  function ReadValue(t: Text): (r: Option<(Json, Text)>)
    ensures r.Some? ==> |r.value.1| < |t|
    decreases |t|, 0
  {
    if |t| == 0 then None
    else if StartsWith(t, "null") then Some((Null, t[4..]))
    else if StartsWith(t, "true") then Some((Bool(true), t[4..]))
    else if StartsWith(t, "false") then Some((Bool(false), t[5..]))
    else if t[0] == 0x22 then
      var s := ReadString(t);
      if s.None? then None else Some((Str(s.value.0), s.value.1))
    else if t[0] == 0x5B then
      if |t| > 1 && t[1] == 0x5D then Some((Arr([]), t[2..]))
      else
        var items := ReadItems(t[1..]);
        if items.None? then None else Some((Arr(items.value.0), items.value.1))
    else if t[0] == 0x7B then
      if |t| > 1 && t[1] == 0x7D then Some((Obj([]), t[2..]))
      else
        var fields := ReadFields(t[1..]);
        if fields.None? then None else Some((Obj(fields.value.0), fields.value.1))
    else
      var n := ReadNumber(t);
      if n.None? then None else Some((Num(n.value.0), n.value.1))
  }

  /** One or more values, separated by commas, up to the closing bracket. */
  function ReadItems(t: Text): (r: Option<(seq<Json>, Text)>)
    ensures r.Some? ==> |r.value.1| < |t|
    decreases |t|, 1
  {
    var first := ReadValue(t);
    if first.None? || first.value.1 == [] then None
    else
      var rest := first.value.1;
      if rest[0] == 0x5D then Some(([first.value.0], rest[1..]))
      else if rest[0] != 0x2C then None
      else
        var more := ReadItems(rest[1..]);
        if more.None? then None else Some(([first.value.0] + more.value.0, more.value.1))
  }

  /** A name, a colon and a value. */
  function ReadField(t: Text): (r: Option<(Field, Text)>)
    ensures r.Some? ==> |r.value.1| < |t|
    decreases |t|, 1
  {
    var key := ReadString(t);
    if key.None? || key.value.1 == [] || key.value.1[0] != 0x3A then None
    else
      var value := ReadValue(key.value.1[1..]);
      if value.None? then None else Some((Field(key.value.0, value.value.0), value.value.1))
  }

  function ReadFields(t: Text): (r: Option<(seq<Field>, Text)>)
    ensures r.Some? ==> |r.value.1| < |t|
    decreases |t|, 2
  {
    var first := ReadField(t);
    if first.None? || first.value.1 == [] then None
    else
      var rest := first.value.1;
      if rest[0] == 0x7D then Some(([first.value.0], rest[1..]))
      else if rest[0] != 0x2C then None
      else
        var more := ReadFields(rest[1..]);
        if more.None? then None else Some(([first.value.0] + more.value.0, more.value.1))
  }

  // ---- printed values read back ----------------------------------------------------------------------------

  lemma PrintStart(v: Json)
    ensures |Print(v)| > 0 && Print(v)[0] != 0x5D && Print(v)[0] != 0x7D
  {
    if v.Num? && v.n >= 0 {
      DigitsRead(v.n);
    }
  }

  lemma WordReads(v: Json, more: Text)
    requires v.Null? || v.Bool?
    ensures ReadValue(Print(v) + more) == Some((v, more))
  {
    var t := Print(v) + more;
    assert t[|Print(v)|..] == more;
    if v == Bool(false) {
      assert t[0] == UnitOf('f') && "null"[0] != 'f' && "true"[0] != 'f';
    } else if v == Bool(true) {
      assert t[0] == UnitOf('t') && "null"[0] != 't';
    }
  }

  lemma NotAWord(t: Text)
    requires |t| > 0 && t[0] != 0x6E && t[0] != 0x74 && t[0] != 0x66
    ensures !StartsWith(t, "null") && !StartsWith(t, "true") && !StartsWith(t, "false")
  {
    assert UnitOf("null"[0]) == 0x6E && UnitOf("true"[0]) == 0x74 && UnitOf("false"[0]) == 0x66;
  }

  lemma ScalarReads(v: Json, more: Text)
    requires v.Num? || v.Str?
    requires v.Num? ==> !DigitAt(more, 0)
    ensures ReadValue(Print(v) + more) == Some((v, more))
  {
    var t := Print(v) + more;
    assert t[0] == Print(v)[0];
    if v.Str? {
      QuoteReads(v.s, more);
    } else {
      NumberReads(v.n, more);
      if v.n >= 0 {
        DigitsRead(v.n);
      }
    }
    NotAWord(t);
  }

  lemma OpenedText(c: CodeUnit, body: Text)
    requires |body| > 0 && (c == 0x5B || c == 0x7B)
    ensures var t := [c] + body; |t| > 1 && t[0] == c && t[1] == body[0] && t[1..] == body
    ensures !StartsWith([c] + body, "null") && !StartsWith([c] + body, "true") && !StartsWith([c] + body, "false")
  {
    NotAWord([c] + body);
  }

  lemma BracketReads(body: Text, items: seq<Json>, more: Text)
    requires |body| > 0 && body[0] != 0x5D && ReadItems(body) == Some((items, more))
    ensures ReadValue([0x5B] + body) == Some((Arr(items), more))
  {
    OpenedText(0x5B, body);
  }

  lemma BraceReads(body: Text, fields: seq<Field>, more: Text)
    requires |body| > 0 && body[0] != 0x7D && ReadFields(body) == Some((fields, more))
    ensures ReadValue([0x7B] + body) == Some((Obj(fields), more))
  {
    OpenedText(0x7B, body);
  }

  lemma EmptyReads(more: Text)
    ensures ReadValue([0x5B] + [0x5D] + more) == Some((Arr([]), more))
    ensures ReadValue([0x7B] + [0x7D] + more) == Some((Obj([]), more))
  {
    NotAWord([0x5B] + [0x5D] + more);
    NotAWord([0x7B] + [0x7D] + more);
    assert ([0x5B] + [0x5D] + more)[2..] == more && ([0x7B] + [0x7D] + more)[2..] == more;
  }

  lemma Enclosed(open: Text, inner: Text, close: Text, more: Text)
    ensures open + inner + close + more == open + (inner + (close + more))
    ensures inner == [] ==> open + inner + close + more == open + close + more
  {
  }

  lemma Brackets()
    ensures Lit("[") == [0x5B] && Lit("]") == [0x5D] && Lit("{") == [0x7B] && Lit("}") == [0x7D]
  {
  }

  lemma ArrayText(items: seq<Json>, more: Text)
    ensures Print(Arr(items)) + more == [0x5B] + (PrintItems(items) + ([0x5D] + more))
    ensures |items| == 0 ==> Print(Arr(items)) + more == [0x5B] + [0x5D] + more
  {
    Brackets();
    Enclosed([0x5B], PrintItems(items), [0x5D], more);
  }

  lemma ObjectText(fields: seq<Field>, more: Text)
    ensures Print(Obj(fields)) + more == [0x7B] + (PrintFields(fields) + ([0x7D] + more))
    ensures |fields| == 0 ==> Print(Obj(fields)) + more == [0x7B] + [0x7D] + more
  {
    Brackets();
    Enclosed([0x7B], PrintFields(fields), [0x7D], more);
  }

  lemma {:induction false} PrintReads(v: Json, more: Text)
    requires v.Num? ==> !DigitAt(more, 0)
    ensures ReadValue(Print(v) + more) == Some((v, more))
    decreases v, 1
  {
    match v
    case Arr(items) =>
      ArrayText(items, more);
      if |items| == 0 {
        EmptyReads(more);
      } else {
        ItemsRead(items, more);
        ItemsStart(items, [0x5D] + more);
        BracketReads(PrintItems(items) + ([0x5D] + more), items, more);
      }
    case Obj(fields) =>
      ObjectText(fields, more);
      if |fields| == 0 {
        EmptyReads(more);
      } else {
        FieldsRead(fields, more);
        FieldsStart(fields, [0x7D] + more);
        BraceReads(PrintFields(fields) + ([0x7D] + more), fields, more);
      }
    case Num(_) => ScalarReads(v, more);
    case Str(_) => ScalarReads(v, more);
    case _ => WordReads(v, more);
  }

  lemma ItemsStart(items: seq<Json>, more: Text)
    requires |items| > 0
    ensures |PrintItems(items) + more| > 0 && (PrintItems(items) + more)[0] != 0x5D
  {
    PrintStart(items[0]);
  }

  lemma FieldsStart(fields: seq<Field>, more: Text)
    requires |fields| > 0
    ensures |PrintFields(fields) + more| > 0 && (PrintFields(fields) + more)[0] == 0x22
  {
    assert PrintField(fields[0])[0] == 0x22;
  }

  lemma {:induction false} ItemsRead(items: seq<Json>, more: Text)
    requires |items| > 0
    ensures ReadItems(PrintItems(items) + ([0x5D] + more)) == Some((items, more))
    decreases items, 0
  {
    var t := PrintItems(items) + ([0x5D] + more);
    if |items| == 1 {
      PrintReads(items[0], [0x5D] + more);
      assert ([0x5D] + more)[1..] == more;
      assert items == [items[0]];
    } else {
      var rest := PrintItems(items[1..]) + ([0x5D] + more);
      assert t == Print(items[0]) + ([0x2C] + rest);
      PrintReads(items[0], [0x2C] + rest);
      assert ([0x2C] + rest)[1..] == rest;
      ItemsRead(items[1..], more);
      assert items == [items[0]] + items[1..];
    }
  }

  lemma {:induction false} FieldReads(f: Field, more: Text)
    requires !DigitAt(more, 0)
    ensures ReadField(PrintField(f) + more) == Some((f, more))
    decreases f, 2
  {
    var value := Print(f.value) + more;
    assert PrintField(f) + more == Quote(f.key) + ([0x3A] + value);
    QuoteReads(f.key, [0x3A] + value);
    assert ([0x3A] + value)[1..] == value;
    PrintReads(f.value, more);
  }

  lemma {:induction false} FieldsRead(fields: seq<Field>, more: Text)
    requires |fields| > 0
    ensures ReadFields(PrintFields(fields) + ([0x7D] + more)) == Some((fields, more))
    decreases fields, 0
  {
    var t := PrintFields(fields) + ([0x7D] + more);
    if |fields| == 1 {
      FieldReads(fields[0], [0x7D] + more);
      assert ([0x7D] + more)[1..] == more;
      assert fields == [fields[0]];
    } else {
      var rest := PrintFields(fields[1..]) + ([0x7D] + more);
      assert t == PrintField(fields[0]) + ([0x2C] + rest);
      FieldReads(fields[0], [0x2C] + rest);
      assert ([0x2C] + rest)[1..] == rest;
      FieldsRead(fields[1..], more);
      assert fields == [fields[0]] + fields[1..];
    }
  }

  // ---- the order of keys -------------------------------------------------------------------------------------

  /** `k` is a proper prefix of `l`, or smaller where they first differ. */
  ghost predicate Precedes(k: Text, l: Text) {
    || (|k| < |l| && l[..|k|] == k)
    || exists i :: 0 <= i < |k| && i < |l| && k[..i] == l[..i] && k[i] < l[i]
  }

  /** In every object, at any depth, the keys ascend. */
  ghost predicate KeysAscend(v: Json)
    decreases v
  {
    match v
    case Arr(items) => forall i :: 0 <= i < |items| ==> KeysAscend(items[i])
    case Obj(fields) =>
      && (forall i :: 0 <= i < |fields| ==> KeysAscend(fields[i].value))
      && forall i :: 0 < i < |fields| ==> Precedes(fields[i - 1].key, fields[i].key)
    case _ => true
  }

  lemma {:induction false} LexLePrecedes(k: Text, l: Text)
    requires LexLe(k, l) && k != l
    ensures Precedes(k, l)
    decreases |k|
  {
    if |k| == 0 {
      assert l[..0] == k;
    } else if k[0] < l[0] {
      assert k[..0] == l[..0];
    } else {
      assert k == [k[0]] + k[1..] && l == [l[0]] + l[1..];
      LexLePrecedes(k[1..], l[1..]);
      if |k[1..]| < |l[1..]| && l[1..][..|k[1..]|] == k[1..] {
        assert l[..|k|] == [l[0]] + l[1..][..|k| - 1];
      } else {
        var i :| 0 <= i < |k[1..]| && i < |l[1..]| && k[1..][..i] == l[1..][..i] && k[1..][i] < l[1..][i];
        assert k[..i + 1] == [k[0]] + k[1..][..i] && l[..i + 1] == [l[0]] + l[1..][..i];
      }
    }
  }

  lemma {:induction false} SortedKeysAscend(v: Json)
    requires WellFormed(v)
    ensures KeysAscend(SortKeys(v))
    decreases v
  {
    match v
    case Arr(items) =>
      forall i | 0 <= i < |items| ensures KeysAscend(SortKeys(items[i])) {
        SortedKeysAscend(items[i]);
      }
    case Obj(fields) =>
      forall i | 0 <= i < |fields| ensures KeysAscend(SortKeys(fields[i].value)) {
        SortedKeysAscend(fields[i].value);
      }
      FieldsAscend(SortKeysOfValues(fields));
    case _ =>
  }

  lemma FieldsAscend(fields: seq<Field>)
    requires UniqueKeys(fields) && forall i :: 0 <= i < |fields| ==> KeysAscend(fields[i].value)
    ensures KeysAscend(Obj(SortBy(fields, FieldKey, LexLe)))
  {
    var sorted := SortBy(fields, FieldKey, LexLe);
    LexIsTotalOrder();
    SortAscending(fields, FieldKey, LexLe);
    SortContents(fields, FieldKey, LexLe);
    SortedFieldsAreUnique(fields);
    forall i | 0 <= i < |sorted| ensures KeysAscend(sorted[i].value) {
      var j := SortedFieldIsAField(fields, i);
    }
    forall i | 0 < i < |sorted| ensures Precedes(sorted[i - 1].key, sorted[i].key) {
      assert LexLe(FieldKey(sorted[i - 1]), FieldKey(sorted[i]));
      LexLePrecedes(sorted[i - 1].key, sorted[i].key);
    }
  }

  lemma SortedFieldsAreUnique(fields: seq<Field>)
    requires UniqueKeys(fields)
    ensures UniqueKeys(SortBy(fields, FieldKey, LexLe))
  {
    var sorted := SortBy(fields, FieldKey, LexLe);
    LexIsTotalOrder();
    SortContents(fields, FieldKey, LexLe);
    assert DistinctKeys(fields, FieldKey, LexLe);
    ReorderingKeepsDistinct(fields, sorted, FieldKey, LexLe);
    forall i, j | 0 <= i < j < |sorted| ensures sorted[i].key != sorted[j].key {
      assert !Tied(LexLe, FieldKey(sorted[i]), FieldKey(sorted[j]));
    }
  }

  /** Reading the canonical text of a value gives the same data, and nothing is left over; the keys of
      each object stand in ascending order of their code units. */
  lemma CanonicalReads(v: Json)
    requires WellFormed(v)
    ensures ReadValue(Canonical(v)).Some?
    ensures var (read, rest) := ReadValue(Canonical(v)).value; rest == [] && SameJson(v, read) && KeysAscend(read)
  {
    CanonicalPrints(v);
    PrintReads(SortKeys(v), []);
    assert Print(SortKeys(v)) + [] == Print(SortKeys(v));
    SortedKeysAscend(v);
    SameDataSorted(v);
  }

  lemma {:induction false} SameDataSorted(v: Json)
    requires WellFormed(v)
    ensures SameJson(v, SortKeys(v))
    decreases v
  {
    match v
    case Arr(items) =>
      forall i | 0 <= i < |items| ensures SameJson(items[i], SortKeys(items[i])) {
        SameDataSorted(items[i]);
      }
    case Obj(fields) =>
      forall i | 0 <= i < |fields| ensures SameJson(fields[i].value, SortKeys(fields[i].value)) {
        SameDataSorted(fields[i].value);
      }
      SameFieldsSorted(fields, SortKeysOfValues(fields));
    case _ =>
  }

  lemma FieldIsSorted(values: seq<Field>, i: nat)
    requires i < |values|
    ensures HasKey(SortBy(values, FieldKey, LexLe), values[i].key)
  {
    var sorted := SortBy(values, FieldKey, LexLe);
    SortContents(values, FieldKey, LexLe);
    assert values[i] in multiset(values);
    assert values[i] in sorted;
  }

  lemma SameFieldsSorted(fields: seq<Field>, values: seq<Field>)
    requires UniqueKeys(fields) && |values| == |fields|
    requires forall i :: 0 <= i < |fields| ==> values[i].key == fields[i].key && SameJson(fields[i].value, values[i].value)
    ensures SameFields(fields, SortBy(values, FieldKey, LexLe))
  {
    var sorted := SortBy(values, FieldKey, LexLe);
    forall i | 0 <= i < |fields| ensures HasKey(sorted, fields[i].key) {
      FieldIsSorted(values, i);
    }
    forall j | 0 <= j < |sorted| ensures HasKey(fields, sorted[j].key) {
      var i := SortedFieldIsAField(values, j);
      assert fields[i].key == sorted[j].key;
    }
    forall i, j | 0 <= i < |fields| && 0 <= j < |sorted| && fields[i].key == sorted[j].key
      ensures SameJson(fields[i].value, sorted[j].value)
    {
      var k := SortedFieldIsAField(values, j);
      assert k == i;
    }
  }
}
