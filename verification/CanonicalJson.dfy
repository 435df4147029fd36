/** JSON values and their canonical text: keys sorted by code units, no white space, strings
    escaped as `JSON.stringify` does (section 7 of RFC 8259, lone surrogates escaped too). */
module CanonicalJson {
  import opened JsText
  import opened Sorting

  datatype Json =
    | Null
    | Bool(b: bool)
    | Num(n: int)
    | Str(s: Text)
    | Arr(items: seq<Json>)
    | Obj(fields: seq<Field>)  // in insertion order

  datatype Field = Field(key: Text, value: Json)

  predicate HasKey(fields: seq<Field>, key: Text) {
    exists i :: 0 <= i < |fields| && fields[i].key == key
  }

  /** What every JavaScript object satisfies: no key twice, at any depth. */
  predicate WellFormed(v: Json)
    decreases v
  {
    match v
    case Arr(items) => forall i :: 0 <= i < |items| ==> WellFormed(items[i])
    case Obj(fields) =>
      && UniqueKeys(fields)
      && forall i :: 0 <= i < |fields| ==> WellFormed(fields[i].value)
    case _ => true
  }

  predicate UniqueKeys(fields: seq<Field>) {
    forall i, j :: 0 <= i < j < |fields| ==> fields[i].key != fields[j].key
  }

  /** Equality of JSON values as data: the order of keys does not matter. */
  predicate SameJson(v: Json, w: Json)
    decreases v
  {
    match (v, w)
    case (Arr(a), Arr(b)) => |a| == |b| && forall i :: 0 <= i < |a| ==> SameJson(a[i], b[i])
    case (Obj(f), Obj(g)) => SameFields(f, g)
    case (Arr(_), _) => false
    case (Obj(_), _) => false
    case (_, _) => v == w
  }

  predicate SameFields(f: seq<Field>, g: seq<Field>)
    decreases f
  {
    && (forall i :: 0 <= i < |f| ==> HasKey(g, f[i].key))
    && (forall j :: 0 <= j < |g| ==> HasKey(f, g[j].key))
    && (forall i, j :: 0 <= i < |f| && 0 <= j < |g| && f[i].key == g[j].key
          ==> SameJson(f[i].value, g[j].value))
  }

  // ---- strings -------------------------------------------------------------------------

  const QUOTE: CodeUnit := 0x22
  const BACKSLASH: CodeUnit := 0x5C
  const COMMA: CodeUnit := 0x2C
  const COLON: CodeUnit := 0x3A

  predicate HighSurrogate(c: CodeUnit) { 0xD800 <= c < 0xDC00 }

  predicate LowSurrogate(c: CodeUnit) { 0xDC00 <= c < 0xE000 }

  function HexDigit(d: int): CodeUnit
    requires 0 <= d < 16
  {
    if d < 10 then 0x30 + d else 0x61 + d - 10
  }

  function Hex4(c: CodeUnit): Text {
    [HexDigit(c / 0x1000), HexDigit(c / 0x100 % 0x10), HexDigit(c / 0x10 % 0x10), HexDigit(c % 0x10)]
  }

  function EscapeUnit(c: CodeUnit): (t: Text)
    ensures |t| > 0 && t[0] != QUOTE && !HighSurrogate(t[0])
  {
    if c == QUOTE then [BACKSLASH, QUOTE]
    else if c == BACKSLASH then [BACKSLASH, BACKSLASH]
    else if c == 0x08 then [BACKSLASH, 0x62]
    else if c == 0x0C then [BACKSLASH, 0x66]
    else if c == 0x0A then [BACKSLASH, 0x6E]
    else if c == 0x0D then [BACKSLASH, 0x72]
    else if c == 0x09 then [BACKSLASH, 0x74]
    else if c < 0x20 || HighSurrogate(c) || LowSurrogate(c) then [BACKSLASH, 0x75] + Hex4(c)
    else [c]
  }

  predicate StartsWithPair(s: Text) {
    |s| > 1 && HighSurrogate(s[0]) && LowSurrogate(s[1])
  }

  function Escape(s: Text): Text {
    if |s| == 0 then []
    else if StartsWithPair(s) then s[..2] + Escape(s[2..])
    else EscapeUnit(s[0]) + Escape(s[1..])
  }

  function Quote(s: Text): Text {
    [QUOTE] + Escape(s) + [QUOTE]
  }

  // ---- the canonical text, as the code computes it ---------------------------------------

  function KeysOf<V>(fields: seq<(Text, V)>): (keys: seq<Text>)
    ensures |keys| == |fields| && forall i :: 0 <= i < |fields| ==> keys[i] == fields[i].0
  {
    seq(|fields|, i requires 0 <= i < |fields| => fields[i].0)
  }

  function Itself(k: Text): Text { k }

  function Canonical(v: Json): Text
    decreases v, 1
  {
    match v
    case Null => Lit("null")
    case Bool(b) => if b then Lit("true") else Lit("false")
    case Num(n) => Decimal(n)
    case Str(s) => Quote(s)
    case Arr(items) => Lit("[") + JoinWith(CanonicalItems(items), COMMA) + Lit("]")
    case Obj(fields) =>
      var record := CanonicalValues(fields);
      var keys := SortBy(KeysOf(record), Itself, LexLe);
      Lit("{") + JoinWith(Entries(keys, record), COMMA) + Lit("}")
  }

  function CanonicalItems(items: seq<Json>): (r: seq<Text>)
    ensures |r| == |items|
    ensures forall i :: 0 <= i < |items| ==> r[i] == Canonical(items[i])
    decreases items, 0
  {
    if |items| == 0 then [] else [Canonical(items[0])] + CanonicalItems(items[1..])
  }

  function CanonicalValues(fields: seq<Field>): (r: seq<(Text, Text)>)
    ensures |r| == |fields|
    ensures forall i :: 0 <= i < |fields| ==> r[i] == (fields[i].key, Canonical(fields[i].value))
    decreases fields, 0
  {
    if |fields| == 0 then []
    else [(fields[0].key, Canonical(fields[0].value))] + CanonicalValues(fields[1..])
  }

  /** `record[key]`. */
  function Property(record: seq<(Text, Text)>, key: Text): Text {
    if |record| == 0 then Lit("undefined")
    else if record[0].0 == key then record[0].1
    else Property(record[1..], key)
  }

  function Entries(keys: seq<Text>, record: seq<(Text, Text)>): (r: seq<Text>)
    ensures |r| == |keys|
    ensures forall i :: 0 <= i < |keys| ==> r[i] == Quote(keys[i]) + [COLON] + Property(record, keys[i])
  {
    if |keys| == 0 then []
    else [Quote(keys[0]) + [COLON] + Property(record, keys[0])] + Entries(keys[1..], record)
  }

  // ---- the canonical text as printing a value whose keys have been sorted ------------------

  function FieldKey(f: Field): Text { f.key }

  function SortKeys(v: Json): Json
    decreases v, 1
  {
    match v
    case Arr(items) => Arr(SortKeysOfItems(items))
    case Obj(fields) => Obj(SortBy(SortKeysOfValues(fields), FieldKey, LexLe))
    case _ => v
  }

  function SortKeysOfItems(items: seq<Json>): (r: seq<Json>)
    ensures |r| == |items|
    ensures forall i :: 0 <= i < |items| ==> r[i] == SortKeys(items[i])
    decreases items, 0
  {
    if |items| == 0 then [] else [SortKeys(items[0])] + SortKeysOfItems(items[1..])
  }

  function SortKeysOfValues(fields: seq<Field>): (r: seq<Field>)
    ensures |r| == |fields|
    ensures forall i :: 0 <= i < |fields| ==> r[i] == Field(fields[i].key, SortKeys(fields[i].value))
    decreases fields, 0
  {
    if |fields| == 0 then []
    else [Field(fields[0].key, SortKeys(fields[0].value))] + SortKeysOfValues(fields[1..])
  }

  function Print(v: Json): Text
    decreases v, 1
  {
    match v
    case Null => Lit("null")
    case Bool(b) => if b then Lit("true") else Lit("false")
    case Num(n) => Decimal(n)
    case Str(s) => Quote(s)
    case Arr(items) => Lit("[") + PrintItems(items) + Lit("]")
    case Obj(fields) => Lit("{") + PrintFields(fields) + Lit("}")
  }

  function PrintItems(items: seq<Json>): Text
    decreases items, 0
  {
    if |items| == 0 then []
    else if |items| == 1 then Print(items[0])
    else Print(items[0]) + [COMMA] + PrintItems(items[1..])
  }

  function PrintField(f: Field): Text
    decreases f, 2
  {
    Quote(f.key) + [COLON] + Print(f.value)
  }

  function PrintFields(fields: seq<Field>): Text
    decreases fields, 0
  {
    if |fields| == 0 then []
    else if |fields| == 1 then PrintField(fields[0])
    else PrintField(fields[0]) + [COMMA] + PrintFields(fields[1..])
  }
}
