/** Printed JSON is uniquely readable: a printed value is recognised at the front of a text
    whatever follows it, so no text is the print of two values. */
module UniqueReading {
  import opened JsText
  import opened CanonicalJson

  lemma Cancel<T>(a: seq<T>, b: seq<T>, s: seq<T>, t: seq<T>)
    requires a + s == b + t && |a| == |b|
    ensures a == b && s == t
  {
    assert a == (a + s)[..|a|] && b == (b + t)[..|b|];
    assert s == (a + s)[|a|..] && t == (b + t)[|b|..];
  }

  lemma HexValue(c: CodeUnit)
    ensures c == c / 0x1000 * 0x1000 + c / 0x100 % 0x10 * 0x100 + c / 0x10 % 0x10 * 0x10 + c % 0x10
  {
    assert c == c / 0x10 * 0x10 + c % 0x10;
    assert c / 0x10 == c / 0x100 * 0x10 + c / 0x10 % 0x10;
    assert c / 0x100 == c / 0x1000 * 0x10 + c / 0x100 % 0x10;
  }

  lemma HexDigitInjective(x: int, y: int)
    requires 0 <= x < 16 && 0 <= y < 16 && HexDigit(x) == HexDigit(y)
    ensures x == y
  {
  }

  lemma HexInjective(c: CodeUnit, d: CodeUnit)
    requires Hex4(c) == Hex4(d)
    ensures c == d
  {
    var h, k := Hex4(c), Hex4(d);
    assert h[0] == k[0] && h[1] == k[1] && h[2] == k[2] && h[3] == k[3];
    HexDigitInjective(c / 0x1000, d / 0x1000);
    HexDigitInjective(c / 0x100 % 0x10, d / 0x100 % 0x10);
    HexDigitInjective(c / 0x10 % 0x10, d / 0x10 % 0x10);
    HexDigitInjective(c % 0x10, d % 0x10);
    HexValue(c);
    HexValue(d);
  }

  /** How many code units one escaped unit takes. */
  function EscapedLength(t: Text): nat {
    if |t| < 2 || t[0] != BACKSLASH then 1 else if t[1] == 0x75 then 6 else 2
  }

  lemma EscapeUnitShape(c: CodeUnit, u: Text)
    ensures |EscapeUnit(c)| == EscapedLength(EscapeUnit(c) + u)
  {
    var e := EscapeUnit(c);
    if |e| > 1 {
      assert (e + u)[0] == e[0] && (e + u)[1] == e[1];
    } else {
      assert (e + u)[0] == e[0];
    }
  }

  lemma EscapeUnitInjective(c: CodeUnit, d: CodeUnit)
    requires EscapeUnit(c) == EscapeUnit(d)
    ensures c == d
  {
    var e, f := EscapeUnit(c), EscapeUnit(d);
    if |e| == 6 {
      assert e[2..] == Hex4(c) && f[2..] == Hex4(d);
      HexInjective(c, d);
    } else if |e| == 2 {
      assert e[1] == f[1];
    } else {
      assert e[0] == f[0];
    }
  }

  lemma EscapeUnitPrefix(c: CodeUnit, d: CodeUnit, u: Text, v: Text)
    requires EscapeUnit(c) + u == EscapeUnit(d) + v
    ensures c == d && u == v
  {
    EscapeUnitShape(c, u);
    EscapeUnitShape(d, v);
    Cancel(EscapeUnit(c), EscapeUnit(d), u, v);
    EscapeUnitInjective(c, d);
  }

  /** The first code unit of a quoted string's body tells which of the three cases it is. */
  lemma BodyStart(a: Text, s: Text)
    ensures |Escape(a) + [QUOTE] + s| > 0
    ensures (Escape(a) + [QUOTE] + s)[0] == QUOTE <==> a == []
    ensures HighSurrogate((Escape(a) + [QUOTE] + s)[0]) <==> StartsWithPair(a)
  {
    if a == [] {
      assert Escape(a) + [QUOTE] + s == [QUOTE] + s;
    } else if StartsWithPair(a) {
      assert (Escape(a) + [QUOTE] + s)[0] == a[0];
    } else {
      assert (Escape(a) + [QUOTE] + s)[0] == EscapeUnit(a[0])[0];
    }
  }

  /** The rest of a string's body after its first unit or surrogate pair. */
  lemma BodySplit(a: Text, s: Text)
    requires a != []
    ensures StartsWithPair(a) ==> Escape(a) + [QUOTE] + s == a[..2] + (Escape(a[2..]) + [QUOTE] + s)
    ensures !StartsWithPair(a) ==> Escape(a) + [QUOTE] + s == EscapeUnit(a[0]) + (Escape(a[1..]) + [QUOTE] + s)
  {
    if StartsWithPair(a) {
      Regroup(a[..2], Escape(a[2..]), [QUOTE], s);
    } else {
      Regroup(EscapeUnit(a[0]), Escape(a[1..]), [QUOTE], s);
    }
  }

  lemma Regroup(a: Text, b: Text, c: Text, d: Text)
    ensures a + b + c + d == a + (b + c + d)
  {
  }

  lemma {:induction false} EscapePrefix(a: Text, b: Text, s: Text, t: Text)
    requires Escape(a) + [QUOTE] + s == Escape(b) + [QUOTE] + t
    ensures a == b && s == t
    decreases |a|
  {
    BodyStart(a, s);
    BodyStart(b, t);
    if a != [] { BodySplit(a, s); }
    if b != [] { BodySplit(b, t); }
    if a == [] {
      Cancel(Escape(a) + [QUOTE], Escape(b) + [QUOTE], s, t);
    } else if StartsWithPair(a) {
      Cancel(a[..2], b[..2], Escape(a[2..]) + [QUOTE] + s, Escape(b[2..]) + [QUOTE] + t);
      EscapePrefix(a[2..], b[2..], s, t);
      assert a == a[..2] + a[2..] && b == b[..2] + b[2..];
    } else {
      EscapeUnitPrefix(a[0], b[0], Escape(a[1..]) + [QUOTE] + s, Escape(b[1..]) + [QUOTE] + t);
      EscapePrefix(a[1..], b[1..], s, t);
      assert a == [a[0]] + a[1..] && b == [b[0]] + b[1..];
    }
  }

  lemma QuotePrefix(a: Text, b: Text, s: Text, t: Text)
    requires Quote(a) + s == Quote(b) + t
    ensures a == b && s == t
  {
    assert Quote(a) + s == [QUOTE] + (Escape(a) + [QUOTE] + s);
    assert Quote(b) + t == [QUOTE] + (Escape(b) + [QUOTE] + t);
    Cancel([QUOTE], [QUOTE], Escape(a) + [QUOTE] + s, Escape(b) + [QUOTE] + t);
    EscapePrefix(a, b, s, t);
  }

  /** Strings, arrays and objects mark their own end. */
  predicate SelfDelimiting(v: Json) {
    v.Str? || v.Arr? || v.Obj?
  }

  /** What can follow a value inside a printed value: nothing, or `,`, `]`, `}`. */
  predicate Follows(s: Text) {
    s == [] || s[0] == COMMA || s[0] == 0x5D || s[0] == 0x7D
  }

  function Head(v: Json): CodeUnit {
    match v
    case Null => 0x6E
    case Bool(b) => if b then 0x74 else 0x66
    case Num(n) => if n < 0 then 0x2D else Decimal(n)[0]
    case Str(_) => QUOTE
    case Arr(_) => 0x5B
    case Obj(_) => 0x7B
  }

  lemma PrintHead(v: Json, s: Text)
    ensures |Print(v) + s| > 0 && (Print(v) + s)[0] == Head(v)
    ensures |Print(v)| > 0
  {
    match v
    case Null => assert Print(v) == Lit("null") && Lit("null")[0] == 0x6E;
    case Bool(b) =>
      assert Lit("true")[0] == 0x74 && Lit("false")[0] == 0x66;
    case Num(n) =>
    case Str(_) =>
    case Arr(items) => assert Print(v)[0] == Lit("[")[0] == 0x5B;
    case Obj(fields) => assert Print(v)[0] == Lit("{")[0] == 0x7B;
  }

  predicate SameKind(v: Json, w: Json) {
    match v
    case Null => w.Null?
    case Bool(_) => w.Bool?
    case Num(_) => w.Num?
    case Str(_) => w.Str?
    case Arr(_) => w.Arr?
    case Obj(_) => w.Obj?
  }

  lemma HeadKind(v: Json, w: Json)
    requires Head(v) == Head(w)
    ensures SameKind(v, w) && (v.Bool? ==> v == w)
  {
    if v.Num? { assert Head(v) == 0x2D || IsDigit(Head(v)); }
    if w.Num? { assert Head(w) == 0x2D || IsDigit(Head(w)); }
  }

  /** The reading lemma: equal texts that start with two prints start with the same value. */
  lemma {:induction false} PrintPrefix(v: Json, w: Json, s: Text, t: Text)
    requires Print(v) + s == Print(w) + t
    requires SelfDelimiting(v) || (Follows(s) && Follows(t))
    ensures v == w && s == t
    decreases v, 1
  {
    PrintHead(v, s);
    PrintHead(w, t);
    HeadKind(v, w);
    match v
    case Null => Cancel(Print(v), Print(w), s, t);
    case Bool(_) => Cancel(Print(v), Print(w), s, t);
    case Num(n) => DecimalPrefix(n, w.n, s, t);
    case Str(a) => QuotePrefix(a, w.s, s, t);
    case Arr(a) =>
      Enclosed("[", PrintItems(a), "]", s);
      Enclosed("[", PrintItems(w.items), "]", t);
      Cancel(Lit("["), Lit("["), PrintItems(a) + Lit("]") + s, PrintItems(w.items) + Lit("]") + t);
      ItemsPrefix(a, w.items, s, t);
    case Obj(f) =>
      Enclosed("{", PrintFields(f), "}", s);
      Enclosed("{", PrintFields(w.fields), "}", t);
      Cancel(Lit("{"), Lit("{"), PrintFields(f) + Lit("}") + s, PrintFields(w.fields) + Lit("}") + t);
      FieldsPrefix(f, w.fields, s, t);
  }

  lemma Enclosed(open: string, body: Text, close: string, s: Text)
    ensures Lit(open) + body + Lit(close) + s == Lit(open) + (body + Lit(close) + s)
  {
  }

  /** What is left of the items after the first, up to the closing bracket and what follows it. */
  function ItemsTail(items: seq<Json>, s: Text): Text {
    if |items| <= 1 then Lit("]") + s else [COMMA] + (PrintItems(items[1..]) + Lit("]") + s)
  }

  lemma ItemsSplit(a: seq<Json>, s: Text)
    ensures |a| == 0 ==> PrintItems(a) + Lit("]") + s == Lit("]") + s
    ensures |a| != 0 ==> PrintItems(a) + Lit("]") + s == Print(a[0]) + ItemsTail(a, s)
    ensures |PrintItems(a) + Lit("]") + s| > 0
    ensures (PrintItems(a) + Lit("]") + s)[0] == if |a| == 0 then 0x5D else Head(a[0])
    ensures ItemsTail(a, s) != [] && ItemsTail(a, s)[0] == if |a| <= 1 then 0x5D else COMMA
  {
    var close := Lit("]");
    assert close[0] == 0x5D;
    if |a| == 0 {
      assert PrintItems(a) + close == close;
    } else {
      var p := Print(a[0]);
      if |a| == 1 {
        Regroup(p, [], close, s);
        assert p + [] == p && [] + close == close;
      } else {
        var rest := PrintItems(a[1..]);
        Regroup4(p, [COMMA], rest, close, s);
      }
      PrintHead(a[0], ItemsTail(a, s));
    }
  }

  lemma Regroup4(a: Text, b: Text, c: Text, d: Text, e: Text)
    ensures a + b + c + d + e == a + (b + (c + d + e))
  {
  }

  /** Equal tails are both of last items, or both of items before others. */
  lemma TailsAgree(a: seq<Json>, b: seq<Json>, s: Text, t: Text)
    requires |a| > 0 && |b| > 0 && ItemsTail(a, s) == ItemsTail(b, t)
    ensures |a| == 1 <==> |b| == 1
    ensures |a| == 1 ==> s == t
    ensures |a| > 1 ==> PrintItems(a[1..]) + Lit("]") + s == PrintItems(b[1..]) + Lit("]") + t
  {
    assert Lit("]")[0] == 0x5D;
    ItemsSplit(a, s);
    ItemsSplit(b, t);
    if |a| == 1 {
      Cancel(Lit("]"), Lit("]"), s, t);
    } else {
      Cancel([COMMA], [COMMA], PrintItems(a[1..]) + Lit("]") + s, PrintItems(b[1..]) + Lit("]") + t);
    }
  }

  lemma ItemHeadsAgree(a: seq<Json>, b: seq<Json>, s: Text, t: Text)
    requires |a| > 0 && PrintItems(a) + Lit("]") + s == PrintItems(b) + Lit("]") + t
    ensures |b| > 0 && Print(a[0]) + ItemsTail(a, s) == Print(b[0]) + ItemsTail(b, t)
    ensures Follows(ItemsTail(a, s)) && Follows(ItemsTail(b, t))
  {
    ItemsSplit(a, s);
    ItemsSplit(b, t);
  }

  lemma NoItemsAgree(b: seq<Json>, s: Text, t: Text)
    requires PrintItems([]) + Lit("]") + s == PrintItems(b) + Lit("]") + t
    ensures b == [] && s == t
  {
    ItemsSplit([], s);
    ItemsSplit(b, t);
    Cancel(Lit("]"), Lit("]"), s, t);
  }

  lemma SameItems(a: seq<Json>, b: seq<Json>)
    requires |a| > 0 && |b| > 0 && a[0] == b[0] && a[1..] == b[1..]
    ensures a == b
  {
    assert a == [a[0]] + a[1..] && b == [b[0]] + b[1..];
  }

  lemma {:induction false} ItemsPrefix(a: seq<Json>, b: seq<Json>, s: Text, t: Text)
    requires PrintItems(a) + Lit("]") + s == PrintItems(b) + Lit("]") + t
    ensures a == b && s == t
    decreases a, 0
  {
    if |a| == 0 {
      NoItemsAgree(b, s, t);
    } else {
      ItemHeadsAgree(a, b, s, t);
      PrintPrefix(a[0], b[0], ItemsTail(a, s), ItemsTail(b, t));
      TailsAgree(a, b, s, t);
      if |a| > 1 {
        ItemsPrefix(a[1..], b[1..], s, t);
      }
      SameItems(a, b);
    }
  }

  function FieldsTail(f: seq<Field>, s: Text): Text {
    if |f| <= 1 then Lit("}") + s else [COMMA] + (PrintFields(f[1..]) + Lit("}") + s)
  }

  lemma FieldsSplit(f: seq<Field>, s: Text)
    ensures |f| == 0 ==> PrintFields(f) + Lit("}") + s == Lit("}") + s
    ensures |f| != 0 ==>
      PrintFields(f) + Lit("}") + s == Quote(f[0].key) + ([COLON] + (Print(f[0].value) + FieldsTail(f, s)))
    ensures |PrintFields(f) + Lit("}") + s| > 0
    ensures (PrintFields(f) + Lit("}") + s)[0] == if |f| == 0 then 0x7D else QUOTE
    ensures FieldsTail(f, s) != [] && FieldsTail(f, s)[0] == if |f| <= 1 then 0x7D else COMMA
  {
    assert Lit("}")[0] == 0x7D;
    if |f| == 0 {
      assert PrintFields(f) + Lit("}") + s == Lit("}") + s;
    } else {
      var q, p := Quote(f[0].key), Print(f[0].value);
      if |f| == 1 {
        Regroup5(q, [COLON], p, [], Lit("}"), s);
        assert [] + Lit("}") == Lit("}");
        assert q + [COLON] + p + [] == q + [COLON] + p;
      } else {
        var rest := PrintFields(f[1..]);
        Regroup5(q, [COLON], p, [COMMA] + rest, Lit("}"), s);
        assert q + [COLON] + p + [COMMA] + rest == q + [COLON] + p + ([COMMA] + rest);
        Regroup([COMMA], rest, Lit("}"), s);
      }
      assert q[0] == QUOTE;
    }
  }

  lemma Regroup5(a: Text, b: Text, c: Text, d: Text, e: Text, f: Text)
    ensures a + b + c + d + e + f == a + (b + (c + (d + e + f)))
  {
  }

  lemma FieldTailsAgree(f: seq<Field>, g: seq<Field>, s: Text, t: Text)
    requires |f| > 0 && |g| > 0 && FieldsTail(f, s) == FieldsTail(g, t)
    ensures |f| == 1 <==> |g| == 1
    ensures |f| == 1 ==> s == t
    ensures |f| > 1 ==> PrintFields(f[1..]) + Lit("}") + s == PrintFields(g[1..]) + Lit("}") + t
  {
    FieldsSplit(f, s);
    FieldsSplit(g, t);
    if |f| == 1 {
      Cancel(Lit("}"), Lit("}"), s, t);
    } else {
      Cancel([COMMA], [COMMA], PrintFields(f[1..]) + Lit("}") + s, PrintFields(g[1..]) + Lit("}") + t);
    }
  }

  lemma FieldHeadsAgree(f: seq<Field>, g: seq<Field>, s: Text, t: Text)
    requires |f| > 0 && PrintFields(f) + Lit("}") + s == PrintFields(g) + Lit("}") + t
    ensures |g| > 0 && f[0].key == g[0].key
    ensures Print(f[0].value) + FieldsTail(f, s) == Print(g[0].value) + FieldsTail(g, t)
    ensures Follows(FieldsTail(f, s)) && Follows(FieldsTail(g, t))
  {
    FieldsSplit(f, s);
    FieldsSplit(g, t);
    var u, u' := Print(f[0].value) + FieldsTail(f, s), Print(g[0].value) + FieldsTail(g, t);
    QuotePrefix(f[0].key, g[0].key, [COLON] + u, [COLON] + u');
    Cancel([COLON], [COLON], u, u');
  }

  lemma SameFirstAndRest(f: seq<Field>, g: seq<Field>)
    requires |f| > 0 && |g| > 0 && f[0].key == g[0].key && f[0].value == g[0].value && f[1..] == g[1..]
    ensures f == g
  {
    assert f == [f[0]] + f[1..] && g == [g[0]] + g[1..];
  }

  lemma NoFieldsAgree(g: seq<Field>, s: Text, t: Text)
    requires PrintFields([]) + Lit("}") + s == PrintFields(g) + Lit("}") + t
    ensures g == [] && s == t
  {
    FieldsSplit([], s);
    FieldsSplit(g, t);
    Cancel(Lit("}"), Lit("}"), s, t);
  }

  lemma {:induction false} FieldsPrefix(f: seq<Field>, g: seq<Field>, s: Text, t: Text)
    requires PrintFields(f) + Lit("}") + s == PrintFields(g) + Lit("}") + t
    ensures f == g && s == t
    decreases f, 0
  {
    if |f| == 0 {
      NoFieldsAgree(g, s, t);
    } else {
      FieldHeadsAgree(f, g, s, t);
      PrintPrefix(f[0].value, g[0].value, FieldsTail(f, s), FieldsTail(g, t));
      FieldTailsAgree(f, g, s, t);
      if |f| > 1 {
        FieldsPrefix(f[1..], g[1..], s, t);
      }
      SameFirstAndRest(f, g);
    }
  }

}
