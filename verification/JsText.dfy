/** JavaScript strings: sequences of UTF-16 code units, with the order that `Array.prototype.sort`
    uses when it is given no comparator, and the white space that `String.prototype.trim` removes. */
module JsText {

  type CodeUnit = c: int | 0 <= c < 0x1_0000

  type Text = seq<CodeUnit>

  function UnitOf(c: char): CodeUnit {
    if (c as int) < 0x1_0000 then c as int else 0xFFFD
  }

  /** The text of a literal. */
  function Lit(s: string): (t: Text)
    ensures |t| == |s|
    ensures forall i :: 0 <= i < |s| ==> t[i] == UnitOf(s[i])
  {
    seq(|s|, i requires 0 <= i < |s| => UnitOf(s[i]))
  }

  /** Order by code units, a proper prefix first. */
  predicate LexLe(a: Text, b: Text) {
    |a| == 0 || (|b| != 0 && (a[0] < b[0] || (a[0] == b[0] && LexLe(a[1..], b[1..]))))
  }

  lemma {:induction false} LexTotal(a: Text, b: Text)
    ensures LexLe(a, b) || LexLe(b, a)
  {
    if |a| != 0 && |b| != 0 {
      LexTotal(a[1..], b[1..]);
    }
  }

  lemma {:induction false} LexAntisymmetric(a: Text, b: Text)
    requires LexLe(a, b) && LexLe(b, a)
    ensures a == b
  {
    if |a| != 0 && |b| != 0 {
      LexAntisymmetric(a[1..], b[1..]);
      assert a == [a[0]] + a[1..] && b == [b[0]] + b[1..];
    }
  }

  lemma {:induction false} LexTransitive(a: Text, b: Text, c: Text)
    requires LexLe(a, b) && LexLe(b, c)
    ensures LexLe(a, c)
  {
    if |a| != 0 && a[0] == b[0] == c[0] {
      LexTransitive(a[1..], b[1..], c[1..]);
    }
  }

  /** `parts.join(separator)`. */
  function JoinWith(parts: seq<Text>, separator: CodeUnit): Text {
    if |parts| == 0 then []
    else if |parts| == 1 then parts[0]
    else parts[0] + [separator] + JoinWith(parts[1..], separator)
  }

  predicate IsSpace(c: CodeUnit) {
    || 0x09 <= c <= 0x0D || c == 0x20 || c == 0xA0 || c == 0x1680
    || 0x2000 <= c <= 0x200A || c == 0x2028 || c == 0x2029
    || c == 0x202F || c == 0x205F || c == 0x3000 || c == 0xFEFF
  }

  function TrimStart(s: Text): Text {
    if |s| != 0 && IsSpace(s[0]) then TrimStart(s[1..]) else s
  }

  function TrimEnd(s: Text): Text {
    if |s| != 0 && IsSpace(s[|s| - 1]) then TrimEnd(s[..|s| - 1]) else s
  }

  function Trim(s: Text): Text {
    TrimEnd(TrimStart(s))
  }

  predicate Blank(s: Text) {
    Trim(s) == []
  }

  /** Some character of the text is not white space. */
  predicate SaysSomething(s: Text) {
    exists j :: 0 <= j < |s| && !IsSpace(s[j])
  }

  ghost predicate AllSpace(s: Text) {
    forall i :: 0 <= i < |s| ==> IsSpace(s[i])
  }

  lemma {:induction false} TrimEndBlank(s: Text)
    ensures TrimEnd(s) == [] <==> AllSpace(s)
  {
    if |s| != 0 && IsSpace(s[|s| - 1]) {
      TrimEndBlank(s[..|s| - 1]);
      assert AllSpace(s) <==> AllSpace(s[..|s| - 1]);
    }
  }

  lemma {:induction false} TrimStartSpace(s: Text)
    ensures AllSpace(TrimStart(s)) <==> AllSpace(s)
  {
    if |s| != 0 && IsSpace(s[0]) {
      TrimStartSpace(s[1..]);
      assert AllSpace(s) <==> AllSpace(s[1..]);
    }
  }

  lemma BlankIff(s: Text)
    ensures Blank(s) <==> AllSpace(s)
  {
    TrimStartSpace(s);
    TrimEndBlank(TrimStart(s));
  }

  /** The decimal digits of a natural number, as `String(n)` prints a safe integer. */
  function Digits(n: nat): (t: Text)
    ensures |t| > 0 && forall i :: 0 <= i < |t| ==> IsDigit(t[i])
  {
    if n < 10 then [0x30 + n] else Digits(n / 10) + [0x30 + n % 10]
  }

  function Decimal(n: int): (t: Text)
    ensures |t| > 0 && (IsDigit(t[0]) || t[0] == 0x2D)
  {
    if n < 0 then [0x2D] + Digits(-n) else Digits(n)
  }

  predicate IsDigit(c: CodeUnit) {
    0x30 <= c <= 0x39
  }

  lemma {:induction false} DigitsInjective(n: nat, m: nat)
    requires Digits(n) == Digits(m)
    ensures n == m
  {
    var dn, dm := Digits(n), Digits(m);
    if n < 10 || m < 10 {
      assert |dn| == 1 <==> n < 10;
    } else {
      assert dn[..|dn| - 1] == Digits(n / 10);
      assert dm[..|dm| - 1] == Digits(m / 10);
      assert dn[|dn| - 1] == dm[|dm| - 1];
      DigitsInjective(n / 10, m / 10);
    }
  }

  lemma Overhang<T>(a: seq<T>, b: seq<T>, s: seq<T>, t: seq<T>)
    requires a + s == b + t && |a| < |b|
    ensures |s| > 0 && s[0] == b[|a|]
  {
    assert (a + s)[|a|] == (b + t)[|a|];
  }

  /** A number is read off the front of a text whatever follows it, unless a digit follows. */
  lemma DigitsPrefix(n: nat, m: nat, s: Text, t: Text)
    requires Digits(n) + s == Digits(m) + t
    requires (s == [] || !IsDigit(s[0])) && (t == [] || !IsDigit(t[0]))
    ensures n == m && s == t
  {
    var dn, dm := Digits(n), Digits(m);
    if |dn| < |dm| {
      Overhang(dn, dm, s, t);
    }
    if |dm| < |dn| {
      Overhang(dm, dn, t, s);
    }
    assert dn == (dn + s)[..|dn|] && dm == (dm + t)[..|dm|];
    assert s == (dn + s)[|dn|..] && t == (dm + t)[|dm|..];
    DigitsInjective(n, m);
  }

  lemma DropSign(a: Text, s: Text)
    ensures ([0x2D] + a + s)[1..] == a + s
  {
  }

  lemma DecimalPrefix(n: int, m: int, s: Text, t: Text)
    requires Decimal(n) + s == Decimal(m) + t
    requires (s == [] || !IsDigit(s[0])) && (t == [] || !IsDigit(t[0]))
    ensures n == m && s == t
  {
    var dn, dm := Decimal(n), Decimal(m);
    assert dn[0] == (dn + s)[0] && dm[0] == (dm + t)[0];
    if n < 0 && m < 0 {
      DropSign(Digits(-n), s);
      DropSign(Digits(-m), t);
      DigitsPrefix(-n, -m, s, t);
    } else if n >= 0 && m >= 0 {
      DigitsPrefix(n, m, s, t);
    }
  }
}
