/** Which collections a fingerprint takes as ordered and which not, told from the JSON itself. */
module FingerprintMeaning {
  import opened Wrappers
  import opened JsText
  import opened Sorting
  import opened CanonicalJson
  import opened Fingerprint
  import opened FingerprintTheorems

  // ---- identities --------------------------------------------------------------------------------------

  predicate HasText(v: Json, key: string, s: Text) {
    v.Obj? && exists i :: 0 <= i < |v.fields| && v.fields[i].key == Lit(key) && v.fields[i].value == Str(s)
  }

  /** The object's identity: its `id`, or its `componentId` if it has no `id` that says something. */
  ghost predicate Identified(v: Json, identity: Text) {
    && SaysSomething(identity)
    && (HasText(v, "id", identity)
        || (HasText(v, "componentId", identity) && forall s :: HasText(v, "id", s) ==> !SaysSomething(s)))
  }

  lemma BlankSaysNothing(s: Text)
    ensures Blank(s) <==> !SaysSomething(s)
  {
    BlankIff(s);
  }

  lemma {:induction false} LookupIff(fields: seq<Field>, key: Text, v: Json)
    requires UniqueKeys(fields)
    ensures Lookup(fields, key) == Some(v) <==> exists i :: 0 <= i < |fields| && fields[i].key == key && fields[i].value == v
  {
    if |fields| > 0 {
      LookupIff(fields[1..], key, v);
      if Lookup(fields, key) == Some(v) && fields[0].key != key {
        var i :| 0 <= i < |fields[1..]| && fields[1..][i].key == key && fields[1..][i].value == v;
        assert fields[i + 1].key == key && fields[i + 1].value == v;
      }
      if i :| 0 <= i < |fields| && fields[i].key == key && fields[i].value == v {
        if i > 0 {
          assert fields[1..][i - 1].key == key && fields[1..][i - 1].value == v;
        }
      }
    }
  }

  lemma TextIff(v: Json, key: string, s: Text)
    requires v.Obj? && WellFormed(v)
    ensures StringValue(Lookup(v.fields, Lit(key))) == Some(s) <==> HasText(v, key, s) && SaysSomething(s)
  {
    LookupIff(v.fields, Lit(key), Str(s));
    BlankSaysNothing(s);
  }

  lemma IdentityIff(v: Json, identity: Text)
    requires WellFormed(v)
    ensures Identity(v) == Some(identity) <==> Identified(v, identity)
  {
    if v.Obj? {
      forall s ensures StringValue(Lookup(v.fields, Lit("id"))) == Some(s) <==> HasText(v, "id", s) && SaysSomething(s) {
        TextIff(v, "id", s);
      }
      TextIff(v, "componentId", identity);
    }
  }

  // ---- collections at the top of an input ----------------------------------------------------------------

  /** The input that has this collection under `key` and nothing else. */
  function With(key: Text, items: seq<Json>): Json {
    Obj([Field(key, Arr(items))])
  }

  lemma UnderKey(key: Text, a: seq<Json>, b: seq<Json>, le: (Text, Text) -> bool)
    ensures SameMeaning(With(key, a), With(key, b), None, le) <==> SameMeaning(Arr(a), Arr(b), Some(key), le)
  {
    var f, g := [Field(key, Arr(a))], [Field(key, Arr(b))];
    assert f[0].key == g[0].key == key;
    assert SameMeaning(With(key, a), With(key, b), None, le) <==> SameMeaningFields(f, g, le);
  }

  lemma WithIsWellFormed(key: Text, items: seq<Json>)
    requires WellFormed(Arr(items))
    ensures WellFormed(With(key, items))
  {
  }

  /** Items of which at least one is neither a string nor an object. */
  predicate HasPlainItem(items: seq<Json>) {
    exists i :: 0 <= i < |items| && !items[i].Str? && !items[i].Obj?
  }

  /** Under the keys `geometry` and `participants`, and in a collection with an item that is neither a
      string nor an object, every item has its place: inputs have the same fingerprint exactly when
      their collections mean the same item by item. */
  lemma OrderCounts(
      engineVersion: Text, key: Text, a: seq<Json>, b: seq<Json>, le: (Text, Text) -> bool, sha: Text -> Text)
    requires WellFormed(Arr(a)) && WellFormed(Arr(b)) && TotalPreorder(le) && Injective(sha)
    requires key == Lit("geometry") || key == Lit("participants") || HasPlainItem(a)
    ensures CalculationFingerprint(engineVersion, With(key, a), le, sha) == CalculationFingerprint(engineVersion, With(key, b), le, sha)
       <==> |a| == |b| && forall i :: 0 <= i < |a| ==> SameMeaning(a[i], b[i], None, le)
  {
    WithIsWellFormed(key, a);
    WithIsWellFormed(key, b);
    FingerprintIff(engineVersion, With(key, a), With(key, b), le, sha);
    UnderKey(key, a, b, le);
    if HasPlainItem(a) {
      var i :| 0 <= i < |a| && !a[i].Str? && !a[i].Obj?;
      assert Identity(a[i]).None?;
    }
  }

  /** Two such items that do not mean the same cannot change places unnoticed. */
  lemma SwapIsSeen(
      engineVersion: Text, key: Text, a: seq<Json>, i: nat, j: nat, le: (Text, Text) -> bool, sha: Text -> Text)
    requires WellFormed(Arr(a)) && TotalPreorder(le) && Injective(sha)
    requires key == Lit("geometry") || key == Lit("participants") || HasPlainItem(a)
    requires i < j < |a| && !SameMeaning(a[i], a[j], None, le)
    ensures CalculationFingerprint(engineVersion, With(key, a), le, sha)
         != CalculationFingerprint(engineVersion, With(key, a[i := a[j]][j := a[i]]), le, sha)
  {
    var b := a[i := a[j]][j := a[i]];
    OrderCounts(engineVersion, key, a, b, le, sha);
    assert b[i] == a[j];
  }

  /** Each item is a string, or each one is an identified object; these are their identities. */
  ghost predicate Named(items: seq<Json>, names: seq<Text>) {
    && |names| == |items|
    && ((forall i :: 0 <= i < |items| ==> items[i] == Str(names[i]))
        || (forall i :: 0 <= i < |items| ==> items[i].Obj? && Identified(items[i], names[i])))
  }

  lemma NamedItems(items: seq<Json>, names: seq<Text>)
    requires Named(items, names) && WellFormed(Arr(items))
    ensures Sortable(items) && forall i :: 0 <= i < |items| ==> ItemKey(items[i]) == names[i]
  {
    forall i | 0 <= i < |items| ensures ItemKey(items[i]) == names[i] && (items[i].Str? || Identity(items[i]).Some?) {
      IdentityIff(items[i], names[i]);
    }
  }

  /** Under any other key, strings and identified objects may stand in any order, as long as no two of
      them compare as equal. */
  lemma OrderDoesNotCount(
      engineVersion: Text, key: Text, a: seq<Json>, b: seq<Json>, names: seq<Text>,
      le: (Text, Text) -> bool, sha: Text -> Text)
    requires WellFormed(Arr(a)) && TotalPreorder(le) && Injective(sha)
    requires key != Lit("geometry") && key != Lit("participants") && Named(a, names)
    requires forall i, j :: 0 <= i < j < |names| ==> !(le(names[i], names[j]) && le(names[j], names[i]))
    requires multiset(a) == multiset(b)
    ensures CalculationFingerprint(engineVersion, With(key, a), le, sha)
         == CalculationFingerprint(engineVersion, With(key, b), le, sha)
  {
    NamedItems(a, names);
    ReorderingIsInvisible(a, b, Some(key), le);
    UnderKey(key, a, b, le);
    forall i | 0 <= i < |b| ensures WellFormed(b[i]) {
      assert b[i] in multiset(a);
    }
    WithIsWellFormed(key, a);
    WithIsWellFormed(key, b);
    FingerprintIff(engineVersion, With(key, a), With(key, b), le, sha);
  }

  /** Another version of the engine, in one line, gives another fingerprint to the same input. */
  lemma EngineVersionCounts(v: Text, w: Text, input: Json, other: Json, le: (Text, Text) -> bool, sha: Text -> Text)
    requires Injective(sha) && v != w && 0x0A !in v && 0x0A !in w
    ensures CalculationFingerprint(v, input, le, sha) != CalculationFingerprint(w, other, le, sha)
  {
    var s, t := FingerprintText(v, input, le), FingerprintText(w, other, le);
    if CalculationFingerprint(v, input, le, sha) == CalculationFingerprint(w, other, le, sha) {
      assert sha(s) == (Lit("sha256:") + sha(s))[7..] == (Lit("sha256:") + sha(t))[7..] == sha(t);
      FirstLine(v, w, Canonical(Normalized(input, None, le)), Canonical(Normalized(other, None, le)));
    }
  }

  lemma FirstLine(v: Text, w: Text, s: Text, t: Text)
    requires v + [0x0A] + s == w + [0x0A] + t && 0x0A !in v && 0x0A !in w
    ensures v == w
  {
    var x, y := v + [0x0A] + s, w + [0x0A] + t;
    assert x[|v|] == 0x0A && y[|w|] == 0x0A;
    assert x[..|v|] == v && y[..|w|] == w;
  }
}
