/** What the canonical text identifies: two values have the same text exactly when they are the
    same JSON data, whatever the order of their keys. */
module CanonicalTheorems {
  import opened JsText
  import opened Sorting
  import opened CanonicalJson
  import opened UniqueReading

  lemma LexIsTotalOrder()
    ensures TotalOrder(LexLe)
  {
    forall a: Text, b: Text
      ensures LexLe(a, b) || LexLe(b, a)
      ensures LexLe(a, b) && LexLe(b, a) ==> a == b
    {
      LexTotal(a, b);
      if LexLe(a, b) && LexLe(b, a) { LexAntisymmetric(a, b); }
    }
    forall a: Text, b: Text, c: Text | LexLe(a, b) && LexLe(b, c)
      ensures LexLe(a, c)
    {
      LexTransitive(a, b, c);
    }
  }

  // ---- the computed text prints the value with sorted keys -------------------------------

  lemma {:induction false} JoinItems(parts: seq<Text>, items: seq<Json>)
    requires |parts| == |items|
    requires forall i :: 0 <= i < |items| ==> parts[i] == Print(items[i])
    ensures JoinWith(parts, COMMA) == PrintItems(items)
  {
    if |items| > 1 {
      JoinItems(parts[1..], items[1..]);
    }
  }

  lemma {:induction false} JoinFields(parts: seq<Text>, fields: seq<Field>)
    requires |parts| == |fields|
    requires forall i :: 0 <= i < |fields| ==> parts[i] == PrintField(fields[i])
    ensures JoinWith(parts, COMMA) == PrintFields(fields)
  {
    if |fields| > 1 {
      JoinFields(parts[1..], fields[1..]);
    }
  }

  lemma {:induction false} PropertyAt(record: seq<(Text, Text)>, j: nat)
    requires j < |record|
    requires forall a, b :: 0 <= a < b < |record| ==> record[a].0 != record[b].0
    ensures Property(record, record[j].0) == record[j].1
  {
    if j != 0 {
      PropertyAt(record[1..], j - 1);
    }
  }

  lemma {:induction false} CanonicalPrints(v: Json)
    requires WellFormed(v)
    ensures Canonical(v) == Print(SortKeys(v))
    decreases v
  {
    match v
    case Arr(items) =>
      forall i | 0 <= i < |items|
        ensures Canonical(items[i]) == Print(SortKeys(items[i]))
      {
        CanonicalPrints(items[i]);
      }
      JoinItems(CanonicalItems(items), SortKeysOfItems(items));
    case Obj(fields) =>
      forall i | 0 <= i < |fields|
        ensures Canonical(fields[i].value) == Print(SortKeys(fields[i].value))
      {
        CanonicalPrints(fields[i].value);
      }
      ObjectPrints(fields);
    case _ =>
  }

  lemma ObjectPrints(fields: seq<Field>)
    requires UniqueKeys(fields)
    requires forall i :: 0 <= i < |fields| ==> Canonical(fields[i].value) == Print(SortKeys(fields[i].value))
    ensures Canonical(Obj(fields)) == Print(SortKeys(Obj(fields)))
  {
    var record := CanonicalValues(fields);
    var values := SortKeysOfValues(fields);
    var keys := SortBy(KeysOf(record), Itself, LexLe);
    var sorted := SortBy(values, FieldKey, LexLe);
    SortedKeysLineUp(values, KeysOf(record));
    var entries := Entries(keys, record);
    forall i | 0 <= i < |sorted|
      ensures entries[i] == PrintField(sorted[i])
    {
      var j := SortedFieldIsAField(values, i);
      PropertyAt(record, j);
    }
    JoinFields(entries, sorted);
  }

  lemma SortedKeysLineUp(values: seq<Field>, keys: seq<Text>)
    requires |keys| == |values| && forall i :: 0 <= i < |values| ==> keys[i] == values[i].key
    ensures |SortBy(values, FieldKey, LexLe)| == |SortBy(keys, Itself, LexLe)| == |values|
    ensures forall i :: 0 <= i < |values| ==>
      SortBy(keys, Itself, LexLe)[i] == SortBy(values, FieldKey, LexLe)[i].key
  {
    assert Map(FieldKey, values) == keys;
    MapSort(FieldKey, values, FieldKey, Itself, LexLe);
    SortContents(values, FieldKey, LexLe);
    assert Map(FieldKey, SortBy(values, FieldKey, LexLe)) == SortBy(keys, Itself, LexLe);
  }

  lemma SortedFieldIsAField(values: seq<Field>, i: nat) returns (j: nat)
    requires i < |SortBy(values, FieldKey, LexLe)|
    ensures j < |values| && values[j] == SortBy(values, FieldKey, LexLe)[i]
  {
    SortContents(values, FieldKey, LexLe);
    var sorted := SortBy(values, FieldKey, LexLe);
    assert sorted[i] in multiset(sorted) && sorted[i] in multiset(values);
    j :| 0 <= j < |values| && values[j] == sorted[i];
  }

  // ---- sorting keys forgets exactly the order of keys --------------------------------------

  /** A field list with unique keys has at most one field in each class. */
  lemma {:induction false} KeyClass(fields: seq<Field>, k: Text)
    requires UniqueKeys(fields)
    ensures !HasKey(fields, k) ==> Class(fields, FieldKey, LexLe, k) == []
    ensures forall i :: 0 <= i < |fields| && fields[i].key == k ==> Class(fields, FieldKey, LexLe, k) == [fields[i]]
  {
    LexIsTotalOrder();
    if |fields| == 0 {
    } else {
      KeyClass(fields[1..], k);
      if fields[0].key == k {
        assert Tied(LexLe, FieldKey(fields[0]), k);
      } else {
        assert !Tied(LexLe, FieldKey(fields[0]), k);
        if HasKey(fields[1..], k) {
          var j :| 0 <= j < |fields[1..]| && fields[1..][j].key == k;
          assert fields[j + 1].key == k;
        }
        forall i | 0 <= i < |fields| && fields[i].key == k
          ensures Class(fields, FieldKey, LexLe, k) == [fields[i]]
        {
          assert fields[1..][i - 1].key == k;
        }
      }
    }
  }

  /** `f` and `g` hold the same fields. */
  ghost predicate SameFieldSet(f: seq<Field>, g: seq<Field>) {
    && (forall i :: 0 <= i < |f| ==> f[i] in g)
    && (forall j :: 0 <= j < |g| ==> g[j] in f)
  }

  lemma SameClassAtKey(f: seq<Field>, g: seq<Field>, k: Text)
    requires UniqueKeys(f) && UniqueKeys(g) && SameFieldSet(f, g)
    ensures Class(f, FieldKey, LexLe, k) == Class(g, FieldKey, LexLe, k)
  {
    KeyClass(f, k);
    KeyClass(g, k);
    if HasKey(f, k) {
      var i :| 0 <= i < |f| && f[i].key == k;
      var j :| 0 <= j < |g| && g[j] == f[i];
    }
  }

  lemma FieldIsInItsClass(f: seq<Field>, g: seq<Field>, i: nat)
    requires UniqueKeys(f) && UniqueKeys(g) && i < |f|
    requires Class(f, FieldKey, LexLe, f[i].key) == Class(g, FieldKey, LexLe, f[i].key)
    ensures f[i] in g
  {
    KeyClass(f, f[i].key);
    ClassMembers(g, FieldKey, LexLe, f[i].key, f[i]);
  }

  /** Field lists with unique keys sort alike exactly when they hold the same fields. */
  lemma SortedFieldsIff(f: seq<Field>, g: seq<Field>)
    requires UniqueKeys(f) && UniqueKeys(g)
    ensures SortBy(f, FieldKey, LexLe) == SortBy(g, FieldKey, LexLe) <==> SameFieldSet(f, g)
  {
    LexIsTotalOrder();
    SortsAgreeIff(f, g, FieldKey, LexLe);
    if SameClasses(f, g, FieldKey, LexLe) {
      forall i | 0 <= i < |f| ensures f[i] in g {
        assert Class(f, FieldKey, LexLe, f[i].key) == Class(g, FieldKey, LexLe, f[i].key);
        FieldIsInItsClass(f, g, i);
      }
      forall j | 0 <= j < |g| ensures g[j] in f {
        assert Class(f, FieldKey, LexLe, g[j].key) == Class(g, FieldKey, LexLe, g[j].key);
        FieldIsInItsClass(g, f, j);
      }
    }
    if SameFieldSet(f, g) {
      forall k: Text
        ensures Class(f, FieldKey, LexLe, k) == Class(g, FieldKey, LexLe, k)
      {
        SameClassAtKey(f, g, k);
      }
      assert SameClasses(f, g, FieldKey, LexLe);
    }
  }

  lemma {:induction false} SortKeysIff(v: Json, w: Json)
    requires WellFormed(v) && WellFormed(w)
    ensures SortKeys(v) == SortKeys(w) <==> SameJson(v, w)
    decreases v
  {
    match (v, w)
    case (Arr(a), Arr(b)) =>
      forall i | 0 <= i < |a| && i < |b|
        ensures SortKeys(a[i]) == SortKeys(b[i]) <==> SameJson(a[i], b[i])
      {
        SortKeysIff(a[i], b[i]);
      }
      var sa, sb := SortKeysOfItems(a), SortKeysOfItems(b);
      if SameJson(v, w) {
        assert sa == sb;
      }
      if sa == sb {
        forall i | 0 <= i < |a|
          ensures SameJson(a[i], b[i])
        {
          assert sa[i] == sb[i];
        }
      }
    case (Obj(f), Obj(g)) =>
      forall i, j | 0 <= i < |f| && 0 <= j < |g|
        ensures SortKeys(f[i].value) == SortKeys(g[j].value) <==> SameJson(f[i].value, g[j].value)
      {
        SortKeysIff(f[i].value, g[j].value);
      }
      SortFieldValuesIff(f, g);
    case _ =>
  }

  ghost predicate SortingDecides(f: seq<Field>, g: seq<Field>) {
    forall i, j :: 0 <= i < |f| && 0 <= j < |g| ==>
      (SortKeys(f[i].value) == SortKeys(g[j].value) <==> SameJson(f[i].value, g[j].value))
  }

  lemma SameFieldsSortAlike(f: seq<Field>, g: seq<Field>)
    requires SortingDecides(f, g) && SameFields(f, g)
    ensures SameFieldSet(SortKeysOfValues(f), SortKeysOfValues(g))
  {
    var sf, sg := SortKeysOfValues(f), SortKeysOfValues(g);
    forall i | 0 <= i < |sf| ensures sf[i] in sg {
      var j :| 0 <= j < |g| && g[j].key == f[i].key;
      assert SameJson(f[i].value, g[j].value);
      assert sg[j] == sf[i];
    }
    forall j | 0 <= j < |sg| ensures sg[j] in sf {
      var i :| 0 <= i < |f| && f[i].key == g[j].key;
      assert SameJson(f[i].value, g[j].value);
      assert sf[i] == sg[j];
    }
  }

  lemma SortedAlikeAreSameFields(f: seq<Field>, g: seq<Field>)
    requires UniqueKeys(f) && UniqueKeys(g) && SortingDecides(f, g)
    requires SameFieldSet(SortKeysOfValues(f), SortKeysOfValues(g))
    ensures SameFields(f, g)
  {
    var sf, sg := SortKeysOfValues(f), SortKeysOfValues(g);
    forall i | 0 <= i < |f|
      ensures HasKey(g, f[i].key)
      ensures forall j :: 0 <= j < |g| && f[i].key == g[j].key ==> SameJson(f[i].value, g[j].value)
    {
      assert sf[i] in sg;
      var m :| 0 <= m < |sg| && sg[m] == sf[i];
      assert g[m].key == f[i].key;
      assert SameJson(f[i].value, g[m].value);
    }
    forall j | 0 <= j < |g| ensures HasKey(f, g[j].key) {
      assert sg[j] in sf;
      var i :| 0 <= i < |sf| && sf[i] == sg[j];
      assert f[i].key == g[j].key;
    }
  }

  lemma SortKeysIsSorted(f: seq<Field>)
    requires UniqueKeys(f)
    ensures UniqueKeys(SortKeysOfValues(f))
    ensures SortKeys(Obj(f)) == Obj(SortBy(SortKeysOfValues(f), FieldKey, LexLe))
  {
  }

  lemma SortFieldValuesIff(f: seq<Field>, g: seq<Field>)
    requires UniqueKeys(f) && UniqueKeys(g) && SortingDecides(f, g)
    ensures SortKeys(Obj(f)) == SortKeys(Obj(g)) <==> SameFields(f, g)
  {
    SortKeysIsSorted(f);
    SortKeysIsSorted(g);
    SortedFieldsIff(SortKeysOfValues(f), SortKeysOfValues(g));
    if SameFields(f, g) {
      SameFieldsSortAlike(f, g);
    } else if SameFieldSet(SortKeysOfValues(f), SortKeysOfValues(g)) {
      SortedAlikeAreSameFields(f, g);
    }
  }

  // ---- main results ------------------------------------------------------------------------

  /** Canonical text decides equality of JSON data. */
  lemma CanonicalIff(v: Json, w: Json)
    requires WellFormed(v) && WellFormed(w)
    ensures Canonical(v) == Canonical(w) <==> SameJson(v, w)
  {
    CanonicalPrints(v);
    CanonicalPrints(w);
    if Canonical(v) == Canonical(w) {
      assert Print(SortKeys(v)) + [] == Print(SortKeys(w)) + [];
      PrintPrefix(SortKeys(v), SortKeys(w), [], []);
    }
    SortKeysIff(v, w);
  }

  /** No canonical text of a string, an array or an object is a proper prefix of any other. */
  lemma CanonicalPrefixFree(v: Json, w: Json, rest: Text)
    requires WellFormed(v) && WellFormed(w) && SelfDelimiting(v)
    requires Canonical(v) + rest == Canonical(w)
    ensures rest == [] && SameJson(v, w)
  {
    CanonicalPrints(v);
    CanonicalPrints(w);
    assert Print(SortKeys(v)) + rest == Print(SortKeys(w)) + [];
    PrintPrefix(SortKeys(v), SortKeys(w), rest, []);
    SortKeysIff(v, w);
  }
}
