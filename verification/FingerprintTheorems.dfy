/** The fingerprint identifies exactly the inputs that mean the same calculation. */
module FingerprintTheorems {
  import opened Wrappers
  import opened JsText
  import opened Sorting
  import opened CanonicalJson
  import opened CanonicalTheorems
  import opened UniqueReading
  import opened Fingerprint

  // ---- lookups do not depend on the order of keys ------------------------------------------

  lemma {:induction false} LookupIsFirstOfClass(fields: seq<Field>, key: Text)
    ensures Lookup(fields, key)
         == var c := Class(fields, FieldKey, LexLe, key); if c == [] then None else Some(c[0].value)
  {
    LexIsTotalOrder();
    if |fields| != 0 {
      LookupIsFirstOfClass(fields[1..], key);
      assert Tied(LexLe, FieldKey(fields[0]), key) <==> fields[0].key == key;
    }
  }

  lemma LookupSorted(fields: seq<Field>, key: Text)
    ensures Lookup(SortBy(fields, FieldKey, LexLe), key) == Lookup(fields, key)
  {
    LexIsTotalOrder();
    LookupIsFirstOfClass(fields, key);
    LookupIsFirstOfClass(SortBy(fields, FieldKey, LexLe), key);
    SortKeepsClasses(fields, FieldKey, LexLe, key);
  }

  // ---- both transformations keep what items are sorted by ------------------------------------

  /** `x` and `y` have the same key, and are alike a string and alike an identified object. */
  predicate SameSortRole(x: Json, y: Json) {
    && (x.Str? <==> y.Str?)
    && Identity(x) == Identity(y)
    && ItemKey(x) == ItemKey(y)
  }

  lemma {:induction false} NormalizedLookup(fields: seq<Field>, key: Text, le: (Text, Text) -> bool)
    ensures StringValue(Lookup(NormalizedFields(fields, le), key)) == StringValue(Lookup(fields, key))
  {
    if |fields| != 0 {
      NormalizedLookup(fields[1..], key, le);
      var r := NormalizedFields(fields, le);
      assert r[1..] == NormalizedFields(fields[1..], le);
    }
  }

  lemma NormalizedRole(x: Json, parentKey: Option<Text>, le: (Text, Text) -> bool)
    ensures SameSortRole(x, Normalized(x, parentKey, le))
  {
    if x.Obj? {
      NormalizedLookup(x.fields, Lit("id"), le);
      NormalizedLookup(x.fields, Lit("componentId"), le);
    }
  }

  lemma {:induction false} SortKeysLookup(fields: seq<Field>, key: Text)
    ensures StringValue(Lookup(SortKeysOfValues(fields), key)) == StringValue(Lookup(fields, key))
  {
    if |fields| != 0 {
      SortKeysLookup(fields[1..], key);
      var r := SortKeysOfValues(fields);
      assert r[1..] == SortKeysOfValues(fields[1..]);
    }
  }

  lemma SortKeysRole(x: Json)
    ensures SameSortRole(x, SortKeys(x))
  {
    if x.Obj? {
      LookupSorted(SortKeysOfValues(x.fields), Lit("id"));
      LookupSorted(SortKeysOfValues(x.fields), Lit("componentId"));
      SortKeysLookup(x.fields, Lit("id"));
      SortKeysLookup(x.fields, Lit("componentId"));
    }
  }

  lemma SameRolesSameSortability(a: seq<Json>, b: seq<Json>)
    requires |a| == |b| && forall i :: 0 <= i < |a| ==> SameSortRole(a[i], b[i])
    ensures AllStrings(a) == AllStrings(b) && AllIdentified(a) == AllIdentified(b)
  {
    if AllStrings(b) {
      forall i | 0 <= i < |a| ensures a[i].Str? { assert SameSortRole(a[i], b[i]); }
    }
    if AllIdentified(b) {
      forall i | 0 <= i < |a| ensures Identity(a[i]).Some? { assert SameSortRole(a[i], b[i]); }
    }
  }

  lemma PermutedSortability(a: seq<Json>, b: seq<Json>)
    requires multiset(a) == multiset(b)
    ensures Sortable(a) == Sortable(b)
  {
    forall x: Json ensures x in a <==> x in b {
      assert x in multiset(a) <==> x in multiset(b);
    }
    assert |multiset(a)| == |a| && |multiset(b)| == |b|;
    if Sortable(a) { forall i | 0 <= i < |b| ensures b[i] in a {} }
    if Sortable(b) { forall i | 0 <= i < |a| ensures a[i] in b {} }
    assert (AllStrings(a) <==> forall x :: x in a ==> x.Str?) && (AllStrings(b) <==> forall x :: x in b ==> x.Str?);
    assert (AllIdentified(a) <==> |a| > 0 && forall x :: x in a ==> Identity(x).Some?);
    assert (AllIdentified(b) <==> |b| > 0 && forall x :: x in b ==> Identity(x).Some?);
  }

  lemma NormalizedSortability(items: seq<Json>, le: (Text, Text) -> bool)
    ensures AllStrings(NormalizedItems(items, le)) == AllStrings(items)
    ensures AllIdentified(NormalizedItems(items, le)) == AllIdentified(items)
  {
    forall i | 0 <= i < |items|
      ensures SameSortRole(items[i], NormalizedItems(items, le)[i])
    {
      NormalizedRole(items[i], None, le);
    }
    SameRolesSameSortability(items, NormalizedItems(items, le));
  }

  lemma {:induction false} NormalizedWellFormed(v: Json, parentKey: Option<Text>, le: (Text, Text) -> bool)
    requires WellFormed(v)
    ensures WellFormed(Normalized(v, parentKey, le))
    decreases v
  {
    match v
    case Arr(items) =>
      var normalized := NormalizedItems(items, le);
      forall i | 0 <= i < |items| ensures WellFormed(normalized[i]) {
        NormalizedWellFormed(items[i], None, le);
      }
      var sorted := SortBy(normalized, ItemKey, le);
      SortContents(normalized, ItemKey, le);
      forall i | 0 <= i < |sorted| ensures WellFormed(sorted[i]) {
        assert sorted[i] in multiset(sorted) && sorted[i] in multiset(normalized);
        assert sorted[i] in normalized;
      }
    case Obj(fields) =>
      var normalized := NormalizedFields(fields, le);
      forall i | 0 <= i < |fields| ensures WellFormed(normalized[i].value) {
        NormalizedWellFormed(fields[i].value, Some(fields[i].key), le);
      }
    case _ =>
  }

  // ---- the normal form ---------------------------------------------------------------------

  /** The value whose print is the canonical text of the normalised input. */
  function NormalForm(v: Json, parentKey: Option<Text>, le: (Text, Text) -> bool): Json {
    SortKeys(Normalized(v, parentKey, le))
  }

  function NormalFormsOf(items: seq<Json>, le: (Text, Text) -> bool): (r: seq<Json>)
    ensures |r| == |items| && forall i :: 0 <= i < |items| ==> r[i] == NormalForm(items[i], None, le)
  {
    seq(|items|, i requires 0 <= i < |items| => NormalForm(items[i], None, le))
  }

  lemma NormalFormRole(x: Json, le: (Text, Text) -> bool)
    ensures SameSortRole(x, NormalForm(x, None, le))
  {
    NormalizedRole(x, None, le);
    SortKeysRole(Normalized(x, None, le));
  }

  lemma ArrayNormalForm(items: seq<Json>, parentKey: Option<Text>, le: (Text, Text) -> bool)
    ensures NormalForm(Arr(items), parentKey, le)
         == Arr(if KeepsOrder(parentKey) || !Sortable(items) then NormalFormsOf(items, le)
                else SortBy(NormalFormsOf(items, le), ItemKey, le))
  {
    var normalized := NormalizedItems(items, le);
    NormalizedSortability(items, le);
    if KeepsOrder(parentKey) || !Sortable(items) {
      assert SortKeysOfItems(normalized) == NormalFormsOf(items, le);
    } else {
      SortKeysOfSorted(normalized, le);
      assert SortKeysOfItems(normalized) == NormalFormsOf(items, le);
    }
  }

  lemma SortKeysOfSorted(items: seq<Json>, le: (Text, Text) -> bool)
    ensures SortKeysOfItems(SortBy(items, ItemKey, le)) == SortBy(SortKeysOfItems(items), ItemKey, le)
  {
    var sorted := SortBy(items, ItemKey, le);
    forall x | x in items ensures ItemKey(SortKeys(x)) == ItemKey(x) {
      SortKeysRole(x);
    }
    MapSort(SortKeys, items, ItemKey, ItemKey, le);
    assert Map(SortKeys, items) == SortKeysOfItems(items);
    assert SortKeysOfItems(sorted) == Map(SortKeys, sorted);
  }

  lemma NormalFormsClass(items: seq<Json>, le: (Text, Text) -> bool, k: Text)
    ensures Class(NormalFormsOf(items, le), ItemKey, le, k) == NormalFormsOf(Class(items, ItemKey, le, k), le)
  {
    var f := x => NormalForm(x, None, le);
    forall x | x in items ensures ItemKey(f(x)) == ItemKey(x) {
      NormalFormRole(x, le);
    }
    MapClass(f, items, ItemKey, ItemKey, le, k);
    assert Map(f, items) == NormalFormsOf(items, le);
    assert Map(f, Class(items, ItemKey, le, k)) == NormalFormsOf(Class(items, ItemKey, le, k), le);
  }

  lemma {:induction false} NormalFormIff(v: Json, w: Json, parentKey: Option<Text>, le: (Text, Text) -> bool)
    requires WellFormed(v) && WellFormed(w) && TotalPreorder(le)
    ensures NormalForm(v, parentKey, le) == NormalForm(w, parentKey, le) <==> SameMeaning(v, w, parentKey, le)
    decreases v
  {
    match (v, w)
    case (Arr(a), Arr(b)) =>
      forall i, j | 0 <= i < |a| && 0 <= j < |b|
        ensures NormalForm(a[i], None, le) == NormalForm(b[j], None, le) <==> SameMeaning(a[i], b[j], None, le)
      {
        NormalFormIff(a[i], b[j], None, le);
      }
      ArraysIff(a, b, parentKey, le);
    case (Obj(f), Obj(g)) =>
      forall i, j | 0 <= i < |f| && 0 <= j < |g| && f[i].key == g[j].key
        ensures NormalForm(f[i].value, Some(f[i].key), le) == NormalForm(g[j].value, Some(f[i].key), le)
           <==> SameMeaning(f[i].value, g[j].value, Some(f[i].key), le)
      {
        NormalFormIff(f[i].value, g[j].value, Some(f[i].key), le);
      }
      ObjectsIff(f, g, parentKey, le);
    case _ =>
  }

  ghost predicate ItemsDecided(a: seq<Json>, b: seq<Json>, le: (Text, Text) -> bool) {
    forall i, j :: 0 <= i < |a| && 0 <= j < |b| ==>
      (NormalForm(a[i], None, le) == NormalForm(b[j], None, le) <==> SameMeaning(a[i], b[j], None, le))
  }

  ghost predicate FieldsDecided(f: seq<Field>, g: seq<Field>, le: (Text, Text) -> bool) {
    forall i, j :: 0 <= i < |f| && 0 <= j < |g| && f[i].key == g[j].key ==>
      (NormalForm(f[i].value, Some(f[i].key), le) == NormalForm(g[j].value, Some(f[i].key), le)
       <==> SameMeaning(f[i].value, g[j].value, Some(f[i].key), le))
  }

  lemma ArraysIff(a: seq<Json>, b: seq<Json>, parentKey: Option<Text>, le: (Text, Text) -> bool)
    requires TotalPreorder(le) && ItemsDecided(a, b, le)
    ensures NormalForm(Arr(a), parentKey, le) == NormalForm(Arr(b), parentKey, le)
       <==> SameMeaning(Arr(a), Arr(b), parentKey, le)
  {
    ArrayNormalForm(a, parentKey, le);
    ArrayNormalForm(b, parentKey, le);
    if !KeepsOrder(parentKey) && Sortable(a) && Sortable(b) {
      SortableArraysIff(a, b, parentKey, le);
    } else {
      MixedSortability(a, b, parentKey, le);
      OrderedItemsIff(a, b, le);
    }
  }

  /** If only one side is sorted, the sides differ either way. */
  lemma MixedSortability(a: seq<Json>, b: seq<Json>, parentKey: Option<Text>, le: (Text, Text) -> bool)
    ensures Sortable(a) != Sortable(b) ==>
      && NormalFormsOf(a, le) != NormalFormsOf(b, le)
      && NormalForm(Arr(a), parentKey, le) != NormalForm(Arr(b), parentKey, le)
  {
    ArrayNormalForm(a, parentKey, le);
    ArrayNormalForm(b, parentKey, le);
    var na, nb := NormalFormsOf(a, le), NormalFormsOf(b, le);
    NormalFormsSortability(a, le);
    NormalFormsSortability(b, le);
    SortContents(na, ItemKey, le);
    SortContents(nb, ItemKey, le);
    PermutedSortability(na, SortBy(na, ItemKey, le));
    PermutedSortability(nb, SortBy(nb, ItemKey, le));
  }

  lemma NormalFormsSortability(items: seq<Json>, le: (Text, Text) -> bool)
    ensures Sortable(NormalFormsOf(items, le)) == Sortable(items)
  {
    forall i | 0 <= i < |items| ensures SameSortRole(items[i], NormalFormsOf(items, le)[i]) {
      NormalFormRole(items[i], le);
    }
    SameRolesSameSortability(items, NormalFormsOf(items, le));
  }

  lemma OrderedItemsIff(a: seq<Json>, b: seq<Json>, le: (Text, Text) -> bool)
    requires ItemsDecided(a, b, le)
    ensures NormalFormsOf(a, le) == NormalFormsOf(b, le)
       <==> |a| == |b| && forall i :: 0 <= i < |a| ==> SameMeaning(a[i], b[i], None, le)
  {
    var na, nb := NormalFormsOf(a, le), NormalFormsOf(b, le);
    if na == nb {
      forall i | 0 <= i < |a| ensures SameMeaning(a[i], b[i], None, le) {
        assert na[i] == nb[i];
      }
    }
  }

  lemma ClassItemsIff(a: seq<Json>, b: seq<Json>, le: (Text, Text) -> bool, k: Text)
    requires ItemsDecided(a, b, le)
    ensures Class(NormalFormsOf(a, le), ItemKey, le, k) == Class(NormalFormsOf(b, le), ItemKey, le, k)
       <==> && |Class(a, ItemKey, le, k)| == |Class(b, ItemKey, le, k)|
            && forall i :: 0 <= i < |Class(a, ItemKey, le, k)| ==>
                 SameMeaning(Class(a, ItemKey, le, k)[i], Class(b, ItemKey, le, k)[i], None, le)
  {
    NormalFormsClass(a, le, k);
    NormalFormsClass(b, le, k);
    var ca, cb := Class(a, ItemKey, le, k), Class(b, ItemKey, le, k);
    forall i, j | 0 <= i < |ca| && 0 <= j < |cb|
      ensures NormalForm(ca[i], None, le) == NormalForm(cb[j], None, le) <==> SameMeaning(ca[i], cb[j], None, le)
    {
      ClassMembers(a, ItemKey, le, k, ca[i]);
      ClassMembers(b, ItemKey, le, k, cb[j]);
    }
    OrderedItemsIff(ca, cb, le);
  }

  lemma SortableArraysIff(a: seq<Json>, b: seq<Json>, parentKey: Option<Text>, le: (Text, Text) -> bool)
    requires TotalPreorder(le)
    requires !KeepsOrder(parentKey) && Sortable(a) && Sortable(b)
    requires ItemsDecided(a, b, le)
    ensures NormalForm(Arr(a), parentKey, le) == NormalForm(Arr(b), parentKey, le)
       <==> SameMeaning(Arr(a), Arr(b), parentKey, le)
  {
    ArrayNormalForm(a, parentKey, le);
    ArrayNormalForm(b, parentKey, le);
    var na, nb := NormalFormsOf(a, le), NormalFormsOf(b, le);
    SortsAgreeIff(na, nb, ItemKey, le);
    forall k: Text
      ensures Class(na, ItemKey, le, k) == Class(nb, ItemKey, le, k)
         <==> && |Class(a, ItemKey, le, k)| == |Class(b, ItemKey, le, k)|
              && forall i :: 0 <= i < |Class(a, ItemKey, le, k)| ==>
                   SameMeaning(Class(a, ItemKey, le, k)[i], Class(b, ItemKey, le, k)[i], None, le)
    {
      ClassItemsIff(a, b, le, k);
    }
    assert SameClasses(na, nb, ItemKey, le) <==> SameMeaning(Arr(a), Arr(b), parentKey, le);
  }

  /** The fields of the normal form of an object, before they are sorted. */
  function NormalFields(f: seq<Field>, le: (Text, Text) -> bool): (r: seq<Field>)
    ensures |r| == |f|
    ensures forall i :: 0 <= i < |f| ==> r[i] == Field(f[i].key, NormalForm(f[i].value, Some(f[i].key), le))
  {
    SortKeysOfValues(NormalizedFields(f, le))
  }

  lemma SameMeaningFieldSets(f: seq<Field>, g: seq<Field>, le: (Text, Text) -> bool)
    requires FieldsDecided(f, g, le) && SameMeaningFields(f, g, le)
    ensures SameFieldSet(NormalFields(f, le), NormalFields(g, le))
  {
    var nf, ng := NormalFields(f, le), NormalFields(g, le);
    forall i | 0 <= i < |nf| ensures nf[i] in ng {
      assert HasKey(g, f[i].key);
      var j :| 0 <= j < |g| && g[j].key == f[i].key;
      assert SameMeaning(f[i].value, g[j].value, Some(f[i].key), le);
      assert ng[j] == nf[i];
    }
    forall j | 0 <= j < |ng| ensures ng[j] in nf {
      assert HasKey(f, g[j].key);
      var i :| 0 <= i < |f| && f[i].key == g[j].key;
      assert SameMeaning(f[i].value, g[j].value, Some(f[i].key), le);
      assert nf[i] == ng[j];
    }
  }

  lemma FieldHasPartner(f: seq<Field>, g: seq<Field>, le: (Text, Text) -> bool, i: nat)
    requires UniqueKeys(g) && FieldsDecided(f, g, le) && i < |f|
    requires NormalFields(f, le)[i] in NormalFields(g, le)
    ensures HasKey(g, f[i].key)
    ensures forall j :: 0 <= j < |g| && f[i].key == g[j].key ==>
      SameMeaning(f[i].value, g[j].value, Some(f[i].key), le)
  {
    var nf, ng := NormalFields(f, le), NormalFields(g, le);
    var m :| 0 <= m < |ng| && ng[m] == nf[i];
    assert g[m].key == f[i].key;
    assert SameMeaning(f[i].value, g[m].value, Some(f[i].key), le);
  }

  lemma FieldSetsSameMeaning(f: seq<Field>, g: seq<Field>, le: (Text, Text) -> bool)
    requires UniqueKeys(f) && UniqueKeys(g) && FieldsDecided(f, g, le)
    requires SameFieldSet(NormalFields(f, le), NormalFields(g, le))
    ensures SameMeaningFields(f, g, le)
  {
    var nf, ng := NormalFields(f, le), NormalFields(g, le);
    forall i: nat | i < |f|
      ensures HasKey(g, f[i].key)
      ensures forall j :: 0 <= j < |g| && f[i].key == g[j].key ==>
        SameMeaning(f[i].value, g[j].value, Some(f[i].key), le)
    {
      assert nf[i] in ng;
      FieldHasPartner(f, g, le, i);
    }
    forall j | 0 <= j < |g| ensures HasKey(f, g[j].key) {
      assert ng[j] in nf;
      var i :| 0 <= i < |nf| && nf[i] == ng[j];
      assert f[i].key == g[j].key;
    }
  }

  lemma ObjectNormalForm(f: seq<Field>, parentKey: Option<Text>, le: (Text, Text) -> bool)
    ensures NormalForm(Obj(f), parentKey, le) == Obj(SortBy(NormalFields(f, le), FieldKey, LexLe))
    ensures UniqueKeys(f) ==> UniqueKeys(NormalFields(f, le))
  {
  }

  lemma ObjectsIff(f: seq<Field>, g: seq<Field>, parentKey: Option<Text>, le: (Text, Text) -> bool)
    requires UniqueKeys(f) && UniqueKeys(g) && FieldsDecided(f, g, le)
    ensures NormalForm(Obj(f), parentKey, le) == NormalForm(Obj(g), parentKey, le)
       <==> SameMeaning(Obj(f), Obj(g), parentKey, le)
  {
    ObjectNormalForm(f, parentKey, le);
    ObjectNormalForm(g, parentKey, le);
    SortedFieldsIff(NormalFields(f, le), NormalFields(g, le));
    if SameMeaningFields(f, g, le) { SameMeaningFieldSets(f, g, le); }
    if SameFieldSet(NormalFields(f, le), NormalFields(g, le)) { FieldSetsSameMeaning(f, g, le); }
  }

  // ---- main results ------------------------------------------------------------------------

  ghost predicate Injective(sha: Text -> Text) {
    forall x, y :: sha(x) == sha(y) ==> x == y
  }

  /** Two inputs get the same fingerprint exactly when they mean the same calculation. */
  lemma FingerprintIff(engineVersion: Text, v: Json, w: Json, le: (Text, Text) -> bool, sha: Text -> Text)
    requires WellFormed(v) && WellFormed(w) && TotalPreorder(le) && Injective(sha)
    ensures CalculationFingerprint(engineVersion, v, le, sha) == CalculationFingerprint(engineVersion, w, le, sha)
       <==> SameMeaning(v, w, None, le)
  {
    var nv, nw := Normalized(v, None, le), Normalized(w, None, le);
    var tv, tw := FingerprintText(engineVersion, v, le), FingerprintText(engineVersion, w, le);
    NormalizedWellFormed(v, None, le);
    NormalizedWellFormed(w, None, le);
    CanonicalIff(nv, nw);
    SortKeysIff(nv, nw);
    NormalFormIff(v, w, None, le);
    if Lit("sha256:") + sha(tv) == Lit("sha256:") + sha(tw) {
      Cancel(Lit("sha256:"), Lit("sha256:"), sha(tv), sha(tw));
      Cancel(engineVersion + [NEWLINE], engineVersion + [NEWLINE], Canonical(nv), Canonical(nw));
    }
  }

  lemma SameMeaningReflexive(v: Json, parentKey: Option<Text>, le: (Text, Text) -> bool)
    requires WellFormed(v) && TotalPreorder(le)
    ensures SameMeaning(v, v, parentKey, le)
  {
    NormalFormIff(v, v, parentKey, le);
  }

  /** Reordering a collection of strings or identified objects is invisible if no two items are tied. */
  lemma ReorderingIsInvisible(a: seq<Json>, b: seq<Json>, parentKey: Option<Text>, le: (Text, Text) -> bool)
    requires WellFormed(Arr(a)) && TotalPreorder(le)
    requires !KeepsOrder(parentKey) && Sortable(a) && DistinctKeys(a, ItemKey, le)
    requires multiset(a) == multiset(b)
    ensures SameMeaning(Arr(a), Arr(b), parentKey, le)
  {
    PermutedSortability(a, b);
    forall k: Text
      ensures Class(a, ItemKey, le, k) == Class(b, ItemKey, le, k)
    {
      ReorderingKeepsClasses(a, b, ItemKey, le, k);
    }
    forall k: Text, i | 0 <= i < |Class(a, ItemKey, le, k)|
      ensures SameMeaning(Class(a, ItemKey, le, k)[i], Class(a, ItemKey, le, k)[i], None, le)
    {
      var x := Class(a, ItemKey, le, k)[i];
      ClassMembers(a, ItemKey, le, k, x);
      SameMeaningReflexive(x, None, le);
    }
  }

  lemma PairClass(x: Json, y: Json, le: (Text, Text) -> bool, k: Text)
    requires TotalPreorder(le) && Tied(le, ItemKey(x), ItemKey(y))
    ensures Class([x, y], ItemKey, le, k) == if Tied(le, ItemKey(x), k) then [x, y] else []
  {
    assert Tied(le, ItemKey(x), k) <==> Tied(le, ItemKey(y), k);
    assert [x, y][1..] == [y];
    assert Class([y], ItemKey, le, k) == if Tied(le, ItemKey(y), k) then [y] else [];
  }

  /** Tied items keep their order: swapping two of them is visible unless they mean the same. */
  lemma TiedItemsKeepTheirOrder(x: Json, y: Json, parentKey: Option<Text>, le: (Text, Text) -> bool)
    requires WellFormed(x) && WellFormed(y) && TotalPreorder(le)
    requires !KeepsOrder(parentKey) && Sortable([x, y]) && Tied(le, ItemKey(x), ItemKey(y))
    ensures SameMeaning(Arr([x, y]), Arr([y, x]), parentKey, le) <==> SameMeaning(x, y, None, le)
  {
    PermutedSortability([x, y], [y, x]);
    if SameMeaning(x, y, None, le) {
      AlikeItemsMeanAlike(x, y, parentKey, le);
    } else if SameMeaning(Arr([x, y]), Arr([y, x]), parentKey, le) {
      FirstOfTiedPair(x, y, parentKey, le);
    }
  }

  lemma AlikeItemsMeanAlike(x: Json, y: Json, parentKey: Option<Text>, le: (Text, Text) -> bool)
    requires WellFormed(x) && WellFormed(y) && TotalPreorder(le)
    requires Sortable([x, y]) && Sortable([y, x]) && SameMeaning(x, y, None, le)
    ensures SameMeaning(Arr([x, y]), Arr([y, x]), parentKey, le)
  {
    NormalFormIff(x, y, None, le);
    AlikeItemsSwap(x, y, parentKey, le);
    NormalFormIff(Arr([x, y]), Arr([y, x]), parentKey, le);
  }

  lemma AlikeItemsSwap(x: Json, y: Json, parentKey: Option<Text>, le: (Text, Text) -> bool)
    requires Sortable([x, y]) && Sortable([y, x])
    requires NormalForm(x, None, le) == NormalForm(y, None, le)
    ensures NormalForm(Arr([x, y]), parentKey, le) == NormalForm(Arr([y, x]), parentKey, le)
  {
    ArrayNormalForm([x, y], parentKey, le);
    ArrayNormalForm([y, x], parentKey, le);
    assert NormalFormsOf([x, y], le) == NormalFormsOf([y, x], le);
  }

  lemma FirstOfTiedPair(x: Json, y: Json, parentKey: Option<Text>, le: (Text, Text) -> bool)
    requires TotalPreorder(le) && Tied(le, ItemKey(x), ItemKey(y))
    requires !KeepsOrder(parentKey) && Sortable([x, y]) && Sortable([y, x])
    requires SameMeaning(Arr([x, y]), Arr([y, x]), parentKey, le)
    ensures SameMeaning(x, y, None, le)
  {
    var k := ItemKey(x);
    PairClass(x, y, le, k);
    PairClass(y, x, le, k);
    var c, d := Class([x, y], ItemKey, le, k), Class([y, x], ItemKey, le, k);
    assert c[0] == x && d[0] == y;
    assert SameMeaning(c[0], d[0], None, le);
  }

  /** Normalising twice is normalising once. */
  lemma {:induction false} NormalizedIdempotent(v: Json, parentKey: Option<Text>, le: (Text, Text) -> bool)
    requires TotalPreorder(le)
    ensures Normalized(Normalized(v, parentKey, le), parentKey, le) == Normalized(v, parentKey, le)
    decreases v
  {
    match v
    case Arr(items) =>
      forall i | 0 <= i < |items|
        ensures Normalized(Normalized(items[i], None, le), None, le) == Normalized(items[i], None, le)
      {
        NormalizedIdempotent(items[i], None, le);
      }
      ArrayIdempotent(items, parentKey, le);
    case Obj(fields) =>
      var n := NormalizedFields(fields, le);
      forall i | 0 <= i < |fields|
        ensures NormalizedFields(n, le)[i] == n[i]
      {
        NormalizedIdempotent(fields[i].value, Some(fields[i].key), le);
      }
      assert NormalizedFields(n, le) == n;
    case _ =>
  }

  lemma FixedItems(items: seq<Json>, le: (Text, Text) -> bool)
    requires forall x :: x in items ==> Normalized(x, None, le) == x
    ensures NormalizedItems(items, le) == items
  {
  }

  lemma SortedArrayIsFixed(n: seq<Json>, parentKey: Option<Text>, le: (Text, Text) -> bool)
    requires TotalPreorder(le) && !KeepsOrder(parentKey) && Sortable(n)
    requires forall x :: x in n ==> Normalized(x, None, le) == x
    ensures var sorted := Arr(SortBy(n, ItemKey, le)); Normalized(sorted, parentKey, le) == sorted
  {
    var sorted := SortBy(n, ItemKey, le);
    SortContents(n, ItemKey, le);
    PermutedSortability(n, sorted);
    forall x | x in sorted ensures Normalized(x, None, le) == x {
      assert x in multiset(sorted) && x in multiset(n);
    }
    FixedItems(sorted, le);
    SortTwice(n, ItemKey, le);
  }

  lemma ArrayIdempotent(items: seq<Json>, parentKey: Option<Text>, le: (Text, Text) -> bool)
    requires TotalPreorder(le)
    requires forall i :: 0 <= i < |items| ==>
      Normalized(Normalized(items[i], None, le), None, le) == Normalized(items[i], None, le)
    ensures Normalized(Normalized(Arr(items), parentKey, le), parentKey, le) == Normalized(Arr(items), parentKey, le)
  {
    var n := NormalizedItems(items, le);
    forall x | x in n ensures Normalized(x, None, le) == x {
      var i :| 0 <= i < |n| && n[i] == x;
    }
    if !KeepsOrder(parentKey) && Sortable(n) {
      SortedArrayIsFixed(n, parentKey, le);
    } else {
      FixedItems(n, le);
    }
  }
}
