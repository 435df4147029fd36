/** The calculation fingerprint: the canonical text of a normal form in which collections of
    strings and collections of identified objects are sorted, except under the two keys whose
    order carries physical meaning. `le` stands for `localeCompare(...) <= 0`. */
module Fingerprint {
  import opened Wrappers
  import opened JsText
  import opened Sorting
  import opened CanonicalJson

  function Lookup(fields: seq<Field>, key: Text): Option<Json> {
    if |fields| == 0 then None
    else if fields[0].key == key then Some(fields[0].value)
    else Lookup(fields[1..], key)
  }

  /** A string that is not blank. */
  function StringValue(v: Option<Json>): Option<Text> {
    if v.Some? && v.value.Str? && !Blank(v.value.s) then Some(v.value.s) else None
  }

  function Identity(item: Json): Option<Text> {
    if !item.Obj? then None
    else
      var id := StringValue(Lookup(item.fields, Lit("id")));
      if id.Some? then id else StringValue(Lookup(item.fields, Lit("componentId")))
  }

  /** What an item is sorted by: the string itself, or its identity. */
  function ItemKey(item: Json): Text {
    if item.Str? then item.s
    else
      var id := Identity(item);
      if id.Some? then id.value else []
  }

  predicate AllStrings(items: seq<Json>) {
    forall i :: 0 <= i < |items| ==> items[i].Str?
  }

  predicate AllIdentified(items: seq<Json>) {
    |items| > 0 && forall i :: 0 <= i < |items| ==> Identity(items[i]).Some?
  }

  predicate Sortable(items: seq<Json>) {
    AllStrings(items) || AllIdentified(items)
  }

  predicate KeepsOrder(parentKey: Option<Text>) {
    parentKey == Some(Lit("geometry")) || parentKey == Some(Lit("participants"))
  }

  function Normalized(v: Json, parentKey: Option<Text>, le: (Text, Text) -> bool): Json
    decreases v, 1
  {
    match v
    case Arr(items) =>
      var normalized := NormalizedItems(items, le);
      if KeepsOrder(parentKey) then Arr(normalized)
      else if AllStrings(normalized) then Arr(SortBy(normalized, ItemKey, le))
      else if AllIdentified(normalized) then Arr(SortBy(normalized, ItemKey, le))
      else Arr(normalized)
    case Obj(fields) => Obj(NormalizedFields(fields, le))
    case _ => v
  }

  function NormalizedItems(items: seq<Json>, le: (Text, Text) -> bool): (r: seq<Json>)
    ensures |r| == |items|
    ensures forall i :: 0 <= i < |items| ==> r[i] == Normalized(items[i], None, le)
    decreases items, 0
  {
    if |items| == 0 then [] else [Normalized(items[0], None, le)] + NormalizedItems(items[1..], le)
  }

  function NormalizedFields(fields: seq<Field>, le: (Text, Text) -> bool): (r: seq<Field>)
    ensures |r| == |fields|
    ensures forall i :: 0 <= i < |fields| ==>
      r[i] == Field(fields[i].key, Normalized(fields[i].value, Some(fields[i].key), le))
    decreases fields, 0
  {
    if |fields| == 0 then []
    else [Field(fields[0].key, Normalized(fields[0].value, Some(fields[0].key), le))]
         + NormalizedFields(fields[1..], le)
  }

  const NEWLINE: CodeUnit := 0x0A

  /** What SHA-256 is taken of. */
  function FingerprintText(engineVersion: Text, v: Json, le: (Text, Text) -> bool): Text {
    engineVersion + [NEWLINE] + Canonical(Normalized(v, None, le))
  }

  function CalculationFingerprint(engineVersion: Text, v: Json, le: (Text, Text) -> bool, sha: Text -> Text): Text {
    Lit("sha256:") + sha(FingerprintText(engineVersion, v, le))
  }

  // ---- what a fingerprint should identify -------------------------------------------------

  /** Two values mean the same calculation: equal but for the order of object keys and, in a
      collection of strings or of identified objects, the order of items that are not tied. The
      n-th item of some identity on one side answers the n-th item of that identity on the other. */
  ghost predicate SameMeaning(v: Json, w: Json, parentKey: Option<Text>, le: (Text, Text) -> bool)
    decreases v
  {
    match (v, w)
    case (Arr(a), Arr(b)) =>
      if KeepsOrder(parentKey) || !Sortable(a) || !Sortable(b) then
        |a| == |b| && forall i :: 0 <= i < |a| ==> SameMeaning(a[i], b[i], None, le)
      else
        forall k: Text ::
          && |Class(a, ItemKey, le, k)| == |Class(b, ItemKey, le, k)|
          && forall i :: 0 <= i < |Class(a, ItemKey, le, k)| ==>
               (ClassMembers(a, ItemKey, le, k, Class(a, ItemKey, le, k)[i]);
                SameMeaning(Class(a, ItemKey, le, k)[i], Class(b, ItemKey, le, k)[i], None, le))
    case (Obj(f), Obj(g)) => SameMeaningFields(f, g, le)
    case (Arr(_), _) => false
    case (Obj(_), _) => false
    case (_, _) => v == w
  }

  ghost predicate SameMeaningFields(f: seq<Field>, g: seq<Field>, le: (Text, Text) -> bool)
    decreases f
  {
    && (forall i :: 0 <= i < |f| ==> HasKey(g, f[i].key))
    && (forall j :: 0 <= j < |g| ==> HasKey(f, g[j].key))
    && (forall i, j :: 0 <= i < |f| && 0 <= j < |g| && f[i].key == g[j].key
          ==> SameMeaning(f[i].value, g[j].value, Some(f[i].key), le))
  }
}
