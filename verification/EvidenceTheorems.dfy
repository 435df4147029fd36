/** Every saved revision verifies when it is loaded again in whatever key order, and nothing the
    evidence covers can change under an unchanged revision checksum. */
module EvidenceTheorems {
  import opened JsText
  import opened CanonicalJson
  import opened CanonicalTheorems
  import opened UniqueReading
  import opened Fingerprint
  import opened FingerprintTheorems
  import opened RevisionEvidence

  lemma ChecksumIff(v: Json, w: Json, sha: Text -> Text)
    requires WellFormed(v) && WellFormed(w) && Injective(sha)
    ensures Checksum(v, sha) == Checksum(w, sha) <==> SameJson(v, w)
  {
    CanonicalIff(v, w);
    if Checksum(v, sha) == Checksum(w, sha) {
      Cancel(Lit("sha256:"), Lit("sha256:"), sha(Canonical(v)), sha(Canonical(w)));
    }
  }

  /** Objects written with the same keys in the same order agree exactly value by value. */
  lemma SameKeyList(f: seq<Field>, g: seq<Field>)
    requires UniqueKeys(f) && |f| == |g|
    requires forall i :: 0 <= i < |f| ==> f[i].key == g[i].key
    ensures UniqueKeys(g)
    ensures SameFields(f, g) <==> forall i :: 0 <= i < |f| ==> SameJson(f[i].value, g[i].value)
  {
    assert forall i :: 0 <= i < |f| ==> HasKey(f, g[i].key) && HasKey(g, f[i].key);
  }

  /** The place of a key in the revision record, told from its length, first and third letter. */
  function Place(key: string): int {
    if |key| < 3 then -1 else
    match (|key|, key[0], key[2])
    case (13, 's', 'h') => 0
    case (9, 'p', 'o') => 1
    case (14, 'r', 'v') => 2
    case (4, 'n', 'm') => 3
    case (7, 'c', 'm') => 4
    case (6, 'a', 't') => 5
    case (9, 'c', 'e') => 6
    case (18, 's', 'u') => 7
    case (16, 'c', 'l') => 8
    case (16, 'i', 'p') => 9
    case (13, 'e', 'g') => 10
    case (15, 'c', 't') => 11
    case (12, 'r', 'l') => 12
    case (13, 'a', 'p') => 13
    case (14, 'w', 'r') => 14
    case (15, 'p', 'o') => 15
    case (13, 'i', 'p') => 16
    case (16, 's', 'a') => 17
    case (14, 'r', 's') => 18
    case (11, 'b', 'm') => 19
    case (16, 'w', 'r') => 20
    case _ => -1
  }

  lemma RevisionKeyPlace(i: nat)
    requires i < |REVISION_KEYS|
    ensures Place(REVISION_KEYS[i]) == i
  {
  }

  lemma RevisionKeysUnique(s: Summary, c: Checksums)
    ensures UniqueKeys(RevisionRecord(s, c).fields)
  {
    var f := RevisionRecord(s, c).fields;
    forall i, j | 0 <= i < j < |f|
      ensures f[i].key != f[j].key
    {
      RevisionKeyPlace(i);
      RevisionKeyPlace(j);
    }
  }

  // ---- parts of equal values are equal ---------------------------------------------------------

  lemma {:induction false} LookupFinds(fields: seq<Field>, key: Text)
    ensures Lookup(fields, key).Some? <==> HasKey(fields, key)
    ensures Lookup(fields, key).Some? ==>
      exists i :: 0 <= i < |fields| && fields[i].key == key && fields[i].value == Lookup(fields, key).value
  {
    if |fields| != 0 {
      LookupFinds(fields[1..], key);
      if fields[0].key == key {
        assert fields[0].value == Lookup(fields, key).value;
      } else {
        if HasKey(fields, key) {
          var i :| 0 <= i < |fields| && fields[i].key == key;
          assert fields[1..][i - 1].key == key;
        }
        if HasKey(fields[1..], key) {
          var i :| 0 <= i < |fields[1..]| && fields[1..][i].key == key && fields[1..][i].value == Lookup(fields, key).value;
          assert fields[i + 1].key == key && fields[i + 1].value == Lookup(fields, key).value;
        }
      }
    }
  }

  lemma GetWellFormed(v: Json, key: string)
    requires WellFormed(v)
    ensures WellFormed(Get(v, key))
  {
    if v.Obj? {
      LookupFinds(v.fields, Lit(key));
    }
  }

  lemma GetSame(v: Json, w: Json, key: string)
    requires WellFormed(v) && WellFormed(w) && SameJson(v, w)
    ensures SameJson(Get(v, key), Get(w, key))
  {
    if v.Obj? {
      LookupFinds(v.fields, Lit(key));
      LookupFinds(w.fields, Lit(key));
      if HasKey(v.fields, Lit(key)) {
        var i :| 0 <= i < |v.fields| && v.fields[i].key == Lit(key) && v.fields[i].value == Get(v, key);
        var j :| 0 <= j < |w.fields| && w.fields[j].key == Lit(key) && w.fields[j].value == Get(w, key);
      } 
    }
  }

  lemma PartKeysUnique(project: Json, input: Json)
    ensures UniqueKeys(CatalogPart(input).fields) && UniqueKeys(RulePart(input).fields)
    ensures UniqueKeys(CombinedSnapshot(project, input).fields)
  {
    assert Lit("project")[0] != Lit("catalog")[0];
  }

  /** Records of four fields with the same keys agree when their values do. */
  lemma FourFieldsSame(f: seq<Field>, g: seq<Field>)
    requires |f| == 4 && |g| == 4 && UniqueKeys(f) && UniqueKeys(g)
    requires f[0].key == g[0].key && f[1].key == g[1].key && f[2].key == g[2].key && f[3].key == g[3].key
    requires SameJson(f[0].value, g[0].value) && SameJson(f[1].value, g[1].value)
    requires SameJson(f[2].value, g[2].value) && SameJson(f[3].value, g[3].value)
    ensures SameJson(Obj(f), Obj(g))
  {
    SameKeyList(f, g);
  }

  lemma CatalogPartSame(i: Json, j: Json)
    requires WellFormed(i) && WellFormed(j) && SameJson(i, j)
    ensures SameJson(CatalogPart(i), CatalogPart(j))
  {
    PartKeysUnique(Null, i);
    PartKeysUnique(Null, j);
    GetSame(i, j, "catalogSnapshot");
    GetSame(i, j, "products");
    GetSame(i, j, "compatibilityRelations");
    FourFieldsSame(CatalogPart(i).fields, CatalogPart(j).fields);
  }

  lemma RulePartSame(i: Json, j: Json)
    requires WellFormed(i) && WellFormed(j) && SameJson(i, j)
    ensures SameJson(RulePart(i), RulePart(j))
  {
    PartKeysUnique(Null, i);
    PartKeysUnique(Null, j);
    GetSame(i, j, "ruleSnapshot");
    GetSame(i, j, "rules");
    GetSame(i, j, "assemblyTemplates");
    FourFieldsSame(RulePart(i).fields, RulePart(j).fields);
  }

  lemma CombinedSame(p: Json, q: Json, i: Json, j: Json)
    requires WellFormed(i) && WellFormed(j) && SameJson(p, q) && SameJson(i, j)
    ensures SameJson(CombinedSnapshot(p, i), CombinedSnapshot(q, j))
  {
    PartKeysUnique(p, i);
    CatalogPartSame(i, j);
    RulePartSame(i, j);
    SameKeyList(CombinedSnapshot(p, i).fields, CombinedSnapshot(q, j).fields);
  }

  lemma CombinedWellFormed(p: Json, i: Json)
    requires WellFormed(p) && WellFormed(i)
    ensures WellFormed(CombinedSnapshot(p, i))
  {
    PartKeysUnique(p, i);
    GetWellFormed(i, "catalogSnapshot");
    GetWellFormed(i, "products");
    GetWellFormed(i, "compatibilityRelations");
    GetWellFormed(i, "ruleSnapshot");
    GetWellFormed(i, "rules");
    GetWellFormed(i, "assemblyTemplates");
    assert WellFormed(CatalogPart(i)) && WellFormed(RulePart(i));
  }

  // ---- the checksums of the parts ---------------------------------------------------------------

  predicate SameParts(a: Snapshot, b: Snapshot) {
    && SameJson(a.project, b.project)
    && SameJson(a.calculationInput, b.calculationInput)
    && SameJson(a.calculationResult, b.calculationResult)
  }

  lemma ExpectedIff(d: Detail, e: Detail, sha: Text -> Text)
    requires WellFormedDetail(d) && WellFormedDetail(e) && Injective(sha)
    ensures Expected(d, sha) == Expected(e, sha) <==> SameParts(d.snapshot, e.snapshot)
  {
    var a, b := d.snapshot, e.snapshot;
    ChecksumIff(a.project, b.project, sha);
    ChecksumIff(a.calculationInput, b.calculationInput, sha);
    ChecksumIff(a.calculationResult, b.calculationResult, sha);
    if SameParts(a, b) {
      CombinedSame(a.project, b.project, a.calculationInput, b.calculationInput);
      CombinedWellFormed(a.project, a.calculationInput);
      CombinedWellFormed(b.project, b.calculationInput);
      ChecksumIff(CombinedSnapshot(a.project, a.calculationInput), CombinedSnapshot(b.project, b.calculationInput), sha);
      PartChecksumSame(a.calculationResult, b.calculationResult, "bomLines", sha);
      PartChecksumSame(a.calculationResult, b.calculationResult, "warnings", sha);
    }
  }

  lemma PartChecksumSame(v: Json, w: Json, key: string, sha: Text -> Text)
    requires WellFormed(v) && WellFormed(w) && SameJson(v, w) && Injective(sha)
    ensures Checksum(Get(v, key), sha) == Checksum(Get(w, key), sha)
  {
    GetSame(v, w, key);
    GetWellFormed(v, key);
    GetWellFormed(w, key);
    ChecksumIff(Get(v, key), Get(w, key), sha);
  }

  // ---- the revision record ------------------------------------------------------------------------

  predicate SameSummaryEvidence(s: Summary, t: Summary) {
    && s.projectId == t.projectId && s.revisionNumber == t.revisionNumber && s.name == t.name
    && SameJson(s.comment, t.comment) && SameJson(s.authorSnapshot, t.authorSnapshot)
    && s.createdAt == t.createdAt && s.sourceDraftVersion == t.sourceDraftVersion
    && s.calculationRunId == t.calculationRunId && s.inputFingerprint == t.inputFingerprint
    && s.engineVersion == t.engineVersion
    && SameJson(s.catalogSnapshot, t.catalogSnapshot) && SameJson(s.ruleSnapshot, t.ruleSnapshot)
    && s.approvalReady == t.approvalReady && SameJson(s.warningSummary, t.warningSummary)
  }

  ghost predicate SameItems(a: seq<Json>, b: seq<Json>) {
    |a| == |b| && forall i :: 0 <= i < |a| ==> SameJson(a[i], b[i])
  }

  lemma SameItemsAppend(a: seq<Json>, b: seq<Json>, s: seq<Json>, t: seq<Json>)
    requires |a| == |b|
    ensures SameItems(a + s, b + t) <==> SameItems(a, b) && SameItems(s, t)
  {
    if SameItems(a + s, b + t) {
      forall i | 0 <= i < |a| ensures SameJson(a[i], b[i]) {
        assert (a + s)[i] == a[i] && (b + t)[i] == b[i];
      }
      forall i | 0 <= i < |s| ensures SameJson(s[i], t[i]) {
        assert (a + s)[|a| + i] == s[i] && (b + t)[|b| + i] == t[i];
      }
    }
  }

  lemma SummaryValuesSame(s: Summary, t: Summary)
    requires SameItems(SummaryValues(s), SummaryValues(t))
    ensures SameSummaryEvidence(s, t)
  {
    var a, b := SummaryValues(s), SummaryValues(t);
    assert SameJson(a[1], b[1]) && SameJson(a[2], b[2]) && SameJson(a[3], b[3]) && SameJson(a[4], b[4]);
    assert SameJson(a[5], b[5]) && SameJson(a[6], b[6]) && SameJson(a[7], b[7]) && SameJson(a[8], b[8]);
    assert SameJson(a[9], b[9]) && SameJson(a[10], b[10]) && SameJson(a[11], b[11]) && SameJson(a[12], b[12]);
    assert SameJson(a[13], b[13]) && SameJson(a[14], b[14]);
  }

  lemma SameSummaryValues(s: Summary, t: Summary)
    requires SameSummaryEvidence(s, t)
    ensures SameItems(SummaryValues(s), SummaryValues(t))
  {
  }

  lemma ChecksumValuesIff(c: Checksums, e: Checksums)
    ensures SameItems(ChecksumValues(c), ChecksumValues(e)) <==> c.(revision := e.revision) == e
  {
    var a, b := ChecksumValues(c), ChecksumValues(e);
    if SameItems(a, b) {
      assert SameJson(a[0], b[0]) && SameJson(a[1], b[1]) && SameJson(a[2], b[2]);
      assert SameJson(a[3], b[3]) && SameJson(a[4], b[4]) && SameJson(a[5], b[5]);
    }
  }

  lemma RevisionRecordIff(s: Summary, c: Checksums, t: Summary, e: Checksums)
    ensures SameJson(RevisionRecord(s, c), RevisionRecord(t, e))
       <==> SameSummaryEvidence(s, t) && c.(revision := e.revision) == e
  {
    var f, g := RevisionRecord(s, c).fields, RevisionRecord(t, e).fields;
    var a, b := SummaryValues(s) + ChecksumValues(c), SummaryValues(t) + ChecksumValues(e);
    RevisionKeysUnique(s, c);
    SameKeyList(f, g);
    assert (forall i :: 0 <= i < |f| ==> SameJson(f[i].value, g[i].value)) <==> SameItems(a, b) by {
      if forall i :: 0 <= i < |f| ==> SameJson(f[i].value, g[i].value) {
        forall i | 0 <= i < |a| ensures SameJson(a[i], b[i]) {
          assert f[i].value == a[i] && g[i].value == b[i];
        }
      }
    }
    SameItemsAppend(SummaryValues(s), SummaryValues(t), ChecksumValues(c), ChecksumValues(e));
    ChecksumValuesIff(c, e);
    if SameSummaryEvidence(s, t) { SameSummaryValues(s, t); }
    if SameItems(SummaryValues(s), SummaryValues(t)) { SummaryValuesSame(s, t); }
  }

  lemma RevisionRecordWellFormed(d: Detail, c: Checksums)
    requires WellFormedDetail(d)
    ensures WellFormed(RevisionRecord(d.summary, c))
  {
    RevisionKeysUnique(d.summary, c);
    var values := SummaryValues(d.summary) + ChecksumValues(c);
    assert forall i :: 0 <= i < |values| ==> WellFormed(values[i]);
  }

  // ---- main results ---------------------------------------------------------------------------------

  /** Under one and the same revision checksum, what verifies is exactly the original evidence:
      a reload in another key order still verifies, and any other change is caught. */
  lemma VerifiesIff(d: Detail, e: Detail, sha: Text -> Text)
    requires WellFormedDetail(d) && WellFormedDetail(e) && Injective(sha)
    requires Verifies(d, sha) && e.checksums.revision == d.checksums.revision
    ensures Verifies(e, sha) <==> SameEvidence(d, e)
  {
    var x, y := Expected(d, sha), Expected(e, sha);
    RevisionRecordWellFormed(d, x);
    RevisionRecordWellFormed(e, y);
    ChecksumIff(RevisionRecord(d.summary, x), RevisionRecord(e.summary, y), sha);
    RevisionRecordIff(d.summary, x, e.summary, y);
    ExpectedIff(d, e, sha);
    if SameParts(d.snapshot, e.snapshot) {
      GetSame(d.snapshot.calculationResult, e.snapshot.calculationResult, "inputFingerprint");
    }
  }

  /** What the schemas and the checks of `saveRevision` guarantee before the row is written. */
  ghost predicate Saveable(x: SaveInput) {
    && WellFormed(x.comment) && WellFormed(x.author)
    && WellFormed(x.project) && WellFormed(x.calculationInput) && WellFormed(x.result)
    && IsReference(Get(x.calculationInput, "catalogSnapshot"))
    && IsReference(Get(x.calculationInput, "ruleSnapshot"))
    && Get(x.result, "inputFingerprint") == Str(x.fingerprint)
  }

  lemma ReferenceWellFormed(v: Json)
    requires WellFormed(v)
    ensures WellFormed(ReferenceColumns(v))
  {
    GetWellFormed(v, "snapshotId");
    GetWellFormed(v, "version");
    GetWellFormed(v, "contentHash");
  }

  lemma WarningSummaryWellFormed(result: Json)
    ensures WellFormed(WarningSummary(result))
  {
    assert Lit("blocksApprovalCount")[0] != Lit("reviewRequiredCount")[0];
  }

  lemma SavedWellFormed(x: SaveInput, sha: Text -> Text)
    requires Saveable(x)
    ensures WellFormedDetail(Save(x, sha))
    ensures WellFormedDetail(Save(x, sha).(summary := SaveSummary(x)))
  {
    GetWellFormed(x.calculationInput, "catalogSnapshot");
    GetWellFormed(x.calculationInput, "ruleSnapshot");
    ReferenceWellFormed(Get(x.calculationInput, "catalogSnapshot"));
    ReferenceWellFormed(Get(x.calculationInput, "ruleSnapshot"));
    WarningSummaryWellFormed(x.result);
  }

  lemma SavedVerifies(x: SaveInput, sha: Text -> Text)
    requires Saveable(x) && Injective(sha)
    ensures WellFormedDetail(Save(x, sha)) && Verifies(Save(x, sha), sha)
  {
    SavedWellFormed(x, sha);
    var d, s, c := Save(x, sha), SaveSummary(x), SaveChecksums(x, sha);
    assert Expected(d, sha) == c;
    RevisionRecordWellFormed(d, c);
    RevisionRecordWellFormed(d.(summary := s), c);
    ReflexiveSummary(d, s);
    RevisionRecordIff(s, c, d.summary, c);
    ChecksumIff(RevisionRecord(s, c), RevisionRecord(d.summary, c), sha);
  }

  lemma ReflexiveSummary(d: Detail, s: Summary)
    requires WellFormedDetail(d)
    requires d.summary == s.(catalogSnapshot := d.summary.catalogSnapshot, ruleSnapshot := d.summary.ruleSnapshot)
    requires SameJson(s.catalogSnapshot, d.summary.catalogSnapshot) && SameJson(s.ruleSnapshot, d.summary.ruleSnapshot)
    ensures SameSummaryEvidence(s, d.summary)
  {
    CanonicalIff(s.comment, s.comment);
    CanonicalIff(s.authorSnapshot, s.authorSnapshot);
    CanonicalIff(s.warningSummary, s.warningSummary);
  }

  /** Save and verify agree: what verifies under a saved revision's checksum is exactly what was
      saved, in any key order. */
  lemma SaveVerifyAgreement(x: SaveInput, e: Detail, sha: Text -> Text)
    requires Saveable(x) && WellFormedDetail(e) && Injective(sha)
    requires e.checksums.revision == Save(x, sha).checksums.revision
    ensures Verifies(e, sha) <==> SameEvidence(Save(x, sha), e)
  {
    SavedVerifies(x, sha);
    VerifiesIff(Save(x, sha), e, sha);
  }

  /** Touching the revision checksum alone is caught too. */
  lemma ChangedRevisionChecksumFails(d: Detail, other: Text, sha: Text -> Text)
    requires Verifies(d, sha) && other != d.checksums.revision
    ensures !Verifies(d.(checksums := d.checksums.(revision := other)), sha)
  {
    var e := d.(checksums := d.checksums.(revision := other));
    assert Expected(e, sha) == Expected(d, sha);
  }
}
