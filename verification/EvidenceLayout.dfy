/** What stands under which key of the objects that a revision's checksums are taken of, and which
    checksum is taken of what. */
module EvidenceLayout {
  import opened Wrappers
  import opened JsText
  import opened CanonicalJson
  import opened Fingerprint
  import opened RevisionEvidence
  import opened EvidenceTheorems

  lemma {:induction false} LookupAt(fields: seq<Field>, i: nat)
    requires i < |fields| && UniqueKeys(fields)
    ensures Lookup(fields, fields[i].key) == Some(fields[i].value)
  {
    if i > 0 {
      LookupAt(fields[1..], i - 1);
    }
  }

  lemma GetAt(fields: seq<Field>, i: nat, key: string)
    requires i < |fields| && UniqueKeys(fields) && fields[i].key == Lit(key)
    ensures Get(Obj(fields), key) == fields[i].value
  {
    LookupAt(fields, i);
  }

  /** The project's snapshot, and of the calculation input the products and relations with the
      catalog's reference, and the rules and templates with the rule set's. */
  lemma SnapshotLayout(project: Json, input: Json)
    ensures var whole := CombinedSnapshot(project, input);
      var catalog, rules := Get(whole, "catalog"), Get(whole, "rules");
      && Get(whole, "project") == project
      && Get(catalog, "schemaVersion") == Str(Lit("catalog-revision-snapshot/v2"))
      && Get(catalog, "reference") == Get(input, "catalogSnapshot")
      && Get(catalog, "products") == Get(input, "products")
      && Get(catalog, "compatibilityRelations") == Get(input, "compatibilityRelations")
      && Get(rules, "schemaVersion") == Str(Lit("rule-template-revision-snapshot/v2"))
      && Get(rules, "reference") == Get(input, "ruleSnapshot")
      && Get(rules, "rules") == Get(input, "rules")
      && Get(rules, "assemblyTemplates") == Get(input, "assemblyTemplates")
  {
    PartKeysUnique(project, input);
    var whole, catalog, rules := CombinedSnapshot(project, input).fields, CatalogPart(input).fields, RulePart(input).fields;
    GetAt(whole, 0, "project");
    GetAt(whole, 1, "catalog");
    GetAt(whole, 2, "rules");
    GetAt(catalog, 0, "schemaVersion");
    GetAt(catalog, 1, "reference");
    GetAt(catalog, 2, "products");
    GetAt(catalog, 3, "compatibilityRelations");
    GetAt(rules, 0, "schemaVersion");
    GetAt(rules, 1, "reference");
    GetAt(rules, 2, "rules");
    GetAt(rules, 3, "assemblyTemplates");
  }

  /** What the record says, entry by entry: a key, and what stands under it. */
  function RecordEntry(s: Summary, c: Checksums, i: nat): (string, Json) {
    match i
    case 0 => ("schemaVersion", Str(Lit("revision-snapshot/v2")))
    case 1 => ("projectId", Str(s.projectId))
    case 2 => ("revisionNumber", Num(s.revisionNumber))
    case 3 => ("name", Str(s.name))
    case 4 => ("comment", s.comment)
    case 5 => ("author", s.authorSnapshot)
    case 6 => ("createdAt", Str(s.createdAt))
    case 7 => ("sourceDraftVersion", Num(s.sourceDraftVersion))
    case 8 => ("calculationRunId", Str(s.calculationRunId))
    case 9 => ("inputFingerprint", Str(s.inputFingerprint))
    case 10 => ("engineVersion", Str(s.engineVersion))
    case 11 => ("catalogSnapshot", s.catalogSnapshot)
    case 12 => ("ruleSnapshot", s.ruleSnapshot)
    case 13 => ("approvalReady", Bool(s.approvalReady))
    case 14 => ("warningSummary", s.warningSummary)
    case 15 => ("projectChecksum", Str(c.project))
    case 16 => ("inputChecksum", Str(c.input))
    case 17 => ("snapshotChecksum", Str(c.snapshot))
    case 18 => ("resultChecksum", Str(c.result))
    case 19 => ("bomChecksum", Str(c.bom))
    case 20 => ("warningsChecksum", Str(c.warnings))
    case _ => ("", Null)
  }

  /** The record behind the revision checksum has each covered value under its own key, and no other
      keys. */
  lemma RecordLayout(s: Summary, c: Checksums, i: nat)
    requires i < 21
    ensures Get(RevisionRecord(s, c), RecordEntry(s, c, i).0) == RecordEntry(s, c, i).1
    ensures |RevisionRecord(s, c).fields| == 21
  {
    var (key, value) := RecordEntry(s, c, i);
    RevisionKeysUnique(s, c);
    EntryStands(s, c, i);
    GetAt(RevisionRecord(s, c).fields, i, key);
  }

  lemma EntryStands(s: Summary, c: Checksums, i: nat)
    requires i < 21
    ensures RevisionRecord(s, c).fields[i] == Field(Lit(RecordEntry(s, c, i).0), RecordEntry(s, c, i).1)
  {
    if i < 15 {
      assert (SummaryValues(s) + ChecksumValues(c))[i] == SummaryValues(s)[i];
    } else {
      assert (SummaryValues(s) + ChecksumValues(c))[i] == ChecksumValues(c)[i - 15];
    }
  }

  /** SHA-256 of a value's canonical text, with its name in front. */
  function Hashed(v: Json, sha: Text -> Text): Text {
    Lit("sha256:") + sha(Canonical(v))
  }

  /** Which checksum is of what, and that the last one is of the record of the others. */
  lemma ChecksumLayout(x: SaveInput, sha: Text -> Text)
    ensures var c := Save(x, sha).checksums;
      && c.project == Hashed(x.project, sha) && c.input == Hashed(x.calculationInput, sha)
      && c.snapshot == Hashed(CombinedSnapshot(x.project, x.calculationInput), sha)
      && c.result == Hashed(x.result, sha)
      && c.bom == Hashed(Get(x.result, "bomLines"), sha) && c.warnings == Hashed(Get(x.result, "warnings"), sha)
      && c.revision == Hashed(RevisionRecord(SaveSummary(x), c), sha)
  {
    RecordIgnoresItself(SaveSummary(x), SaveChecksums(x, sha), Save(x, sha).checksums);
  }

  lemma RecordIgnoresItself(s: Summary, c: Checksums, e: Checksums)
    requires e == c.(revision := e.revision)
    ensures RevisionRecord(s, c) == RevisionRecord(s, e)
  {
  }
}
