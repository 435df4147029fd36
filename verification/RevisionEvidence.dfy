/** The seven checksums a saved revision carries, as `saveRevision` computes them, and their
    recomputation before an export, as `verifyExportRevisionEvidence` does it. */
module RevisionEvidence {
  import opened Wrappers
  import opened JsText
  import opened CanonicalJson
  import opened Fingerprint

  function Checksum(v: Json, sha: Text -> Text): Text {
    Lit("sha256:") + sha(Canonical(v))
  }

  /** Property access; a value the schema did not put there reads as null here. */
  function Get(v: Json, key: string): Json {
    if !v.Obj? then Null
    else
      var found := Lookup(v.fields, Lit(key));
      if found.Some? then found.value else Null
  }

  datatype Summary = Summary(
    id: Text,
    projectId: Text,
    revisionNumber: int,
    name: Text,
    comment: Json,
    authorId: Text,
    authorSnapshot: Json,
    createdAt: Text,
    status: Text,
    inputFingerprint: Text,
    engineVersion: Text,
    calculationRunId: Text,
    sourceDraftVersion: int,
    catalogSnapshot: Json,
    ruleSnapshot: Json,
    checkedAt: Option<Text>,
    approvedAt: Option<Text>,
    approvalReady: bool,
    warningSummary: Json,
    isLatest: bool)

  datatype Snapshot = Snapshot(project: Json, calculationInput: Json, calculationResult: Json)

  datatype Checksums = Checksums(
    project: Text,
    input: Text,
    snapshot: Text,
    result: Text,
    bom: Text,
    warnings: Text,
    revision: Text)

  datatype Detail = Detail(summary: Summary, snapshot: Snapshot, checksums: Checksums)

  function CatalogPart(input: Json): Json {
    Obj([
      Field(Lit("schemaVersion"), Str(Lit("catalog-revision-snapshot/v2"))),
      Field(Lit("reference"), Get(input, "catalogSnapshot")),
      Field(Lit("products"), Get(input, "products")),
      Field(Lit("compatibilityRelations"), Get(input, "compatibilityRelations"))])
  }

  function RulePart(input: Json): Json {
    Obj([
      Field(Lit("schemaVersion"), Str(Lit("rule-template-revision-snapshot/v2"))),
      Field(Lit("reference"), Get(input, "ruleSnapshot")),
      Field(Lit("rules"), Get(input, "rules")),
      Field(Lit("assemblyTemplates"), Get(input, "assemblyTemplates"))])
  }

  function CombinedSnapshot(project: Json, input: Json): Json {
    Obj([
      Field(Lit("project"), project),
      Field(Lit("catalog"), CatalogPart(input)),
      Field(Lit("rules"), RulePart(input))])
  }

  /** An object literal: the given keys, in order, with the given values. */
  function Record(keys: seq<string>, values: seq<Json>): (fields: seq<Field>)
    requires |keys| == |values|
    ensures |fields| == |keys|
    ensures forall i :: 0 <= i < |keys| ==> fields[i] == Field(Lit(keys[i]), values[i])
  {
    seq(|keys|, i requires 0 <= i < |keys| => Field(Lit(keys[i]), values[i]))
  }

  const REVISION_KEYS: seq<string> := [
    "schemaVersion", "projectId", "revisionNumber", "name", "comment", "author", "createdAt",
    "sourceDraftVersion", "calculationRunId", "inputFingerprint", "engineVersion", "catalogSnapshot",
    "ruleSnapshot", "approvalReady", "warningSummary", "projectChecksum", "inputChecksum",
    "snapshotChecksum", "resultChecksum", "bomChecksum", "warningsChecksum"]

  function SummaryValues(s: Summary): (values: seq<Json>)
    ensures |values| == 15
  {
    [Str(Lit("revision-snapshot/v2")), Str(s.projectId), Num(s.revisionNumber), Str(s.name), s.comment,
     s.authorSnapshot, Str(s.createdAt), Num(s.sourceDraftVersion), Str(s.calculationRunId),
     Str(s.inputFingerprint), Str(s.engineVersion), s.catalogSnapshot, s.ruleSnapshot,
     Bool(s.approvalReady), s.warningSummary]
  }

  function ChecksumValues(c: Checksums): (values: seq<Json>)
    ensures |values| == 6
  {
    [Str(c.project), Str(c.input), Str(c.snapshot), Str(c.result), Str(c.bom), Str(c.warnings)]
  }

  /** The object the revision checksum is taken of. */
  function RevisionRecord(s: Summary, c: Checksums): Json {
    Obj(Record(REVISION_KEYS, SummaryValues(s) + ChecksumValues(c)))
  }

  // ---- saving --------------------------------------------------------------------------------

  /** What `saveRevision` has in hand once its checks have passed. */
  datatype SaveInput = SaveInput(
    revisionId: Text,
    projectId: Text,
    number: int,
    name: Text,
    comment: Json,
    actorId: Text,
    author: Json,
    createdAt: Text,
    draftVersion: int,
    calculationId: Text,
    fingerprint: Text,
    engineVersion: Text,
    project: Json,
    calculationInput: Json,
    result: Json)

  function CountImpact(warnings: seq<Json>, impact: string): nat {
    if |warnings| == 0 then 0
    else (if Get(warnings[0], "approvalImpact") == Str(Lit(impact)) then 1 else 0) + CountImpact(warnings[1..], impact)
  }

  function WarningSummary(result: Json): Json {
    var warnings := match Get(result, "warnings") case Arr(items) => items case _ => [];
    Obj([
      Field(Lit("totalCount"), Num(|warnings|)),
      Field(Lit("blocksApprovalCount"), Num(CountImpact(warnings, "blocksApproval"))),
      Field(Lit("reviewRequiredCount"), Num(CountImpact(warnings, "reviewRequired")))])
  }

  predicate ApprovalReady(result: Json) {
    Get(Get(result, "summary"), "approvalReady") == Bool(true)
  }

  /** A snapshot reference as it is rebuilt from its three columns. */
  function ReferenceColumns(reference: Json): Json {
    Obj([
      Field(Lit("snapshotId"), Get(reference, "snapshotId")),
      Field(Lit("version"), Get(reference, "version")),
      Field(Lit("contentHash"), Get(reference, "contentHash"))])
  }

  /** The schema's promise about a reference: these three keys and no other. */
  ghost predicate IsReference(v: Json) {
    SameJson(v, ReferenceColumns(v))
  }

  function SaveChecksums(x: SaveInput, sha: Text -> Text): Checksums {
    Checksums(
      Checksum(x.project, sha),
      Checksum(x.calculationInput, sha),
      Checksum(CombinedSnapshot(x.project, x.calculationInput), sha),
      Checksum(x.result, sha),
      Checksum(Get(x.result, "bomLines"), sha),
      Checksum(Get(x.result, "warnings"), sha),
      [])
  }

  /** The summary of the new revision with the references as the calculation input holds them. */
  function SaveSummary(x: SaveInput): Summary {
    Summary(
      x.revisionId, x.projectId, x.number, x.name, x.comment, x.actorId, x.author, x.createdAt,
      Lit("calculated"), x.fingerprint, x.engineVersion, x.calculationId, x.draftVersion,
      Get(x.calculationInput, "catalogSnapshot"), Get(x.calculationInput, "ruleSnapshot"), None, None,
      ApprovalReady(x.result), WarningSummary(x.result), true)
  }

  /** The row `saveRevision` inserts, as `loadStoredDetail` reads it back: each reference has
      been split into its columns and put together again. */
  function Save(x: SaveInput, sha: Text -> Text): Detail {
    var s := SaveSummary(x);
    var c := SaveChecksums(x, sha);
    Detail(
      s.(catalogSnapshot := ReferenceColumns(s.catalogSnapshot), ruleSnapshot := ReferenceColumns(s.ruleSnapshot)),
      Snapshot(x.project, x.calculationInput, x.result),
      c.(revision := Checksum(RevisionRecord(s, c), sha)))
  }

  // ---- verifying -----------------------------------------------------------------------------

  function Expected(d: Detail, sha: Text -> Text): Checksums {
    Checksums(
      Checksum(d.snapshot.project, sha),
      Checksum(d.snapshot.calculationInput, sha),
      Checksum(CombinedSnapshot(d.snapshot.project, d.snapshot.calculationInput), sha),
      Checksum(d.snapshot.calculationResult, sha),
      Checksum(Get(d.snapshot.calculationResult, "bomLines"), sha),
      Checksum(Get(d.snapshot.calculationResult, "warnings"), sha),
      [])
  }

  /** True when `verifyExportRevisionEvidence` does not throw. */
  predicate Verifies(d: Detail, sha: Text -> Text) {
    var expected := Expected(d, sha);
    var c := d.checksums;
    && c.project == expected.project && c.input == expected.input && c.snapshot == expected.snapshot
    && c.result == expected.result && c.bom == expected.bom && c.warnings == expected.warnings
    && c.revision == Checksum(RevisionRecord(d.summary, expected), sha)
    && Get(d.snapshot.calculationResult, "inputFingerprint") == Str(d.summary.inputFingerprint)
  }

  // ---- what verification should pin down -------------------------------------------------------

  /** Everything of a loaded revision that the evidence is about; what it leaves out is the
      revision's own id, the author's id, its status and dates of advance, and whether it is
      the latest. */
  predicate SameEvidence(d: Detail, e: Detail) {
    var s, t := d.summary, e.summary;
    && s.projectId == t.projectId && s.revisionNumber == t.revisionNumber && s.name == t.name
    && SameJson(s.comment, t.comment) && SameJson(s.authorSnapshot, t.authorSnapshot)
    && s.createdAt == t.createdAt && s.sourceDraftVersion == t.sourceDraftVersion
    && s.calculationRunId == t.calculationRunId && s.inputFingerprint == t.inputFingerprint
    && s.engineVersion == t.engineVersion
    && SameJson(s.catalogSnapshot, t.catalogSnapshot) && SameJson(s.ruleSnapshot, t.ruleSnapshot)
    && s.approvalReady == t.approvalReady && SameJson(s.warningSummary, t.warningSummary)
    && SameJson(d.snapshot.project, e.snapshot.project)
    && SameJson(d.snapshot.calculationInput, e.snapshot.calculationInput)
    && SameJson(d.snapshot.calculationResult, e.snapshot.calculationResult)
    && d.checksums == e.checksums
  }

  predicate WellFormedDetail(d: Detail) {
    && WellFormed(d.summary.comment) && WellFormed(d.summary.authorSnapshot)
    && WellFormed(d.summary.catalogSnapshot) && WellFormed(d.summary.ruleSnapshot)
    && WellFormed(d.summary.warningSummary)
    && WellFormed(d.snapshot.project) && WellFormed(d.snapshot.calculationInput)
    && WellFormed(d.snapshot.calculationResult)
  }
}
