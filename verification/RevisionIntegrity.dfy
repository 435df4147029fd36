/** Saved revisions as they are stored and loaded: after any run each of them carries checksums that
    verify, and nothing they cover can be altered unnoticed. */
module RevisionIntegrity {
  import opened Wrappers
  import opened JsText
  import opened CanonicalJson
  import opened CanonicalTheorems
  import opened ProjectStore
  import opened ProjectRuns
  import opened ProjectProvenance
  import opened RevisionLifecycle
  import Fingerprint
  import FingerprintTheorems
  import Sorting
  import RevisionEvidence
  import EvidenceTheorems

  // ---- revisions as JSON -----------------------------------------------------------------------------------

  /** How the columns and documents of a revision are written. */
  datatype Encoding = Encoding(
    id: Id -> Text,
    time: Time -> Text,
    author: Actor -> Json,
    project: ProjectSnapshot -> Json,
    input: CalculationInput -> Json,
    result: CalculationResult -> Json)

  function ImpactText(impact: Impact): string {
    match impact
    case NoImpact => "none"
    case ReviewRequired => "reviewRequired"
    case BlocksApproval => "blocksApproval"
  }

  function StatusText(status: Status): string {
    match status
    case Calculated => "calculated"
    case Checked => "checked"
    case Approved => "approved"
    case Archived => "archived"
  }

  function ReferenceJson(e: Encoding, r: Reference): Json {
    Obj([
      Field(Lit("snapshotId"), Str(e.id(r.snapshotId))),
      Field(Lit("version"), Str(r.version)),
      Field(Lit("contentHash"), Str(r.contentHash))])
  }

  function SummaryJson(s: WarningSummary): Json {
    Obj([
      Field(Lit("totalCount"), Num(s.total)),
      Field(Lit("blocksApprovalCount"), Num(s.blocks)),
      Field(Lit("reviewRequiredCount"), Num(s.review))])
  }

  function TimeText(e: Encoding, at: Option<Time>): Option<Text> {
    if at.None? then None else Some(e.time(at.value))
  }

  /** What the checksums of a revision are computed from when it is saved. */
  function SaveInputOf(e: Encoding, id: Id, projectId: Id, number: nat, p: Payload): RevisionEvidence.SaveInput {
    RevisionEvidence.SaveInput(
      e.id(id), e.id(projectId), number, p.name, Str(p.comment), e.id(p.author.id), e.author(p.author),
      e.time(p.createdAt), p.sourceDraftVersion, e.id(p.calculationRunId), p.fingerprint, p.engineVersion,
      e.project(p.project), e.input(p.input), e.result(p.result))
  }

  /** A revision as it is loaded from its row, with the checksums that are stored there. */
  function Loaded(e: Encoding, s: Store, id: Id): RevisionEvidence.Detail
    requires HasPayload(s, id) && s.revisions[id].checksums.Some?
  {
    var row := s.revisions[id];
    var p := row.payload.value;
    RevisionEvidence.Detail(
      RevisionEvidence.Summary(
        e.id(id), e.id(row.projectId), row.number, p.name, Str(p.comment), e.id(p.author.id), e.author(p.author),
        e.time(p.createdAt), Lit(StatusText(row.status)), p.fingerprint, p.engineVersion, e.id(p.calculationRunId),
        p.sourceDraftVersion, ReferenceJson(e, p.catalog), ReferenceJson(e, p.rules),
        TimeText(e, row.checkedAt), TimeText(e, row.approvedAt), p.approvalReady, SummaryJson(p.warningSummary),
        row.number == LatestNumber(s.revisions, row.projectId)),
      RevisionEvidence.Snapshot(e.project(p.project), e.input(p.input), e.result(p.result)),
      row.checksums.value)
  }

  // ---- what the schemas promise about the JSON --------------------------------------------------------------

  ghost predicate FaithfulInput(e: Encoding, i: CalculationInput) {
    && WellFormed(e.input(i))
    && SameJson(RevisionEvidence.Get(e.input(i), "catalogSnapshot"), ReferenceJson(e, i.catalog))
    && SameJson(RevisionEvidence.Get(e.input(i), "ruleSnapshot"), ReferenceJson(e, i.rules))
  }

  /** The items are these warnings, as far as their impact goes. */
  ghost predicate WarningsWritten(items: seq<Json>, warnings: seq<Warning>) {
    && |items| == |warnings|
    && forall k :: 0 <= k < |items| ==>
         RevisionEvidence.Get(items[k], "approvalImpact") == Str(Lit(ImpactText(warnings[k].impact)))
  }

  ghost predicate FaithfulResult(e: Encoding, r: CalculationResult) {
    && WellFormed(e.result(r))
    && RevisionEvidence.Get(e.result(r), "inputFingerprint") == Str(r.fingerprint)
    && RevisionEvidence.ApprovalReady(e.result(r)) == r.approvalReady
    && RevisionEvidence.Get(e.result(r), "warnings").Arr?
    && WarningsWritten(RevisionEvidence.Get(e.result(r), "warnings").items, r.warnings)
  }

  ghost predicate Faithful(e: Encoding) {
    && (forall a: Actor :: WellFormed(e.author(a)))
    && (forall p: ProjectSnapshot :: WellFormed(e.project(p)))
    && (forall i: CalculationInput :: FaithfulInput(e, i))
    && (forall r: CalculationResult :: FaithfulResult(e, r))
  }

  /** The checksums that a save stores are those that `RevisionEvidence` computes. */
  ghost predicate Seals(w: World, e: Encoding, sha: Text -> Text) {
    forall projectId: Id, number: nat, p: Payload ::
      w.checksums(projectId, number, p) == RevisionEvidence.Save(SaveInputOf(e, 0, projectId, number, p), sha).checksums
  }

  // ---- stored checksums ---------------------------------------------------------------------------------------

  /** The row's checksums are those of its content. */
  predicate Sealed(w: World, row: Revision) {
    row.payload.Some? ==> row.checksums == Some(w.checksums(row.projectId, row.number, row.payload.value))
  }

  predicate AllSealed(w: World, s: Store) {
    forall i :: 0 <= i < |s.revisions| ==> Sealed(w, s.revisions[i])
  }

  lemma StepKeepsSeals(s: Store, w: World, step: Step)
    requires Enabled(s, step) && AllSealed(w, s)
    ensures AllSealed(w, After(s, w, step))
  {
    var r := After(s, w, step).revisions;
    StepChanges(s, w, step);
    forall i: nat | i < |r| ensures Sealed(w, r[i]) {
      if i < |s.revisions| {
        assert Sealed(w, s.revisions[i]);
        RowMoves(s, w, step, i);
      }
    }
  }

  lemma {:induction false} RunKeepsSeals(s: Store, w: World, steps: seq<Step>)
    requires AllSealed(w, s) && Run(s, w, steps)
    ensures AllSealed(w, End(s, w, steps))
    decreases |steps|
  {
    if |steps| > 0 {
      StepKeepsSeals(s, w, steps[0]);
      RunKeepsSeals(After(s, w, steps[0]), w, steps[1..]);
    }
  }

  // ---- the JSON that is saved and the JSON that is loaded -------------------------------------------------------

  lemma {:induction false} CountsAgree(items: seq<Json>, warnings: seq<Warning>, impact: Impact)
    requires WarningsWritten(items, warnings) && impact != NoImpact
    ensures RevisionEvidence.CountImpact(items, ImpactText(impact)) == CountImpact(warnings, impact)
    decreases |items|
  {
    if |items| > 0 {
      var n := |items| - 1;
      CountsAgree(items[..n], warnings[..n], impact);
      CountLast(items, ImpactText(impact));
      ImpactsDiffer(warnings[n].impact, impact);
    }
  }

  lemma ImpactsDiffer(a: Impact, b: Impact)
    requires b != NoImpact
    ensures Lit(ImpactText(a)) == Lit(ImpactText(b)) <==> a == b
  {
    assert Lit("none")[0] == UnitOf('n') && Lit("reviewRequired")[0] == UnitOf('r') && Lit("blocksApproval")[0] == UnitOf('b');
  }

  lemma {:induction false} CountLast(items: seq<Json>, impact: string)
    requires |items| > 0
    ensures var n := |items| - 1;
      RevisionEvidence.CountImpact(items, impact)
        == RevisionEvidence.CountImpact(items[..n], impact)
           + if RevisionEvidence.Get(items[n], "approvalImpact") == Str(Lit(impact)) then 1 else 0
    decreases |items|
  {
    if |items| > 1 {
      CountLast(items[1..], impact);
      assert items[1..][..|items| - 2] == items[..|items| - 1][1..];
    }
  }

  lemma SummaryIsWritten(e: Encoding, r: CalculationResult)
    requires FaithfulResult(e, r)
    ensures RevisionEvidence.WarningSummary(e.result(r)) == SummaryJson(Summary(r.warnings))
  {
    var items := RevisionEvidence.Get(e.result(r), "warnings").items;
    CountsAgree(items, r.warnings, BlocksApproval);
    CountsAgree(items, r.warnings, ReviewRequired);
  }

  lemma ReferenceParts(e: Encoding, r: Reference)
    ensures WellFormed(ReferenceJson(e, r))
    ensures RevisionEvidence.Get(ReferenceJson(e, r), "snapshotId") == Str(e.id(r.snapshotId))
    ensures RevisionEvidence.Get(ReferenceJson(e, r), "version") == Str(r.version)
    ensures RevisionEvidence.Get(ReferenceJson(e, r), "contentHash") == Str(r.contentHash)
  {
    assert |Lit("snapshotId")| == 10 && |Lit("version")| == 7 && |Lit("contentHash")| == 11;
    var f := ReferenceJson(e, r).fields;
    LookupOfThree(f[0], f[1], f[2]);
  }

  lemma LookupOfThree(a: Field, b: Field, c: Field)
    requires a.key != b.key && a.key != c.key && b.key != c.key
    ensures Fingerprint.Lookup([a, b, c], a.key) == Some(a.value)
    ensures Fingerprint.Lookup([a, b, c], b.key) == Some(b.value)
    ensures Fingerprint.Lookup([a, b, c], c.key) == Some(c.value)
  {
    assert [a, b, c][1..] == [b, c] && [b, c][1..] == [c];
    assert Fingerprint.Lookup([c], c.key) == Some(c.value);
    assert Fingerprint.Lookup([b, c], c.key) == Some(c.value);
  }

  /** A reference that is split into its columns and put together again is the one that was written. */
  lemma ReferenceIsWritten(e: Encoding, v: Json, r: Reference)
    requires WellFormed(v) && SameJson(v, ReferenceJson(e, r))
    ensures RevisionEvidence.ReferenceColumns(v) == ReferenceJson(e, r)
  {
    ReferenceParts(e, r);
    EvidenceTheorems.GetSame(v, ReferenceJson(e, r), "snapshotId");
    EvidenceTheorems.GetSame(v, ReferenceJson(e, r), "version");
    EvidenceTheorems.GetSame(v, ReferenceJson(e, r), "contentHash");
  }

  // ---- main results -------------------------------------------------------------------------------------------------

  lemma InputIsSaveable(w: World, e: Encoding, id: Id, projectId: Id, number: nat, p: Payload)
    requires Faithful(e) && WellBehaved(w) && PayloadOk(w, projectId, p)
    ensures EvidenceTheorems.Saveable(SaveInputOf(e, id, projectId, number, p))
    ensures RevisionEvidence.ReferenceColumns(RevisionEvidence.Get(e.input(p.input), "catalogSnapshot")) == ReferenceJson(e, p.catalog)
    ensures RevisionEvidence.ReferenceColumns(RevisionEvidence.Get(e.input(p.input), "ruleSnapshot")) == ReferenceJson(e, p.rules)
  {
    assert FaithfulInput(e, p.input) && FaithfulResult(e, p.result);
    assert p.result.fingerprint == p.fingerprint;
    EvidenceTheorems.GetWellFormed(e.input(p.input), "catalogSnapshot");
    EvidenceTheorems.GetWellFormed(e.input(p.input), "ruleSnapshot");
    assert p.input.catalog == p.catalog && p.input.rules == p.rules;
    ReferenceIsWritten(e, RevisionEvidence.Get(e.input(p.input), "catalogSnapshot"), p.catalog);
    ReferenceIsWritten(e, RevisionEvidence.Get(e.input(p.input), "ruleSnapshot"), p.rules);
  }

  /** The checksums do not cover the revision's own id. */
  lemma IdIsNotCovered(e: Encoding, id: Id, projectId: Id, number: nat, p: Payload, sha: Text -> Text)
    ensures RevisionEvidence.Save(SaveInputOf(e, id, projectId, number, p), sha).checksums
         == RevisionEvidence.Save(SaveInputOf(e, 0, projectId, number, p), sha).checksums
  {
  }

  /** What is loaded is what was saved, in what the evidence covers, however far the revision has
      advanced since. */
  lemma LoadedAsSaved(w: World, e: Encoding, sha: Text -> Text, s: Store, id: Id)
    requires Faithful(e) && WellBehaved(w) && Seals(w, e, sha)
    requires HasPayload(s, id) && Sealed(w, s.revisions[id])
    requires PayloadOk(w, s.revisions[id].projectId, s.revisions[id].payload.value)
    ensures var row := s.revisions[id];
      var x := SaveInputOf(e, id, row.projectId, row.number, row.payload.value);
      && EvidenceTheorems.Saveable(x)
      && RevisionEvidence.SameEvidence(RevisionEvidence.Save(x, sha), Loaded(e, s, id))
      && RevisionEvidence.WellFormedDetail(Loaded(e, s, id))
  {
    var row := s.revisions[id];
    var p := row.payload.value;
    var x := SaveInputOf(e, id, row.projectId, row.number, p);
    InputIsSaveable(w, e, id, row.projectId, row.number, p);
    IdIsNotCovered(e, id, row.projectId, row.number, p, sha);
    SummaryIsWritten(e, p.result);
    ReferenceParts(e, p.catalog);
    ReferenceParts(e, p.rules);
    EvidenceTheorems.SavedWellFormed(x, sha);
    SameEvidenceAsItself(RevisionEvidence.Save(x, sha), Loaded(e, s, id));
  }

  /** Details that agree in all that is covered. */
  lemma SameEvidenceAsItself(d: RevisionEvidence.Detail, e: RevisionEvidence.Detail)
    requires RevisionEvidence.WellFormedDetail(d)
    requires d.snapshot == e.snapshot && d.checksums == e.checksums
    requires e.summary == d.summary.(status := e.summary.status, checkedAt := e.summary.checkedAt,
                                     approvedAt := e.summary.approvedAt, isLatest := e.summary.isLatest)
    ensures RevisionEvidence.SameEvidence(d, e)
  {
    CanonicalIff(d.summary.comment, d.summary.comment);
    CanonicalIff(d.summary.authorSnapshot, d.summary.authorSnapshot);
    CanonicalIff(d.summary.catalogSnapshot, d.summary.catalogSnapshot);
    CanonicalIff(d.summary.ruleSnapshot, d.summary.ruleSnapshot);
    CanonicalIff(d.summary.warningSummary, d.summary.warningSummary);
    CanonicalIff(d.snapshot.project, d.snapshot.project);
    CanonicalIff(d.snapshot.calculationInput, d.snapshot.calculationInput);
    CanonicalIff(d.snapshot.calculationResult, d.snapshot.calculationResult);
  }

  /** After any run, every saved revision verifies as it is stored, before and after it is checked,
      approved or superseded; and of all that could be loaded under its revision checksum, exactly
      what holds the same evidence verifies. */
  lemma SavedRevisionsVerify(s: Store, w: World, steps: seq<Step>, e: Encoding, sha: Text -> Text, id: Id)
    requires Initial(s) && Run(s, w, steps) && WellBehaved(w)
    requires Faithful(e) && Seals(w, e, sha) && FingerprintTheorems.Injective(sha)
    requires HasPayload(End(s, w, steps), id)
    ensures End(s, w, steps).revisions[id].checksums.Some?
    ensures var d := Loaded(e, End(s, w, steps), id);
      && RevisionEvidence.Verifies(d, sha)
      && forall other :: RevisionEvidence.WellFormedDetail(other) && other.checksums.revision == d.checksums.revision ==>
           (RevisionEvidence.Verifies(other, sha) <==> RevisionEvidence.SameEvidence(d, other))
  {
    RunKeepsSeals(s, w, steps);
    RevisionsHaveProvenance(s, w, steps, id);
    var end := End(s, w, steps);
    var row := end.revisions[id];
    assert Sealed(w, row);
    LoadedAsSaved(w, e, sha, end, id);
    var x, d := SaveInputOf(e, id, row.projectId, row.number, row.payload.value), Loaded(e, end, id);
    EvidenceTheorems.SaveVerifyAgreement(x, d, sha);
    forall other | RevisionEvidence.WellFormedDetail(other) && other.checksums.revision == d.checksums.revision
      ensures RevisionEvidence.Verifies(other, sha) <==> RevisionEvidence.SameEvidence(d, other)
    {
      EvidenceTheorems.VerifiesIff(d, other, sha);
    }
  }

  /** What a reader of a saved revision is shown, by name: the payload's own values, as they are written,
      and the row's number, status and times. */
  lemma LoadedMeaning(e: Encoding, s: Store, id: Id)
    requires HasPayload(s, id) && s.revisions[id].checksums.Some?
    ensures var d, row, p := Loaded(e, s, id), s.revisions[id], s.revisions[id].payload.value;
      && d.summary.name == p.name && d.summary.comment == Str(p.comment) && d.summary.authorSnapshot == e.author(p.author)
      && d.summary.projectId == e.id(row.projectId) && d.summary.revisionNumber == row.number
      && d.summary.createdAt == e.time(p.createdAt) && d.summary.sourceDraftVersion == p.sourceDraftVersion
      && d.summary.calculationRunId == e.id(p.calculationRunId) && d.summary.inputFingerprint == p.fingerprint
      && d.summary.engineVersion == p.engineVersion && d.summary.approvalReady == p.approvalReady
      && (d.summary.checkedAt.Some? <==> row.checkedAt.Some?) && (d.summary.approvedAt.Some? <==> row.approvedAt.Some?)
      && d.snapshot.project == e.project(p.project) && d.snapshot.calculationInput == e.input(p.input)
      && d.snapshot.calculationResult == e.result(p.result) && Some(d.checksums) == row.checksums
  {
  }

  /** Compiled inputs are well-formed, and fingerprinted with the engine's version in front. */
  ghost predicate Fingerprints(w: World, engineVersion: Text, le: (Text, Text) -> bool, sha: Text -> Text) {
    && (forall source :: w.compile(source).Some? ==> WellFormed(w.compile(source).value))
    && forall parts :: w.fingerprint(parts) == Fingerprint.CalculationFingerprint(engineVersion, parts, le, sha)
  }

  lemma SavedParts(w: World, projectId: Id, p: Payload, engineVersion: Text, le: (Text, Text) -> bool, sha: Text -> Text)
    requires Fingerprints(w, engineVersion, le, sha) && PayloadOk(w, projectId, p)
    ensures WellFormed(p.input.parts)
    ensures p.fingerprint == Fingerprint.CalculationFingerprint(engineVersion, p.input.parts, le, sha)
  {
  }

  /** Two revisions that any run has saved carry the same fingerprint exactly when their inputs mean
      the same calculation, in whatever projects and under whatever runs they were calculated. */
  lemma SameFingerprintSameMeaning(
      s: Store, w: World, steps: seq<Step>, a: Id, b: Id,
      engineVersion: Text, le: (Text, Text) -> bool, sha: Text -> Text)
    requires Initial(s) && Run(s, w, steps) && Fingerprints(w, engineVersion, le, sha)
    requires Sorting.TotalPreorder(le) && FingerprintTheorems.Injective(sha)
    requires HasPayload(End(s, w, steps), a) && HasPayload(End(s, w, steps), b)
    ensures var p, q := End(s, w, steps).revisions[a].payload.value, End(s, w, steps).revisions[b].payload.value;
      p.fingerprint == q.fingerprint <==> Fingerprint.SameMeaning(p.input.parts, q.input.parts, None, le)
  {
    RevisionsHaveProvenance(s, w, steps, a);
    RevisionsHaveProvenance(s, w, steps, b);
    var p, q := End(s, w, steps).revisions[a], End(s, w, steps).revisions[b];
    SavedParts(w, p.projectId, p.payload.value, engineVersion, le, sha);
    SavedParts(w, q.projectId, q.payload.value, engineVersion, le, sha);
    FingerprintTheorems.FingerprintIff(engineVersion, p.payload.value.input.parts, q.payload.value.input.parts, le, sha);
  }
}
