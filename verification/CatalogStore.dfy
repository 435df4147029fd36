/** Catalog versions, their imports, reports and approvals, and the rule sets, rules and templates
    that are materialised from them. Every method of the repository is one transaction. */
module CatalogStore {
  import opened Wrappers
  import opened JsText
  import opened CanonicalJson
  import opened Tables

  type Id = nat

  type Hash = Text

  /** A normalised import: its products and other facts, and the codes of its rules and templates. */
  datatype Bundle = Bundle(facts: Json, ruleCodes: seq<Text>, templateCodes: seq<Text>)

  datatype Status = Draft | Validated | Approved | Active | Archived

  datatype Version = Version(
    scope: Text, version: Text, contentHash: Hash, status: Status,
    validatedHash: Option<Hash>, approvedHash: Option<Hash>, reportId: Option<Id>)

  datatype ImportStatus = DraftImport | ValidatedImport | InvalidImport | SupersededImport

  datatype Import = Import(versionId: Id, hash: Hash, bundle: Bundle, status: ImportStatus)

  datatype Report = Report(versionId: Id, importId: Id, hash: Hash, valid: bool)

  datatype Approval = Approval(versionId: Id, reportId: Id, hash: Hash)

  datatype Transition = Transition(versionId: Id, prior: Option<Status>, next: Status)

  datatype RuleSetStatus = DraftSet | ActiveSet | ArchivedSet

  datatype RuleSet = RuleSet(id: Id, versionId: Id, status: RuleSetStatus)

  datatype PartStatus = DraftPart | ActivePart | RetiredPart

  datatype Rule = Rule(ruleSetId: Id, code: Text, status: PartStatus)

  datatype Template = Template(versionId: Id, ruleSetId: Id, code: Text, status: PartStatus)

  /** `facts` are the product tables, by version; `nextRuleSet` is a rule set id never used. */
  datatype Catalog = Catalog(
    versions: seq<Version>,
    imports: seq<Import>,
    reports: seq<Report>,
    approvals: seq<Approval>,
    transitions: seq<Transition>,
    facts: map<Id, Json>,
    ruleSets: seq<RuleSet>,
    rules: seq<Rule>,
    templates: seq<Template>,
    nextRuleSet: Id)

  datatype Failure =
    | Immutable | NotFound | InvalidState | HashMismatch | ImportNotFound | ApprovalMismatch
    | ReportInvalid | DuplicateApproval | ActivationMismatch | ApprovalMissing

  type Outcome = Result<Id, Failure>

  // ---- queries --------------------------------------------------------------------------------------

  predicate Loadable(i: Import, versionId: Id) {
    i.versionId == versionId && i.status != SupersededImport
  }

  /** The import that validation reads: the newest that is not superseded. */
  function LoadDraft(c: Catalog, versionId: Id): Option<Bundle> {
    Newest(c.imports, versionId)
  }

  function Newest(imports: seq<Import>, versionId: Id): Option<Bundle> {
    if |imports| == 0 then None
    else
      var last := imports[|imports| - 1];
      if Loadable(last, versionId) then Some(last.bundle) else Newest(imports[..|imports| - 1], versionId)
  }

  predicate OwnRuleSet(ruleSets: seq<RuleSet>, ruleSetId: Id, versionId: Id) {
    exists i :: 0 <= i < |ruleSets| && ruleSets[i].id == ruleSetId && ruleSets[i].versionId == versionId
  }

  predicate OwnActiveRuleSet(ruleSets: seq<RuleSet>, ruleSetId: Id, versionId: Id) {
    exists i :: 0 <= i < |ruleSets| && ruleSets[i].id == ruleSetId && ruleSets[i].versionId == versionId
      && ruleSets[i].status == ActiveSet
  }

  // ---- importing ------------------------------------------------------------------------------------------

  /** New content replaces a draft's, a validated or an approved version's: nothing that was said
      about the old content is kept. */
  function Reset(v: Version, hash: Hash): Version {
    v.(contentHash := hash, status := Draft, validatedHash := None, approvedHash := None, reportId := None)
  }

  function Supersede(imports: seq<Import>, versionId: Id): seq<Import> {
    Update(imports, (i: Import) => i.versionId == versionId, (i: Import) => i.(status := SupersededImport))
  }

  /** The version with its content set to `hash`, and the status it had before, if it existed. */
  function WithContent(c: Catalog, scope: Text, version: Text, hash: Hash): Result<(Catalog, Id, Option<Status>), Failure> {
    var id := Find(c.versions, (v: Version) => v.scope == scope && v.version == version);
    if id == |c.versions| then
      Ok((c.(versions := c.versions + [Version(scope, version, hash, Draft, None, None, None)]), id, None))
    else
      var current := c.versions[id];
      if current.status == Active || current.status == Archived then Err(Immutable)
      else if current.contentHash == hash then Ok((c, id, Some(current.status)))
      else
        Ok((c.(versions := c.versions[id := Reset(current, hash)], imports := Supersede(c.imports, id)),
            id, Some(current.status)))
  }

  function AfterSaveDraft(c: Catalog, scope: Text, version: Text, bundle: Bundle, hash: Hash): (Catalog, Outcome) {
    match WithContent(c, scope, version, hash)
    case Err(failure) => (c, Err(failure))
    case Ok((r, id, prior)) =>
      if Find(r.imports, (i: Import) => i.versionId == id && i.hash == hash) < |r.imports| then (r, Ok(id))
      else
        (r.(imports := r.imports + [Import(id, hash, bundle, DraftImport)],
            transitions := r.transitions + [Transition(id, prior, Draft)]),
         Ok(id))
  }

  // ---- validating -------------------------------------------------------------------------------------------

  /** The rules of other versions. */
  function OtherRules(rules: seq<Rule>, ruleSets: seq<RuleSet>, versionId: Id): seq<Rule> {
    Keep(rules, (r: Rule) => !OwnRuleSet(ruleSets, r.ruleSetId, versionId))
  }

  /** The tables without what was materialised for the version. */
  function Cleared(c: Catalog, versionId: Id): Catalog {
    c.(templates := Keep(c.templates, (t: Template) => t.versionId != versionId),
       rules := OtherRules(c.rules, c.ruleSets, versionId),
       ruleSets := Keep(c.ruleSets, (s: RuleSet) => s.versionId != versionId),
       facts := c.facts - {versionId})
  }

  function NewRules(ruleSetId: Id, codes: seq<Text>): (r: seq<Rule>)
    ensures |r| == |codes| && forall i :: 0 <= i < |codes| ==> r[i] == Rule(ruleSetId, codes[i], DraftPart)
  {
    seq(|codes|, i requires 0 <= i < |codes| => Rule(ruleSetId, codes[i], DraftPart))
  }

  function NewTemplates(versionId: Id, ruleSetId: Id, codes: seq<Text>): (r: seq<Template>)
    ensures |r| == |codes| && forall i :: 0 <= i < |codes| ==> r[i] == Template(versionId, ruleSetId, codes[i], DraftPart)
  {
    seq(|codes|, i requires 0 <= i < |codes| => Template(versionId, ruleSetId, codes[i], DraftPart))
  }

  function Materialised(c: Catalog, versionId: Id, bundle: Bundle): Catalog {
    var cleared, ruleSetId := Cleared(c, versionId), c.nextRuleSet;
    cleared.(facts := cleared.facts[versionId := bundle.facts],
             ruleSets := cleared.ruleSets + [RuleSet(ruleSetId, versionId, DraftSet)],
             rules := cleared.rules + NewRules(ruleSetId, bundle.ruleCodes),
             templates := cleared.templates + NewTemplates(versionId, ruleSetId, bundle.templateCodes),
             nextRuleSet := ruleSetId + 1)
  }

  function ImportOf(c: Catalog, versionId: Id, hash: Hash): (i: nat)
    ensures i <= |c.imports|
  {
    Find(c.imports, (i: Import) => i.versionId == versionId && i.hash == hash)
  }

  function ReportOf(c: Catalog, importId: Id, hash: Hash): (i: nat)
    ensures i <= |c.reports|
  {
    Find(c.reports, (r: Report) => r.importId == importId && r.hash == hash)
  }

  /** Reports are kept: the first one for an import stays the only one. */
  function WithReport(c: Catalog, versionId: Id, importId: Id, hash: Hash, valid: bool): Catalog {
    if ReportOf(c, importId, hash) < |c.reports| then c
    else c.(reports := c.reports + [Report(versionId, importId, hash, valid)])
  }

  function AfterValidation(c: Catalog, id: Id, bundle: Bundle, hash: Hash, valid: bool): (Catalog, Outcome) {
    if id >= |c.versions| then (c, Err(NotFound))
    else
      var current := c.versions[id];
      var importId := ImportOf(c, id, hash);
      if current.status != Draft && current.status != Validated then (c, Err(InvalidState))
      else if current.contentHash != hash then (c, Err(HashMismatch))
      else if importId == |c.imports| then (c, Err(ImportNotFound))
      else
        var reported := WithReport(c, id, importId, hash, valid);
        var reportId := ReportOf(c, importId, hash);
        var noted := reported.(imports := reported.imports[importId :=
          reported.imports[importId].(status := if valid then ValidatedImport else InvalidImport)]);
        if valid && current.status == Draft then
          var m := Materialised(noted, id, bundle);
          (m.(versions := m.versions[id := current.(status := Validated, validatedHash := Some(current.contentHash),
                                                     reportId := Some(reportId))],
              transitions := m.transitions + [Transition(id, Some(Draft), Validated)]),
           Ok(id))
        else (noted, Ok(id))
  }

  // ---- approving, activating, archiving -----------------------------------------------------------------------

  function AfterApprove(c: Catalog, id: Id, hash: Hash): (Catalog, Outcome) {
    if id >= |c.versions| then (c, Err(NotFound))
    else
      var current := c.versions[id];
      if current.status == Approved && current.contentHash == hash then (c, Ok(id))
      else if
        || current.status != Validated || current.validatedHash != Some(hash)
        || current.contentHash != hash || current.reportId.None?
      then (c, Err(ApprovalMismatch))
      else if current.reportId.value >= |c.reports| || !c.reports[current.reportId.value].valid then (c, Err(ReportInvalid))
      else if Find(c.approvals, (a: Approval) => a.versionId == id && a.hash == hash) < |c.approvals| then
        (c, Err(DuplicateApproval))
      else
        (c.(approvals := c.approvals + [Approval(id, current.reportId.value, hash)],
            versions := c.versions[id := current.(status := Approved, approvedHash := Some(current.contentHash))],
            transitions := c.transitions + [Transition(id, Some(Validated), Approved)]),
         Ok(id))
  }

  function RetireRules(rules: seq<Rule>, ruleSets: seq<RuleSet>, versionId: Id): seq<Rule> {
    Update(rules, (r: Rule) => OwnActiveRuleSet(ruleSets, r.ruleSetId, versionId), (r: Rule) => r.(status := RetiredPart))
  }

  function ActivateRules(rules: seq<Rule>, ruleSets: seq<RuleSet>, versionId: Id): seq<Rule> {
    Update(rules, (r: Rule) => OwnRuleSet(ruleSets, r.ruleSetId, versionId), (r: Rule) => r.(status := ActivePart))
  }

  /** An active version is archived: its rules are retired, then its templates, then its rule sets
      archived. */
  function ArchiveRows(c: Catalog, id: Id): Catalog
    requires id < |c.versions|
  {
    c.(versions := c.versions[id := c.versions[id].(status := Archived)],
       transitions := c.transitions + [Transition(id, Some(Active), Archived)],
       rules := RetireRules(c.rules, c.ruleSets, id),
       templates := Update(c.templates, (t: Template) => t.versionId == id && t.status == ActivePart,
         (t: Template) => t.(status := RetiredPart)),
       ruleSets := Update(c.ruleSets, (s: RuleSet) => s.versionId == id && s.status == ActiveSet,
         (s: RuleSet) => s.(status := ArchivedSet)))
  }

  predicate Replaced(v: Version, scope: Text) {
    v.scope == scope && v.status == Active
  }

  /** The versions below `n` that are active in the scope, other than `id`, are archived. */
  function ArchiveOthers(c: Catalog, id: Id, scope: Text, n: nat): (r: Catalog)
    requires n <= |c.versions|
    ensures |r.versions| == |c.versions|
  {
    if n == 0 then c
    else
      var rest := ArchiveOthers(c, id, scope, n - 1);
      if n - 1 != id && Replaced(c.versions[n - 1], scope) then ArchiveRows(rest, n - 1) else rest
  }

  function ActivateRows(c: Catalog, id: Id): Catalog
    requires id < |c.versions|
  {
    c.(ruleSets := Update(c.ruleSets, (s: RuleSet) => s.versionId == id, (s: RuleSet) => s.(status := ActiveSet)),
       rules := ActivateRules(c.rules, c.ruleSets, id),
       templates := Update(c.templates, (t: Template) => t.versionId == id, (t: Template) => t.(status := ActivePart)),
       versions := c.versions[id := c.versions[id].(status := Active)],
       transitions := c.transitions + [Transition(id, Some(Approved), Active)])
  }

  function AfterActivate(c: Catalog, id: Id, hash: Hash): (Catalog, Outcome) {
    if id >= |c.versions| then (c, Err(NotFound))
    else
      var current := c.versions[id];
      if current.status == Active && current.contentHash == hash then (c, Ok(id))
      else if current.status != Approved || current.contentHash != hash || current.approvedHash != Some(hash) then
        (c, Err(ActivationMismatch))
      else if Find(c.approvals, (a: Approval) => a.versionId == id && a.hash == hash) == |c.approvals| then
        (c, Err(ApprovalMissing))
      else (ActivateRows(ArchiveOthers(c, id, current.scope, |c.versions|), id), Ok(id))
  }

  function AfterArchive(c: Catalog, id: Id): (Catalog, Outcome) {
    if id >= |c.versions| || c.versions[id].status != Active then (c, Err(InvalidState))
    else (ArchiveRows(c, id), Ok(id))
  }
}
