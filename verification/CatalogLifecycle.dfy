/** What every transaction of catalog administration keeps, and what it cannot undo. */
module CatalogLifecycle {
  import opened Wrappers
  import opened JsText
  import opened Tables
  import opened CatalogStore

  datatype Step =
    | SaveDraftStep(scope: Text, version: Text, bundle: Bundle)
    | ValidateStep(id: Id, bundle: Bundle, valid: bool)
    | ApproveStep(id: Id, hash: Hash)
    | ActivateStep(id: Id, hash: Hash)
    | ArchiveStep(id: Id)

  /** `hashOf` gives the content hash of a bundle. A validation may report anything: it also depends
      on the catalog that was active when it ran. */
  function Effect(c: Catalog, hashOf: Bundle -> Hash, step: Step): (Catalog, Outcome) {
    match step
    case SaveDraftStep(scope, version, bundle) => AfterSaveDraft(c, scope, version, bundle, hashOf(bundle))
    case ValidateStep(id, bundle, valid) => AfterValidation(c, id, bundle, hashOf(bundle), valid)
    case ApproveStep(id, hash) => AfterApprove(c, id, hash)
    case ActivateStep(id, hash) => AfterActivate(c, id, hash)
    case ArchiveStep(id) => AfterArchive(c, id)
  }

  function After(c: Catalog, hashOf: Bundle -> Hash, step: Step): Catalog {
    Effect(c, hashOf, step).0
  }

  function AfterAll(c: Catalog, hashOf: Bundle -> Hash, steps: seq<Step>): Catalog
    decreases |steps|
  {
    if |steps| == 0 then c else AfterAll(After(c, hashOf, steps[0]), hashOf, steps[1..])
  }

  const EMPTY := Catalog([], [], [], [], [], map[], [], [], [], 0)

  // ---- hashes, reports and approvals ---------------------------------------------------------------------

  predicate ApprovedAs(c: Catalog, id: Id, hash: Hash) {
    exists a :: 0 <= a < |c.approvals| && c.approvals[a].versionId == id && c.approvals[a].hash == hash
  }

  /** A version past its draft was validated as it is, by a report on that content; past that, its
      report is valid and there is an approval of exactly that hash. */
  predicate HashesOk(c: Catalog, id: Id)
    requires id < |c.versions|
  {
    var v := c.versions[id];
    && (v.status != Draft ==>
          && v.validatedHash == Some(v.contentHash)
          && v.reportId.Some? && v.reportId.value < |c.reports|
          && c.reports[v.reportId.value].versionId == id && c.reports[v.reportId.value].hash == v.contentHash)
    && (v.status != Draft && v.status != Validated ==>
          && c.reports[v.reportId.value].valid
          && v.approvedHash == Some(v.contentHash) && ApprovedAs(c, id, v.contentHash))
  }

  predicate ReportsOk(c: Catalog) {
    && (forall r :: 0 <= r < |c.reports| ==>
          && c.reports[r].importId < |c.imports|
          && c.reports[r].versionId == c.imports[c.reports[r].importId].versionId
          && c.reports[r].hash == c.imports[c.reports[r].importId].hash)
    && (forall i :: 0 <= i < |c.imports| ==> c.imports[i].versionId < |c.versions|)
    && (forall i, j :: 0 <= i < j < |c.imports| ==>
          c.imports[i].versionId != c.imports[j].versionId || c.imports[i].hash != c.imports[j].hash)
    && (forall i, j :: 0 <= i < j < |c.reports| ==> c.reports[i].importId != c.reports[j].importId)
  }

  predicate Evidence(c: Catalog) {
    ReportsOk(c) && forall id: nat :: id < |c.versions| ==> HashesOk(c, id)
  }

  lemma NewImportKeepsReports(c: Catalog, added: Import)
    requires ReportsOk(c) && added.versionId < |c.versions|
    requires forall i :: 0 <= i < |c.imports| ==> c.imports[i].versionId != added.versionId || c.imports[i].hash != added.hash
    ensures ReportsOk(c.(imports := c.imports + [added], transitions := []))
  {
  }

  /** Which version an import is for, and its hash, are fixed. */
  predicate SameImports(a: seq<Import>, b: seq<Import>) {
    && |a| == |b|
    && forall i :: 0 <= i < |a| ==>
         a[i].versionId == b[i].versionId && a[i].hash == b[i].hash && a[i].bundle == b[i].bundle
  }

  lemma SameImportsKeepReports(c: Catalog, r: Catalog)
    requires ReportsOk(c) && SameImports(c.imports, r.imports) && r.reports == c.reports && |c.versions| <= |r.versions|
    ensures ReportsOk(r)
  {
  }

  lemma WithContentKeepsReports(c: Catalog, scope: Text, version: Text, hash: Hash)
    requires ReportsOk(c) && WithContent(c, scope, version, hash).Ok?
    ensures var (r, id, prior) := WithContent(c, scope, version, hash).value;
      ReportsOk(r) && id < |r.versions| && |r.versions| >= |c.versions| && SameImports(c.imports, r.imports)
  {
    var (r, id, prior) := WithContent(c, scope, version, hash).value;
    SameImportsKeepReports(c, r);
  }

  lemma SaveDraftKeepsReports(c: Catalog, scope: Text, version: Text, bundle: Bundle, hash: Hash)
    requires ReportsOk(c)
    ensures ReportsOk(AfterSaveDraft(c, scope, version, bundle, hash).0)
  {
    if WithContent(c, scope, version, hash).Ok? {
      var (r, id, prior) := WithContent(c, scope, version, hash).value;
      WithContentKeepsReports(c, scope, version, hash);
      var after := AfterSaveDraft(c, scope, version, bundle, hash).0;
      if after.imports != r.imports {
        NewImportKeepsReports(r, Import(id, hash, bundle, DraftImport));
        SameImportsKeepReports(r.(imports := after.imports, transitions := []), after);
      }
    }
  }

  lemma SaveDraftKeepsHashes(c: Catalog, scope: Text, version: Text, bundle: Bundle, hash: Hash, id: Id)
    requires forall i: nat :: i < |c.versions| ==> HashesOk(c, i)
    requires id < |AfterSaveDraft(c, scope, version, bundle, hash).0.versions|
    ensures HashesOk(AfterSaveDraft(c, scope, version, bundle, hash).0, id)
  {
    var r := AfterSaveDraft(c, scope, version, bundle, hash).0;
    assert r.reports == c.reports && r.approvals == c.approvals;
    if id < |c.versions| {
      assert HashesOk(c, id);
    }
  }

  lemma SaveDraftKeepsEvidence(c: Catalog, scope: Text, version: Text, bundle: Bundle, hash: Hash)
    requires Evidence(c)
    ensures Evidence(AfterSaveDraft(c, scope, version, bundle, hash).0)
  {
    SaveDraftKeepsReports(c, scope, version, bundle, hash);
    forall id: nat | id < |AfterSaveDraft(c, scope, version, bundle, hash).0.versions|
      ensures HashesOk(AfterSaveDraft(c, scope, version, bundle, hash).0, id)
    {
      SaveDraftKeepsHashes(c, scope, version, bundle, hash, id);
    }
  }

  lemma WithReportKeepsReports(c: Catalog, versionId: Id, importId: Id, hash: Hash, valid: bool)
    requires ReportsOk(c) && importId < |c.imports|
    requires c.imports[importId].versionId == versionId && c.imports[importId].hash == hash
    ensures var r := WithReport(c, versionId, importId, hash, valid);
      && ReportsOk(r) && c.reports <= r.reports
      && ReportOf(c, importId, hash) < |r.reports|
      && r.reports[ReportOf(c, importId, hash)].versionId == versionId
      && r.reports[ReportOf(c, importId, hash)].hash == hash
  {
  }

  /** The tables of imports, versions, reports and approvals after a validation. */
  lemma ValidationTables(c: Catalog, id: Id, bundle: Bundle, hash: Hash, valid: bool)
    requires ReportsOk(c) && AfterValidation(c, id, bundle, hash, valid).1.Ok?
    ensures id < |c.versions| && c.versions[id].contentHash == hash
    ensures c.versions[id].status == Draft || c.versions[id].status == Validated
    ensures var r := AfterValidation(c, id, bundle, hash, valid).0;
      && r.approvals == c.approvals && SameImports(c.imports, r.imports)
      && ImportOf(c, id, hash) < |c.imports|
      && r.reports == WithReport(c, id, ImportOf(c, id, hash), hash, valid).reports
      && r.versions
           == if valid && c.versions[id].status == Draft then
                c.versions[id := c.versions[id].(status := Validated, validatedHash := Some(hash),
                                                  reportId := Some(ReportOf(c, ImportOf(c, id, hash), hash)))]
              else c.versions
  {
  }

  lemma SameImportFound(c: Catalog, r: Catalog, id: Id, hash: Hash)
    requires SameImports(c.imports, r.imports)
    ensures ImportOf(r, id, hash) == ImportOf(c, id, hash)
  {
    var p := (i: Import) => i.versionId == id && i.hash == hash;
    assert forall k :: 0 <= k < |c.imports| ==> p(r.imports[k]) == p(c.imports[k]);
  }

  lemma ReportIsThere(c: Catalog, versionId: Id, importId: Id, hash: Hash, valid: bool)
    ensures var r := WithReport(c, versionId, importId, hash, valid); ReportOf(r, importId, hash) < |r.reports|
  {
    var r := WithReport(c, versionId, importId, hash, valid);
    if ReportOf(c, importId, hash) == |c.reports| {
      assert r.reports[|c.reports|] == Report(versionId, importId, hash, valid);
    }
  }

  /** Validating the same content twice, with the same verdict, is validating it once: the second
      validation is accepted and changes nothing, whatever the first one did to the version and its rows. */
  lemma ValidatingTwice(c: Catalog, id: Id, bundle: Bundle, hash: Hash, valid: bool)
    requires AfterValidation(c, id, bundle, hash, valid).1.Ok?
    ensures var r := AfterValidation(c, id, bundle, hash, valid).0;
      AfterValidation(r, id, bundle, hash, valid) == (r, Ok(id))
  {
    var r, importId := AfterValidation(c, id, bundle, hash, valid).0, ImportOf(c, id, hash);
    var status := if valid then ValidatedImport else InvalidImport;
    assert r.imports == c.imports[importId := c.imports[importId].(status := status)];
    SameImportFound(c, r, id, hash);
    ReportIsThere(c, id, importId, hash, valid);
    assert r.reports == WithReport(c, id, importId, hash, valid).reports;
    assert r.imports[importId := r.imports[importId].(status := status)] == r.imports;
  }

  lemma ValidationKeepsEvidence(c: Catalog, id: Id, bundle: Bundle, hash: Hash, valid: bool)
    requires Evidence(c)
    ensures Evidence(AfterValidation(c, id, bundle, hash, valid).0)
  {
    if AfterValidation(c, id, bundle, hash, valid).1.Ok? {
      var r := AfterValidation(c, id, bundle, hash, valid).0;
      ValidationTables(c, id, bundle, hash, valid);
      WithReportKeepsReports(c, id, ImportOf(c, id, hash), hash, valid);
      SameImportsKeepReports(WithReport(c, id, ImportOf(c, id, hash), hash, valid), r);
      forall i: nat | i < |r.versions| ensures HashesOk(r, i) {
        assert HashesOk(c, i);
      }
    }
  }

  lemma ApproveKeepsEvidence(c: Catalog, id: Id, hash: Hash)
    requires Evidence(c)
    ensures Evidence(AfterApprove(c, id, hash).0)
  {
    var r := AfterApprove(c, id, hash).0;
    assert c.approvals <= r.approvals;
    forall i: nat | i < |r.versions| ensures HashesOk(r, i) {
      assert HashesOk(c, i);
      if r != c && i == id {
        assert r.approvals[|c.approvals|].hash == hash;
      } else if ApprovedAs(c, i, c.versions[i].contentHash) {
        var a :| 0 <= a < |c.approvals| && c.approvals[a].versionId == i && c.approvals[a].hash == c.versions[i].contentHash;
        assert r.approvals[a] == c.approvals[a];
      }
    }
  }

  /** Only statuses differ, and the imports, reports and approvals not at all. */
  predicate OnlyStatuses(c: Catalog, r: Catalog) {
    && r.imports == c.imports && r.reports == c.reports && r.approvals == c.approvals && r.facts == c.facts
    && |r.versions| == |c.versions|
    && forall i :: 0 <= i < |c.versions| ==> r.versions[i] == c.versions[i].(status := r.versions[i].status)
  }

  /** What archiving the other active versions does to the versions. */
  lemma {:induction false} ArchiveOthersVersions(c: Catalog, id: Id, scope: Text, n: nat)
    requires n <= |c.versions|
    ensures var r := ArchiveOthers(c, id, scope, n);
      && OnlyStatuses(c, r)
      && forall i :: 0 <= i < |c.versions| ==>
           r.versions[i].status
             == if i < n && i != id && Replaced(c.versions[i], scope) then Archived else c.versions[i].status
    decreases n
  {
    if n > 0 {
      ArchiveOthersVersions(c, id, scope, n - 1);
    }
  }

  lemma ActivateVersions(c: Catalog, id: Id, hash: Hash)
    requires AfterActivate(c, id, hash).0 != c
    ensures var r := AfterActivate(c, id, hash).0;
      && id < |c.versions| && c.versions[id].status == Approved && c.versions[id].contentHash == hash
      && OnlyStatuses(c, r)
      && forall i :: 0 <= i < |c.versions| ==>
           r.versions[i].status
             == if i == id then Active
                else if Replaced(c.versions[i], c.versions[id].scope) then Archived else c.versions[i].status
  {
    ArchiveOthersVersions(c, id, c.versions[id].scope, |c.versions|);
  }

  lemma OnlyStatusesKeepEvidence(c: Catalog, r: Catalog)
    requires Evidence(c) && OnlyStatuses(c, r)
    requires forall i :: 0 <= i < |c.versions| && r.versions[i].status != c.versions[i].status ==>
      c.versions[i].status != Draft && c.versions[i].status != Validated && r.versions[i].status != Draft
    ensures Evidence(r)
  {
    forall i: nat | i < |r.versions| ensures HashesOk(r, i) {
      assert HashesOk(c, i);
    }
  }

  lemma StepKeepsEvidence(c: Catalog, hashOf: Bundle -> Hash, step: Step)
    requires Evidence(c)
    ensures Evidence(After(c, hashOf, step))
  {
    match step {
      case SaveDraftStep(scope, version, bundle) => SaveDraftKeepsEvidence(c, scope, version, bundle, hashOf(bundle));
      case ValidateStep(id, bundle, valid) => ValidationKeepsEvidence(c, id, bundle, hashOf(bundle), valid);
      case ApproveStep(id, hash) => ApproveKeepsEvidence(c, id, hash);
      case ActivateStep(id, hash) =>
        if AfterActivate(c, id, hash).0 != c {
          ActivateVersions(c, id, hash);
          OnlyStatusesKeepEvidence(c, AfterActivate(c, id, hash).0);
        }
      case ArchiveStep(id) => OnlyStatusesKeepEvidence(c, AfterArchive(c, id).0);
    }
  }

  // ---- one active version per scope -------------------------------------------------------------------------

  predicate OneActive(c: Catalog) {
    forall i, j :: 0 <= i < j < |c.versions| && c.versions[i].status == Active && c.versions[j].status == Active ==>
      c.versions[i].scope != c.versions[j].scope
  }

  /** No version becomes active. */
  predicate NoneActivated(c: Catalog, r: Catalog) {
    && |c.versions| <= |r.versions|
    && forall i :: 0 <= i < |r.versions| && r.versions[i].status == Active ==>
         i < |c.versions| && c.versions[i].status == Active && r.versions[i].scope == c.versions[i].scope
  }

  lemma NoneActivatedKeepsOne(c: Catalog, r: Catalog)
    requires OneActive(c) && NoneActivated(c, r)
    ensures OneActive(r)
  {
  }

  lemma ActivateKeepsOneActive(c: Catalog, id: Id, hash: Hash)
    requires OneActive(c)
    ensures OneActive(AfterActivate(c, id, hash).0)
  {
    if AfterActivate(c, id, hash).0 != c {
      ActivateVersions(c, id, hash);
    }
  }

  lemma SaveDraftActivatesNone(c: Catalog, scope: Text, version: Text, bundle: Bundle, hash: Hash)
    ensures NoneActivated(c, AfterSaveDraft(c, scope, version, bundle, hash).0)
  {
  }

  lemma StepKeepsOneActive(c: Catalog, hashOf: Bundle -> Hash, step: Step)
    requires OneActive(c)
    ensures OneActive(After(c, hashOf, step))
  {
    match step {
      case ActivateStep(id, hash) => ActivateKeepsOneActive(c, id, hash);
      case SaveDraftStep(scope, version, bundle) =>
        SaveDraftActivatesNone(c, scope, version, bundle, hashOf(bundle));
        NoneActivatedKeepsOne(c, After(c, hashOf, step));
      case _ => NoneActivatedKeepsOne(c, After(c, hashOf, step));
    }
  }

  // ---- content ---------------------------------------------------------------------------------------------------

  function RuleCodes(rules: seq<Rule>, ruleSetId: Id): seq<Text> {
    if |rules| == 0 then []
    else (if rules[0].ruleSetId == ruleSetId then [rules[0].code] else []) + RuleCodes(rules[1..], ruleSetId)
  }

  function TemplateCodes(templates: seq<Template>, versionId: Id): seq<Text> {
    if |templates| == 0 then []
    else (if templates[0].versionId == versionId then [templates[0].code] else []) + TemplateCodes(templates[1..], versionId)
  }

  /** The rule set is the version's own, and holds the bundle's rules. */
  predicate HoldsRules(rules: seq<Rule>, own: RuleSet, id: Id, bundle: Bundle) {
    own.versionId == id && RuleCodes(rules, own.id) == bundle.ruleCodes
  }

  /** The rows of the version are the bundle's. */
  predicate MaterialisedFrom(c: Catalog, id: Id, bundle: Bundle) {
    && id in c.facts && c.facts[id] == bundle.facts
    && (exists own :: own in c.ruleSets && HoldsRules(c.rules, own, id, bundle))
    && TemplateCodes(c.templates, id) == bundle.templateCodes
  }

  ghost predicate HasContent(c: Catalog, hashOf: Bundle -> Hash, id: Id)
    requires id < |c.versions|
  {
    exists bundle: Bundle :: hashOf(bundle) == c.versions[id].contentHash && MaterialisedFrom(c, id, bundle)
  }

  ghost predicate ContentOk(c: Catalog, hashOf: Bundle -> Hash) {
    forall id: nat :: id < |c.versions| && c.versions[id].status != Draft ==> HasContent(c, hashOf, id)
  }

  /** Statuses of rule sets, rules and templates follow their version; rule sets have their own ids,
      and a version has at most one. */
  function SetStatusOf(status: Status): RuleSetStatus {
    match status
    case Active => ActiveSet
    case Archived => ArchivedSet
    case _ => DraftSet
  }

  function PartStatusOf(status: Status): PartStatus {
    match status
    case Active => ActivePart
    case Archived => RetiredPart
    case _ => DraftPart
  }

  predicate Apart(sets: seq<RuleSet>) {
    forall k, l :: 0 <= k < l < |sets| ==> sets[k].id != sets[l].id && sets[k].versionId != sets[l].versionId
  }

  predicate SetOk(c: Catalog, s: RuleSet) {
    && s.versionId < |c.versions|
    && s.id < c.nextRuleSet
    && s.status == SetStatusOf(c.versions[s.versionId].status)
  }

  predicate SetsOk(c: Catalog) {
    Apart(c.ruleSets) && forall s :: s in c.ruleSets ==> SetOk(c, s)
  }

  /** The rule is in a rule set of a version whose status it has. */
  predicate Follows(c: Catalog, rule: Rule, s: RuleSet) {
    && s in c.ruleSets && s.id == rule.ruleSetId && s.versionId < |c.versions|
    && rule.status == PartStatusOf(c.versions[s.versionId].status)
  }

  predicate RuleOk(c: Catalog, rule: Rule) {
    exists s :: s in c.ruleSets && Follows(c, rule, s)
  }

  predicate TemplateOk(c: Catalog, t: Template) {
    t.versionId < |c.versions| && t.status == PartStatusOf(c.versions[t.versionId].status)
  }

  predicate InStep(c: Catalog) {
    && SetsOk(c)
    && (forall rule :: rule in c.rules ==> RuleOk(c, rule))
    && forall t :: t in c.templates ==> TemplateOk(c, t)
  }

  /** The versions' statuses mean the same for their rows. */
  predicate SameMeaning(c: Catalog, r: Catalog) {
    && |c.versions| <= |r.versions|
    && forall i :: 0 <= i < |c.versions| ==>
         && SetStatusOf(r.versions[i].status) == SetStatusOf(c.versions[i].status)
         && PartStatusOf(r.versions[i].status) == PartStatusOf(c.versions[i].status)
  }

  predicate SameRows(c: Catalog, r: Catalog) {
    r.ruleSets == c.ruleSets && r.rules == c.rules && r.templates == c.templates && r.nextRuleSet == c.nextRuleSet
  }

  lemma SameRowsInStep(c: Catalog, r: Catalog)
    requires InStep(c) && SameRows(c, r) && SameMeaning(c, r)
    ensures InStep(r)
  {
    forall s | s in r.ruleSets ensures SetOk(r, s) {
      assert SetOk(c, s);
    }
    forall rule | rule in r.rules ensures RuleOk(r, rule) {
      assert RuleOk(c, rule);
      var s :| s in c.ruleSets && Follows(c, rule, s);
      assert Follows(r, rule, s);
    }
    forall t | t in r.templates ensures TemplateOk(r, t) {
      assert TemplateOk(c, t);
    }
  }

  /** A rule belongs to the version of its rule set, and to no other. */
  lemma OwnRuleSetIff(c: Catalog, s: RuleSet, versionId: Id)
    requires SetsOk(c) && s in c.ruleSets
    ensures OwnRuleSet(c.ruleSets, s.id, versionId) <==> s.versionId == versionId
    ensures OwnActiveRuleSet(c.ruleSets, s.id, versionId) <==> s.versionId == versionId && s.status == ActiveSet
  {
    var k :| 0 <= k < |c.ruleSets| && c.ruleSets[k] == s;
  }

  lemma ArchiveRowsInStep(c: Catalog, id: Id)
    requires InStep(c) && id < |c.versions| && c.versions[id].status == Active
    ensures InStep(ArchiveRows(c, id))
  {
    var r := ArchiveRows(c, id);
    forall i | 0 <= i < |r.ruleSets| ensures SetOk(r, r.ruleSets[i]) {
      assert SetOk(c, c.ruleSets[i]);
    }
    forall i | 0 <= i < |r.rules| ensures RuleOk(r, r.rules[i]) {
      assert RuleOk(c, c.rules[i]);
      var s :| s in c.ruleSets && Follows(c, c.rules[i], s);
      assert SetOk(c, s);
      OwnRuleSetIff(c, s, id);
      var k :| 0 <= k < |c.ruleSets| && c.ruleSets[k] == s;
      assert Follows(r, r.rules[i], r.ruleSets[k]);
    }
    forall i | 0 <= i < |r.templates| ensures TemplateOk(r, r.templates[i]) {
      assert TemplateOk(c, c.templates[i]);
    }
  }

  lemma ActivateRowsInStep(c: Catalog, id: Id)
    requires InStep(c) && id < |c.versions|
    ensures InStep(ActivateRows(c, id))
  {
    var r := ActivateRows(c, id);
    forall i | 0 <= i < |r.ruleSets| ensures SetOk(r, r.ruleSets[i]) {
      assert SetOk(c, c.ruleSets[i]);
    }
    forall i | 0 <= i < |r.rules| ensures RuleOk(r, r.rules[i]) {
      assert RuleOk(c, c.rules[i]);
      var s :| s in c.ruleSets && Follows(c, c.rules[i], s);
      assert SetOk(c, s);
      OwnRuleSetIff(c, s, id);
      var k :| 0 <= k < |c.ruleSets| && c.ruleSets[k] == s;
      assert Follows(r, r.rules[i], r.ruleSets[k]);
    }
    forall i | 0 <= i < |r.templates| ensures TemplateOk(r, r.templates[i]) {
      assert TemplateOk(c, c.templates[i]);
    }
  }

  lemma {:induction false} ArchiveOthersInStep(c: Catalog, id: Id, scope: Text, n: nat)
    requires InStep(c) && n <= |c.versions|
    ensures InStep(ArchiveOthers(c, id, scope, n))
    decreases n
  {
    if n > 0 {
      var rest := ArchiveOthers(c, id, scope, n - 1);
      ArchiveOthersInStep(c, id, scope, n - 1);
      ArchiveOthersVersions(c, id, scope, n - 1);
      if n - 1 != id && Replaced(c.versions[n - 1], scope) {
        assert rest.versions[n - 1].status == Active;
        NextArchived(c, id, scope, n, rest);
      }
    }
  }

  lemma NextArchived(c: Catalog, id: Id, scope: Text, n: nat, rest: Catalog)
    requires 0 < n <= |c.versions| && rest == ArchiveOthers(c, id, scope, n - 1) && InStep(rest)
    requires n - 1 != id && Replaced(c.versions[n - 1], scope) && rest.versions[n - 1].status == Active
    ensures InStep(ArchiveOthers(c, id, scope, n))
  {
    ArchiveRowsInStep(rest, n - 1);
    assert ArchiveOthers(c, id, scope, n) == ArchiveRows(rest, n - 1);
  }

  // ---- materialising ------------------------------------------------------------------------------------------------

  lemma {:induction false} KeepApart(sets: seq<RuleSet>, p: RuleSet -> bool)
    requires Apart(sets)
    ensures Apart(Keep(sets, p))
  {
    if |sets| > 0 {
      KeepApart(sets[1..], p);
      var rest := Keep(sets[1..], p);
      forall i | 0 <= i < |rest| ensures rest[i].id != sets[0].id && rest[i].versionId != sets[0].versionId {
        assert rest[i] in rest && rest[i] in sets[1..];
      }
    }
  }

  lemma MaterialisedSets(c: Catalog, id: Id, bundle: Bundle)
    requires InStep(c) && id < |c.versions| && c.versions[id].status == Draft
    ensures SetsOk(Materialised(c, id, bundle))
  {
    var r := Materialised(c, id, bundle);
    var p := (s: RuleSet) => s.versionId != id;
    KeepApart(c.ruleSets, p);
    forall s | s in r.ruleSets ensures SetOk(r, s) {
      if s in Keep(c.ruleSets, p) {
        assert SetOk(c, s);
      }
    }
    var kept := Keep(c.ruleSets, p);
    forall k | 0 <= k < |kept| ensures kept[k].id != c.nextRuleSet && kept[k].versionId != id {
      assert kept[k] in kept;
      assert SetOk(c, kept[k]);
    }
  }

  lemma MaterialisedInStep(c: Catalog, id: Id, bundle: Bundle)
    requires InStep(c) && id < |c.versions| && c.versions[id].status == Draft
    ensures InStep(Materialised(c, id, bundle))
  {
    var r := Materialised(c, id, bundle);
    MaterialisedSets(c, id, bundle);
    var own := RuleSet(c.nextRuleSet, id, DraftSet);
    assert own in r.ruleSets;
    forall rule | rule in r.rules ensures RuleOk(r, rule) {
      if rule in OtherRules(c.rules, c.ruleSets, id) {
        assert RuleOk(c, rule);
        var s :| s in c.ruleSets && Follows(c, rule, s);
        OwnRuleSetIff(c, s, id);
        assert s in r.ruleSets;
        assert Follows(r, rule, s);
      } else {
        assert Follows(r, rule, own);
      }
    }
    forall t | t in r.templates ensures TemplateOk(r, t) {
      if t in c.templates {
        assert TemplateOk(c, t);
      }
    }
  }

  /** The tables before the rows of a validated version are materialised. */
  function Noted(c: Catalog, id: Id, hash: Hash, valid: bool): Catalog
    requires ImportOf(c, id, hash) < |c.imports|
  {
    var importId := ImportOf(c, id, hash);
    var reported := WithReport(c, id, importId, hash, valid);
    reported.(imports := reported.imports[importId :=
      reported.imports[importId].(status := if valid then ValidatedImport else InvalidImport)])
  }

  /** What a validation does to the rows, and to the version. */
  lemma ValidationRows(c: Catalog, id: Id, bundle: Bundle, hash: Hash, valid: bool)
    ensures var (r, outcome) := AfterValidation(c, id, bundle, hash, valid);
      if outcome.Ok? && valid && c.versions[id].status == Draft then
        && ImportOf(c, id, hash) < |c.imports|
        && var m := Materialised(Noted(c, id, hash, valid), id, bundle);
           && SameRows(m, r) && r.facts == m.facts
           && r.versions == c.versions[id := r.versions[id]] && r.versions[id].status == Validated
           && r.versions[id].contentHash == c.versions[id].contentHash == hash
      else SameRows(c, r) && r.facts == c.facts && r.versions == c.versions
  {
  }

  lemma ValidationInStep(c: Catalog, id: Id, bundle: Bundle, hash: Hash, valid: bool)
    requires InStep(c)
    ensures InStep(AfterValidation(c, id, bundle, hash, valid).0)
  {
    var (r, outcome) := AfterValidation(c, id, bundle, hash, valid);
    ValidationRows(c, id, bundle, hash, valid);
    if outcome.Ok? && valid && c.versions[id].status == Draft {
      var n := Noted(c, id, hash, valid);
      SameRowsInStep(c, n);
      MaterialisedInStep(n, id, bundle);
      SameRowsInStep(Materialised(n, id, bundle), r);
    } else {
      SameRowsInStep(c, r);
    }
  }

  lemma SaveDraftInStep(c: Catalog, scope: Text, version: Text, bundle: Bundle, hash: Hash)
    requires InStep(c)
    ensures InStep(AfterSaveDraft(c, scope, version, bundle, hash).0)
  {
    SameRowsInStep(c, AfterSaveDraft(c, scope, version, bundle, hash).0);
  }

  lemma ApproveInStep(c: Catalog, id: Id, hash: Hash)
    requires InStep(c)
    ensures InStep(AfterApprove(c, id, hash).0)
  {
    SameRowsInStep(c, AfterApprove(c, id, hash).0);
  }

  lemma ActivateInStep(c: Catalog, id: Id, hash: Hash)
    requires InStep(c)
    ensures InStep(AfterActivate(c, id, hash).0)
  {
    if AfterActivate(c, id, hash).0 != c {
      var others := ArchiveOthers(c, id, c.versions[id].scope, |c.versions|);
      ArchiveOthersInStep(c, id, c.versions[id].scope, |c.versions|);
      ActivateRowsInStep(others, id);
    }
  }

  lemma ArchiveInStep(c: Catalog, id: Id)
    requires InStep(c)
    ensures InStep(AfterArchive(c, id).0)
  {
    if AfterArchive(c, id).0 != c {
      ArchiveRowsInStep(c, id);
    }
  }

  /** Rule sets, rules and templates stay in step with their version. */
  lemma StepKeepsInStep(c: Catalog, hashOf: Bundle -> Hash, step: Step)
    requires InStep(c)
    ensures InStep(After(c, hashOf, step))
  {
    match step {
      case SaveDraftStep(scope, version, bundle) => SaveDraftInStep(c, scope, version, bundle, hashOf(bundle));
      case ValidateStep(id, bundle, valid) => ValidationInStep(c, id, bundle, hashOf(bundle), valid);
      case ApproveStep(id, hash) => ApproveInStep(c, id, hash);
      case ActivateStep(id, hash) => ActivateInStep(c, id, hash);
      case ArchiveStep(id) => ArchiveInStep(c, id);
    }
  }
}
