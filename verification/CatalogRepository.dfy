/** The catalog administration repository: each method is one transaction on the tables. */
module CatalogRepository {
  import opened Wrappers
  import opened JsText
  import opened CanonicalJson
  import opened Tables
  import opened CatalogStore

  class Repository {
    var versions: seq<Version>
    var imports: seq<Import>
    var reports: seq<Report>
    var approvals: seq<Approval>
    var transitions: seq<Transition>
    var facts: map<Id, Json>
    var ruleSets: seq<RuleSet>
    var rules: seq<Rule>
    var templates: seq<Template>
    var nextRuleSet: Id

    ghost function State(): Catalog
      reads this
    {
      Catalog(versions, imports, reports, approvals, transitions, facts, ruleSets, rules, templates, nextRuleSet)
    }

    constructor ()
      ensures State() == Catalog([], [], [], [], [], map[], [], [], [], 0)
    {
      versions, imports, reports, approvals, transitions := [], [], [], [], [];
      facts, ruleSets, rules, templates, nextRuleSet := map[], [], [], [], 0;
    }

    method SaveDraft(scope: Text, version: Text, bundle: Bundle, hash: Hash) returns (outcome: Outcome)
      modifies this
      ensures (State(), outcome) == AfterSaveDraft(old(State()), scope, version, bundle, hash)
    {
      var id := Find(versions, (v: Version) => v.scope == scope && v.version == version);
      var prior := None;
      if id == |versions| {
        versions := versions + [Version(scope, version, hash, Draft, None, None, None)];
      } else {
        var current := versions[id];
        prior := Some(current.status);
        if current.status == Active || current.status == Archived {
          return Err(Immutable);
        }
        if current.contentHash != hash {
          versions := versions[id := Reset(current, hash)];
          imports := Supersede(imports, id);
        }
      }
      var importId := Find(imports, (i: Import) => i.versionId == id && i.hash == hash);
      if importId == |imports| {
        imports := imports + [Import(id, hash, bundle, DraftImport)];
        transitions := transitions + [Transition(id, prior, Draft)];
      }
      return Ok(id);
    }

    method ClearCandidate(versionId: Id)
      modifies this
      ensures State() == Cleared(old(State()), versionId)
    {
      templates := Keep(templates, (t: Template) => t.versionId != versionId);
      rules := OtherRules(rules, ruleSets, versionId);
      ruleSets := Keep(ruleSets, (s: RuleSet) => s.versionId != versionId);
      facts := facts - {versionId};
    }

    method MaterializeCandidate(versionId: Id, bundle: Bundle)
      modifies this
      ensures State() == Materialised(old(State()), versionId, bundle)
    {
      ClearCandidate(versionId);
      facts := facts[versionId := bundle.facts];
      var ruleSetId := nextRuleSet;
      nextRuleSet := nextRuleSet + 1;
      ruleSets := ruleSets + [RuleSet(ruleSetId, versionId, DraftSet)];
      InsertRules(ruleSetId, bundle.ruleCodes);
      InsertTemplates(versionId, ruleSetId, bundle.templateCodes);
    }

    method InsertRules(ruleSetId: Id, codes: seq<Text>)
      modifies `rules
      ensures State() == old(State()).(rules := old(rules) + NewRules(ruleSetId, codes))
    {
      var priority := 0;
      while priority < |codes|
        invariant priority <= |codes|
        invariant rules == old(rules) + NewRules(ruleSetId, codes)[..priority]
      {
        rules := rules + [Rule(ruleSetId, codes[priority], DraftPart)];
        priority := priority + 1;
      }
    }

    method InsertTemplates(versionId: Id, ruleSetId: Id, codes: seq<Text>)
      modifies `templates
      ensures State() == old(State()).(templates := old(templates) + NewTemplates(versionId, ruleSetId, codes))
    {
      var next := 0;
      while next < |codes|
        invariant next <= |codes|
        invariant templates == old(templates) + NewTemplates(versionId, ruleSetId, codes)[..next]
      {
        templates := templates + [Template(versionId, ruleSetId, codes[next], DraftPart)];
        next := next + 1;
      }
    }

    method SaveValidation(id: Id, bundle: Bundle, hash: Hash, valid: bool) returns (outcome: Outcome)
      modifies this
      ensures (State(), outcome) == AfterValidation(old(State()), id, bundle, hash, valid)
    {
      if id >= |versions| {
        return Err(NotFound);
      }
      var current := versions[id];
      if current.status != Draft && current.status != Validated {
        return Err(InvalidState);
      }
      if current.contentHash != hash {
        return Err(HashMismatch);
      }
      var importId := Find(imports, (i: Import) => i.versionId == id && i.hash == hash);
      if importId == |imports| {
        return Err(ImportNotFound);
      }
      var reportId := Find(reports, (r: Report) => r.importId == importId && r.hash == hash);
      if reportId == |reports| {
        reports := reports + [Report(id, importId, hash, valid)];
      }
      imports := imports[importId := imports[importId].(status := if valid then ValidatedImport else InvalidImport)];
      if valid && current.status == Draft {
        MaterializeCandidate(id, bundle);
        versions := versions[id := current.(status := Validated, validatedHash := Some(current.contentHash),
                                             reportId := Some(reportId))];
        transitions := transitions + [Transition(id, Some(Draft), Validated)];
      }
      return Ok(id);
    }

    method Approve(id: Id, hash: Hash) returns (outcome: Outcome)
      modifies this
      ensures (State(), outcome) == AfterApprove(old(State()), id, hash)
    {
      if id >= |versions| {
        return Err(NotFound);
      }
      var current := versions[id];
      if current.status == Approved && current.contentHash == hash {
        return Ok(id);
      }
      if
        || current.status != Validated || current.validatedHash != Some(hash)
        || current.contentHash != hash || current.reportId.None?
      {
        return Err(ApprovalMismatch);
      }
      if current.reportId.value >= |reports| || !reports[current.reportId.value].valid {
        return Err(ReportInvalid);
      }
      if Find(approvals, (a: Approval) => a.versionId == id && a.hash == hash) < |approvals| {
        return Err(DuplicateApproval);
      }
      approvals := approvals + [Approval(id, current.reportId.value, hash)];
      versions := versions[id := current.(status := Approved, approvedHash := Some(current.contentHash))];
      transitions := transitions + [Transition(id, Some(Validated), Approved)];
      return Ok(id);
    }

    /** The rows of an active version, on its way out. */
    method RetireRows(id: Id)
      requires id < |versions|
      modifies this
      ensures State() == ArchiveRows(old(State()), id)
    {
      rules := RetireRules(rules, ruleSets, id);
      templates := Update(templates, (t: Template) => t.versionId == id && t.status == ActivePart,
        (t: Template) => t.(status := RetiredPart));
      ruleSets := Update(ruleSets, (s: RuleSet) => s.versionId == id && s.status == ActiveSet,
        (s: RuleSet) => s.(status := ArchivedSet));
      versions := versions[id := versions[id].(status := Archived)];
      transitions := transitions + [Transition(id, Some(Active), Archived)];
    }

    method Activate(id: Id, hash: Hash) returns (outcome: Outcome)
      modifies this
      ensures (State(), outcome) == AfterActivate(old(State()), id, hash)
    {
      if id >= |versions| {
        return Err(NotFound);
      }
      var current := versions[id];
      if current.status == Active && current.contentHash == hash {
        return Ok(id);
      }
      if current.status != Approved || current.contentHash != hash || current.approvedHash != Some(hash) {
        return Err(ActivationMismatch);
      }
      if Find(approvals, (a: Approval) => a.versionId == id && a.hash == hash) == |approvals| {
        return Err(ApprovalMissing);
      }
      var previous := versions;
      var n := 0;
      while n < |previous|
        invariant n <= |previous| == |versions| && previous == old(versions)
        invariant State() == ArchiveOthers(old(State()), id, current.scope, n)
      {
        if n != id && Replaced(previous[n], current.scope) {
          RetireRows(n);
        }
        n := n + 1;
      }
      ActivateOwn(id);
      return Ok(id);
    }

    method ActivateOwn(id: Id)
      requires id < |versions|
      modifies this
      ensures State() == ActivateRows(old(State()), id)
    {
      ruleSets := Update(ruleSets, (s: RuleSet) => s.versionId == id, (s: RuleSet) => s.(status := ActiveSet));
      rules := ActivateRules(rules, ruleSets, id);
      templates := Update(templates, (t: Template) => t.versionId == id, (t: Template) => t.(status := ActivePart));
      versions := versions[id := versions[id].(status := Active)];
      transitions := transitions + [Transition(id, Some(Approved), Active)];
    }

    method Archive(id: Id) returns (outcome: Outcome)
      modifies this
      ensures (State(), outcome) == AfterArchive(old(State()), id)
    {
      if id >= |versions| || versions[id].status != Active {
        return Err(InvalidState);
      }
      RetireRows(id);
      return Ok(id);
    }
  }
}
