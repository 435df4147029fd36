/** The rows of a version past its draft are those of its content, and stay so; and what the life of
    catalog versions comes to, over all runs. */
module CatalogContent {
  import opened Wrappers
  import opened JsText
  import opened Tables
  import opened CatalogStore
  import opened CatalogLifecycle

  // ---- rows of one version ---------------------------------------------------------------------------

  lemma {:induction false} RuleCodesConcat(a: seq<Rule>, b: seq<Rule>, ruleSetId: Id)
    ensures RuleCodes(a + b, ruleSetId) == RuleCodes(a, ruleSetId) + RuleCodes(b, ruleSetId)
  {
    if |a| == 0 {
      assert a + b == b;
    } else {
      RuleCodesConcat(a[1..], b, ruleSetId);
      assert (a + b)[1..] == a[1..] + b;
      var head := if a[0].ruleSetId == ruleSetId then [a[0].code] else [];
      assert head + (RuleCodes(a[1..], ruleSetId) + RuleCodes(b, ruleSetId))
          == head + RuleCodes(a[1..], ruleSetId) + RuleCodes(b, ruleSetId);
    }
  }

  lemma {:induction false} TemplateCodesConcat(a: seq<Template>, b: seq<Template>, id: Id)
    ensures TemplateCodes(a + b, id) == TemplateCodes(a, id) + TemplateCodes(b, id)
  {
    if |a| == 0 {
      assert a + b == b;
    } else {
      TemplateCodesConcat(a[1..], b, id);
      assert (a + b)[1..] == a[1..] + b;
      var head := if a[0].versionId == id then [a[0].code] else [];
      assert head + (TemplateCodes(a[1..], id) + TemplateCodes(b, id)) == head + TemplateCodes(a[1..], id) + TemplateCodes(b, id);
    }
  }

  lemma {:induction false} RuleCodesKeep(rules: seq<Rule>, p: Rule -> bool, ruleSetId: Id)
    requires forall rule :: rule in rules && rule.ruleSetId == ruleSetId ==> p(rule)
    ensures RuleCodes(Keep(rules, p), ruleSetId) == RuleCodes(rules, ruleSetId)
  {
    if |rules| > 0 {
      RuleCodesKeep(rules[1..], p, ruleSetId);
      if p(rules[0]) {
        assert Keep(rules, p)[1..] == Keep(rules[1..], p);
      } else {
        assert Keep(rules, p) == Keep(rules[1..], p);
      }
    }
  }

  lemma {:induction false} NoRuleCodes(rules: seq<Rule>, ruleSetId: Id)
    requires forall rule :: rule in rules ==> rule.ruleSetId != ruleSetId
    ensures RuleCodes(rules, ruleSetId) == []
  {
    if |rules| > 0 {
      NoRuleCodes(rules[1..], ruleSetId);
    }
  }

  lemma {:induction false} TemplateCodesKeep(templates: seq<Template>, p: Template -> bool, id: Id)
    requires forall t :: t in templates && t.versionId == id ==> p(t)
    ensures TemplateCodes(Keep(templates, p), id) == TemplateCodes(templates, id)
  {
    if |templates| > 0 {
      TemplateCodesKeep(templates[1..], p, id);
      if p(templates[0]) {
        assert Keep(templates, p)[1..] == Keep(templates[1..], p);
      } else {
        assert Keep(templates, p) == Keep(templates[1..], p);
      }
    }
  }

  lemma {:induction false} NoTemplateCodes(templates: seq<Template>, id: Id)
    requires forall t :: t in templates ==> t.versionId != id
    ensures TemplateCodes(templates, id) == []
  {
    if |templates| > 0 {
      NoTemplateCodes(templates[1..], id);
    }
  }

  lemma {:induction false} NewRuleCodes(ruleSetId: Id, codes: seq<Text>)
    ensures RuleCodes(NewRules(ruleSetId, codes), ruleSetId) == codes
  {
    if |codes| > 0 {
      NewRuleCodes(ruleSetId, codes[1..]);
      assert NewRules(ruleSetId, codes)[1..] == NewRules(ruleSetId, codes[1..]);
    }
  }

  lemma {:induction false} NewTemplateCodes(id: Id, ruleSetId: Id, codes: seq<Text>)
    ensures TemplateCodes(NewTemplates(id, ruleSetId, codes), id) == codes
  {
    if |codes| > 0 {
      NewTemplateCodes(id, ruleSetId, codes[1..]);
      assert NewTemplates(id, ruleSetId, codes)[1..] == NewTemplates(id, ruleSetId, codes[1..]);
    }
  }

  /** Two sequences of rules, or of templates, that differ in statuses only. */
  predicate SameRules(a: seq<Rule>, b: seq<Rule>) {
    |a| == |b| && forall i :: 0 <= i < |a| ==> b[i] == a[i].(status := b[i].status)
  }

  predicate SameTemplates(a: seq<Template>, b: seq<Template>) {
    |a| == |b| && forall i :: 0 <= i < |a| ==> b[i] == a[i].(status := b[i].status)
  }

  predicate SameSets(a: seq<RuleSet>, b: seq<RuleSet>) {
    |a| == |b| && forall i :: 0 <= i < |a| ==> b[i] == a[i].(status := b[i].status)
  }

  lemma {:induction false} SameRuleCodes(a: seq<Rule>, b: seq<Rule>, ruleSetId: Id)
    requires SameRules(a, b)
    ensures RuleCodes(b, ruleSetId) == RuleCodes(a, ruleSetId)
  {
    if |a| > 0 {
      assert b[0] == a[0].(status := b[0].status);
      SameRuleCodes(a[1..], b[1..], ruleSetId);
    }
  }

  lemma {:induction false} SameTemplateCodes(a: seq<Template>, b: seq<Template>, id: Id)
    requires SameTemplates(a, b)
    ensures TemplateCodes(b, id) == TemplateCodes(a, id)
  {
    if |a| > 0 {
      assert b[0] == a[0].(status := b[0].status);
      SameTemplateCodes(a[1..], b[1..], id);
    }
  }

  predicate SameButStatuses(c: Catalog, r: Catalog) {
    && r.facts == c.facts && SameRules(c.rules, r.rules) && SameTemplates(c.templates, r.templates)
    && SameSets(c.ruleSets, r.ruleSets)
  }

  lemma StatusesKeepRows(c: Catalog, r: Catalog, id: Id, bundle: Bundle)
    requires MaterialisedFrom(c, id, bundle) && SameButStatuses(c, r)
    ensures MaterialisedFrom(r, id, bundle)
  {
    var own :| own in c.ruleSets && HoldsRules(c.rules, own, id, bundle);
    var k :| 0 <= k < |c.ruleSets| && c.ruleSets[k] == own;
    SameRuleCodes(c.rules, r.rules, own.id);
    SameTemplateCodes(c.templates, r.templates, id);
    assert HoldsRules(r.rules, r.ruleSets[k], id, bundle);
  }

  lemma ActivateRowsSame(c: Catalog, id: Id)
    requires id < |c.versions|
    ensures SameButStatuses(c, ActivateRows(c, id))
  {
  }

  lemma {:induction false} ArchiveOthersSame(c: Catalog, id: Id, scope: Text, n: nat)
    requires n <= |c.versions|
    ensures SameButStatuses(c, ArchiveOthers(c, id, scope, n))
    decreases n
  {
    if n > 0 {
      ArchiveOthersSame(c, id, scope, n - 1);
    }
  }

  // ---- materialising ------------------------------------------------------------------------------------

  lemma NewRows(c: Catalog, id: Id, bundle: Bundle)
    requires InStep(c)
    ensures MaterialisedFrom(Materialised(c, id, bundle), id, bundle)
  {
    var r, newId := Materialised(c, id, bundle), c.nextRuleSet;
    var kept := OtherRules(c.rules, c.ruleSets, id);
    var keptTemplates := Keep(c.templates, (t: Template) => t.versionId != id);
    forall rule | rule in kept ensures rule.ruleSetId != newId {
      assert RuleOk(c, rule);
      var s :| s in c.ruleSets && Follows(c, rule, s);
      assert SetOk(c, s);
    }
    NoRuleCodes(kept, newId);
    RuleCodesConcat(kept, NewRules(newId, bundle.ruleCodes), newId);
    NewRuleCodes(newId, bundle.ruleCodes);
    NoTemplateCodes(keptTemplates, id);
    TemplateCodesConcat(keptTemplates, NewTemplates(id, newId, bundle.templateCodes), id);
    NewTemplateCodes(id, newId, bundle.templateCodes);
    var own := RuleSet(newId, id, DraftSet);
    assert [] + bundle.ruleCodes == bundle.ruleCodes && [] + bundle.templateCodes == bundle.templateCodes;
    assert own in r.ruleSets && HoldsRules(r.rules, own, id, bundle);
  }

  lemma OtherRulesStay(c: Catalog, id: Id, s: RuleSet, newRules: seq<Rule>)
    requires InStep(c) && s in c.ruleSets && s.versionId != id
    requires forall rule :: rule in newRules ==> rule.ruleSetId == c.nextRuleSet
    ensures RuleCodes(OtherRules(c.rules, c.ruleSets, id) + newRules, s.id) == RuleCodes(c.rules, s.id)
  {
    OwnRuleSetIff(c, s, id);
    assert SetOk(c, s);
    var sets := c.ruleSets;
    RuleCodesKeep(c.rules, (rule: Rule) => !OwnRuleSet(sets, rule.ruleSetId, id), s.id);
    RuleCodesConcat(OtherRules(c.rules, c.ruleSets, id), newRules, s.id);
    NoRuleCodes(newRules, s.id);
  }

  lemma OtherTemplatesStay(c: Catalog, id: Id, j: Id, added: seq<Template>)
    requires j != id && forall t :: t in added ==> t.versionId == id
    ensures TemplateCodes(Keep(c.templates, (t: Template) => t.versionId != id) + added, j) == TemplateCodes(c.templates, j)
  {
    var p := (t: Template) => t.versionId != id;
    TemplateCodesKeep(c.templates, p, j);
    TemplateCodesConcat(Keep(c.templates, p), added, j);
    NoTemplateCodes(added, j);
  }

  lemma OtherRowsStay(c: Catalog, id: Id, bundle: Bundle, j: Id, other: Bundle)
    requires InStep(c) && j != id && MaterialisedFrom(c, j, other)
    ensures MaterialisedFrom(Materialised(c, id, bundle), j, other)
  {
    var r := Materialised(c, id, bundle);
    var own :| own in c.ruleSets && HoldsRules(c.rules, own, j, other);
    OtherRulesStay(c, id, own, NewRules(c.nextRuleSet, bundle.ruleCodes));
    OtherTemplatesStay(c, id, j, NewTemplates(id, c.nextRuleSet, bundle.templateCodes));
    assert own in r.ruleSets && HoldsRules(r.rules, own, j, other);
  }

  // ---- every step ---------------------------------------------------------------------------------------------

  lemma SameRowsKeepRows(c: Catalog, r: Catalog, id: Id, bundle: Bundle)
    requires MaterialisedFrom(c, id, bundle) && SameRows(c, r) && r.facts == c.facts
    ensures MaterialisedFrom(r, id, bundle)
  {
  }

  /** The rows of a version change only when that version, a draft, is validated. */
  lemma StepKeepsRows(c: Catalog, hashOf: Bundle -> Hash, step: Step, id: Id, bundle: Bundle)
    requires InStep(c) && id < |c.versions| && MaterialisedFrom(c, id, bundle) && c.versions[id].status != Draft
    ensures MaterialisedFrom(After(c, hashOf, step), id, bundle)
  {
    match step {
      case SaveDraftStep(scope, version, b) => SaveDraftKeepsRows(c, scope, version, b, hashOf(b), id, bundle);
      case ApproveStep(i, hash) => SameRowsKeepRows(c, AfterApprove(c, i, hash).0, id, bundle);
      case ValidateStep(i, b, valid) => ValidationKeepsRows(c, i, b, hashOf(b), valid, id, bundle);
      case ActivateStep(i, hash) =>
        if AfterActivate(c, i, hash).0 != c {
          ActivateKeepsRows(c, i, hash, id, bundle);
        }
      case ArchiveStep(i) =>
        if AfterArchive(c, i).0 != c {
          ArchiveKeepsRows(c, i, id, bundle);
        }
    }
  }

  lemma SaveDraftKeepsRows(c: Catalog, scope: Text, version: Text, b: Bundle, hash: Hash, id: Id, bundle: Bundle)
    requires MaterialisedFrom(c, id, bundle)
    ensures MaterialisedFrom(AfterSaveDraft(c, scope, version, b, hash).0, id, bundle)
  {
    SameRowsKeepRows(c, AfterSaveDraft(c, scope, version, b, hash).0, id, bundle);
  }

  lemma ArchiveKeepsRows(c: Catalog, i: Id, id: Id, bundle: Bundle)
    requires AfterArchive(c, i).0 != c && MaterialisedFrom(c, id, bundle)
    ensures MaterialisedFrom(AfterArchive(c, i).0, id, bundle)
  {
    assert SameButStatuses(c, AfterArchive(c, i).0);
    StatusesKeepRows(c, AfterArchive(c, i).0, id, bundle);
  }

  lemma ActivateKeepsRows(c: Catalog, i: Id, hash: Hash, id: Id, bundle: Bundle)
    requires AfterActivate(c, i, hash).0 != c && MaterialisedFrom(c, id, bundle)
    ensures MaterialisedFrom(AfterActivate(c, i, hash).0, id, bundle)
  {
    var others := ArchiveOthers(c, i, c.versions[i].scope, |c.versions|);
    ArchiveOthersSame(c, i, c.versions[i].scope, |c.versions|);
    StatusesKeepRows(c, others, id, bundle);
    ActivateRowsSame(others, i);
    StatusesKeepRows(others, ActivateRows(others, i), id, bundle);
  }

  lemma ValidationKeepsRows(c: Catalog, i: Id, b: Bundle, hash: Hash, valid: bool, id: Id, bundle: Bundle)
    requires InStep(c) && id < |c.versions| && MaterialisedFrom(c, id, bundle) && c.versions[id].status != Draft
    ensures MaterialisedFrom(AfterValidation(c, i, b, hash, valid).0, id, bundle)
  {
    var (r, outcome) := AfterValidation(c, i, b, hash, valid);
    ValidationRows(c, i, b, hash, valid);
    if outcome.Ok? && valid && c.versions[i].status == Draft {
      var n := Noted(c, i, hash, valid);
      SameRowsInStep(c, n);
      SameRowsKeepRows(c, n, id, bundle);
      OtherRowsStay(n, i, b, id, bundle);
      SameRowsKeepRows(Materialised(n, i, b), r, id, bundle);
    } else {
      SameRowsKeepRows(c, r, id, bundle);
    }
  }

  lemma ValidationMakesRows(c: Catalog, id: Id, b: Bundle, hash: Hash)
    requires InStep(c) && AfterValidation(c, id, b, hash, true).1.Ok? && c.versions[id].status == Draft
    ensures var r := AfterValidation(c, id, b, hash, true).0;
      MaterialisedFrom(r, id, b) && id < |r.versions| && r.versions[id].contentHash == hash
  {
    var r := AfterValidation(c, id, b, hash, true).0;
    ValidationRows(c, id, b, hash, true);
    var n := Noted(c, id, hash, true);
    SameRowsInStep(c, n);
    NewRows(n, id, b);
    SameRowsKeepRows(Materialised(n, id, b), r, id, b);
  }

  /** Between `c` and `r` the version keeps its content unless it becomes a draft, and leaves no draft. */
  predicate KeepsContent(c: Catalog, r: Catalog, id: Id)
    requires id < |r.versions|
  {
    r.versions[id].status != Draft ==>
      id < |c.versions| && r.versions[id].contentHash == c.versions[id].contentHash && c.versions[id].status != Draft
  }

  lemma SaveDraftMoves(c: Catalog, scope: Text, version: Text, bundle: Bundle, hash: Hash, id: Id)
    requires id < |AfterSaveDraft(c, scope, version, bundle, hash).0.versions|
    ensures KeepsContent(c, AfterSaveDraft(c, scope, version, bundle, hash).0, id)
  {
  }

  lemma OtherMoves(c: Catalog, hashOf: Bundle -> Hash, step: Step, id: Id)
    requires step.ApproveStep? || step.ActivateStep? || step.ArchiveStep?
    requires id < |After(c, hashOf, step).versions|
    ensures KeepsContent(c, After(c, hashOf, step), id)
  {
    if step.ActivateStep? && After(c, hashOf, step) != c {
      ActivateVersions(c, step.id, step.hash);
    }
  }

  lemma ValidationMoves(c: Catalog, i: Id, bundle: Bundle, hash: Hash, valid: bool, id: Id)
    requires id < |AfterValidation(c, i, bundle, hash, valid).0.versions|
    ensures var (r, outcome) := AfterValidation(c, i, bundle, hash, valid);
      && id < |c.versions|
      && (KeepsContent(c, r, id)
          || (id == i && valid && outcome.Ok? && c.versions[id].status == Draft && hash == c.versions[id].contentHash))
  {
    ValidationRows(c, i, bundle, hash, valid);
  }

  /** What a step does to one version: a version past its draft keeps its content, unless an import
      makes it a draft; and a version leaves its draft by being validated. */
  lemma VersionMoves(c: Catalog, hashOf: Bundle -> Hash, step: Step, id: Id)
    requires id < |After(c, hashOf, step).versions|
    ensures KeepsContent(c, After(c, hashOf, step), id)
      || (step.ValidateStep? && step.id == id && step.valid && Effect(c, hashOf, step).1.Ok?
          && id < |c.versions| && c.versions[id].status == Draft
          && hashOf(step.bundle) == c.versions[id].contentHash)
  {
    match step {
      case SaveDraftStep(scope, version, bundle) => SaveDraftMoves(c, scope, version, bundle, hashOf(bundle), id);
      case ValidateStep(i, bundle, valid) => ValidationMoves(c, i, bundle, hashOf(bundle), valid, id);
      case _ => OtherMoves(c, hashOf, step, id);
    }
  }

  lemma StepKeepsContent(c: Catalog, hashOf: Bundle -> Hash, step: Step)
    requires InStep(c) && ContentOk(c, hashOf)
    ensures ContentOk(After(c, hashOf, step), hashOf)
  {
    var r := After(c, hashOf, step);
    forall id: nat | id < |r.versions| && r.versions[id].status != Draft ensures HasContent(r, hashOf, id) {
      VersionMoves(c, hashOf, step, id);
      if !KeepsContent(c, r, id) {
        ValidationMakesRows(c, id, step.bundle, hashOf(step.bundle));
      } else {
        var bundle :| hashOf(bundle) == c.versions[id].contentHash && MaterialisedFrom(c, id, bundle);
        StepKeepsRows(c, hashOf, step, id, bundle);
      }
    }
  }

  // ---- all runs ---------------------------------------------------------------------------------------------------

  ghost predicate Inv(c: Catalog, hashOf: Bundle -> Hash) {
    Evidence(c) && OneActive(c) && InStep(c) && ContentOk(c, hashOf)
  }

  lemma StepKeepsInv(c: Catalog, hashOf: Bundle -> Hash, step: Step)
    requires Inv(c, hashOf)
    ensures Inv(After(c, hashOf, step), hashOf)
  {
    StepKeepsEvidence(c, hashOf, step);
    StepKeepsOneActive(c, hashOf, step);
    StepKeepsInStep(c, hashOf, step);
    StepKeepsContent(c, hashOf, step);
  }

  /** After any transactions: a version past its draft was validated as it is and its rows are those
      of its content; past validation it has a valid report and an approval of exactly its hash; a
      scope has at most one active version; and rule sets, rules and templates are active exactly
      when their version is. */
  lemma {:induction false} RunKeepsInv(c: Catalog, hashOf: Bundle -> Hash, steps: seq<Step>)
    requires Inv(c, hashOf)
    ensures Inv(AfterAll(c, hashOf, steps), hashOf)
    decreases |steps|
  {
    if |steps| > 0 {
      StepKeepsInv(c, hashOf, steps[0]);
      RunKeepsInv(After(c, hashOf, steps[0]), hashOf, steps[1..]);
    }
  }

  lemma EmptyInv(hashOf: Bundle -> Hash)
    ensures Inv(EMPTY, hashOf)
  {
  }

  /** Of an active or archived version nothing changes any more but that it may be archived. */
  predicate Settled(a: Version, b: Version) {
    b == a || (a.status == Active && b == a.(status := Archived))
  }

  lemma ActivateSettled(c: Catalog, i: Id, hash: Hash, id: Id)
    requires id < |c.versions| && (c.versions[id].status == Active || c.versions[id].status == Archived)
    ensures id < |AfterActivate(c, i, hash).0.versions|
    ensures Settled(c.versions[id], AfterActivate(c, i, hash).0.versions[id])
  {
    if AfterActivate(c, i, hash).0 != c {
      ActivateVersions(c, i, hash);
    }
  }

  lemma SaveDraftSettled(c: Catalog, scope: Text, version: Text, bundle: Bundle, hash: Hash, id: Id)
    requires id < |c.versions| && (c.versions[id].status == Active || c.versions[id].status == Archived)
    ensures id < |AfterSaveDraft(c, scope, version, bundle, hash).0.versions|
    ensures AfterSaveDraft(c, scope, version, bundle, hash).0.versions[id] == c.versions[id]
  {
  }

  lemma ValidationSettled(c: Catalog, i: Id, bundle: Bundle, hash: Hash, valid: bool, id: Id)
    requires id < |c.versions| && (c.versions[id].status == Active || c.versions[id].status == Archived)
    ensures id < |AfterValidation(c, i, bundle, hash, valid).0.versions|
    ensures AfterValidation(c, i, bundle, hash, valid).0.versions[id] == c.versions[id]
  {
    ValidationRows(c, i, bundle, hash, valid);
  }

  lemma StepSettled(c: Catalog, hashOf: Bundle -> Hash, step: Step, id: Id)
    requires id < |c.versions| && (c.versions[id].status == Active || c.versions[id].status == Archived)
    ensures id < |After(c, hashOf, step).versions| && Settled(c.versions[id], After(c, hashOf, step).versions[id])
  {
    match step {
      case SaveDraftStep(scope, version, bundle) => SaveDraftSettled(c, scope, version, bundle, hashOf(bundle), id);
      case ValidateStep(i, bundle, valid) => ValidationSettled(c, i, bundle, hashOf(bundle), valid, id);
      case ActivateStep(i, hash) => ActivateSettled(c, i, hash, id);
      case ApproveStep(_, _) =>
      case ArchiveStep(_) =>
    }
  }

  /** The content and the rows of an active version never change, not even when it is archived. */
  lemma {:induction false} ActiveContentNeverChanges(c: Catalog, hashOf: Bundle -> Hash, steps: seq<Step>, id: Id, bundle: Bundle)
    requires Inv(c, hashOf) && id < |c.versions| && MaterialisedFrom(c, id, bundle)
    requires c.versions[id].status == Active || c.versions[id].status == Archived
    ensures var e := AfterAll(c, hashOf, steps);
      && id < |e.versions| && Settled(c.versions[id], e.versions[id]) && MaterialisedFrom(e, id, bundle)
    decreases |steps|
  {
    if |steps| > 0 {
      StepSettled(c, hashOf, steps[0], id);
      StepKeepsRows(c, hashOf, steps[0], id, bundle);
      StepKeepsInv(c, hashOf, steps[0]);
      ActiveContentNeverChanges(After(c, hashOf, steps[0]), hashOf, steps[1..], id, bundle);
    }
  }

  // ---- what cannot be undone ------------------------------------------------------------------------------------------

  /** A validated version can be approved exactly when its report is valid and its content has not
      been approved before. */
  lemma ApprovableIff(c: Catalog, id: Id)
    requires Evidence(c) && id < |c.versions| && c.versions[id].status == Validated
    ensures HashesOk(c, id)
    ensures AfterApprove(c, id, c.versions[id].contentHash).1.Ok?
       <==> c.reports[c.versions[id].reportId.value].valid && !ApprovedAs(c, id, c.versions[id].contentHash)
  {
    assert HashesOk(c, id);
  }

  /** The version has a report that finds this content invalid. */
  predicate FoundInvalid(c: Catalog, id: Id, hash: Hash) {
    exists r :: 0 <= r < |c.reports| && c.reports[r].versionId == id && c.reports[r].hash == hash && !c.reports[r].valid
  }

  lemma OneReport(c: Catalog, a: nat, b: nat)
    requires ReportsOk(c) && a < |c.reports| && b < |c.reports|
    ensures c.reports[a].versionId == c.reports[b].versionId && c.reports[a].hash == c.reports[b].hash ==> a == b
  {
    if c.reports[a].versionId == c.reports[b].versionId && c.reports[a].hash == c.reports[b].hash {
      assert c.reports[a].importId == c.reports[b].importId;
    }
  }

  lemma InvalidBars(c: Catalog, id: Id, hash: Hash)
    requires Evidence(c) && id < |c.versions| && FoundInvalid(c, id, hash) && c.versions[id].contentHash == hash
    ensures c.versions[id].status == Draft || c.versions[id].status == Validated
  {
    assert HashesOk(c, id);
    var r :| 0 <= r < |c.reports| && c.reports[r].versionId == id && c.reports[r].hash == hash && !c.reports[r].valid;
    if c.versions[id].reportId.Some? && c.versions[id].reportId.value < |c.reports| {
      OneReport(c, c.versions[id].reportId.value, r);
    }
  }

  lemma StepKeepsReports(c: Catalog, hashOf: Bundle -> Hash, step: Step)
    ensures c.reports <= After(c, hashOf, step).reports && |c.versions| <= |After(c, hashOf, step).versions|
  {
    if step.ActivateStep? && After(c, hashOf, step) != c {
      ActivateVersions(c, step.id, step.hash);
    }
  }

  /** Content that a version's first report found invalid never becomes approved or active in that
      version, although a later validation may find it valid: reports are kept, and the first one
      for an import is the only one. */
  lemma {:induction false} InvalidForGood(c: Catalog, hashOf: Bundle -> Hash, steps: seq<Step>, id: Id, hash: Hash)
    requires Inv(c, hashOf) && id < |c.versions| && FoundInvalid(c, id, hash)
    ensures var e := AfterAll(c, hashOf, steps);
      && id < |e.versions| && FoundInvalid(e, id, hash)
      && (e.versions[id].contentHash == hash ==> e.versions[id].status == Draft || e.versions[id].status == Validated)
    decreases |steps|
  {
    if |steps| > 0 {
      var r := After(c, hashOf, steps[0]);
      StepKeepsReports(c, hashOf, steps[0]);
      StepKeepsInv(c, hashOf, steps[0]);
      var k :| 0 <= k < |c.reports| && c.reports[k].versionId == id && c.reports[k].hash == hash && !c.reports[k].valid;
      assert r.reports[k] == c.reports[k];
      InvalidForGood(r, hashOf, steps[1..], id, hash);
    } else if c.versions[id].contentHash == hash {
      InvalidBars(c, id, hash);
    }
  }

  lemma AfterThree(c: Catalog, hashOf: Bundle -> Hash, first: Step, second: Step, third: Step)
    ensures AfterAll(c, hashOf, [first, second, third])
         == After(After(After(c, hashOf, first), hashOf, second), hashOf, third)
  {
    var steps := [first, second, third];
    assert steps[1..] == [second, third] && [second, third][1..] == [third] && [third][1..] == [];
    var end := After(After(After(c, hashOf, first), hashOf, second), hashOf, third);
    assert AfterAll(end, hashOf, []) == end;
    assert AfterAll(After(After(c, hashOf, first), hashOf, second), hashOf, [third]) == end;
  }

  /** The catalog after the first import of a version, and after a second one with other content. */
  function FirstDraft(scope: Text, version: Text, bundle: Bundle, hash: Hash): Catalog {
    Catalog([Version(scope, version, hash, Draft, None, None, None)], [Import(0, hash, bundle, DraftImport)],
      [], [], [Transition(0, None, Draft)], map[], [], [], [], 0)
  }

  function SecondDraft(scope: Text, version: Text, a: Bundle, hashA: Hash, b: Bundle, hashB: Hash): Catalog {
    Catalog([Version(scope, version, hashB, Draft, None, None, None)],
      [Import(0, hashA, a, SupersededImport), Import(0, hashB, b, DraftImport)],
      [], [], [Transition(0, None, Draft), Transition(0, Some(Draft), Draft)], map[], [], [], [], 0)
  }

  lemma FirstDraftIsSaved(scope: Text, version: Text, bundle: Bundle, hash: Hash)
    ensures AfterSaveDraft(EMPTY, scope, version, bundle, hash) == (FirstDraft(scope, version, bundle, hash), Ok(0))
  {
    var v := Version(scope, version, hash, Draft, None, None, None);
    assert EMPTY.versions + [v] == [v];
    assert EMPTY.imports + [Import(0, hash, bundle, DraftImport)] == [Import(0, hash, bundle, DraftImport)];
    assert EMPTY.transitions + [Transition(0, None, Draft)] == [Transition(0, None, Draft)];
  }

  /** The first draft, once its content has been found invalid. */
  function RefutedDraft(scope: Text, version: Text, bundle: Bundle, hash: Hash): Catalog {
    FirstDraft(scope, version, bundle, hash).(
      imports := [Import(0, hash, bundle, InvalidImport)], reports := [Report(0, 0, hash, false)])
  }

  lemma DraftIsRefuted(scope: Text, version: Text, bundle: Bundle, hash: Hash)
    ensures AfterValidation(FirstDraft(scope, version, bundle, hash), 0, bundle, hash, false)
         == (RefutedDraft(scope, version, bundle, hash), Ok(0))
  {
    var c := FirstDraft(scope, version, bundle, hash);
    assert c.reports + [Report(0, 0, hash, false)] == [Report(0, 0, hash, false)];
    assert c.imports[0 := c.imports[0].(status := InvalidImport)] == [Import(0, hash, bundle, InvalidImport)];
  }

  lemma LateValidationIsRefused(scope: Text, version: Text, bundle: Bundle, hash: Hash)
    ensures var e := AfterValidation(RefutedDraft(scope, version, bundle, hash), 0, bundle, hash, true).0;
      && |e.versions| == 1 && e.versions[0].status == Validated && e.versions[0].validatedHash == Some(hash)
      && AfterApprove(e, 0, hash).1 == Err(ReportInvalid)
  {
    var c := RefutedDraft(scope, version, bundle, hash);
    assert ImportOf(c, 0, hash) == 0 && ReportOf(c, 0, hash) == 0;
    ValidationTables(c, 0, bundle, hash, true);
  }

  /** So it happens: content is imported, found invalid, and found valid by a later validation. The
      version is validated, and cannot be approved. */
  lemma FoundValidTooLate(hashOf: Bundle -> Hash, scope: Text, version: Text, bundle: Bundle)
    ensures var e := AfterAll(EMPTY, hashOf,
        [SaveDraftStep(scope, version, bundle), ValidateStep(0, bundle, false), ValidateStep(0, bundle, true)]);
      && |e.versions| == 1 && e.versions[0].status == Validated && e.versions[0].validatedHash == Some(hashOf(bundle))
      && AfterApprove(e, 0, hashOf(bundle)).1 == Err(ReportInvalid)
  {
    AfterThree(EMPTY, hashOf, SaveDraftStep(scope, version, bundle), ValidateStep(0, bundle, false),
      ValidateStep(0, bundle, true));
    FirstDraftIsSaved(scope, version, bundle, hashOf(bundle));
    DraftIsRefuted(scope, version, bundle, hashOf(bundle));
    LateValidationIsRefused(scope, version, bundle, hashOf(bundle));
  }

  lemma {:induction false} NewestIff(imports: seq<Import>, id: Id)
    ensures Newest(imports, id).Some? <==> exists i :: 0 <= i < |imports| && Loadable(imports[i], id)
  {
    if |imports| > 0 {
      NewestIff(imports[..|imports| - 1], id);
    }
  }

  /** The version exists and may be given new content, and has this other content now. */
  predicate Replaces(c: Catalog, id: Id, scope: Text, version: Text, hash: Hash) {
    && id < |c.versions|
    && id == Find(c.versions, (v: Version) => v.scope == scope && v.version == version)
    && c.versions[id].status != Active && c.versions[id].status != Archived
    && c.versions[id].contentHash != hash
  }

  /** Giving a version new content makes it a draft. That draft can be loaded for validation, and its
      way back to draft is logged, exactly when the content had not been imported into the version
      before: content that is restored can neither be loaded nor be seen in the log. */
  lemma RestoredContentIsLost(c: Catalog, id: Id, scope: Text, version: Text, bundle: Bundle, hash: Hash)
    requires Replaces(c, id, scope, version, hash)
    ensures var (r, outcome) := AfterSaveDraft(c, scope, version, bundle, hash);
      && outcome == Ok(id) && r.versions[id].status == Draft
      && (LoadDraft(r, id).Some? <==> ImportOf(c, id, hash) == |c.imports|)
      && (r.transitions != c.transitions <==> ImportOf(c, id, hash) == |c.imports|)
  {
    var (r, outcome) := AfterSaveDraft(c, scope, version, bundle, hash);
    var superseded := Supersede(c.imports, id);
    SupersedeFinds(c.imports, id, hash);
    NewestIff(r.imports, id);
    if ImportOf(c, id, hash) == |c.imports| {
      assert Loadable(r.imports[|c.imports|], id);
    } else {
      assert r.imports == superseded;
    }
  }

  lemma SecondDraftIsSaved(scope: Text, version: Text, a: Bundle, hashA: Hash, b: Bundle, hashB: Hash)
    requires hashA != hashB
    ensures AfterSaveDraft(FirstDraft(scope, version, a, hashA), scope, version, b, hashB)
         == (SecondDraft(scope, version, a, hashA, b, hashB), Ok(0))
  {
    var c := FirstDraft(scope, version, a, hashA);
    var superseded := Supersede(c.imports, 0);
    assert superseded == [Import(0, hashA, a, SupersededImport)];
    assert c.versions[0 := Reset(c.versions[0], hashB)] == [Version(scope, version, hashB, Draft, None, None, None)];
    assert superseded + [Import(0, hashB, b, DraftImport)] == SecondDraft(scope, version, a, hashA, b, hashB).imports;
    assert c.transitions + [Transition(0, Some(Draft), Draft)]
        == SecondDraft(scope, version, a, hashA, b, hashB).transitions;
    assert WithContent(c, scope, version, hashB) == Ok((c.(versions := [Version(scope, version, hashB, Draft, None, None, None)],
      imports := superseded), 0, Some(Draft)));
  }

  lemma FirstImportIsFound(c: Catalog, hash: Hash)
    requires |c.imports| > 0 && c.imports[0].versionId == 0 && c.imports[0].hash == hash
    ensures ImportOf(c, 0, hash) == 0
  {
  }

  /** So it happens: a version is given content `a`, then `b`, then `a` again. It is a draft that
      validation cannot load, and the log shows two drafts and not three. */
  lemma RestoredDraftIsLost(hashOf: Bundle -> Hash, scope: Text, version: Text, a: Bundle, b: Bundle)
    requires hashOf(a) != hashOf(b)
    ensures var e := AfterAll(EMPTY, hashOf,
        [SaveDraftStep(scope, version, a), SaveDraftStep(scope, version, b), SaveDraftStep(scope, version, a)]);
      && |e.versions| == 1 && e.versions[0].status == Draft && e.versions[0].contentHash == hashOf(a)
      && LoadDraft(e, 0).None? && |e.transitions| == 2
  {
    var second := SecondDraft(scope, version, a, hashOf(a), b, hashOf(b));
    AfterThree(EMPTY, hashOf, SaveDraftStep(scope, version, a), SaveDraftStep(scope, version, b),
      SaveDraftStep(scope, version, a));
    FirstDraftIsSaved(scope, version, a, hashOf(a));
    SecondDraftIsSaved(scope, version, a, hashOf(a), b, hashOf(b));
    FirstImportIsFound(second, hashOf(a));
    RestoredContentIsLost(second, 0, scope, version, a, hashOf(a));
  }

  lemma SupersedeFinds(imports: seq<Import>, id: Id, hash: Hash)
    ensures var p := (i: Import) => i.versionId == id && i.hash == hash;
      Find(Supersede(imports, id), p) == Find(imports, p)
  {
    var p := (i: Import) => i.versionId == id && i.hash == hash;
    var a, b := Find(Supersede(imports, id), p), Find(imports, p);
    var s := Supersede(imports, id);
    assert forall i :: 0 <= i < |imports| ==> p(s[i]) == p(imports[i]);
  }
}
