/** What the transactions on projects and revisions store and answer, column by column. */
module Transactions {
  import opened Wrappers
  import opened JsText
  import opened CanonicalJson
  import opened ProjectStore
  import opened ProjectRuns
  import opened RevisionLifecycle
  import opened Idempotency

  // ---- drafts and calculations ---------------------------------------------------------------------------

  /** Everyone but a viewer creates projects, under a key not used before, and while a catalog is
      active; the new project is the creator's, at version 1, on the active catalog and rule set. */
  lemma CreateMeaning(s: Store, actor: Actor, document: Json, key: Text, newId: Id)
    ensures var (r, outcome) := AfterCreate(s, actor, document, key, newId);
      && (Commits(outcome) <==> actor.role != Viewer && (CreateScope(actor.id), key) !in s.records && |s.activePairs| > 0)
      && (!Commits(outcome) ==> r == s)
      && (Commits(outcome) ==>
            && newId in r.projects && r.projects[newId].ownerId == actor.id && r.projects[newId].draftVersion == 1
            && r.projects[newId].document == document && r.projects[newId].pair == s.activePairs[0]
            && (forall p :: p in s.projects && p != newId ==> p in r.projects && r.projects[p] == s.projects[p]))
  {
  }

  /** A replacement gives the project the new document, the next version and the active pair, and leaves
      its owner and every other project alone. */
  lemma ReplaceMeaning(s: Store, actor: Actor, projectId: Id, expected: nat, document: Json, key: Text)
    ensures var (r, outcome) := AfterReplace(s, actor, projectId, expected, document, key);
      && (!Commits(outcome) ==> r == s)
      && (Commits(outcome) ==>
            && projectId in s.projects && expected == s.projects[projectId].draftVersion && |s.activePairs| > 0
            && projectId in r.projects && r.projects[projectId].draftVersion == expected + 1
            && r.projects[projectId].document == document && r.projects[projectId].pair == s.activePairs[0]
            && r.projects[projectId].ownerId == s.projects[projectId].ownerId
            && (forall p :: p in s.projects && p != projectId ==> p in r.projects && r.projects[p] == s.projects[p])
            && r.calculations == s.calculations && r.revisions == s.revisions)
  {
  }

  /** A new job carries what was asked, the draft and the pair that were read, and the input that was
      compiled from them, under the run id and the fingerprint of what was compiled. */
  lemma BeginMeaning(s: Store, w: World, actor: Actor, projectId: Id, expected: nat, key: Text, runId: Id)
    requires AfterBegin(s, w, actor, projectId, expected, key, runId).0 != s
    ensures var r := AfterBegin(s, w, actor, projectId, expected, key, runId).0;
      && projectId in s.projects && r == s.(jobs := r.jobs) && |r.jobs| == |s.jobs| + 1 && r.jobs[..|s.jobs|] == s.jobs
      && var job, project := r.jobs[|s.jobs|], s.projects[projectId];
        && job.projectId == projectId && job.actor == actor && job.idempotencyKey == key
        && job.expectedVersion == expected == project.draftVersion && job.pair == project.pair
        && w.compile(Source(projectId, project.document, expected, project.pair, actor.id)) == Some(job.input.parts)
        && job.input.runId == runId && job.input.projectId == projectId
        && job.input.fingerprint == w.fingerprint(job.input.parts)
        && job.input.catalog == w.catalogs(project.pair.catalogId)
        && job.input.rules == w.ruleSets(project.pair.ruleSetId)
        && w.calculate(job.input) == Some(job.result)
  {
  }

  /** A calculation that is stored is the project's current one and is not stale. */
  lemma StoreMeaning(s: Store, job: Job)
    requires Commits(AfterStore(s, job).1)
    ensures var r := AfterStore(s, job).0;
      && job.projectId in r.projects && r.projects == s.projects
      && CurrentCalculation(r, job.projectId).Some?
      && var (c, stale) := CurrentCalculation(r, job.projectId).value;
        && !stale && c.id == job.input.runId && c.draftVersion == s.projects[job.projectId].draftVersion
        && c.fingerprint == job.input.fingerprint && c.engineVersion == job.result.engineVersion
        && c.pair == job.pair && c.input == job.input && c.result == job.result
  {
  }

  /** Once its draft has been replaced, a project's calculation is shown as stale. */
  lemma ReplacedIsStale(s: Store, actor: Actor, projectId: Id, expected: nat, document: Json, key: Text)
    requires Commits(AfterReplace(s, actor, projectId, expected, document, key).1)
    requires projectId in s.calculations && s.calculations[projectId].draftVersion <= expected
    ensures var r := AfterReplace(s, actor, projectId, expected, document, key).0;
      && projectId in r.projects
      && CurrentCalculation(r, projectId) == Some((s.calculations[projectId], true))
  {
  }

  // ---- saved revisions --------------------------------------------------------------------------------------

  function Impacts(warnings: seq<Warning>): (r: seq<Impact>)
    ensures |r| == |warnings| && forall i :: 0 <= i < |r| ==> r[i] == warnings[i].impact
  {
    seq(|warnings|, i requires 0 <= i < |warnings| => warnings[i].impact)
  }

  lemma {:induction false} CountMeaning(warnings: seq<Warning>, impact: Impact)
    ensures CountImpact(warnings, impact) == multiset(Impacts(warnings))[impact]
  {
    if |warnings| > 0 {
      var n := |warnings| - 1;
      CountMeaning(warnings[..n], impact);
      assert Impacts(warnings) == Impacts(warnings[..n]) + [warnings[n].impact];
    }
  }

  /** The payload holds what was asked, who asked and when, the stored document, and the calculation's
      own input and result. */
  ghost predicate Holds(p: Payload, s: Store, actor: Actor, projectId: Id, request: Request, now: Time)
    requires request.SaveRequest? && projectId in s.projects && projectId in s.calculations
  {
    var c, project := s.calculations[projectId], s.projects[projectId];
    && p.name == request.name && p.comment == request.comment && p.author == actor && p.createdAt == now
    && p.sourceDraftVersion == request.expectedVersion == project.draftVersion == c.draftVersion
    && p.calculationRunId == request.runId == c.id && p.fingerprint == request.fingerprint == c.fingerprint
    && p.engineVersion == c.engineVersion && p.input == c.input && p.result == c.result
    && p.catalog == c.input.catalog && p.rules == c.input.rules
    && p.project.id == projectId && p.project.ownerId == project.ownerId
    && p.project.draftVersion == project.draftVersion && p.project.document == project.document
    && p.approvalReady == c.result.approvalReady
    && p.warningSummary.total == |c.result.warnings|
    && p.warningSummary.blocks == multiset(Impacts(c.result.warnings))[BlocksApproval]
    && p.warningSummary.review == multiset(Impacts(c.result.warnings))[ReviewRequired]
  }

  /** Row, input and result of the calculation agree, as do the reference tables and the project. */
  ghost predicate Agrees(p: Payload, w: World, s: Store, projectId: Id)
    requires projectId in s.projects && projectId in s.calculations
  {
    var c := s.calculations[projectId];
    var catalog, rules := w.catalogs(c.pair.catalogId), w.ruleSets(c.pair.ruleSetId);
    && c.pair == s.projects[projectId].pair && p.input.projectId == projectId
    && p.input.runId == p.result.runId == p.calculationRunId
    && p.input.fingerprint == p.result.fingerprint == p.fingerprint && p.result.engineVersion == p.engineVersion
    && p.input.catalog.snapshotId == p.result.catalog.snapshotId == c.pair.catalogId
    && p.input.catalog.version == p.result.catalog.version == catalog.version
    && p.input.catalog.contentHash == p.result.catalog.contentHash == catalog.contentHash
    && p.input.rules.snapshotId == p.result.rules.snapshotId == c.pair.ruleSetId
    && p.input.rules.version == p.result.rules.version == rules.version
    && p.input.rules.contentHash == p.result.rules.contentHash == rules.contentHash
  }

  /** A save that succeeds, in any state and whatever the engine gave, adds one revision with this
      content and nothing else to the table, its checksums, its event and its record. */
  lemma SaveMeaning(s: Store, w: World, actor: Actor, projectId: Id, request: Request, key: Text, now: Time)
    requires request.SaveRequest? && Commits(AfterSave(s, w, actor, projectId, request, key, now).1)
    ensures projectId in s.projects && projectId in s.calculations
    ensures var (r, outcome), n := AfterSave(s, w, actor, projectId, request, key, now), |s.revisions|;
      && |r.revisions| == n + 1 && r.revisions[..n] == s.revisions && HasPayload(r, n)
      && var row := r.revisions[n];
        && Holds(row.payload.value, s, actor, projectId, request, now) && Agrees(row.payload.value, w, s, projectId)
        && row.projectId == projectId && row.status == Calculated && row.checkedAt.None? && row.approvedAt.None?
        && row.number == request.expectedLatest + 1
        && row.checksums == Some(w.checksums(projectId, row.number, row.payload.value))
        && r.events == s.events + [Event(n, actor.id, Saved, None, Some(Calculated), now)]
        && outcome == Ok(Reply(RevisionResponse(n, row.number, Calculated), false))
        && r.records == s.records[(SaveScope(projectId, actor.id), key) := Record(request, outcome.value.response)]
        && r.projects == s.projects && r.calculations == s.calculations && r.approvals == s.approvals
  {
    CountMeaning(s.calculations[projectId].result.warnings, BlocksApproval);
    CountMeaning(s.calculations[projectId].result.warnings, ReviewRequired);
  }

  /** Each line and each warning of the result has its row, numbered from 0 in their order. */
  ghost predicate Lined(s: Store, r: Store, id: Id, result: CalculationResult) {
    && |r.bomRows| == |s.bomRows| + |result.bomLines| && r.bomRows[..|s.bomRows|] == s.bomRows
    && (forall i :: 0 <= i < |result.bomLines| ==>
          var row := r.bomRows[|s.bomRows| + i]; row.revisionId == id && row.order == i && row.line == result.bomLines[i])
    && |r.warningRows| == |s.warningRows| + |result.warnings| && r.warningRows[..|s.warningRows|] == s.warningRows
    && (forall i :: 0 <= i < |result.warnings| ==>
          var row := r.warningRows[|s.warningRows| + i];
          row.revisionId == id && row.order == i && row.warning == result.warnings[i])
  }

  /** The same save adds the rows of its lines and warnings. */
  lemma SavedRows(s: Store, w: World, actor: Actor, projectId: Id, request: Request, key: Text, now: Time)
    requires request.SaveRequest? && Commits(AfterSave(s, w, actor, projectId, request, key, now).1)
    ensures projectId in s.calculations
    ensures Lined(s, AfterSave(s, w, actor, projectId, request, key, now).0, |s.revisions|, s.calculations[projectId].result)
  {
  }

  /** The revision's name, comment, version, run and fingerprint are those of the request that is
      recorded for its save, whose response names the revision. */
  ghost predicate AsRequested(s: Store, id: Id)
    requires HasPayload(s, id)
  {
    var row, p := s.revisions[id], s.revisions[id].payload.value;
    row.number >= 1 && exists key: Text ::
      && (SaveScope(row.projectId, p.author.id), key) in s.records
      && var record := s.records[(SaveScope(row.projectId, p.author.id), key)];
        && record.request == SaveRequest(p.sourceDraftVersion, row.number - 1, p.calculationRunId, p.fingerprint, p.name, p.comment)
        && record.response == RevisionResponse(id, row.number, Calculated)
  }

  ghost predicate AllAsRequested(s: Store) {
    forall id: Id :: HasPayload(s, id) ==> AsRequested(s, id)
  }

  lemma StaysAsRequested(s: Store, w: World, step: Step, id: Id)
    requires Enabled(s, step) && HasPayload(s, id) && AsRequested(s, id)
    ensures HasPayload(After(s, w, step), id)
    ensures AsRequested(After(s, w, step), id)
  {
    RowMoves(s, w, step, id);
    StepRecords(s, w, step);
    var row, p := s.revisions[id], s.revisions[id].payload.value;
    var key: Text :|
      && (SaveScope(row.projectId, p.author.id), key) in s.records
      && var record := s.records[(SaveScope(row.projectId, p.author.id), key)];
        && record.request == SaveRequest(p.sourceDraftVersion, row.number - 1, p.calculationRunId, p.fingerprint, p.name, p.comment)
        && record.response == RevisionResponse(id, row.number, Calculated);
    assert (SaveScope(row.projectId, p.author.id), key) in After(s, w, step).records;
  }

  lemma NewAsRequested(s: Store, w: World, step: Step, id: Id)
    requires Enabled(s, step) && |s.revisions| <= id && HasPayload(After(s, w, step), id)
    ensures AsRequested(After(s, w, step), id)
  {
    var r := After(s, w, step);
    NewNumberIsNext(s, w, step);
    SaveMeaning(s, w, step.actor, step.projectId, step.request, step.key, step.now);
    assert (SaveScope(step.projectId, step.actor.id), step.key) in r.records;
  }

  lemma StepKeepsRequested(s: Store, w: World, step: Step)
    requires Enabled(s, step) && AllAsRequested(s)
    ensures AllAsRequested(After(s, w, step))
  {
    forall id: Id | HasPayload(After(s, w, step), id)
      ensures AsRequested(After(s, w, step), id)
    {
      if id < |s.revisions| {
        RowMoves(s, w, step, id);
        StaysAsRequested(s, w, step, id);
      } else {
        NewAsRequested(s, w, step, id);
      }
    }
  }

  lemma {:induction false} RunKeepsRequested(s: Store, w: World, steps: seq<Step>)
    requires AllAsRequested(s) && Run(s, w, steps)
    ensures AllAsRequested(End(s, w, steps))
    decreases |steps|
  {
    if |steps| > 0 {
      StepKeepsRequested(s, w, steps[0]);
      RunKeepsRequested(After(s, w, steps[0]), w, steps[1..]);
    }
  }

  /** After any run, every saved revision is named, commented and based as the request says that is
      recorded under its author's key. */
  lemma RevisionsAreAsRequested(s: Store, w: World, steps: seq<Step>, id: Id)
    requires Initial(s) && Run(s, w, steps) && HasPayload(End(s, w, steps), id)
    ensures AsRequested(End(s, w, steps), id)
  {
    RunKeepsRequested(s, w, steps);
  }

  // ---- checks, approvals and rejections -------------------------------------------------------------------------

  /** A check or approve that succeeds advances the one row, at that time, adds its event and its record,
      and an approval if it is one. */
  lemma AdvanceMeaning(s: Store, actor: Actor, action: Action, id: Id, request: Request, key: Text, now: Time)
    requires request.TransitionRequest? && Commits(AfterTransition(s, actor, action, id, request, key, now).1)
    ensures id < |s.revisions|
    ensures var (r, outcome), a := AfterTransition(s, actor, action, id, request, key, now), s.revisions[id];
      var status := if action == Check then Checked else Approved;
      && (actor.role == Reviewer || actor.role == Administrator)
      && r.revisions == s.revisions[id := if action == Check then a.(status := Checked, checkedAt := Some(now))
                                          else a.(status := Approved, approvedAt := Some(now))]
      && r.events == s.events + [Event(id, actor.id, Advanced(action),
                                       Some(if action == Check then Calculated else Checked), Some(status), now)]
      && r.approvals == s.approvals + (if action == Check then [] else [Approval(id, actor.id, now)])
      && outcome == Ok(Reply(RevisionResponse(id, a.number, status), false))
      && r.records == s.records[(TransitionScope(action, id, actor.id), key) := Record(request, outcome.value.response)]
  {
  }

  /** A rejected call is logged with its reason, its content and the status that the revision had. */
  lemma RejectionMeaning(s: Store, actor: Actor, action: Action, id: Id, request: Request, key: Text, now: Time)
    requires request.TransitionRequest? && CanReview(actor.role) && Unused(s, actor, action, id, key)
    requires HasPayload(s, id) && AdvanceFailure(s, action, id, request).Some?
    ensures var (r, outcome) := AfterTransition(s, actor, action, id, request, key, now);
      var reason := if AdvanceFailure(s, action, id, request).value == StaleVersion then StaleReason else InvalidReason;
      && outcome == Err(AdvanceFailure(s, action, id, request).value)
      && (outcome == Err(StaleVersion) || outcome == Err(InvalidTransition))
      && r.events == s.events + [Event(id, actor.id, Rejected(reason, Attempt(action, id, actor.id, key), request),
                                       Some(s.revisions[id].status), None, now)]
      && r.revisions == s.revisions && r.records == s.records && r.approvals == s.approvals
  {
  }

  /** After any run, a call that was rejected is given the same answer again, without effect on the
      tables; with other content its key is in conflict. */
  lemma RejectedIsAnsweredAlike(
      s: Store, w: World, actor: Actor, action: Action, id: Id, request: Request, key: Text, now: Time,
      steps: seq<Step>, again: Actor, other: Request, later: Time)
    requires request.TransitionRequest? && CanReview(actor.role) && Unused(s, actor, action, id, key)
    requires HasPayload(s, id) && AdvanceFailure(s, action, id, request).Some?
    requires Run(AfterTransition(s, actor, action, id, request, key, now).0, w, steps)
    requires again.id == actor.id && (again.role == Reviewer || again.role == Administrator) && other.TransitionRequest?
    ensures var e := End(AfterTransition(s, actor, action, id, request, key, now).0, w, steps);
      var (r, outcome) := AfterTransition(e, again, action, id, other, key, later);
      && outcome == (if other == request then Err(AdvanceFailure(s, action, id, request).value) else Err(KeyConflict))
      && r == e.(owed := r.owed)
  {
    var attempt := Attempt(action, id, actor.id, key);
    var r := AfterTransition(s, actor, action, id, request, key, now).0;
    RejectionMeaning(s, actor, action, id, request, key, now);
    var event := r.events[|s.events|];
    PriorRejectionMore(s.events, [event], attempt);
    assert [event][1..] == [];
    assert PriorRejection(r.events, attempt) == Some(event);
    RejectionStays(r, w, steps, attempt);
    RejectedNeverSucceeds(r, w, steps, attempt);
    PayloadsNeverChange(r, w, steps, id);
  }

  lemma {:induction false} RejectionStays(s: Store, w: World, steps: seq<Step>, attempt: Attempt)
    requires Run(s, w, steps) && PriorRejection(s.events, attempt).Some?
    ensures PriorRejection(End(s, w, steps).events, attempt) == PriorRejection(s.events, attempt)
    decreases |steps|
  {
    if |steps| > 0 {
      var r := After(s, w, steps[0]);
      StepEvents(s, w, steps[0]);
      PriorRejectionMore(s.events, r.events[|s.events|..], attempt);
      assert r.events == s.events + r.events[|s.events|..];
      RejectionStays(r, w, steps[1..], attempt);
    }
  }

  /** A revision's history is visible to everyone but designers, and to a designer if the project is
      the designer's own. */
  lemma VisibleIff(s: Store, id: Id, actor: Actor)
    ensures Visible(s, id, actor) <==>
      && HasPayload(s, id) && s.revisions[id].projectId in s.projects
      && (actor.role != Designer || s.projects[s.revisions[id].projectId].ownerId == actor.id)
  {
  }
}
