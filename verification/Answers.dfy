/** Which answer each transaction gives, told from roles, owners, keys, versions and the log. */
module Answers {
  import opened Wrappers
  import opened JsText
  import opened CanonicalJson
  import opened ProjectStore
  import opened ProjectRuns
  import opened ProjectAccess
  import opened ProjectProvenance
  import opened RevisionLifecycle

  // ---- who, and under which key ---------------------------------------------------------------------------

  /** The answer that comes before any check of the content: there is no such project for the actor, or
      the key has been used. */
  function Before(s: Store, actor: Actor, projectId: Id, scope: Scope, key: Text, request: Request): Option<Outcome> {
    if actor.role == Viewer then Some(Err(Forbidden))
    else if projectId !in s.projects || !MayWrite(actor, s.projects[projectId].ownerId) then Some(Err(NotFound))
    else if (scope, key) !in s.records then None
    else if s.records[(scope, key)].request != request then Some(Err(KeyConflict))
    else Some(Ok(Reply(s.records[(scope, key)].response, true)))
  }

  lemma BeforeIff(s: Store, actor: Actor, projectId: Id, scope: Scope, key: Text, request: Request)
    ensures Before(s, actor, projectId, scope, key, request).None?
       <==> Writable(s, projectId, actor).Ok? && Replay(s, scope, key, request).None?
    ensures Writable(s, projectId, actor).Err? ==>
      Before(s, actor, projectId, scope, key, request) == Some(Err(Writable(s, projectId, actor).error))
    ensures Writable(s, projectId, actor).Ok? ==>
      Before(s, actor, projectId, scope, key, request) == Replay(s, scope, key, request)
  {
  }

  // ---- drafts and calculations ------------------------------------------------------------------------------

  /** A replacement that is neither refused nor a repeat succeeds exactly when it names the version that
      the project has and a catalog is active; a wrong version is told first. */
  lemma ReplaceAnswered(s: Store, actor: Actor, projectId: Id, expected: nat, document: Json, key: Text)
    ensures var outcome := AfterReplace(s, actor, projectId, expected, document, key).1;
      var before := Before(s, actor, projectId, DraftScope(projectId, actor.id), key, ReplaceRequest(expected, document));
      if before.Some? then outcome == before.value
      else if expected != s.projects[projectId].draftVersion then outcome == Err(StaleVersion)
      else if s.activePairs == [] then outcome == Err(SnapshotMissing)
      else outcome == Ok(Reply(ProjectResponse(projectId, expected + 1), false))
  {
    BeforeIff(s, actor, projectId, DraftScope(projectId, actor.id), key, ReplaceRequest(expected, document));
  }

  /** A calculation is computed when the project's own catalog is active, the version is the one that was
      asked for, the draft compiles and the engine does not fail. */
  lemma BeginAnswered(s: Store, w: World, actor: Actor, projectId: Id, expected: nat, key: Text, runId: Id)
    ensures var outcome := AfterBegin(s, w, actor, projectId, expected, key, runId).1;
      var before := Before(s, actor, projectId, CalculateScope(projectId, actor.id), key, CalculateRequest(expected));
      if before.Some? then outcome == before.value
      else
        var project := s.projects[projectId];
        var parts := w.compile(Source(projectId, project.document, expected, project.pair, actor.id));
        if project.pair !in s.activePairs then outcome == Err(SnapshotMissing)
        else if expected != project.draftVersion then outcome == Err(StaleVersion)
        else if parts.None? then outcome == Err(ValidationFailed)
        else if w.calculate(CalculationInput(runId, w.fingerprint(parts.value), projectId, w.catalogs(project.pair.catalogId),
                                             w.ruleSets(project.pair.ruleSetId), parts.value)).None?
        then outcome == Err(CalculationFailed)
        else outcome == Ok(Reply(CalculationResponse(runId), false))
  {
    BeforeIff(s, actor, projectId, CalculateScope(projectId, actor.id), key, CalculateRequest(expected));
  }

  /** It is stored if the project is still at that version and the catalog it was computed on is active. */
  lemma StoreAnswered(s: Store, job: Job)
    ensures var outcome := AfterStore(s, job).1;
      var before := Before(s, job.actor, job.projectId, CalculateScope(job.projectId, job.actor.id),
                           job.idempotencyKey, CalculateRequest(job.expectedVersion));
      if before.Some? then outcome == before.value
      else if job.expectedVersion != s.projects[job.projectId].draftVersion then outcome == Err(StaleVersion)
      else if job.pair !in s.activePairs then outcome == Err(SnapshotMissing)
      else outcome == Ok(Reply(CalculationResponse(job.input.runId), false))
  {
    BeforeIff(s, job.actor, job.projectId, CalculateScope(job.projectId, job.actor.id), job.idempotencyKey,
      CalculateRequest(job.expectedVersion));
  }

  // ---- saves ---------------------------------------------------------------------------------------------------

  /** The largest number of the project's revisions, or 0 if it has none. */
  ghost predicate IsLatest(s: Store, projectId: Id, n: nat) {
    && (forall i :: 0 <= i < |s.revisions| && s.revisions[i].projectId == projectId ==> s.revisions[i].number <= n)
    && (n > 0 ==> exists i :: 0 <= i < |s.revisions| && s.revisions[i].projectId == projectId && s.revisions[i].number == n)
  }

  lemma {:induction false} LargestIff(revisions: seq<Revision>, projectId: Id)
    ensures var n := LargestNumber(revisions, projectId);
      && (forall i :: 0 <= i < |revisions| && revisions[i].projectId == projectId ==> revisions[i].number <= n)
      && (n > 0 ==> exists i :: 0 <= i < |revisions| && revisions[i].projectId == projectId && revisions[i].number == n)
  {
    if |revisions| > 0 {
      LargestIff(revisions[..|revisions| - 1], projectId);
    }
  }

  /** After any run, a save that is neither refused nor a repeat is stale if the draft has another
      version, another revision is the latest, or the calculation it names is of another draft or
      has another fingerprint; it is invalid if the calculation it names is not the current one; and
      otherwise it succeeds. */
  lemma SaveAnswered(
      s: Store, w: World, steps: seq<Step>, actor: Actor, projectId: Id, request: Request, key: Text, now: Time)
    requires Initial(s) && Run(s, w, steps) && WellBehaved(w) && request.SaveRequest?
    ensures var e := End(s, w, steps);
      var outcome := AfterSave(e, w, actor, projectId, request, key, now).1;
      var before := Before(e, actor, projectId, SaveScope(projectId, actor.id), key, request);
      if before.Some? then outcome == before.value
      else if request.expectedVersion != e.projects[projectId].draftVersion then outcome == Err(StaleVersion)
      else if !IsLatest(e, projectId, request.expectedLatest) then outcome == Err(StaleVersion)
      else if projectId !in e.calculations || e.calculations[projectId].id != request.runId then
        outcome == Err(InvalidTransition)
      else if
        || e.calculations[projectId].draftVersion != request.expectedVersion
        || e.calculations[projectId].fingerprint != request.fingerprint
      then outcome == Err(StaleVersion)
      else outcome == Ok(Reply(RevisionResponse(|e.revisions|, request.expectedLatest + 1, Calculated), false))
  {
    var e := End(s, w, steps);
    BeforeIff(e, actor, projectId, SaveScope(projectId, actor.id), key, request);
    LargestIff(e.revisions, projectId);
    assert IsLatest(e, projectId, request.expectedLatest) <==> LargestNumber(e.revisions, projectId) == request.expectedLatest;
    if projectId in e.projects {
      SaveSucceedsIff(s, w, steps, projectId, request);
    }
  }

  // ---- checks and approvals ------------------------------------------------------------------------------------

  predicate Reviews(actor: Actor) {
    actor.role == Reviewer || actor.role == Administrator
  }

  /** The actor has neither succeeded with this key at this action nor been rejected. */
  predicate FirstCall(s: Store, actor: Actor, action: Action, id: Id, key: Text) {
    && (TransitionScope(action, id, actor.id), key) !in s.records
    && forall i :: 0 <= i < |s.events| ==>
         !(s.events[i].kind.Rejected? && s.events[i].kind.attempt == Attempt(action, id, actor.id, key))
  }

  lemma {:induction false} NoRejection(events: seq<Event>, attempt: Attempt)
    requires forall i :: 0 <= i < |events| ==> !(events[i].kind.Rejected? && events[i].kind.attempt == attempt)
    ensures PriorRejection(events, attempt).None?
  {
    if |events| > 0 {
      NoRejection(events[1..], attempt);
    }
  }

  lemma StaleIff(s: Store, w: World, steps: seq<Step>, action: Action, id: Id, request: Request)
    requires Initial(s) && Run(s, w, steps) && HasPayload(End(s, w, steps), id) && request.TransitionRequest?
    ensures var e := End(s, w, steps);
      AdvanceFailure(e, action, id, request) == Some(StaleVersion)
      <==> || request.expectedLatest != e.revisions[id].number || Superseded(e.revisions, id)
           || request.fingerprint != e.revisions[id].payload.value.fingerprint
  {
    InitialLifecycle(s);
    RunKeepsLifecycle(s, w, steps);
    var e := End(s, w, steps);
    assert RevisionOk(e, id);
    LatestIffNotSuperseded(e.revisions, id);
  }

  /** After any run, the first call of a check or approve under its key is stale if it does not name the
      revision's number and fingerprint or another revision supersedes this one; it is invalid if the
      log does not show that the revision has come exactly as far as the action asks, or if an approval
      is asked of a result that is not ready or has a warning that blocks; otherwise it succeeds. */
  lemma TransitionAnswered(
      s: Store, w: World, steps: seq<Step>, actor: Actor, action: Action, id: Id, request: Request, key: Text, now: Time)
    requires Initial(s) && Run(s, w, steps) && request.TransitionRequest?
    requires FirstCall(End(s, w, steps), actor, action, id, key)
    ensures var e := End(s, w, steps);
      var outcome := AfterTransition(e, actor, action, id, request, key, now).1;
      if !Reviews(actor) then outcome == Err(Forbidden)
      else if id >= |e.revisions| || e.revisions[id].payload.None? then outcome == Err(NotFound)
      else
        var row, payload := e.revisions[id], e.revisions[id].payload.value;
        if request.expectedLatest != row.number || request.fingerprint != payload.fingerprint || Superseded(e.revisions, id)
        then outcome == Err(StaleVersion)
        else if |Succeeded(e.events, id)| != (if action == Check then 1 else 2) then outcome == Err(InvalidTransition)
        else if
          && action == Approve
          && (!payload.approvalReady
              || exists i :: 0 <= i < |payload.result.warnings| && payload.result.warnings[i].impact == BlocksApproval)
        then outcome == Err(InvalidTransition)
        else outcome == Ok(Reply(RevisionResponse(id, row.number, if action == Check then Checked else Approved), false))
  {
    var e := End(s, w, steps);
    NoRejection(e.events, Attempt(action, id, actor.id, key));
    if HasPayload(e, id) {
      StaleIff(s, w, steps, action, id, request);
      AdvancesIff(s, w, steps, action, id, request);
    }
  }
}
