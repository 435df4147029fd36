/** The project and revision repositories: each method is one transaction on the tables. */
module ProjectDatabase {
  import opened Wrappers
  import opened JsText
  import opened CanonicalJson
  import opened ProjectStore

  class Database {
    var projects: map<Id, Project>
    var activePairs: seq<Pair>
    var calculations: map<Id, Calculation>
    var revisions: seq<Revision>
    var bomRows: seq<BomRow>
    var warningRows: seq<WarningRow>
    var events: seq<Event>
    var approvals: seq<Approval>
    var records: map<RecordKey, Record>

    /** What callers hold: calculations to store, and rejections to record. */
    ghost var jobs: seq<Job>
    ghost var owed: set<Rejection>

    ghost function State(): Store
      reads this
    {
      Store(projects, activePairs, jobs, calculations, revisions, bomRows, warningRows, events, approvals, records, owed)
    }

    /** A database that holds projects and retained revisions of the first schema version. */
    constructor (initial: Store)
      ensures State() == initial
    {
      projects, activePairs, calculations := initial.projects, initial.activePairs, initial.calculations;
      revisions, bomRows, warningRows := initial.revisions, initial.bomRows, initial.warningRows;
      events, approvals, records := initial.events, initial.approvals, initial.records;
      jobs, owed := initial.jobs, initial.owed;
    }

    method FindReplay(scope: Scope, key: Text, request: Request) returns (found: Option<Outcome>)
      ensures found == Replay(State(), scope, key, request)
    {
      if (scope, key) !in records {
        return None;
      }
      var existing := records[(scope, key)];
      if existing.request != request {
        return Some(Err(KeyConflict));
      }
      return Some(Ok(Reply(existing.response, true)));
    }

    method LockedProject(projectId: Id, actor: Actor) returns (row: Result<Project, Failure>)
      ensures row == Writable(State(), projectId, actor)
    {
      var access := WriteAccess(actor.role);
      if access == NoProjects {
        return Err(Forbidden);
      }
      if projectId !in projects || !Permits(access, actor, projects[projectId].ownerId) {
        return Err(NotFound);
      }
      return Ok(projects[projectId]);
    }

    method RecordIdempotency(scope: Scope, key: Text, request: Request, response: Response)
      modifies `records
      ensures State() == old(State()).(records := old(records)[(scope, key) := Record(request, response)])
    {
      records := records[(scope, key) := Record(request, response)];
    }

    method CreateProject(actor: Actor, document: Json, key: Text, newId: Id) returns (outcome: Outcome)
      modifies this
      ensures (State(), outcome) == AfterCreate(old(State()), actor, document, key, newId)
    {
      if !CanWork(actor.role) {
        return Err(Forbidden);
      }
      var scope, request := CreateScope(actor.id), CreateRequest(document);
      var existing := FindReplay(scope, key, request);
      if existing.Some? {
        return existing.value;
      }
      if |activePairs| == 0 {
        return Err(SnapshotMissing);
      }
      projects := projects[newId := Project(actor.id, 1, activePairs[0], document)];
      RecordIdempotency(scope, key, request, ProjectResponse(newId, 1));
      return Ok(Reply(ProjectResponse(newId, 1), false));
    }

    method ReplaceProject(actor: Actor, projectId: Id, expected: nat, document: Json, key: Text)
      returns (outcome: Outcome)
      modifies this
      ensures (State(), outcome) == AfterReplace(old(State()), actor, projectId, expected, document, key)
    {
      var scope, request := DraftScope(projectId, actor.id), ReplaceRequest(expected, document);
      var locked := LockedProject(projectId, actor);
      if locked.Err? {
        return Err(locked.error);
      }
      var existing := FindReplay(scope, key, request);
      if existing.Some? {
        return existing.value;
      }
      var current := locked.value;
      if current.draftVersion != expected {
        return Err(StaleVersion);
      }
      if |activePairs| == 0 {
        return Err(SnapshotMissing);
      }
      var row := current.(draftVersion := current.draftVersion + 1, pair := activePairs[0], document := document);
      projects := projects[projectId := row];
      RecordIdempotency(scope, key, request, ProjectResponse(projectId, row.draftVersion));
      return Ok(Reply(ProjectResponse(projectId, row.draftVersion), false));
    }

    /** The reading half of `calculateProject`: the job is what has to be stored. */
    method BeginCalculation(w: World, actor: Actor, projectId: Id, expected: nat, key: Text, runId: Id)
      returns (outcome: Outcome, job: Option<Job>)
      modifies `jobs
      ensures (State(), outcome) == AfterBegin(old(State()), w, actor, projectId, expected, key, runId)
      ensures jobs == if job.Some? then old(jobs) + [job.value] else old(jobs)
    {
      job := None;
      var locked := LockedProject(projectId, actor);
      if locked.Err? {
        outcome := Err(locked.error);
        return;
      }
      var existing := FindReplay(CalculateScope(projectId, actor.id), key, CalculateRequest(expected));
      if existing.Some? {
        outcome := existing.value;
        return;
      }
      var project := locked.value;
      if project.pair !in activePairs {
        outcome := Err(SnapshotMissing);
        return;
      }
      if project.draftVersion != expected {
        outcome := Err(StaleVersion);
        return;
      }
      var source := Source(projectId, project.document, project.draftVersion, project.pair, actor.id);
      var parts := w.compile(source);
      if parts.None? {
        outcome := Err(ValidationFailed);
        return;
      }
      var input := InputOf(w, source, parts.value, runId);
      var result := w.calculate(input);
      if result.None? {
        outcome := Err(CalculationFailed);
        return;
      }
      job := Some(Job(projectId, actor, key, expected, project.pair, input, result.value));
      jobs := jobs + [job.value];
      outcome := Ok(Reply(CalculationResponse(runId), false));
    }

    method StoreCalculation(job: Job) returns (outcome: Outcome)
      modifies this
      ensures (State(), outcome) == AfterStore(old(State()), job)
    {
      var scope, request := CalculateScope(job.projectId, job.actor.id), CalculateRequest(job.expectedVersion);
      var locked := LockedProject(job.projectId, job.actor);
      if locked.Err? {
        return Err(locked.error);
      }
      var existing := FindReplay(scope, job.idempotencyKey, request);
      if existing.Some? {
        return existing.value;
      }
      if locked.value.draftVersion != job.expectedVersion {
        return Err(StaleVersion);
      }
      if job.pair !in activePairs {
        return Err(SnapshotMissing);
      }
      calculations := calculations - {job.projectId};
      calculations := calculations[job.projectId := CalculationOf(job)];
      assert calculations == old(calculations)[job.projectId := CalculationOf(job)];
      RecordIdempotency(scope, job.idempotencyKey, request, CalculationResponse(job.input.runId));
      return Ok(Reply(CalculationResponse(job.input.runId), false));
    }

    method InsertBomLines(revisionId: Id, lines: seq<Json>)
      modifies `bomRows
      ensures State() == old(State()).(bomRows := old(bomRows) + BomRows(revisionId, lines))
    {
      var order := 0;
      while order < |lines|
        invariant order <= |lines|
        invariant bomRows == old(bomRows) + BomRows(revisionId, lines)[..order]
      {
        bomRows := bomRows + [BomRow(revisionId, order, lines[order])];
        order := order + 1;
      }
    }

    method InsertWarnings(revisionId: Id, warnings: seq<Warning>)
      modifies `warningRows
      ensures State() == old(State()).(warningRows := old(warningRows) + WarningRows(revisionId, warnings))
    {
      var order := 0;
      while order < |warnings|
        invariant order <= |warnings|
        invariant warningRows == old(warningRows) + WarningRows(revisionId, warnings)[..order]
      {
        warningRows := warningRows + [WarningRow(revisionId, order, warnings[order])];
        order := order + 1;
      }
    }

    /** The checks of a save, in order. */
    method CheckSave(w: World, projectId: Id, project: Project, request: Request) returns (failure: Option<Failure>)
      requires request.SaveRequest? && projectId in projects && projects[projectId] == project
      ensures failure == SaveFailure(State(), w, projectId, request)
    {
      if project.draftVersion != request.expectedVersion {
        return Some(StaleVersion);
      }
      var latest := LargestNumber(revisions, projectId);
      if latest != request.expectedLatest {
        return Some(StaleVersion);
      }
      if projectId !in calculations || calculations[projectId].id != request.runId {
        return Some(InvalidTransition);
      }
      var calculation := calculations[projectId];
      if calculation.draftVersion != request.expectedVersion {
        return Some(StaleVersion);
      }
      if calculation.fingerprint != request.fingerprint {
        return Some(StaleVersion);
      }
      if !Consistent(w, calculation, project, projectId) {
        return Some(StaleVersion);
      }
      return None;
    }

    method SaveRevision(w: World, actor: Actor, projectId: Id, request: Request, key: Text, now: Time)
      returns (outcome: Outcome)
      requires request.SaveRequest?
      modifies this
      ensures (State(), outcome) == AfterSave(old(State()), w, actor, projectId, request, key, now)
    {
      var scope := SaveScope(projectId, actor.id);
      var locked := LockedProject(projectId, actor);
      if locked.Err? {
        return Err(locked.error);
      }
      var existing := FindReplay(scope, key, request);
      if existing.Some? {
        return existing.value;
      }
      var failure := CheckSave(w, projectId, locked.value, request);
      if failure.Some? {
        return Err(failure.value);
      }
      var calculation := calculations[projectId];
      var nextNumber := LargestNumber(revisions, projectId) + 1;
      var revisionId := |revisions|;
      var payload := PayloadOf(calculation, locked.value, projectId, actor, request, now);
      var checksums := w.checksums(projectId, nextNumber, payload);
      revisions := revisions + [Revision(projectId, nextNumber, Calculated, Some(payload), Some(checksums), None, None)];
      InsertBomLines(revisionId, calculation.result.bomLines);
      InsertWarnings(revisionId, calculation.result.warnings);
      events := events + [Event(revisionId, actor.id, Saved, None, Some(Calculated), now)];
      RecordIdempotency(scope, key, request, RevisionResponse(revisionId, nextNumber, Calculated));
      return Ok(Reply(RevisionResponse(revisionId, nextNumber, Calculated), false));
    }

    method CheckAdvance(action: Action, revisionId: Id, request: Request) returns (failure: Option<Failure>)
      requires request.TransitionRequest? && HasPayload(State(), revisionId)
      ensures failure == AdvanceFailure(State(), action, revisionId, request)
    {
      var row := revisions[revisionId];
      if request.expectedLatest != row.number || LatestNumber(revisions, row.projectId) != row.number {
        return Some(StaleVersion);
      }
      if row.payload.value.fingerprint != request.fingerprint {
        return Some(StaleVersion);
      }
      if row.status != Prior(action) {
        return Some(InvalidTransition);
      }
      if action == Approve {
        if !row.payload.value.approvalReady {
          return Some(InvalidTransition);
        }
        if CountBlockers(warningRows, revisionId) > 0 {
          return Some(InvalidTransition);
        }
      }
      return None;
    }

    method Transition(actor: Actor, action: Action, revisionId: Id, request: Request, key: Text, now: Time)
      returns (outcome: Outcome)
      requires request.TransitionRequest?
      modifies this
      ensures (State(), outcome) == AfterTransition(old(State()), actor, action, revisionId, request, key, now)
    {
      if !CanReview(actor.role) {
        return Err(Forbidden);
      }
      if revisionId >= |revisions| || revisions[revisionId].payload.None? {
        return Err(NotFound);
      }
      var scope := TransitionScope(action, revisionId, actor.id);
      var existing := FindReplay(scope, key, request);
      if existing.Some? {
        return existing.value;
      }
      var attempt := Attempt(action, revisionId, actor.id, key);
      var prior := PriorRejection(events, attempt);
      if prior.Some? && prior.value.kind.request != request {
        return Err(KeyConflict);
      }
      if prior.Some? {
        if prior.value.kind.reason != ForbiddenReason {
          owed := owed + {Rejection(actor, prior.value.kind.reason, attempt, request)};
        }
        return Err(FailureOf(prior.value.kind.reason));
      }
      var failure := CheckAdvance(action, revisionId, request);
      if failure.Some? {
        ghost var rejection := Rejection(actor, ReasonOf(failure.value), attempt, request);
        InsertRejectedAttempt(actor, attempt, ReasonOf(failure.value), request, now);
        owed := owed + {rejection};
        return Err(failure.value);
      }
      var row := revisions[revisionId];
      var next := if action == Check then row.(status := Checked, checkedAt := Some(now))
                  else row.(status := Approved, approvedAt := Some(now));
      if action == Approve {
        approvals := approvals + [Approval(revisionId, actor.id, now)];
      }
      revisions := revisions[revisionId := next];
      events := events + [Event(revisionId, actor.id, Advanced(action), Some(Prior(action)), Some(Resulting(action)), now)];
      RecordIdempotency(scope, key, request, RevisionResponse(revisionId, row.number, next.status));
      return Ok(Reply(RevisionResponse(revisionId, row.number, next.status), false));
    }

    method InsertRejectedAttempt(actor: Actor, attempt: Attempt, reason: Reason, request: Request, now: Time)
      requires attempt.revisionId < |revisions|
      modifies `events
      ensures State() == old(State()).(
        events := old(events) + [RejectionEvent(old(State()), Rejection(actor, reason, attempt, request), now)])
    {
      events := events + [Event(attempt.revisionId, actor.id, Rejected(reason, attempt, request),
        Some(revisions[attempt.revisionId].status), None, now)];
    }

    method RecordRejectedAttempt(actor: Actor, attempt: Attempt, reason: Reason, request: Request, now: Time)
      returns (recorded: Result<bool, Failure>)
      modifies this
      ensures (State(), recorded)
           == AfterRecordRejection(old(State()), Rejection(actor, reason, attempt, request), now)
    {
      var id := attempt.revisionId;
      if id >= |revisions| || revisions[id].payload.None? || revisions[id].projectId !in projects {
        return Ok(false);
      }
      if !Permits(HistoryAccess(actor.role), actor, projects[revisions[id].projectId].ownerId) {
        return Ok(false);
      }
      var prior := PriorRejection(events, attempt);
      if prior.Some? {
        if prior.value.kind.request != request {
          return Err(KeyConflict);
        }
        return Ok(true);
      }
      InsertRejectedAttempt(actor, attempt, reason, request, now);
      return Ok(true);
    }

    /** The service's check or approve: the repository's transition, with the rejections that the
        service records itself. */
    method CheckOrApprove(actor: Actor, action: Action, revisionId: Id, request: Request, key: Text, now: Time)
      returns (outcome: Outcome)
      requires request.TransitionRequest?
      modifies this
      ensures (State(), outcome) == AfterCheckOrApprove(old(State()), actor, action, revisionId, request, key, now)
    {
      var attempt := Attempt(action, revisionId, actor.id, key);
      if !CanReview(actor.role) {
        var recorded := RecordRejectedAttempt(actor, attempt, ForbiddenReason, request, now);
        return Err(if recorded.Err? then recorded.error else Forbidden);
      }
      outcome := Transition(actor, action, revisionId, request, key, now);
      if outcome.Err? && (outcome.error == StaleVersion || outcome.error == InvalidTransition) {
        var recorded := RecordRejectedAttempt(actor, attempt, ReasonOf(outcome.error), request, now);
        if recorded.Err? {
          return Err(recorded.error);
        }
      }
    }
  }
}
