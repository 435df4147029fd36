/** Projects, their calculations and their saved revisions, as tables, and each transaction on
    them as one step. A calculation is two steps: reading and computing, and later storing.
    Request hashes are represented by the requests themselves, and rows of generated id by their
    position or by an id that has not been used. */
module ProjectStore {
  import opened Wrappers
  import opened JsText
  import opened CanonicalJson
  import RevisionEvidence

  type Id = nat
  type Time = int

  // ---- who may do what ------------------------------------------------------------------------------

  datatype Role = Designer | Reviewer | Administrator | Viewer

  /** Who acts; the name is what a snapshot of the actor shows. */
  datatype Actor = Actor(id: Id, role: Role, name: Text)

  datatype Access = AllProjects | OwnedProjects | NoProjects

  function WriteAccess(role: Role): Access {
    match role
    case Administrator => AllProjects
    case Designer | Reviewer => OwnedProjects
    case Viewer => NoProjects
  }

  function HistoryAccess(role: Role): Access {
    if role == Designer then OwnedProjects else AllProjects
  }

  predicate Permits(access: Access, actor: Actor, ownerId: Id) {
    access == AllProjects || (access == OwnedProjects && ownerId == actor.id)
  }

  /** The capabilities to create, edit, calculate and save, which the same roles have. */
  predicate CanWork(role: Role) {
    role != Viewer
  }

  /** The capabilities to check and to approve, which the same roles have. */
  predicate CanReview(role: Role) {
    role == Reviewer || role == Administrator
  }

  // ---- the tables -------------------------------------------------------------------------------------

  datatype Pair = Pair(catalogId: Id, ruleSetId: Id)

  datatype Reference = Reference(snapshotId: Id, version: Text, contentHash: Text)

  datatype Project = Project(ownerId: Id, draftVersion: nat, pair: Pair, document: Json)

  datatype Impact = NoImpact | ReviewRequired | BlocksApproval

  datatype Warning = Warning(identity: Text, impact: Impact)

  datatype CalculationInput = CalculationInput(
    runId: Id, fingerprint: Text, projectId: Id, catalog: Reference, rules: Reference, parts: Json)

  datatype CalculationResult = CalculationResult(
    runId: Id, fingerprint: Text, engineVersion: Text, catalog: Reference, rules: Reference,
    approvalReady: bool, warnings: seq<Warning>, bomLines: seq<Json>)

  /** A row of `calculation_drafts`; a project has at most one. */
  datatype Calculation = Calculation(
    id: Id, draftVersion: nat, fingerprint: Text, engineVersion: Text, pair: Pair,
    input: CalculationInput, result: CalculationResult)

  /** A calculation that has been computed and waits to be stored. */
  datatype Job = Job(
    projectId: Id, actor: Actor, idempotencyKey: Text, expectedVersion: nat, pair: Pair,
    input: CalculationInput, result: CalculationResult)

  datatype ProjectSnapshot = ProjectSnapshot(id: Id, ownerId: Id, draftVersion: nat, document: Json)

  datatype WarningSummary = WarningSummary(total: nat, blocks: nat, review: nat)

  /** What a revision saves and never changes. */
  datatype Payload = Payload(
    name: Text, comment: Text, author: Actor, createdAt: Time, sourceDraftVersion: nat,
    calculationRunId: Id, fingerprint: Text, engineVersion: Text, catalog: Reference, rules: Reference,
    project: ProjectSnapshot, input: CalculationInput, result: CalculationResult,
    approvalReady: bool, warningSummary: WarningSummary)

  datatype Status = Calculated | Checked | Approved | Archived

  type Checksums = RevisionEvidence.Checksums

  /** A revision; those of the first schema version have no payload and no checksums here. */
  datatype Revision = Revision(
    projectId: Id, number: nat, status: Status, payload: Option<Payload>, checksums: Option<Checksums>,
    checkedAt: Option<Time>, approvedAt: Option<Time>)

  datatype BomRow = BomRow(revisionId: Id, order: nat, line: Json)

  datatype WarningRow = WarningRow(revisionId: Id, order: nat, warning: Warning)

  datatype Action = Check | Approve

  datatype Reason = ForbiddenReason | StaleReason | InvalidReason

  datatype Attempt = Attempt(action: Action, revisionId: Id, actorId: Id, idempotencyKey: Text)

  datatype EventKind =
    | Saved
    | Advanced(action: Action)
    | Rejected(reason: Reason, attempt: Attempt, request: Request)

  datatype Event = Event(
    revisionId: Id, actorId: Id, kind: EventKind, prior: Option<Status>, resulting: Option<Status>, at: Time)

  datatype Approval = Approval(revisionId: Id, actorId: Id, decidedAt: Time)

  datatype Request =
    | CreateRequest(document: Json)
    | ReplaceRequest(expectedVersion: nat, document: Json)
    | CalculateRequest(expectedVersion: nat)
    | SaveRequest(expectedVersion: nat, expectedLatest: nat, runId: Id, fingerprint: Text, name: Text, comment: Text)
    | TransitionRequest(expectedLatest: nat, fingerprint: Text, comment: Text)

  datatype Scope =
    | CreateScope(actorId: Id)
    | DraftScope(projectId: Id, actorId: Id)
    | CalculateScope(projectId: Id, actorId: Id)
    | SaveScope(projectId: Id, actorId: Id)
    | TransitionScope(action: Action, revisionId: Id, actorId: Id)

  datatype Response =
    | ProjectResponse(projectId: Id, version: nat)
    | CalculationResponse(runId: Id)
    | RevisionResponse(revisionId: Id, number: nat, status: Status)

  type RecordKey = (Scope, Text)

  datatype Record = Record(request: Request, response: Response)

  /** A rejection that the service has been told of and is about to record itself. */
  datatype Rejection = Rejection(actor: Actor, reason: Reason, attempt: Attempt, request: Request)

  datatype Failure =
    | Forbidden | NotFound | KeyConflict | StaleVersion | SnapshotMissing
    | ValidationFailed | CalculationFailed | InvalidTransition

  datatype Reply = Reply(response: Response, replayed: bool)

  type Outcome = Result<Reply, Failure>

  datatype Store = Store(
    projects: map<Id, Project>,
    activePairs: seq<Pair>,
    jobs: seq<Job>,
    calculations: map<Id, Calculation>,
    revisions: seq<Revision>,
    bomRows: seq<BomRow>,
    warningRows: seq<WarningRow>,
    events: seq<Event>,
    approvals: seq<Approval>,
    records: map<RecordKey, Record>,
    owed: set<Rejection>)

  // ---- code that is not part of this model ---------------------------------------------------------------

  /** What a calculation input is compiled from. */
  datatype Source = Source(projectId: Id, document: Json, draftVersion: nat, pair: Pair, actorId: Id)

  /** Compiling a draft (nothing, when it has blocking errors), fingerprinting what was compiled,
      the engine (nothing, when it fails), the two reference tables, and the checksums of a revision
      of a project under a number. Catalog versions and rule sets that have been active keep their
      content. */
  datatype World = World(
    compile: Source -> Option<Json>,
    fingerprint: Json -> Text,
    calculate: CalculationInput -> Option<CalculationResult>,
    catalogs: Id -> Reference,
    ruleSets: Id -> Reference,
    checksums: (Id, nat, Payload) -> Checksums)

  /** Rows refer to themselves, and the engine copies what identifies its input. */
  ghost predicate WellBehaved(w: World) {
    && (forall id :: w.catalogs(id).snapshotId == id)
    && (forall id :: w.ruleSets(id).snapshotId == id)
    && forall input :: w.calculate(input).Some? ==>
         var r := w.calculate(input).value;
         && r.runId == input.runId && r.fingerprint == input.fingerprint
         && r.catalog == input.catalog && r.rules == input.rules
  }

  function InputOf(w: World, source: Source, parts: Json, runId: Id): CalculationInput {
    CalculationInput(runId, w.fingerprint(parts), source.projectId, w.catalogs(source.pair.catalogId),
      w.ruleSets(source.pair.ruleSetId), parts)
  }

  // ---- queries -----------------------------------------------------------------------------------------------

  /** The answer to a key that has been used in its scope. */
  function Replay(s: Store, scope: Scope, key: Text, request: Request): Option<Outcome> {
    if (scope, key) !in s.records then None
    else
      var record := s.records[(scope, key)];
      Some(if record.request == request then Ok(Reply(record.response, true)) else Err(KeyConflict))
  }

  /** Locking a project to write: its row, or why not. */
  function Writable(s: Store, projectId: Id, actor: Actor): Result<Project, Failure> {
    if WriteAccess(actor.role) == NoProjects then Err(Forbidden)
    else if projectId !in s.projects then Err(NotFound)
    else if !Permits(WriteAccess(actor.role), actor, s.projects[projectId].ownerId) then Err(NotFound)
    else Ok(s.projects[projectId])
  }

  function LargestNumber(revisions: seq<Revision>, projectId: Id): nat {
    if |revisions| == 0 then 0
    else
      var rest, last := LargestNumber(revisions[..|revisions| - 1], projectId), revisions[|revisions| - 1];
      if last.projectId == projectId && last.number > rest then last.number else rest
  }

  /** The largest number that is not archived. */
  function LatestNumber(revisions: seq<Revision>, projectId: Id): nat {
    if |revisions| == 0 then 0
    else
      var rest, last := LatestNumber(revisions[..|revisions| - 1], projectId), revisions[|revisions| - 1];
      if last.projectId == projectId && last.status != Archived && last.number > rest then last.number else rest
  }

  function CountImpact(warnings: seq<Warning>, impact: Impact): nat {
    if |warnings| == 0 then 0
    else CountImpact(warnings[..|warnings| - 1], impact) + if warnings[|warnings| - 1].impact == impact then 1 else 0
  }

  function Summary(warnings: seq<Warning>): WarningSummary {
    WarningSummary(|warnings|, CountImpact(warnings, BlocksApproval), CountImpact(warnings, ReviewRequired))
  }

  function CountBlockers(rows: seq<WarningRow>, revisionId: Id): nat {
    if |rows| == 0 then 0
    else
      var last := rows[|rows| - 1];
      CountBlockers(rows[..|rows| - 1], revisionId)
      + if last.revisionId == revisionId && last.warning.impact == BlocksApproval then 1 else 0
  }

  predicate HasPayload(s: Store, revisionId: Id) {
    revisionId < |s.revisions| && s.revisions[revisionId].payload.Some?
  }

  // ---- project transactions --------------------------------------------------------------------------------------

  function AfterCreate(s: Store, actor: Actor, document: Json, key: Text, newId: Id): (Store, Outcome) {
    var scope, request := CreateScope(actor.id), CreateRequest(document);
    if !CanWork(actor.role) then (s, Err(Forbidden))
    else if Replay(s, scope, key, request).Some? then (s, Replay(s, scope, key, request).value)
    else if |s.activePairs| == 0 then (s, Err(SnapshotMissing))
    else
      var response := ProjectResponse(newId, 1);
      (s.(projects := s.projects[newId := Project(actor.id, 1, s.activePairs[0], document)],
          records := s.records[(scope, key) := Record(request, response)]),
       Ok(Reply(response, false)))
  }

  function AfterReplace(s: Store, actor: Actor, projectId: Id, expected: nat, document: Json, key: Text): (Store, Outcome) {
    var scope, request := DraftScope(projectId, actor.id), ReplaceRequest(expected, document);
    if Writable(s, projectId, actor).Err? then (s, Err(Writable(s, projectId, actor).error))
    else if Replay(s, scope, key, request).Some? then (s, Replay(s, scope, key, request).value)
    else
      var current := s.projects[projectId];
      if current.draftVersion != expected then (s, Err(StaleVersion))
      else if |s.activePairs| == 0 then (s, Err(SnapshotMissing))
      else
        var next := current.(draftVersion := current.draftVersion + 1, pair := s.activePairs[0], document := document);
        var response := ProjectResponse(projectId, next.draftVersion);
        (s.(projects := s.projects[projectId := next],
            records := s.records[(scope, key) := Record(request, response)]),
         Ok(Reply(response, false)))
  }

  /** Reading the draft and its catalog, compiling and calculating. It writes nothing; the job is
      what the caller goes on with. */
  function AfterBegin(s: Store, w: World, actor: Actor, projectId: Id, expected: nat, key: Text, runId: Id): (Store, Outcome) {
    var scope, request := CalculateScope(projectId, actor.id), CalculateRequest(expected);
    if Writable(s, projectId, actor).Err? then (s, Err(Writable(s, projectId, actor).error))
    else if Replay(s, scope, key, request).Some? then (s, Replay(s, scope, key, request).value)
    else
      var project := s.projects[projectId];
      var source := Source(projectId, project.document, project.draftVersion, project.pair, actor.id);
      if project.pair !in s.activePairs then (s, Err(SnapshotMissing))
      else if project.draftVersion != expected then (s, Err(StaleVersion))
      else
        match w.compile(source)
        case None => (s, Err(ValidationFailed))
        case Some(parts) =>
          var input := InputOf(w, source, parts, runId);
          match w.calculate(input)
          case None => (s, Err(CalculationFailed))
          case Some(result) =>
            (s.(jobs := s.jobs + [Job(projectId, actor, key, expected, project.pair, input, result)]),
             Ok(Reply(CalculationResponse(runId), false)))
  }

  function CalculationOf(job: Job): Calculation {
    Calculation(job.input.runId, job.expectedVersion, job.input.fingerprint, job.result.engineVersion, job.pair,
      job.input, job.result)
  }

  function AfterStore(s: Store, job: Job): (Store, Outcome) {
    var scope, request := CalculateScope(job.projectId, job.actor.id), CalculateRequest(job.expectedVersion);
    if Writable(s, job.projectId, job.actor).Err? then (s, Err(Writable(s, job.projectId, job.actor).error))
    else if Replay(s, scope, job.idempotencyKey, request).Some? then
      (s, Replay(s, scope, job.idempotencyKey, request).value)
    else if s.projects[job.projectId].draftVersion != job.expectedVersion then (s, Err(StaleVersion))
    else if job.pair !in s.activePairs then (s, Err(SnapshotMissing))
    else
      var response := CalculationResponse(job.input.runId);
      (s.(calculations := s.calculations[job.projectId := CalculationOf(job)],
          records := s.records[(scope, job.idempotencyKey) := Record(request, response)]),
       Ok(Reply(response, false)))
  }

  /** The current calculation, with its `stale` flag. */
  function CurrentCalculation(s: Store, projectId: Id): Option<(Calculation, bool)>
    requires projectId in s.projects
  {
    if projectId !in s.calculations then None
    else Some((s.calculations[projectId], s.calculations[projectId].draftVersion != s.projects[projectId].draftVersion))
  }

  // ---- saving a revision ---------------------------------------------------------------------------------------------

  /** The evidence that a stored calculation carries about itself agrees with its row, with the
      reference tables and with the project. */
  predicate Consistent(w: World, c: Calculation, project: Project, projectId: Id) {
    && c.id == c.input.runId
    && c.id == c.result.runId
    && c.fingerprint == c.input.fingerprint
    && c.fingerprint == c.result.fingerprint
    && c.engineVersion == c.result.engineVersion
    && c.pair.catalogId == c.input.catalog.snapshotId
    && c.pair.catalogId == c.result.catalog.snapshotId
    && w.catalogs(c.pair.catalogId).version == c.input.catalog.version
    && w.catalogs(c.pair.catalogId).version == c.result.catalog.version
    && w.catalogs(c.pair.catalogId).contentHash == c.input.catalog.contentHash
    && w.catalogs(c.pair.catalogId).contentHash == c.result.catalog.contentHash
    && c.pair.ruleSetId == c.input.rules.snapshotId
    && c.pair.ruleSetId == c.result.rules.snapshotId
    && w.ruleSets(c.pair.ruleSetId).version == c.input.rules.version
    && w.ruleSets(c.pair.ruleSetId).version == c.result.rules.version
    && w.ruleSets(c.pair.ruleSetId).contentHash == c.input.rules.contentHash
    && w.ruleSets(c.pair.ruleSetId).contentHash == c.result.rules.contentHash
    && c.pair == project.pair
    && c.input.projectId == projectId
  }

  function PayloadOf(c: Calculation, project: Project, projectId: Id, actor: Actor, request: Request, now: Time): Payload
    requires request.SaveRequest?
  {
    Payload(request.name, request.comment, actor, now, request.expectedVersion, c.id, c.fingerprint, c.engineVersion,
      c.input.catalog, c.input.rules,
      ProjectSnapshot(projectId, project.ownerId, project.draftVersion, project.document),
      c.input, c.result, c.result.approvalReady, Summary(c.result.warnings))
  }

  function BomRows(revisionId: Id, lines: seq<Json>): (r: seq<BomRow>)
    ensures |r| == |lines|
    ensures forall i :: 0 <= i < |lines| ==> r[i] == BomRow(revisionId, i, lines[i])
  {
    seq(|lines|, i requires 0 <= i < |lines| => BomRow(revisionId, i, lines[i]))
  }

  function WarningRows(revisionId: Id, warnings: seq<Warning>): (r: seq<WarningRow>)
    ensures |r| == |warnings|
    ensures forall i :: 0 <= i < |warnings| ==> r[i] == WarningRow(revisionId, i, warnings[i])
  {
    seq(|warnings|, i requires 0 <= i < |warnings| => WarningRow(revisionId, i, warnings[i]))
  }

  /** Why a save is refused once it is not a replay, in the order of the checks. */
  function SaveFailure(s: Store, w: World, projectId: Id, request: Request): Option<Failure>
    requires projectId in s.projects && request.SaveRequest?
  {
    if s.projects[projectId].draftVersion != request.expectedVersion then Some(StaleVersion)
    else if LargestNumber(s.revisions, projectId) != request.expectedLatest then Some(StaleVersion)
    else if projectId !in s.calculations || s.calculations[projectId].id != request.runId then Some(InvalidTransition)
    else if s.calculations[projectId].draftVersion != request.expectedVersion then Some(StaleVersion)
    else if s.calculations[projectId].fingerprint != request.fingerprint then Some(StaleVersion)
    else if !Consistent(w, s.calculations[projectId], s.projects[projectId], projectId) then Some(StaleVersion)
    else None
  }

  function Saving(s: Store, w: World, projectId: Id, actor: Actor, request: Request, key: Text, now: Time): (Store, Outcome)
    requires projectId in s.projects && projectId in s.calculations && request.SaveRequest?
  {
    var c, revisionId, number := s.calculations[projectId], |s.revisions|, LargestNumber(s.revisions, projectId) + 1;
    var payload := PayloadOf(c, s.projects[projectId], projectId, actor, request, now);
    var response := RevisionResponse(revisionId, number, Calculated);
    (s.(revisions := s.revisions + [Revision(projectId, number, Calculated, Some(payload),
          Some(w.checksums(projectId, number, payload)), None, None)],
        bomRows := s.bomRows + BomRows(revisionId, c.result.bomLines),
        warningRows := s.warningRows + WarningRows(revisionId, c.result.warnings),
        events := s.events + [Event(revisionId, actor.id, Saved, None, Some(Calculated), now)],
        records := s.records[(SaveScope(projectId, actor.id), key) := Record(request, response)]),
     Ok(Reply(response, false)))
  }

  function AfterSave(s: Store, w: World, actor: Actor, projectId: Id, request: Request, key: Text, now: Time): (Store, Outcome)
    requires request.SaveRequest?
  {
    var scope := SaveScope(projectId, actor.id);
    if Writable(s, projectId, actor).Err? then (s, Err(Writable(s, projectId, actor).error))
    else if Replay(s, scope, key, request).Some? then (s, Replay(s, scope, key, request).value)
    else if SaveFailure(s, w, projectId, request).Some? then (s, Err(SaveFailure(s, w, projectId, request).value))
    else Saving(s, w, projectId, actor, request, key, now)
  }

  // ---- checking and approving --------------------------------------------------------------------------------------------

  function Prior(action: Action): Status {
    if action == Check then Calculated else Checked
  }

  function Resulting(action: Action): Status {
    if action == Check then Checked else Approved
  }

  function ReasonOf(failure: Failure): Reason {
    if failure == StaleVersion then StaleReason else InvalidReason
  }

  function FailureOf(reason: Reason): Failure {
    match reason
    case ForbiddenReason => Forbidden
    case StaleReason => StaleVersion
    case InvalidReason => InvalidTransition
  }

  predicate IsRejection(e: Event, attempt: Attempt) {
    e.revisionId == attempt.revisionId && e.actorId == attempt.actorId && e.kind.Rejected? && e.kind.attempt == attempt
  }

  /** The recorded rejection of an attempt, if there is one. */
  function PriorRejection(events: seq<Event>, attempt: Attempt): (r: Option<Event>)
    ensures r.Some? ==> r.value.kind.Rejected?
  {
    if |events| == 0 then None
    else if IsRejection(events[0], attempt) then Some(events[0])
    else PriorRejection(events[1..], attempt)
  }

  /** Why a revision cannot advance, in the order of the checks. */
  function AdvanceFailure(s: Store, action: Action, revisionId: Id, request: Request): Option<Failure>
    requires HasPayload(s, revisionId) && request.TransitionRequest?
  {
    var row := s.revisions[revisionId];
    if request.expectedLatest != row.number || LatestNumber(s.revisions, row.projectId) != row.number then
      Some(StaleVersion)
    else if row.payload.value.fingerprint != request.fingerprint then Some(StaleVersion)
    else if row.status != Prior(action) then Some(InvalidTransition)
    else if action == Approve && !row.payload.value.approvalReady then Some(InvalidTransition)
    else if action == Approve && CountBlockers(s.warningRows, revisionId) > 0 then Some(InvalidTransition)
    else None
  }

  function RejectionEvent(s: Store, rejection: Rejection, now: Time): Event
    requires rejection.attempt.revisionId < |s.revisions|
  {
    var id := rejection.attempt.revisionId;
    Event(id, rejection.actor.id, Rejected(rejection.reason, rejection.attempt, rejection.request),
      Some(s.revisions[id].status), None, now)
  }

  function Advancing(s: Store, actor: Actor, attempt: Attempt, request: Request, now: Time): (Store, Outcome)
    requires HasPayload(s, attempt.revisionId)
  {
    var id, action := attempt.revisionId, attempt.action;
    var row := s.revisions[id];
    var next := if action == Check then row.(status := Checked, checkedAt := Some(now))
                else row.(status := Approved, approvedAt := Some(now));
    var response := RevisionResponse(id, row.number, next.status);
    (s.(revisions := s.revisions[id := next],
        approvals := if action == Approve then s.approvals + [Approval(id, actor.id, now)] else s.approvals,
        events := s.events + [Event(id, actor.id, Advanced(action), Some(Prior(action)), Some(Resulting(action)), now)],
        records := s.records[(TransitionScope(action, id, actor.id), attempt.idempotencyKey) := Record(request, response)]),
     Ok(Reply(response, false)))
  }

  /** The repository's transition, for an actor with the capability. A rejection is committed
      before it is thrown, and the service is left to record it once more. */
  function AfterTransition(
      s: Store, actor: Actor, action: Action, revisionId: Id, request: Request, key: Text, now: Time): (Store, Outcome)
    requires request.TransitionRequest?
  {
    var attempt := Attempt(action, revisionId, actor.id, key);
    var scope := TransitionScope(action, revisionId, actor.id);
    if !CanReview(actor.role) then (s, Err(Forbidden))
    else if !HasPayload(s, revisionId) then (s, Err(NotFound))
    else if Replay(s, scope, key, request).Some? then (s, Replay(s, scope, key, request).value)
    else
      match PriorRejection(s.events, attempt)
      case Some(prior) =>
        if prior.kind.request != request then (s, Err(KeyConflict))
        else
          var again := Rejection(actor, prior.kind.reason, attempt, request);
          (if prior.kind.reason == ForbiddenReason then s else s.(owed := s.owed + {again}),
           Err(FailureOf(prior.kind.reason)))
      case None =>
        match AdvanceFailure(s, action, revisionId, request)
        case Some(failure) =>
          var rejection := Rejection(actor, ReasonOf(failure), attempt, request);
          (s.(events := s.events + [RejectionEvent(s, rejection, now)], owed := s.owed + {rejection}), Err(failure))
        case None => Advancing(s, actor, attempt, request, now)
  }

  /** The history of the revision is visible to the actor. */
  predicate Visible(s: Store, revisionId: Id, actor: Actor) {
    && HasPayload(s, revisionId)
    && s.revisions[revisionId].projectId in s.projects
    && Permits(HistoryAccess(actor.role), actor, s.projects[s.revisions[revisionId].projectId].ownerId)
  }

  /** Recording a rejection, by the service: the result tells whether there was anything to record it at. */
  function AfterRecordRejection(s: Store, rejection: Rejection, now: Time): (Store, Result<bool, Failure>) {
    var prior := PriorRejection(s.events, rejection.attempt);
    if !Visible(s, rejection.attempt.revisionId, rejection.actor) then (s, Ok(false))
    else if prior.Some? then
      (s, if prior.value.kind.request != rejection.request then Err(KeyConflict) else Ok(true))
    else (s.(events := s.events + [RejectionEvent(s, rejection, now)]), Ok(true))
  }

  /** The service's check or approve, when nothing comes between its transactions. */
  function AfterCheckOrApprove(
      s: Store, actor: Actor, action: Action, revisionId: Id, request: Request, key: Text, now: Time): (Store, Outcome)
    requires request.TransitionRequest?
  {
    var attempt := Attempt(action, revisionId, actor.id, key);
    if !CanReview(actor.role) then
      var (r, recorded) := AfterRecordRejection(s, Rejection(actor, ForbiddenReason, attempt, request), now);
      (r, Err(if recorded.Err? then recorded.error else Forbidden))
    else
      var (t, outcome) := AfterTransition(s, actor, action, revisionId, request, key, now);
      if outcome.Err? && (outcome.error == StaleVersion || outcome.error == InvalidTransition) then
        var (r, recorded) := AfterRecordRejection(t, Rejection(actor, ReasonOf(outcome.error), attempt, request), now);
        (r, if recorded.Err? then Err(recorded.error) else outcome)
      else (t, outcome)
  }

  // ---- what a reader is offered ----------------------------------------------------------------------------------------------

  datatype Unavailable = NotAuthorized | NotLatestRevision | InvalidStatus | ApprovalNotReady | BlockingWarnings

  /** Why check and approve are not offered; `None` when they are. */
  function CheckAction(s: Store, actor: Actor, revisionId: Id): Option<Unavailable>
    requires HasPayload(s, revisionId)
  {
    var row := s.revisions[revisionId];
    if !CanReview(actor.role) then Some(NotAuthorized)
    else if row.number != LatestNumber(s.revisions, row.projectId) then Some(NotLatestRevision)
    else if row.status != Calculated then Some(InvalidStatus)
    else None
  }

  function ApproveAction(s: Store, actor: Actor, revisionId: Id): Option<Unavailable>
    requires HasPayload(s, revisionId)
  {
    var row := s.revisions[revisionId];
    if !CanReview(actor.role) then Some(NotAuthorized)
    else if row.number != LatestNumber(s.revisions, row.projectId) then Some(NotLatestRevision)
    else if row.status != Checked then Some(InvalidStatus)
    else if !row.payload.value.approvalReady then Some(ApprovalNotReady)
    else if row.payload.value.warningSummary.blocks > 0 then Some(BlockingWarnings)
    else None
  }
}
