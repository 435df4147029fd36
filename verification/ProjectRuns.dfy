/** Runs of the project tables: transactions of any callers, with any roles, in any order. A
    calculation's read and its store are separate steps, and the catalog may change in between. */
module ProjectRuns {
  import opened Wrappers
  import opened JsText
  import opened CanonicalJson
  import opened ProjectStore

  datatype Step =
    | CreateStep(actor: Actor, document: Json, key: Text, newId: Id)
    | ReplaceStep(actor: Actor, projectId: Id, expected: nat, document: Json, key: Text)
    | BeginStep(actor: Actor, projectId: Id, expected: nat, key: Text, runId: Id)
    | StoreStep(job: nat)
    | SaveStep(actor: Actor, projectId: Id, request: Request, key: Text, now: Time)
    | TransitionStep(actor: Actor, action: Action, revisionId: Id, request: Request, key: Text, now: Time)
    | RecordStep(rejection: Rejection, now: Time)
    | CatalogStep(pairs: seq<Pair>)

  /** New ids are new. The service records a rejection when the actor lacks the capability, or
      when the repository has told it of one. */
  predicate Enabled(s: Store, step: Step) {
    match step
    case CreateStep(_, _, _, newId) => newId !in s.projects
    case ReplaceStep(_, _, _, _, _) => true
    case BeginStep(_, _, _, _, runId) => forall i :: 0 <= i < |s.jobs| ==> s.jobs[i].input.runId != runId
    case StoreStep(job) => job < |s.jobs|
    case SaveStep(_, _, request, _, _) => request.SaveRequest?
    case TransitionStep(_, _, _, request, _, _) => request.TransitionRequest?
    case RecordStep(rejection, _) =>
      && rejection.attempt.actorId == rejection.actor.id
      && if rejection.reason == ForbiddenReason then !CanReview(rejection.actor.role) else rejection in s.owed
    case CatalogStep(_) => true
  }

  /** The tables after a step, and what the caller is told. */
  function Effect(s: Store, w: World, step: Step): (Store, Option<Outcome>)
    requires Enabled(s, step)
  {
    match step
    case CreateStep(actor, document, key, newId) =>
      var (r, o) := AfterCreate(s, actor, document, key, newId); (r, Some(o))
    case ReplaceStep(actor, projectId, expected, document, key) =>
      var (r, o) := AfterReplace(s, actor, projectId, expected, document, key); (r, Some(o))
    case BeginStep(actor, projectId, expected, key, runId) =>
      var (r, o) := AfterBegin(s, w, actor, projectId, expected, key, runId); (r, Some(o))
    case StoreStep(job) =>
      var (r, o) := AfterStore(s, s.jobs[job]); (r, Some(o))
    case SaveStep(actor, projectId, request, key, now) =>
      var (r, o) := AfterSave(s, w, actor, projectId, request, key, now); (r, Some(o))
    case TransitionStep(actor, action, revisionId, request, key, now) =>
      var (r, o) := AfterTransition(s, actor, action, revisionId, request, key, now); (r, Some(o))
    case RecordStep(rejection, now) => (AfterRecordRejection(s, rejection, now).0, None)
    case CatalogStep(pairs) => (s.(activePairs := pairs), None)
  }

  function After(s: Store, w: World, step: Step): Store
    requires Enabled(s, step)
  {
    Effect(s, w, step).0
  }

  predicate Run(s: Store, w: World, steps: seq<Step>)
    decreases |steps|
  {
    |steps| == 0 || (Enabled(s, steps[0]) && Run(After(s, w, steps[0]), w, steps[1..]))
  }

  function End(s: Store, w: World, steps: seq<Step>): Store
    requires Run(s, w, steps)
    decreases |steps|
  {
    if |steps| == 0 then s else End(After(s, w, steps[0]), w, steps[1..])
  }

  /** Before the first step there may be revisions of the first schema version, with their own
      numbers, and nothing else. */
  predicate Initial(s: Store) {
    && s.projects == map[] && s.jobs == [] && s.calculations == map[]
    && s.bomRows == [] && s.warningRows == [] && s.events == [] && s.approvals == []
    && s.records == map[] && s.owed == {}
    && (forall i :: 0 <= i < |s.revisions| ==> s.revisions[i].payload.None?)
    && forall i, j :: 0 <= i < j < |s.revisions| ==>
         s.revisions[i].projectId != s.revisions[j].projectId || s.revisions[i].number != s.revisions[j].number
  }
}
