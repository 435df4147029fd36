/** What becomes of refused requests: which of them may succeed when they are repeated. */
module Refusals {
  import opened Wrappers
  import opened JsText
  import opened CanonicalJson
  import opened ProjectStore
  import opened ProjectRuns
  import opened ProjectProvenance
  import opened RevisionLifecycle
  import opened Idempotency

  // ---- refused for want of a capability -------------------------------------------------------------------

  /** A call without the capability is refused, and is recorded as rejected exactly when the actor
      can see the revision's history. */
  lemma ForbiddenRecordedIff(s: Store, actor: Actor, action: Action, revisionId: Id, request: Request, key: Text, now: Time)
    requires request.TransitionRequest? && !CanReview(actor.role) && Unused(s, actor, action, revisionId, key)
    ensures var (r, outcome) := AfterCheckOrApprove(s, actor, action, revisionId, request, key, now);
      && outcome == Err(Forbidden)
      && (PriorRejection(r.events, Attempt(action, revisionId, actor.id, key)).Some? <==> Visible(s, revisionId, actor))
      && (!Visible(s, revisionId, actor) ==> r == s)
  {
    var attempt := Attempt(action, revisionId, actor.id, key);
    if Visible(s, revisionId, actor) {
      var e := RejectionEvent(s, Rejection(actor, ForbiddenReason, attempt, request), now);
      PriorRejectionMore(s.events, [e], attempt);
      assert [e][1..] == [];
    }
  }

  /** Not every refused attempt stays refused. When a call was refused for want of the capability
      and the actor has been made a reviewer, whatever else happened in between, the same call with
      the same key succeeds exactly when the revision can advance, the key is still unused, and the
      actor could not see the revision's history when the call was refused. */
  lemma ForbiddenThenPromoted(
      s: Store, w: World, actor: Actor, action: Action, revisionId: Id, request: Request, key: Text, now: Time,
      steps: seq<Step>, promoted: Actor, later: Time)
    requires request.TransitionRequest? && !CanReview(actor.role) && Unused(s, actor, action, revisionId, key)
    requires Run(AfterCheckOrApprove(s, actor, action, revisionId, request, key, now).0, w, steps)
    requires promoted.id == actor.id && CanReview(promoted.role)
    ensures var e := End(AfterCheckOrApprove(s, actor, action, revisionId, request, key, now).0, w, steps);
      Commits(AfterTransition(e, promoted, action, revisionId, request, key, later).1)
      <==> && !Visible(s, revisionId, actor)
           && HasPayload(e, revisionId) && AdvanceFailure(e, action, revisionId, request).None?
           && Unused(e, actor, action, revisionId, key)
  {
    var attempt := Attempt(action, revisionId, actor.id, key);
    var r := AfterCheckOrApprove(s, actor, action, revisionId, request, key, now).0;
    ForbiddenRecordedIff(s, actor, action, revisionId, request, key, now);
    assert r.records == s.records;
    if Visible(s, revisionId, actor) {
      RejectedNeverSucceeds(r, w, steps, attempt);
    }
  }

  // ---- refused saves ---------------------------------------------------------------------------------------

  lemma StepMovesOn(s: Store, w: World, step: Step, projectId: Id)
    requires Enabled(s, step) && projectId in s.projects
    ensures var r := After(s, w, step);
      && projectId in r.projects && s.projects[projectId].draftVersion <= r.projects[projectId].draftVersion
      && LargestNumber(s.revisions, projectId) <= LargestNumber(r.revisions, projectId)
  {
    var r := After(s, w, step);
    StepMovesProjects(s, w, step);
    LargestIsLargest(s.revisions, projectId);
    LargestIsLargest(r.revisions, projectId);
    forall i: nat | i < |s.revisions|
      ensures i < |r.revisions| && r.revisions[i].projectId == s.revisions[i].projectId
      ensures r.revisions[i].number == s.revisions[i].number
    {
      RowMoves(s, w, step, i);
    }
  }

  /** The draft or the history has moved past what the save expects. */
  predicate Overtaken(s: Store, projectId: Id, request: Request)
    requires projectId in s.projects && request.SaveRequest?
  {
    || request.expectedVersion < s.projects[projectId].draftVersion
    || request.expectedLatest < LargestNumber(s.revisions, projectId)
  }

  /** A save that has been overtaken is refused as stale, now and after any run. */
  lemma {:induction false} OvertakenSaveNeverSucceeds(s: Store, w: World, steps: seq<Step>, projectId: Id, request: Request)
    requires Run(s, w, steps) && request.SaveRequest? && projectId in s.projects && Overtaken(s, projectId, request)
    ensures projectId in End(s, w, steps).projects
    ensures SaveFailure(End(s, w, steps), w, projectId, request) == Some(StaleVersion)
    decreases |steps|
  {
    if |steps| > 0 {
      StepMovesOn(s, w, steps[0], projectId);
      OvertakenSaveNeverSucceeds(After(s, w, steps[0]), w, steps[1..], projectId, request);
    }
  }

  /** A refused save leaves no trace, unlike a refused check or approve: after any run, the same save
      with the same key succeeds exactly when the actor may still write, the key is still unused,
      and the save's own checks pass then. */
  lemma RefusedSaveLater(
      s: Store, w: World, actor: Actor, projectId: Id, request: Request, key: Text, now: Time,
      steps: seq<Step>, again: Actor, later: Time)
    requires request.SaveRequest? && AfterSave(s, w, actor, projectId, request, key, now).1.Err?
    requires Run(AfterSave(s, w, actor, projectId, request, key, now).0, w, steps) && again.id == actor.id
    ensures AfterSave(s, w, actor, projectId, request, key, now).0 == s
    ensures var e := End(AfterSave(s, w, actor, projectId, request, key, now).0, w, steps);
      Commits(AfterSave(e, w, again, projectId, request, key, later).1)
      <==> && Writable(e, projectId, again).Ok? && (SaveScope(projectId, actor.id), key) !in e.records
           && SaveFailure(e, w, projectId, request).None?
  {
  }

  // ---- runs in which that happens --------------------------------------------------------------------------

  const OWNER: Actor := Actor(1, Designer, [])
  const OTHER: Actor := Actor(2, Designer, [])
  const PROMOTED: Actor := Actor(2, Reviewer, [])

  /** No tables but the active catalog and rule set. */
  function Fresh(pair: Pair): Store {
    Store(map[], [pair], [], map[], [], [], [], [], [], map[], {})
  }

  function FirstSource(pair: Pair, document: Json): Source {
    Source(7, document, 1, pair, OWNER.id)
  }

  /** The document compiles, and its calculation succeeds. */
  ghost predicate Calculable(w: World, pair: Pair, document: Json) {
    && WellBehaved(w)
    && w.compile(FirstSource(pair, document)).Some?
    && w.calculate(FirstInput(w, pair, document)).Some?
  }

  function FirstInput(w: World, pair: Pair, document: Json): CalculationInput
    requires w.compile(FirstSource(pair, document)).Some?
  {
    InputOf(w, FirstSource(pair, document), w.compile(FirstSource(pair, document)).value, 0)
  }

  /** Project 7 is created and its calculation is computed, but not stored yet. */
  function Computed(w: World, pair: Pair, document: Json): Store
    requires w.compile(FirstSource(pair, document)).Some? && w.calculate(FirstInput(w, pair, document)).Some?
  {
    var input := FirstInput(w, pair, document);
    Store(map[7 := Project(OWNER.id, 1, pair, document)], [pair],
      [Job(7, OWNER, [], 1, pair, input, w.calculate(input).value)], map[], [], [], [], [], [],
      map[(CreateScope(OWNER.id), []) := Record(CreateRequest(document), ProjectResponse(7, 1))], {})
  }

  function FirstSteps(document: Json): seq<Step> {
    [CreateStep(OWNER, document, [], 7), BeginStep(OWNER, 7, 1, [], 0)]
  }

  function FirstSave(w: World, pair: Pair, document: Json): Request
    requires w.compile(FirstSource(pair, document)).Some?
  {
    SaveRequest(1, 0, 0, FirstInput(w, pair, document).fingerprint, [], [])
  }

  lemma RunOfOne(s: Store, w: World, step: Step)
    requires Enabled(s, step)
    ensures Run(s, w, [step]) && End(s, w, [step]) == After(s, w, step)
  {
    assert [step][1..] == [];
  }

  lemma FirstRun(w: World, pair: Pair, document: Json)
    requires Calculable(w, pair, document)
    ensures Initial(Fresh(pair))
    ensures Run(Fresh(pair), w, FirstSteps(document))
    ensures End(Fresh(pair), w, FirstSteps(document)) == Computed(w, pair, document)
  {
    var steps := FirstSteps(document);
    var s := Fresh(pair);
    var r := After(s, w, steps[0]);
    assert r.projects[7] == Project(OWNER.id, 1, pair, document);
    assert After(r, w, steps[1]) == Computed(w, pair, document);
    RunOfOne(r, w, steps[1]);
    assert steps[1..] == [steps[1]];
  }

  /** In a run from the start: a save that comes between the two halves of a calculation is refused,
      and once the calculation is stored the same save with the same key succeeds. */
  lemma SavedOnRepeat(w: World, pair: Pair, document: Json)
    requires Calculable(w, pair, document)
    ensures Initial(Fresh(pair)) && Run(Fresh(pair), w, FirstSteps(document))
    ensures var e, request := End(Fresh(pair), w, FirstSteps(document)), FirstSave(w, pair, document);
      && AfterSave(e, w, OWNER, 7, request, [], 0) == (e, Err(InvalidTransition))
      && Enabled(e, StoreStep(0))
      && Commits(AfterSave(After(e, w, StoreStep(0)), w, OWNER, 7, request, [], 1).1)
  {
    FirstRun(w, pair, document);
    var e, request := Computed(w, pair, document), FirstSave(w, pair, document);
    var stored := After(e, w, StoreStep(0));
    assert CompiledFrom(w, FirstInput(w, pair, document), FirstSource(pair, document));
    EvidenceIsConsistent(w, stored, 7);
    assert stored.calculations[7].id == 0;
  }

  /** The run of `SavedOnRepeat` to its end: one revision has been saved. */
  function SavedSteps(w: World, pair: Pair, document: Json): seq<Step>
    requires w.compile(FirstSource(pair, document)).Some?
  {
    FirstSteps(document) + [StoreStep(0), SaveStep(OWNER, 7, FirstSave(w, pair, document), [], 0)]
  }

  lemma {:induction false} RunsJoin(s: Store, w: World, first: seq<Step>, second: seq<Step>)
    requires Run(s, w, first) && Run(End(s, w, first), w, second)
    ensures Run(s, w, first + second) && End(s, w, first + second) == End(End(s, w, first), w, second)
    decreases |first|
  {
    if |first| == 0 {
      assert first + second == second;
    } else {
      RunsJoin(After(s, w, first[0]), w, first[1..], second);
      assert (first + second)[1..] == first[1..] + second;
    }
  }

  /** What `SavedSteps` leaves: one revision of project 7, with its saved event. */
  predicate OneSaved(e: Store, fingerprint: Text) {
    && |e.revisions| == 1 && HasPayload(e, 0) && e.revisions[0].projectId == 7 && e.revisions[0].number == 1
    && e.revisions[0].status == Calculated && e.revisions[0].payload.value.fingerprint == fingerprint
    && 7 in e.projects && e.projects[7].ownerId == OWNER.id
    && |e.events| == 1 && e.events[0].kind == Saved
    && (TransitionScope(Check, 0, OTHER.id), []) !in e.records
  }

  lemma FirstSaveSaves(s: Store, w: World, request: Request)
    requires request.SaveRequest? && Commits(AfterSave(s, w, OWNER, 7, request, [], 0).1)
    requires s.revisions == [] && s.events == [] && 7 in s.projects && s.projects[7].ownerId == OWNER.id
    requires (TransitionScope(Check, 0, OTHER.id), []) !in s.records
    ensures OneSaved(AfterSave(s, w, OWNER, 7, request, [], 0).0, request.fingerprint)
  {
  }

  /** When a save happens does not matter. */
  lemma SaveAnyTime(s: Store, w: World, request: Request, now: Time, later: Time)
    requires request.SaveRequest?
    ensures AfterSave(s, w, OWNER, 7, request, [], now).1 == AfterSave(s, w, OWNER, 7, request, [], later).1
  {
  }

  lemma SavedRun(w: World, pair: Pair, document: Json)
    requires Calculable(w, pair, document)
    ensures Run(Fresh(pair), w, SavedSteps(w, pair, document))
    ensures OneSaved(End(Fresh(pair), w, SavedSteps(w, pair, document)), FirstInput(w, pair, document).fingerprint)
  {
    FirstRun(w, pair, document);
    SavedOnRepeat(w, pair, document);
    var e, request := Computed(w, pair, document), FirstSave(w, pair, document);
    var stored, save := After(e, w, StoreStep(0)), SaveStep(OWNER, 7, request, [], 0);
    SaveAnyTime(stored, w, request, 0, 1);
    FirstSaveSaves(stored, w, request);
    RunOfOne(stored, w, save);
    var rest := [StoreStep(0), save];
    assert rest[1..] == [save];
    assert Run(e, w, rest) && End(e, w, rest) == After(stored, w, save);
    RunsJoin(Fresh(pair), w, FirstSteps(document), rest);
  }

  /** In a run from the start: the designer 2 is refused the check of a revision of project 7, which
      belongs to user 1, becomes a reviewer, and checks it with the same key. */
  lemma RefusedThenAccepted(w: World, pair: Pair, document: Json)
    requires Calculable(w, pair, document)
    ensures Initial(Fresh(pair)) && Run(Fresh(pair), w, SavedSteps(w, pair, document))
    ensures var e := End(Fresh(pair), w, SavedSteps(w, pair, document));
      var request := TransitionRequest(1, FirstInput(w, pair, document).fingerprint, []);
      var (r, refused) := AfterCheckOrApprove(e, OTHER, Check, 0, request, [], 1);
      && refused == Err(Forbidden)
      && Commits(AfterTransition(r, PROMOTED, Check, 0, request, [], 2).1)
  {
    SavedRun(w, pair, document);
    var e := End(Fresh(pair), w, SavedSteps(w, pair, document));
    var request := TransitionRequest(1, FirstInput(w, pair, document).fingerprint, []);
    var attempt := Attempt(Check, 0, OTHER.id, []);
    assert PriorRejection(e.events, attempt).None? by {
      assert e.events[1..] == [];
    }
    assert e.revisions[..0] == [];
    assert LatestNumber(e.revisions, 7) == 1;
    ForbiddenRecordedIff(e, OTHER, Check, 0, request, [], 1);
    var r := AfterCheckOrApprove(e, OTHER, Check, 0, request, [], 1).0;
    assert Run(r, w, []) && End(r, w, []) == r;
    ForbiddenThenPromoted(e, w, OTHER, Check, 0, request, [], 1, [], PROMOTED, 2);
  }
}
