/** The life of a revision, over all runs: numbers grow by one, payloads never change, the event log
    replays to the row, approvals are unique and deserved, and a superseded revision stands still. */
module RevisionLifecycle {
  import opened Wrappers
  import opened JsText
  import opened CanonicalJson
  import opened ProjectStore
  import opened ProjectRuns

  // ---- what belongs to a revision -----------------------------------------------------------------------

  function Succeeded(events: seq<Event>, id: Id): seq<Event> {
    if |events| == 0 then []
    else
      var last := events[|events| - 1];
      Succeeded(events[..|events| - 1], id) + if last.revisionId == id && !last.kind.Rejected? then [last] else []
  }

  function ApprovalsOf(approvals: seq<Approval>, id: Id): seq<Approval> {
    if |approvals| == 0 then []
    else
      var last := approvals[|approvals| - 1];
      ApprovalsOf(approvals[..|approvals| - 1], id) + if last.revisionId == id then [last] else []
  }

  function WarningsOf(rows: seq<WarningRow>, id: Id): seq<WarningRow> {
    if |rows| == 0 then []
    else
      var last := rows[|rows| - 1];
      WarningsOf(rows[..|rows| - 1], id) + if last.revisionId == id then [last] else []
  }

  function LinesOf(rows: seq<BomRow>, id: Id): seq<BomRow> {
    if |rows| == 0 then []
    else
      var last := rows[|rows| - 1];
      LinesOf(rows[..|rows| - 1], id) + if last.revisionId == id then [last] else []
  }

  predicate IsSaved(e: Event, payload: Payload) {
    e.kind == Saved && e.prior == None && e.resulting == Some(Calculated) && e.at == payload.createdAt
    && e.actorId == payload.author.id
  }

  predicate IsAdvance(e: Event, action: Action, at: Option<Time>) {
    && e.kind == Advanced(action) && Some(e.at) == at
    && e.prior == Some(if action == Check then Calculated else Checked)
    && e.resulting == Some(if action == Check then Checked else Approved)
  }

  /** The successful events are saved, then checked, then approved, as far as the status says, and
      carry the row's times; exactly an approved revision has an approval, and it has one. */
  predicate Replays(es: seq<Event>, approvals: seq<Approval>, row: Revision)
    requires row.payload.Some?
  {
    match row.status
    case Calculated =>
      && |es| == 1 && IsSaved(es[0], row.payload.value)
      && row.checkedAt.None? && row.approvedAt.None? && approvals == []
    case Checked =>
      && |es| == 2 && IsSaved(es[0], row.payload.value) && IsAdvance(es[1], Check, row.checkedAt)
      && row.approvedAt.None? && approvals == []
    case Approved =>
      && |es| == 3 && IsSaved(es[0], row.payload.value) && IsAdvance(es[1], Check, row.checkedAt)
      && IsAdvance(es[2], Approve, row.approvedAt)
      && approvals == [Approval(es[2].revisionId, es[2].actorId, es[2].at)]
    case Archived => false
  }

  predicate RowsMatch(s: Store, id: Id)
    requires HasPayload(s, id)
  {
    var result := s.revisions[id].payload.value.result;
    && WarningsOf(s.warningRows, id) == WarningRows(id, result.warnings)
    && LinesOf(s.bomRows, id) == BomRows(id, result.bomLines)
    && CountBlockers(s.warningRows, id) == CountImpact(result.warnings, BlocksApproval)
    && s.revisions[id].payload.value.warningSummary == Summary(result.warnings)
  }

  predicate RevisionOk(s: Store, id: Id)
    requires HasPayload(s, id)
  {
    var row := s.revisions[id];
    && row.number >= 1
    && Replays(Succeeded(s.events, id), ApprovalsOf(s.approvals, id), row)
    && RowsMatch(s, id)
    && (row.status == Approved ==> row.payload.value.approvalReady && CountBlockers(s.warningRows, id) == 0)
  }

  predicate DistinctNumbers(revisions: seq<Revision>) {
    forall i, j :: 0 <= i < j < |revisions| ==>
      revisions[i].projectId != revisions[j].projectId || revisions[i].number != revisions[j].number
  }

  /** No row refers to a revision that does not exist. */
  predicate RefersBack(s: Store) {
    && (forall i :: 0 <= i < |s.events| ==> s.events[i].revisionId < |s.revisions|)
    && (forall i :: 0 <= i < |s.approvals| ==> s.approvals[i].revisionId < |s.revisions|)
    && (forall i :: 0 <= i < |s.warningRows| ==> s.warningRows[i].revisionId < |s.revisions|)
    && (forall i :: 0 <= i < |s.bomRows| ==> s.bomRows[i].revisionId < |s.revisions|)
  }

  ghost predicate Lifecycle(s: Store) {
    && DistinctNumbers(s.revisions)
    && RefersBack(s)
    && forall id: Id :: HasPayload(s, id) ==> RevisionOk(s, id)
  }

  // ---- appending to the tables --------------------------------------------------------------------------------

  lemma SucceededMore(events: seq<Event>, e: Event, id: Id)
    ensures Succeeded(events + [e], id)
         == Succeeded(events, id) + if e.revisionId == id && !e.kind.Rejected? then [e] else []
  {
    assert (events + [e])[..|events|] == events;
  }

  lemma ApprovalsMore(approvals: seq<Approval>, a: Approval, id: Id)
    ensures ApprovalsOf(approvals + [a], id) == ApprovalsOf(approvals, id) + if a.revisionId == id then [a] else []
  {
    assert (approvals + [a])[..|approvals|] == approvals;
  }

  lemma OneWarningMore(rows: seq<WarningRow>, row: WarningRow, j: Id)
    ensures WarningsOf(rows + [row], j) == WarningsOf(rows, j) + if j == row.revisionId then [row] else []
    ensures CountBlockers(rows + [row], j)
         == CountBlockers(rows, j) + if row.revisionId == j && row.warning.impact == BlocksApproval then 1 else 0
  {
    assert (rows + [row])[..|rows|] == rows;
  }

  lemma WarningRowsSplit(id: Id, warnings: seq<Warning>)
    requires |warnings| > 0
    ensures var n := |warnings| - 1;
      WarningRows(id, warnings) == WarningRows(id, warnings[..n]) + [WarningRow(id, n, warnings[n])]
  {
  }

  lemma {:induction false} WarningsMore(rows: seq<WarningRow>, id: Id, warnings: seq<Warning>, j: Id)
    ensures WarningsOf(rows + WarningRows(id, warnings), j)
         == WarningsOf(rows, j) + if j == id then WarningRows(id, warnings) else []
    ensures CountBlockers(rows + WarningRows(id, warnings), j)
         == CountBlockers(rows, j) + if j == id then CountImpact(warnings, BlocksApproval) else 0
    decreases |warnings|
  {
    if |warnings| == 0 {
      assert rows + WarningRows(id, warnings) == rows;
    } else {
      var n := |warnings| - 1;
      var before, last := WarningRows(id, warnings[..n]), WarningRow(id, n, warnings[n]);
      WarningsMore(rows, id, warnings[..n], j);
      WarningRowsSplit(id, warnings);
      OneWarningMore(rows + before, last, j);
      assert rows + (before + [last]) == rows + before + [last];
      assert j == id ==> WarningsOf(rows, j) + before + [last] == WarningsOf(rows, j) + (before + [last]);
    }
  }

  lemma OneLineMore(rows: seq<BomRow>, row: BomRow, j: Id)
    ensures LinesOf(rows + [row], j) == LinesOf(rows, j) + if j == row.revisionId then [row] else []
  {
    assert (rows + [row])[..|rows|] == rows;
  }

  lemma BomRowsSplit(id: Id, lines: seq<Json>)
    requires |lines| > 0
    ensures var n := |lines| - 1; BomRows(id, lines) == BomRows(id, lines[..n]) + [BomRow(id, n, lines[n])]
  {
  }

  lemma {:induction false} LinesMore(rows: seq<BomRow>, id: Id, lines: seq<Json>, j: Id)
    ensures LinesOf(rows + BomRows(id, lines), j) == LinesOf(rows, j) + if j == id then BomRows(id, lines) else []
    decreases |lines|
  {
    if |lines| == 0 {
      assert rows + BomRows(id, lines) == rows;
    } else {
      var n := |lines| - 1;
      var before, last := BomRows(id, lines[..n]), BomRow(id, n, lines[n]);
      LinesMore(rows, id, lines[..n], j);
      BomRowsSplit(id, lines);
      OneLineMore(rows + before, last, j);
      assert rows + (before + [last]) == rows + before + [last];
      assert j == id ==> LinesOf(rows, j) + before + [last] == LinesOf(rows, j) + (before + [last]);
    }
  }

  lemma {:induction false} NoneYet(s: Store, id: Id)
    requires RefersBack(s) && id >= |s.revisions|
    ensures Succeeded(s.events, id) == [] && ApprovalsOf(s.approvals, id) == []
    ensures WarningsOf(s.warningRows, id) == [] && LinesOf(s.bomRows, id) == [] && CountBlockers(s.warningRows, id) == 0
  {
    NoEvents(s.events, id);
    NoApprovals(s.approvals, id);
    NoWarnings(s.warningRows, id);
    NoLines(s.bomRows, id);
  }

  lemma {:induction false} NoEvents(events: seq<Event>, id: Id)
    requires forall i :: 0 <= i < |events| ==> events[i].revisionId != id
    ensures Succeeded(events, id) == []
  {
    if |events| > 0 {
      NoEvents(events[..|events| - 1], id);
    }
  }

  lemma {:induction false} NoApprovals(approvals: seq<Approval>, id: Id)
    requires forall i :: 0 <= i < |approvals| ==> approvals[i].revisionId != id
    ensures ApprovalsOf(approvals, id) == []
  {
    if |approvals| > 0 {
      NoApprovals(approvals[..|approvals| - 1], id);
    }
  }

  lemma {:induction false} NoWarnings(rows: seq<WarningRow>, id: Id)
    requires forall i :: 0 <= i < |rows| ==> rows[i].revisionId != id
    ensures WarningsOf(rows, id) == [] && CountBlockers(rows, id) == 0
  {
    if |rows| > 0 {
      NoWarnings(rows[..|rows| - 1], id);
    }
  }

  lemma {:induction false} NoLines(rows: seq<BomRow>, id: Id)
    requires forall i :: 0 <= i < |rows| ==> rows[i].revisionId != id
    ensures LinesOf(rows, id) == []
  {
    if |rows| > 0 {
      NoLines(rows[..|rows| - 1], id);
    }
  }

  // ---- numbers -------------------------------------------------------------------------------------------------

  lemma {:induction false} LargestIsLargest(revisions: seq<Revision>, projectId: Id)
    ensures forall i :: 0 <= i < |revisions| && revisions[i].projectId == projectId ==>
      revisions[i].number <= LargestNumber(revisions, projectId)
    ensures LargestNumber(revisions, projectId) > 0 ==>
      exists i :: 0 <= i < |revisions| && revisions[i].projectId == projectId
        && revisions[i].number == LargestNumber(revisions, projectId)
  {
    if |revisions| > 0 {
      LargestIsLargest(revisions[..|revisions| - 1], projectId);
    }
  }

  lemma {:induction false} LatestIsLatest(revisions: seq<Revision>, projectId: Id)
    ensures forall i :: 0 <= i < |revisions| && revisions[i].projectId == projectId && revisions[i].status != Archived ==>
      revisions[i].number <= LatestNumber(revisions, projectId)
    ensures LatestNumber(revisions, projectId) > 0 ==>
      exists i :: 0 <= i < |revisions| && revisions[i].projectId == projectId && revisions[i].status != Archived
        && revisions[i].number == LatestNumber(revisions, projectId)
  {
    if |revisions| > 0 {
      LatestIsLatest(revisions[..|revisions| - 1], projectId);
    }
  }

  // ---- the two transactions that touch revisions -----------------------------------------------------------------

  lemma SaveKeepsOthers(s: Store, w: World, projectId: Id, actor: Actor, request: Request, key: Text, now: Time, id: Id)
    requires projectId in s.projects && projectId in s.calculations && request.SaveRequest?
    requires HasPayload(s, id) && RevisionOk(s, id)
    ensures var r := Saving(s, w, projectId, actor, request, key, now).0; HasPayload(r, id) && RevisionOk(r, id)
  {
    var c, newId := s.calculations[projectId], |s.revisions|;
    var r := Saving(s, w, projectId, actor, request, key, now).0;
    SucceededMore(s.events, Event(newId, actor.id, Saved, None, Some(Calculated), now), id);
    WarningsMore(s.warningRows, newId, c.result.warnings, id);
    LinesMore(s.bomRows, newId, c.result.bomLines, id);
    assert r.revisions[id] == s.revisions[id];
  }

  lemma SaveMakesWarnings(s: Store, c: Calculation)
    requires RefersBack(s)
    ensures var rows := s.warningRows + WarningRows(|s.revisions|, c.result.warnings);
      && WarningsOf(rows, |s.revisions|) == WarningRows(|s.revisions|, c.result.warnings)
      && CountBlockers(rows, |s.revisions|) == CountImpact(c.result.warnings, BlocksApproval)
  {
    NoneYet(s, |s.revisions|);
    WarningsMore(s.warningRows, |s.revisions|, c.result.warnings, |s.revisions|);
    EmptyFirst(WarningRows(|s.revisions|, c.result.warnings), []);
  }

  lemma SaveMakesLines(s: Store, c: Calculation)
    requires RefersBack(s)
    ensures LinesOf(s.bomRows + BomRows(|s.revisions|, c.result.bomLines), |s.revisions|)
         == BomRows(|s.revisions|, c.result.bomLines)
  {
    NoneYet(s, |s.revisions|);
    LinesMore(s.bomRows, |s.revisions|, c.result.bomLines, |s.revisions|);
    EmptyFirst([], BomRows(|s.revisions|, c.result.bomLines));
  }

  lemma SaveMakesRows(s: Store, w: World, projectId: Id, actor: Actor, request: Request, key: Text, now: Time)
    requires projectId in s.projects && projectId in s.calculations && request.SaveRequest? && RefersBack(s)
    ensures var r := Saving(s, w, projectId, actor, request, key, now).0;
      HasPayload(r, |s.revisions|) && RowsMatch(r, |s.revisions|)
  {
    SaveMakesWarnings(s, s.calculations[projectId]);
    SaveMakesLines(s, s.calculations[projectId]);
  }

  lemma SaveMakesOne(s: Store, w: World, projectId: Id, actor: Actor, request: Request, key: Text, now: Time)
    requires projectId in s.projects && projectId in s.calculations && request.SaveRequest? && RefersBack(s)
    ensures var r := Saving(s, w, projectId, actor, request, key, now).0;
      HasPayload(r, |s.revisions|) && RevisionOk(r, |s.revisions|)
  {
    var newId := |s.revisions|;
    NoneYet(s, newId);
    SucceededMore(s.events, Event(newId, actor.id, Saved, None, Some(Calculated), now), newId);
    SaveMakesRows(s, w, projectId, actor, request, key, now);
  }

  lemma EmptyFirst(warnings: seq<WarningRow>, lines: seq<BomRow>)
    ensures [] + warnings == warnings && [] + lines == lines
  {
  }

  lemma SaveRefersBack(s: Store, w: World, projectId: Id, actor: Actor, request: Request, key: Text, now: Time)
    requires projectId in s.projects && projectId in s.calculations && request.SaveRequest? && RefersBack(s)
    ensures RefersBack(Saving(s, w, projectId, actor, request, key, now).0)
  {
  }

  lemma SaveKeepsLifecycle(s: Store, w: World, projectId: Id, actor: Actor, request: Request, key: Text, now: Time)
    requires projectId in s.projects && projectId in s.calculations && request.SaveRequest? && Lifecycle(s)
    ensures Lifecycle(Saving(s, w, projectId, actor, request, key, now).0)
  {
    var r := Saving(s, w, projectId, actor, request, key, now).0;
    SaveRefersBack(s, w, projectId, actor, request, key, now);
    LargestIsLargest(s.revisions, projectId);
    forall id: Id | HasPayload(r, id) ensures RevisionOk(r, id) {
      if id < |s.revisions| {
        assert r.revisions[id] == s.revisions[id];
        assert HasPayload(s, id);
        SaveKeepsOthers(s, w, projectId, actor, request, key, now, id);
      } else {
        SaveMakesOne(s, w, projectId, actor, request, key, now);
      }
    }
  }

  lemma AdvanceKeepsRevision(s: Store, actor: Actor, attempt: Attempt, request: Request, now: Time, id: Id)
    requires HasPayload(s, attempt.revisionId) && request.TransitionRequest?
    requires AdvanceFailure(s, attempt.action, attempt.revisionId, request).None?
    requires HasPayload(s, id) && RevisionOk(s, id)
    ensures var r := Advancing(s, actor, attempt, request, now).0; HasPayload(r, id) && RevisionOk(r, id)
  {
    var action := attempt.action;
    var e := Event(attempt.revisionId, actor.id, Advanced(action), Some(Prior(action)), Some(Resulting(action)), now);
    SucceededMore(s.events, e, id);
    ApprovalsMore(s.approvals, Approval(attempt.revisionId, actor.id, now), id);
  }

  lemma AdvanceKeepsLifecycle(s: Store, actor: Actor, attempt: Attempt, request: Request, now: Time)
    requires HasPayload(s, attempt.revisionId) && request.TransitionRequest? && Lifecycle(s)
    requires AdvanceFailure(s, attempt.action, attempt.revisionId, request).None?
    ensures Lifecycle(Advancing(s, actor, attempt, request, now).0)
  {
    var r := Advancing(s, actor, attempt, request, now).0;
    forall id: Id | HasPayload(r, id) ensures RevisionOk(r, id) {
      assert HasPayload(s, id);
      AdvanceKeepsRevision(s, actor, attempt, request, now, id);
    }
  }

  lemma RejectionKeepsLifecycle(s: Store, rejection: Rejection, now: Time, owed: set<Rejection>)
    requires Lifecycle(s) && rejection.attempt.revisionId < |s.revisions|
    ensures Lifecycle(s.(events := s.events + [RejectionEvent(s, rejection, now)], owed := owed))
  {
    var r := s.(events := s.events + [RejectionEvent(s, rejection, now)], owed := owed);
    forall id: Id | HasPayload(r, id) ensures RevisionOk(r, id) {
      assert HasPayload(s, id) && RevisionOk(s, id);
      SucceededMore(s.events, RejectionEvent(s, rejection, now), id);
    }
  }

  predicate SameRevisionTables(s: Store, r: Store) {
    && r.revisions == s.revisions && r.events == s.events && r.approvals == s.approvals
    && r.warningRows == s.warningRows && r.bomRows == s.bomRows
  }

  lemma SameTablesKeepLifecycle(s: Store, r: Store)
    requires Lifecycle(s) && SameRevisionTables(s, r)
    ensures Lifecycle(r)
  {
    forall id: Id | HasPayload(r, id) ensures RevisionOk(r, id) {
      assert HasPayload(s, id) && RevisionOk(s, id);
    }
  }

  /** What a step does to the revision tables. */
  datatype Change = NoChange | SaveChange | AdvanceChange | RejectChange(rejection: Rejection)

  function ChangeOf(s: Store, w: World, step: Step): Change
    requires Enabled(s, step)
  {
    match step
    case SaveStep(actor, projectId, request, key, now) =>
      if AfterSave(s, w, actor, projectId, request, key, now).1.Ok?
        && !AfterSave(s, w, actor, projectId, request, key, now).1.value.replayed then SaveChange else NoChange
    case TransitionStep(actor, action, revisionId, request, key, now) =>
      var attempt := Attempt(action, revisionId, actor.id, key);
      if !CanReview(actor.role) || !HasPayload(s, revisionId) then NoChange
      else if Replay(s, TransitionScope(action, revisionId, actor.id), key, request).Some? then NoChange
      else if PriorRejection(s.events, attempt).Some? then NoChange
      else if AdvanceFailure(s, action, revisionId, request).Some? then
        RejectChange(Rejection(actor, ReasonOf(AdvanceFailure(s, action, revisionId, request).value), attempt, request))
      else AdvanceChange
    case RecordStep(rejection, _) =>
      if Visible(s, rejection.attempt.revisionId, rejection.actor) && PriorRejection(s.events, rejection.attempt).None?
      then RejectChange(rejection) else NoChange
    case _ => NoChange
  }

  lemma StepChanges(s: Store, w: World, step: Step)
    requires Enabled(s, step)
    ensures var r := After(s, w, step);
      match ChangeOf(s, w, step)
      case NoChange => SameRevisionTables(s, r)
      case SaveChange =>
        && step.projectId in s.projects && step.projectId in s.calculations
        && Writable(s, step.projectId, step.actor).Ok? && SaveFailure(s, w, step.projectId, step.request).None?
        && (SaveScope(step.projectId, step.actor.id), step.key) !in s.records
        && r == Saving(s, w, step.projectId, step.actor, step.request, step.key, step.now).0
      case AdvanceChange =>
        && HasPayload(s, step.revisionId) && CanReview(step.actor.role)
        && AdvanceFailure(s, step.action, step.revisionId, step.request).None?
        && (TransitionScope(step.action, step.revisionId, step.actor.id), step.key) !in s.records
        && PriorRejection(s.events, Attempt(step.action, step.revisionId, step.actor.id, step.key)).None?
        && r == Advancing(s, step.actor, Attempt(step.action, step.revisionId, step.actor.id, step.key),
                  step.request, step.now).0
      case RejectChange(rejection) =>
        && (step.TransitionStep? || step.RecordStep?)
        && HasPayload(s, rejection.attempt.revisionId)
        && PriorRejection(s.events, rejection.attempt).None?
        && r == s.(events := s.events + [RejectionEvent(s, rejection, step.now)], owed := r.owed)
  {
  }

  lemma StepKeepsLifecycle(s: Store, w: World, step: Step)
    requires Enabled(s, step) && Lifecycle(s)
    ensures Lifecycle(After(s, w, step))
  {
    StepChanges(s, w, step);
    match ChangeOf(s, w, step) {
      case NoChange => SameTablesKeepLifecycle(s, After(s, w, step));
      case SaveChange => SaveKeepsLifecycle(s, w, step.projectId, step.actor, step.request, step.key, step.now);
      case AdvanceChange =>
        AdvanceKeepsLifecycle(s, step.actor, Attempt(step.action, step.revisionId, step.actor.id, step.key),
          step.request, step.now);
      case RejectChange(rejection) => RejectionKeepsLifecycle(s, rejection, step.now, After(s, w, step).owed);
    }
  }

  lemma InitialLifecycle(s: Store)
    requires Initial(s)
    ensures Lifecycle(s)
  {
  }

  /** In every reachable state: numbers are distinct; each revision's successful events replay to its
      status and times; exactly the approved ones have an approval, one each; an approved revision
      was ready and has no blocking warning; and the warning and line rows are those of its result. */
  lemma {:induction false} RunKeepsLifecycle(s: Store, w: World, steps: seq<Step>)
    requires Lifecycle(s) && Run(s, w, steps)
    ensures Lifecycle(End(s, w, steps))
    decreases |steps|
  {
    if |steps| > 0 {
      StepKeepsLifecycle(s, w, steps[0]);
      RunKeepsLifecycle(After(s, w, steps[0]), w, steps[1..]);
    }
  }

  // ---- steps, seen from one revision ----------------------------------------------------------------------------------

  /** A new revision's number is the largest one so far, plus one. */
  lemma NewNumberIsNext(s: Store, w: World, step: Step)
    requires Enabled(s, step) && After(s, w, step).revisions != s.revisions
    requires |After(s, w, step).revisions| != |s.revisions|
    ensures var r := After(s, w, step).revisions;
      && step.SaveStep? && r[..|s.revisions|] == s.revisions && |r| == |s.revisions| + 1
      && r[|s.revisions|].projectId == step.projectId
      && (forall i :: 0 <= i < |s.revisions| && s.revisions[i].projectId == step.projectId ==>
            s.revisions[i].number < r[|s.revisions|].number)
      && (r[|s.revisions|].number > 1 ==>
            exists i :: 0 <= i < |s.revisions| && s.revisions[i].projectId == step.projectId
              && s.revisions[i].number == r[|s.revisions|].number - 1)
  {
    StepChanges(s, w, step);
    LargestIsLargest(s.revisions, step.projectId);
  }

  /** What a step may do to a row: nothing, or advance the latest one by one status. */
  lemma RowMoves(s: Store, w: World, step: Step, id: Id)
    requires Enabled(s, step) && id < |s.revisions|
    ensures id < |After(s, w, step).revisions|
    ensures var a, b := s.revisions[id], After(s, w, step).revisions[id];
      && b.projectId == a.projectId && b.number == a.number && b.payload == a.payload && b.checksums == a.checksums
      && (b != a ==>
            && step.TransitionStep? && step.revisionId == id
            && (step.actor.role == Reviewer || step.actor.role == Administrator)
            && a.status == (if step.action == Check then Calculated else Checked)
            && b.status == (if step.action == Check then Checked else Approved)
            && a.number == LatestNumber(s.revisions, a.projectId))
  {
    StepChanges(s, w, step);
  }

  /** A later revision of the same project exists, and is not archived. */
  ghost predicate Superseded(revisions: seq<Revision>, id: Id)
    requires id < |revisions|
  {
    exists j: nat :: j < |revisions| && revisions[j].projectId == revisions[id].projectId
      && revisions[j].number > revisions[id].number && revisions[j].status != Archived
  }

  lemma StepKeepsSuperseded(s: Store, w: World, step: Step, id: Id)
    requires Enabled(s, step) && id < |s.revisions| && Superseded(s.revisions, id)
    ensures id < |After(s, w, step).revisions| && Superseded(After(s, w, step).revisions, id)
    ensures After(s, w, step).revisions[id] == s.revisions[id]
  {
    var j: nat :| j < |s.revisions| && s.revisions[j].projectId == s.revisions[id].projectId
      && s.revisions[j].number > s.revisions[id].number && s.revisions[j].status != Archived;
    RowMoves(s, w, step, id);
    RowMoves(s, w, step, j);
    LatestIsLatest(s.revisions, s.revisions[id].projectId);
  }

  /** A superseded revision never advances again. */
  lemma {:induction false} SupersededStandsStill(s: Store, w: World, steps: seq<Step>, id: Id)
    requires Run(s, w, steps) && id < |s.revisions| && Superseded(s.revisions, id)
    ensures id < |End(s, w, steps).revisions| && End(s, w, steps).revisions[id] == s.revisions[id]
    decreases |steps|
  {
    if |steps| > 0 {
      StepKeepsSuperseded(s, w, steps[0], id);
      SupersededStandsStill(After(s, w, steps[0]), w, steps[1..], id);
    }
  }

  /** A save supersedes every earlier revision of its project. */
  lemma SaveSupersedes(s: Store, w: World, step: Step, id: Id)
    requires Enabled(s, step) && id < |s.revisions|
    requires |After(s, w, step).revisions| > |s.revisions| && s.revisions[id].projectId == step.projectId
    ensures Superseded(After(s, w, step).revisions, id)
  {
    StepChanges(s, w, step);
    LargestIsLargest(s.revisions, step.projectId);
    var r := After(s, w, step).revisions;
    assert r[|s.revisions|].number > r[id].number;
  }

  /** Payloads, checksums, numbers and projects of revisions never change, and rows are never removed. */
  lemma {:induction false} PayloadsNeverChange(s: Store, w: World, steps: seq<Step>, id: Id)
    requires Run(s, w, steps) && id < |s.revisions|
    ensures id < |End(s, w, steps).revisions|
    ensures var a, b := s.revisions[id], End(s, w, steps).revisions[id];
      b.payload == a.payload && b.checksums == a.checksums && b.number == a.number && b.projectId == a.projectId
    decreases |steps|
  {
    if |steps| > 0 {
      RowMoves(s, w, steps[0], id);
      PayloadsNeverChange(After(s, w, steps[0]), w, steps[1..], id);
    }
  }

  lemma LatestIffNotSuperseded(revisions: seq<Revision>, id: Id)
    requires id < |revisions| && revisions[id].status != Archived
    ensures LatestNumber(revisions, revisions[id].projectId) == revisions[id].number <==> !Superseded(revisions, id)
  {
    var latest := LatestNumber(revisions, revisions[id].projectId);
    LatestIsLatest(revisions, revisions[id].projectId);
    if latest != revisions[id].number {
      var j: nat :| j < |revisions| && revisions[j].projectId == revisions[id].projectId
        && revisions[j].status != Archived && revisions[j].number == latest;
    }
  }

  lemma {:induction false} NoneBlocksIff(warnings: seq<Warning>)
    ensures CountImpact(warnings, BlocksApproval) == 0 <==>
      forall i :: 0 <= i < |warnings| ==> warnings[i].impact != BlocksApproval
  {
    if |warnings| > 0 {
      NoneBlocksIff(warnings[..|warnings| - 1]);
    }
  }

  /** When a revision can advance, told from what was saved and from the log: the caller names its
      number and fingerprint, nothing supersedes it, it has come as far as the action asks, and
      for an approval the saved result is ready and has no blocking warning. */
  lemma AdvancesIff(s: Store, w: World, steps: seq<Step>, action: Action, id: Id, request: Request)
    requires Initial(s) && Run(s, w, steps) && HasPayload(End(s, w, steps), id) && request.TransitionRequest?
    ensures var e := End(s, w, steps);
      var row, payload := e.revisions[id], e.revisions[id].payload.value;
      AdvanceFailure(e, action, id, request).None?
      <==> && request.expectedLatest == row.number && request.fingerprint == payload.fingerprint
           && !Superseded(e.revisions, id)
           && |Succeeded(e.events, id)| == (if action == Check then 1 else 2)
           && (action == Approve ==>
                 && payload.approvalReady
                 && forall i :: 0 <= i < |payload.result.warnings| ==> payload.result.warnings[i].impact != BlocksApproval)
  {
    InitialLifecycle(s);
    RunKeepsLifecycle(s, w, steps);
    var e := End(s, w, steps);
    assert RevisionOk(e, id);
    LatestIffNotSuperseded(e.revisions, id);
    NoneBlocksIff(e.revisions[id].payload.value.result.warnings);
  }

  // ---- offered actions ---------------------------------------------------------------------------------------------------

  /** A key that this actor has not used for this action. */
  predicate Unused(s: Store, actor: Actor, action: Action, revisionId: Id, key: Text) {
    && (TransitionScope(action, revisionId, actor.id), key) !in s.records
    && PriorRejection(s.events, Attempt(action, revisionId, actor.id, key)).None?
  }

  predicate Commits(outcome: Outcome) {
    outcome.Ok? && !outcome.value.replayed
  }

  /** What a reader is offered is what a transition with the revision's own number and fingerprint,
      and an unused key, would do. */
  lemma OfferedIffPossible(s: Store, actor: Actor, revisionId: Id, comment: Text, key: Text, now: Time)
    requires Lifecycle(s) && HasPayload(s, revisionId)
    ensures var row := s.revisions[revisionId];
      var request := TransitionRequest(row.number, row.payload.value.fingerprint, comment);
      && (Unused(s, actor, Check, revisionId, key) ==>
            (CheckAction(s, actor, revisionId).None?
             <==> Commits(AfterTransition(s, actor, Check, revisionId, request, key, now).1)))
      && (Unused(s, actor, Approve, revisionId, key) ==>
            (ApproveAction(s, actor, revisionId).None?
             <==> Commits(AfterTransition(s, actor, Approve, revisionId, request, key, now).1)))
  {
    assert RevisionOk(s, revisionId);
  }

  /** What is offered to whom, told from roles, the log and what was saved. */
  lemma OfferedMeaning(s: Store, w: World, steps: seq<Step>, actor: Actor, id: Id)
    requires Initial(s) && Run(s, w, steps) && HasPayload(End(s, w, steps), id)
    ensures var e, payload := End(s, w, steps), End(s, w, steps).revisions[id].payload.value;
      var reviews := actor.role == Reviewer || actor.role == Administrator;
      && (CheckAction(e, actor, id).None? <==> reviews && !Superseded(e.revisions, id) && |Succeeded(e.events, id)| == 1)
      && (ApproveAction(e, actor, id).None?
          <==> && reviews && !Superseded(e.revisions, id) && |Succeeded(e.events, id)| == 2 && payload.approvalReady
               && forall i :: 0 <= i < |payload.result.warnings| ==> payload.result.warnings[i].impact != BlocksApproval)
  {
    InitialLifecycle(s);
    RunKeepsLifecycle(s, w, steps);
    var e := End(s, w, steps);
    assert RevisionOk(e, id);
    LatestIffNotSuperseded(e.revisions, id);
    NoneBlocksIff(e.revisions[id].payload.value.result.warnings);
  }

  lemma OfferedIffPossibleInRuns(
      s: Store, w: World, steps: seq<Step>, actor: Actor, revisionId: Id, comment: Text, key: Text, now: Time)
    requires Initial(s) && Run(s, w, steps) && HasPayload(End(s, w, steps), revisionId)
    ensures var e := End(s, w, steps);
      var row := e.revisions[revisionId];
      var request := TransitionRequest(row.number, row.payload.value.fingerprint, comment);
      && (Unused(e, actor, Check, revisionId, key) ==>
            (CheckAction(e, actor, revisionId).None?
             <==> Commits(AfterTransition(e, actor, Check, revisionId, request, key, now).1)))
      && (Unused(e, actor, Approve, revisionId, key) ==>
            (ApproveAction(e, actor, revisionId).None?
             <==> Commits(AfterTransition(e, actor, Approve, revisionId, request, key, now).1)))
  {
    InitialLifecycle(s);
    RunKeepsLifecycle(s, w, steps);
    OfferedIffPossible(End(s, w, steps), actor, revisionId, comment, key, now);
  }
}
