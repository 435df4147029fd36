/** Repeated requests: each key takes effect at most once, repeats are answered alike, and a rejected
    attempt stays rejected. */
module Idempotency {
  import opened Wrappers
  import opened JsText
  import opened CanonicalJson
  import opened ProjectStore
  import opened ProjectRuns
  import opened RevisionLifecycle

  /** The key, with its scope, that a step carries, and its content. Both halves of a calculation
      carry the calculation's key. */
  function KeyOf(s: Store, step: Step): Option<(RecordKey, Request)>
    requires Enabled(s, step)
  {
    match step
    case CreateStep(actor, document, key, _) => Some(((CreateScope(actor.id), key), CreateRequest(document)))
    case ReplaceStep(actor, projectId, expected, document, key) =>
      Some(((DraftScope(projectId, actor.id), key), ReplaceRequest(expected, document)))
    case BeginStep(actor, projectId, expected, key, _) =>
      Some(((CalculateScope(projectId, actor.id), key), CalculateRequest(expected)))
    case StoreStep(job) =>
      var j := s.jobs[job];
      Some(((CalculateScope(j.projectId, j.actor.id), j.idempotencyKey), CalculateRequest(j.expectedVersion)))
    case SaveStep(actor, projectId, request, key, _) => Some(((SaveScope(projectId, actor.id), key), request))
    case TransitionStep(actor, action, revisionId, request, key, _) =>
      Some(((TransitionScope(action, revisionId, actor.id), key), request))
    case _ => None
  }

  /** The step's actor still has what it takes to be answered. */
  predicate Permitted(s: Store, step: Step)
    requires Enabled(s, step)
  {
    match step
    case CreateStep(actor, _, _, _) => CanWork(actor.role)
    case ReplaceStep(actor, projectId, _, _, _) => Writable(s, projectId, actor).Ok?
    case BeginStep(actor, projectId, _, _, _) => Writable(s, projectId, actor).Ok?
    case StoreStep(job) => Writable(s, s.jobs[job].projectId, s.jobs[job].actor).Ok?
    case SaveStep(actor, projectId, _, _, _) => Writable(s, projectId, actor).Ok?
    case TransitionStep(actor, _, revisionId, _, _, _) => CanReview(actor.role) && HasPayload(s, revisionId)
    case _ => true
  }

  /** The step takes effect under the key `k`: it succeeds, and not as a replay. The reading half of
      a calculation has no effect yet. */
  predicate TakesEffect(s: Store, w: World, step: Step, k: RecordKey)
    requires Enabled(s, step)
  {
    && KeyOf(s, step).Some? && KeyOf(s, step).value.0 == k && !step.BeginStep?
    && Effect(s, w, step).1.Some? && Commits(Effect(s, w, step).1.value)
  }

  // ---- records -----------------------------------------------------------------------------------------------

  lemma StepRecords(s: Store, w: World, step: Step)
    requires Enabled(s, step)
    ensures forall k :: k in s.records ==>
      k in After(s, w, step).records && After(s, w, step).records[k] == s.records[k]
    ensures forall k :: k in After(s, w, step).records && k !in s.records ==> TakesEffect(s, w, step, k)
  {
  }

  lemma EffectIsRecorded(s: Store, w: World, step: Step, k: RecordKey)
    requires Enabled(s, step) && TakesEffect(s, w, step, k)
    ensures k !in s.records && k in After(s, w, step).records
    ensures After(s, w, step).records[k]
         == Record(KeyOf(s, step).value.1, Effect(s, w, step).1.value.value.response)
  {
  }

  function Effects(s: Store, w: World, steps: seq<Step>, k: RecordKey): nat
    requires Run(s, w, steps)
    decreases |steps|
  {
    if |steps| == 0 then 0
    else (if TakesEffect(s, w, steps[0], k) then 1 else 0) + Effects(After(s, w, steps[0]), w, steps[1..], k)
  }

  lemma {:induction false} RecordsStay(s: Store, w: World, steps: seq<Step>, k: RecordKey)
    requires Run(s, w, steps) && k in s.records
    ensures k in End(s, w, steps).records && End(s, w, steps).records[k] == s.records[k]
    ensures Effects(s, w, steps, k) == 0
    decreases |steps|
  {
    if |steps| > 0 {
      StepRecords(s, w, steps[0]);
      if TakesEffect(s, w, steps[0], k) {
        EffectIsRecorded(s, w, steps[0], k);
      }
      RecordsStay(After(s, w, steps[0]), w, steps[1..], k);
    }
  }

  /** Over any run, with any retries and interleavings, a key takes effect at most once. */
  lemma {:induction false} AtMostOnce(s: Store, w: World, steps: seq<Step>, k: RecordKey)
    requires Run(s, w, steps)
    ensures Effects(s, w, steps, k) <= 1
    ensures k !in s.records ==> (Effects(s, w, steps, k) == 1 <==> k in End(s, w, steps).records)
    decreases |steps|
  {
    if |steps| > 0 {
      var r := After(s, w, steps[0]);
      if TakesEffect(s, w, steps[0], k) {
        EffectIsRecorded(s, w, steps[0], k);
        RecordsStay(r, w, steps[1..], k);
      } else {
        StepRecords(s, w, steps[0]);
        AtMostOnce(r, w, steps[1..], k);
        if k in s.records {
          RecordsStay(r, w, steps[1..], k);
        }
      }
    }
  }

  lemma RepeatIsAnswered(s: Store, w: World, step: Step)
    requires Enabled(s, step) && Permitted(s, step)
    requires KeyOf(s, step).Some? && KeyOf(s, step).value.0 in s.records
    ensures var record := s.records[KeyOf(s, step).value.0];
      Effect(s, w, step)
        == (s, Some(if record.request == KeyOf(s, step).value.1 then Ok(Reply(record.response, true)) else Err(KeyConflict)))
  {
  }

  /** Once a step has taken effect, any later step with its key that is still permitted changes
      nothing: with the same content it is given the same response, with other content it is refused. */
  lemma RepeatsGetTheSameResponse(s: Store, w: World, step: Step, k: RecordKey, steps: seq<Step>, again: Step)
    requires Enabled(s, step) && TakesEffect(s, w, step, k) && Run(After(s, w, step), w, steps)
    requires var e := End(After(s, w, step), w, steps);
      && Enabled(e, again) && Permitted(e, again)
      && KeyOf(e, again).Some? && KeyOf(e, again).value.0 == k
    ensures var e := End(After(s, w, step), w, steps);
      Effect(e, w, again)
        == (e, Some(if KeyOf(e, again).value.1 == KeyOf(s, step).value.1
                    then Ok(Reply(Effect(s, w, step).1.value.value.response, true)) else Err(KeyConflict)))
  {
    EffectIsRecorded(s, w, step, k);
    RecordsStay(After(s, w, step), w, steps, k);
    RepeatIsAnswered(End(After(s, w, step), w, steps), w, again);
  }

  /** The tables before step `i` of a run. */
  function Before(s: Store, w: World, steps: seq<Step>, i: nat): (r: Store)
    requires Run(s, w, steps) && i <= |steps|
    ensures i < |steps| ==> Enabled(r, steps[i])
    decreases i
  {
    if i == 0 then s else Before(After(s, w, steps[0]), w, steps[1..], i - 1)
  }

  predicate EffectAt(s: Store, w: World, steps: seq<Step>, i: nat, k: RecordKey)
    requires Run(s, w, steps) && i < |steps|
  {
    TakesEffect(Before(s, w, steps, i), w, steps[i], k)
  }

  /** What the answer to a repeat of step `i`'s key with the content `request` has to be. */
  function AnswerOf(s: Store, w: World, steps: seq<Step>, i: nat, k: RecordKey, request: Request): Outcome
    requires Run(s, w, steps) && i < |steps| && EffectAt(s, w, steps, i, k)
  {
    var b := Before(s, w, steps, i);
    if KeyOf(b, steps[i]).value.1 == request then Ok(Reply(Effect(b, w, steps[i]).1.value.value.response, true))
    else Err(KeyConflict)
  }

  /** An answer is found for a key exactly when some earlier step of the run has taken effect under
      it, and it is that step's: its own response if the content is the same, a conflict if not. */
  lemma {:induction false} ReplayIsAnEarlierEffect(
      s: Store, w: World, steps: seq<Step>, scope: Scope, key: Text, request: Request)
    requires Run(s, w, steps) && (scope, key) !in s.records
    ensures var found := Replay(End(s, w, steps), scope, key, request);
      && (found.Some? <==> exists i: nat :: i < |steps| && EffectAt(s, w, steps, i, (scope, key)))
      && forall i: nat :: i < |steps| && EffectAt(s, w, steps, i, (scope, key)) ==>
           found == Some(AnswerOf(s, w, steps, i, (scope, key), request))
    decreases |steps|
  {
    var k := (scope, key);
    if |steps| > 0 {
      var r, rest := After(s, w, steps[0]), steps[1..];
      assert Before(s, w, steps, 0) == s;
      forall i: nat | i < |rest| ensures Before(s, w, steps, i + 1) == Before(r, w, rest, i) && steps[i + 1] == rest[i] {
      }
      if TakesEffect(s, w, steps[0], k) {
        EffectIsRecorded(s, w, steps[0], k);
        RecordsStay(r, w, rest, k);
        assert EffectAt(s, w, steps, 0, k);
        NoEffectAfter(r, w, rest, k);
        forall i: nat | i < |steps| && EffectAt(s, w, steps, i, k) ensures i == 0 {
          if i > 0 {
            assert EffectAt(r, w, rest, i - 1, k);
          }
        }
      } else {
        StepRecords(s, w, steps[0]);
        ReplayIsAnEarlierEffect(r, w, rest, scope, key, request);
        forall i: nat | i < |steps| && EffectAt(s, w, steps, i, k)
          ensures Replay(End(s, w, steps), scope, key, request) == Some(AnswerOf(s, w, steps, i, k, request))
        {
          assert i > 0 && EffectAt(r, w, rest, i - 1, k);
        }
        if j: nat :| j < |rest| && EffectAt(r, w, rest, j, k) {
          assert EffectAt(s, w, steps, j + 1, k);
        }
      }
    }
  }

  lemma {:induction false} NoEffectAfter(s: Store, w: World, steps: seq<Step>, k: RecordKey)
    requires Run(s, w, steps) && k in s.records
    ensures forall i: nat :: i < |steps| ==> !EffectAt(s, w, steps, i, k)
    decreases |steps|
  {
    if |steps| > 0 {
      var r, rest := After(s, w, steps[0]), steps[1..];
      StepRecords(s, w, steps[0]);
      NoEffectAfter(r, w, rest, k);
      forall i: nat | i < |steps| ensures !EffectAt(s, w, steps, i, k) {
        if i == 0 {
          if TakesEffect(s, w, steps[0], k) {
            EffectIsRecorded(s, w, steps[0], k);
          }
        } else {
          assert !EffectAt(r, w, rest, i - 1, k);
        }
      }
    }
  }

  // ---- rejected attempts ---------------------------------------------------------------------------------------------

  lemma {:induction false} PriorRejectionMore(events: seq<Event>, more: seq<Event>, attempt: Attempt)
    ensures PriorRejection(events, attempt).Some? ==>
      PriorRejection(events + more, attempt) == PriorRejection(events, attempt)
    ensures PriorRejection(events, attempt).None? ==>
      PriorRejection(events + more, attempt) == PriorRejection(more, attempt)
  {
    if |events| == 0 {
      assert events + more == more;
    } else {
      assert (events + more)[1..] == events[1..] + more;
      PriorRejectionMore(events[1..], more, attempt);
    }
  }

  lemma {:induction false} PriorRejectionIff(events: seq<Event>, attempt: Attempt)
    ensures PriorRejection(events, attempt).Some? <==> exists i :: 0 <= i < |events| && IsRejection(events[i], attempt)
  {
    if |events| > 0 && !IsRejection(events[0], attempt) {
      PriorRejectionIff(events[1..], attempt);
      if i :| 0 <= i < |events| && IsRejection(events[i], attempt) {
        assert IsRejection(events[1..][i - 1], attempt);
      }
    }
  }

  lemma StepEvents(s: Store, w: World, step: Step)
    requires Enabled(s, step)
    ensures s.events <= After(s, w, step).events
  {
    StepChanges(s, w, step);
  }

  function ScopeOf(attempt: Attempt): RecordKey {
    (TransitionScope(attempt.action, attempt.revisionId, attempt.actorId), attempt.idempotencyKey)
  }

  /** The attempt has been rejected, and has not succeeded before that. */
  predicate RejectedFirst(s: Store, attempt: Attempt) {
    PriorRejection(s.events, attempt).Some? && ScopeOf(attempt) !in s.records
  }

  lemma StepKeepsRejected(s: Store, w: World, step: Step, attempt: Attempt)
    requires Enabled(s, step) && RejectedFirst(s, attempt)
    ensures RejectedFirst(After(s, w, step), attempt)
  {
    var r := After(s, w, step);
    StepEvents(s, w, step);
    assert r.events == s.events + r.events[|s.events|..];
    PriorRejectionMore(s.events, r.events[|s.events|..], attempt);
    StepRecords(s, w, step);
  }

  /** An attempt that was rejected before it ever succeeded does not succeed later, whatever changes
      in between. */
  lemma {:induction false} RejectedNeverSucceeds(s: Store, w: World, steps: seq<Step>, attempt: Attempt)
    requires Run(s, w, steps) && RejectedFirst(s, attempt)
    ensures RejectedFirst(End(s, w, steps), attempt) && Effects(s, w, steps, ScopeOf(attempt)) == 0
    decreases |steps|
  {
    if |steps| > 0 {
      StepKeepsRejected(s, w, steps[0], attempt);
      if TakesEffect(s, w, steps[0], ScopeOf(attempt)) {
        EffectIsRecorded(s, w, steps[0], ScopeOf(attempt));
      }
      RejectedNeverSucceeds(After(s, w, steps[0]), w, steps[1..], attempt);
    }
  }

  /** At most one rejection of each attempt is in the log, and it is filed under its own revision
      and actor; and every rejection that a service call holds is there already. */
  ghost predicate RejectionsOk(s: Store) {
    && (forall i :: 0 <= i < |s.events| && s.events[i].kind.Rejected? ==> IsRejection(s.events[i], s.events[i].kind.attempt))
    && (forall i, j :: 0 <= i < j < |s.events| && s.events[i].kind.Rejected? && s.events[j].kind.Rejected? ==>
          s.events[i].kind.attempt != s.events[j].kind.attempt)
    && forall r :: r in s.owed && r.reason != ForbiddenReason ==>
         && PriorRejection(s.events, r.attempt).Some?
         && PriorRejection(s.events, r.attempt).value.kind.request == r.request
  }

  predicate OwnAttempt(rejection: Rejection) {
    rejection.attempt.actorId == rejection.actor.id
  }

  lemma AddRejection(s: Store, rejection: Rejection, now: Time, owed: set<Rejection>)
    requires RejectionsOk(s) && rejection.attempt.revisionId < |s.revisions| && OwnAttempt(rejection)
    requires PriorRejection(s.events, rejection.attempt).None? && owed <= s.owed + {rejection}
    ensures RejectionsOk(s.(events := s.events + [RejectionEvent(s, rejection, now)], owed := owed))
  {
    var e := RejectionEvent(s, rejection, now);
    PriorRejectionIff(s.events, rejection.attempt);
    forall r | r in owed && r.reason != ForbiddenReason
      ensures PriorRejection(s.events + [e], r.attempt).Some?
      ensures PriorRejection(s.events + [e], r.attempt).value.kind.request == r.request
    {
      PriorRejectionMore(s.events, [e], r.attempt);
      assert [e][1..] == [];
    }
  }

  lemma AddSuccess(events: seq<Event>, e: Event, s: Store, r: Store)
    requires RejectionsOk(s) && s.events == events && !e.kind.Rejected?
    requires r.events == events + [e] && r.owed == s.owed
    ensures RejectionsOk(r)
  {
    forall o | o in r.owed && o.reason != ForbiddenReason
      ensures PriorRejection(r.events, o.attempt) == PriorRejection(s.events, o.attempt)
    {
      PriorRejectionMore(events, [e], o.attempt);
    }
  }

  lemma StepOwed(s: Store, w: World, step: Step)
    requires Enabled(s, step)
    ensures var r := After(s, w, step);
      match ChangeOf(s, w, step)
      case RejectChange(rejection) => OwnAttempt(rejection) && r.owed <= s.owed + {rejection}
      case NoChange =>
        forall o :: o in r.owed && o !in s.owed ==>
          PriorRejection(s.events, o.attempt).Some? && PriorRejection(s.events, o.attempt).value.kind.request == o.request
      case _ => r.owed == s.owed
  {
  }

  lemma StepKeepsRejections(s: Store, w: World, step: Step)
    requires Enabled(s, step) && RejectionsOk(s)
    ensures RejectionsOk(After(s, w, step))
  {
    var r := After(s, w, step);
    StepChanges(s, w, step);
    StepOwed(s, w, step);
    match ChangeOf(s, w, step) {
      case NoChange =>
      case SaveChange =>
        AddSuccess(s.events, r.events[|s.events|], s, r);
      case AdvanceChange =>
        AddSuccess(s.events, r.events[|s.events|], s, r);
      case RejectChange(rejection) =>
        AddRejection(s, rejection, step.now, r.owed);
    }
  }

  /** In every reachable state each attempt has at most one rejection, although the repository and
      the service both record it. */
  lemma {:induction false} OneRejectionPerAttempt(s: Store, w: World, steps: seq<Step>)
    requires RejectionsOk(s) && Run(s, w, steps)
    ensures RejectionsOk(End(s, w, steps))
    decreases |steps|
  {
    if |steps| > 0 {
      StepKeepsRejections(s, w, steps[0]);
      OneRejectionPerAttempt(After(s, w, steps[0]), w, steps[1..]);
    }
  }

  lemma InitialRejections(s: Store)
    requires Initial(s)
    ensures RejectionsOk(s)
  {
  }

  /** The service's own recording of a rejection that the repository told it of adds nothing and
      conflicts with nothing. */
  lemma ServiceRecordsNothingNew(s: Store, rejection: Rejection, now: Time)
    requires RejectionsOk(s) && rejection in s.owed && rejection.reason != ForbiddenReason
    ensures AfterRecordRejection(s, rejection, now)
         == (s, Ok(Visible(s, rejection.attempt.revisionId, rejection.actor)))
  {
  }
}
