/** Export jobs do not go round forever and are not left pending, and repeated requests do not
    add artifacts. */
module ExportProgress {
  import opened Wrappers
  import opened JsText
  import opened CanonicalJson
  import opened ZipArchive
  import opened ExportQueue
  import opened ExportWorker
  import opened ExportSafety

  // ---- termination ---------------------------------------------------------------------------------

  /** What can still happen to an artifact: a claim and its end for each attempt that is left. */
  function Weight(row: Artifact): int {
    if row.status == Pending then
      2 * (MAX_ATTEMPTS - row.attempts) + if row.claimToken.Some? then 1 else 0
    else 0
  }

  function Total(rows: seq<Artifact>): int {
    if |rows| == 0 then 0 else Total(rows[..|rows| - 1]) + Weight(rows[|rows| - 1])
  }

  /** The transaction changes some artifact. */
  ghost predicate Effective(q: Queue, step: Step, w: World)
    requires Enabled(q, step, w)
  {
    !step.RequestStep? && After(q, step, w).rows != q.rows
  }

  ghost function EffectiveSteps(q: Queue, steps: seq<Step>, w: World): nat
    requires Run(q, steps, w)
    decreases |steps|
  {
    if |steps| == 0 then 0
    else (if Effective(q, steps[0], w) then 1 else 0) + EffectiveSteps(After(q, steps[0], w), steps[1..], w)
  }

  lemma MoveWeighsLess(a: Artifact, b: Artifact, q: Queue, step: Step, w: World)
    requires Enabled(q, step, w) && RowOk(a, q.jobs, w) && Moves(a, b, q, step, w)
    ensures 0 <= Weight(b) <= Weight(a) && (a != b ==> Weight(b) < Weight(a))
  {
  }

  lemma {:induction false} TotalFalls(a: seq<Artifact>, b: seq<Artifact>)
    requires |a| == |b| && forall i :: 0 <= i < |a| ==> 0 <= Weight(b[i]) <= Weight(a[i])
    requires forall i :: 0 <= i < |a| && a[i] != b[i] ==> Weight(b[i]) < Weight(a[i])
    ensures 0 <= Total(b) <= Total(a) && (a != b ==> Total(b) < Total(a))
    decreases |a|
  {
    if |a| > 0 {
      TotalFalls(a[..|a| - 1], b[..|b| - 1]);
      if a[..|a| - 1] == b[..|b| - 1] && a[|a| - 1] == b[|b| - 1] {
        assert a == a[..|a| - 1] + [a[|a| - 1]] == b;
      }
    }
  }

  lemma StepTotal(q: Queue, step: Step, w: World)
    requires Inv(q, w) && Enabled(q, step, w)
    ensures var r := After(q, step, w);
      && 0 <= Total(r.rows)
      && Total(r.rows) + (if Effective(q, step, w) then 1 else 0) <= Total(q.rows) + 6 * (|r.rows| - |q.rows|)
  {
    StepRows(q, step, w);
    var r := After(q, step, w).rows;
    forall i | 0 <= i < |q.rows|
      ensures 0 <= Weight(r[i]) <= Weight(q.rows[i]) && (q.rows[i] != r[i] ==> Weight(r[i]) < Weight(q.rows[i]))
    {
      MoveWeighsLess(q.rows[i], r[i], q, step, w);
    }
    if step.RequestStep? && |r| > |q.rows| {
      assert r[..|r| - 1] == q.rows;
      TotalFalls(q.rows, q.rows);
    } else {
      TotalFalls(q.rows, r);
    }
  }

  lemma {:induction false} RunTotal(q: Queue, steps: seq<Step>, w: World)
    requires Inv(q, w) && Run(q, steps, w)
    ensures var r := End(q, steps, w);
      && 0 <= Total(r.rows)
      && Total(r.rows) + EffectiveSteps(q, steps, w) <= Total(q.rows) + 6 * (|r.rows| - |q.rows|)
    decreases |steps|
  {
    if |steps| > 0 {
      StepTotal(q, steps[0], w);
      StepKeepsInv(q, steps[0], w);
      RunTotal(After(q, steps[0], w), steps[1..], w);
    } else {
      TotalFalls(q.rows, q.rows) by {
        forall i | 0 <= i < |q.rows| ensures 0 <= Weight(q.rows[i]) {
          assert RowOk(q.rows[i], q.jobs, w);
        }
      }
    }
  }

  /** However many workers there are and whatever they do, `n` artifacts see at most `6n` effective
      transactions. */
  lemma AtMostSixPerArtifact(steps: seq<Step>, w: World)
    requires Run(START, steps, w)
    ensures EffectiveSteps(START, steps, w) <= 6 * |End(START, steps, w).rows|
  {
    StartKeepsInv(w);
    RunTotal(START, steps, w);
  }

  // ---- the bound is reached -----------------------------------------------------------------------------

  lemma ClaimSingle(q: Queue, now: Time)
    requires |q.rows| == 1 && Claimable(q.rows[0], now, {})
    ensures AfterClaim(q, now, {})
         == (Queue([Take(q.rows[0], |q.jobs|, now)], q.records, q.jobs + [Job(q.rows[0].id, q.rows[0].context)]), Some(|q.jobs|))
  {
    var m, c := ClaimTakes(q, now, {});
    assert m[0] == q.rows[0] && !Exhausted(q.rows[0], now, {});
    assert m == q.rows == [q.rows[0]];
    assert q.rows[0 := Take(q.rows[0], |q.jobs|, now)] == [Take(q.rows[0], |q.jobs|, now)];
  }

  lemma FailSingle(q: Queue, token: nat, now: Time)
    requires |q.rows| == 1 && token < |q.jobs| && Holds(q.rows[0], q.jobs[token].exportId, token)
    ensures AfterFailAttempt(q, q.jobs[token].exportId, token, now) == q.(rows := [Release(q.rows[0], now)])
  {
    assert AfterFailAttempt(q, q.jobs[token].exportId, token, now).rows == [Release(q.rows[0], now)];
  }

  /** One attempt that fails: two effective transactions. */
  lemma FailedAttempt(q: Queue, now: Time, w: World)
    requires |q.rows| == 1 && Claimable(q.rows[0], now, {}) && q.rows[0].attempts <= MAX_ATTEMPTS
    ensures var steps := [ClaimStep(now, {}), FailStep(|q.jobs|, now)];
      && Run(q, steps, w)
      && EffectiveSteps(q, steps, w) == 2
      && End(q, steps, w).rows == [Release(Take(q.rows[0], |q.jobs|, now), now)]
  {
    var steps := [ClaimStep(now, {}), FailStep(|q.jobs|, now)];
    ClaimSingle(q, now);
    var r := After(q, steps[0], w);
    FailSingle(r, |q.jobs|, now);
    assert steps[1..] == [steps[1]] && steps[1..][1..] == [];
    var e := After(r, steps[1], w);
    assert r.rows[0] != q.rows[0] && e.rows[0] != r.rows[0];
    assert Run(e, steps[1..][1..], w) && End(e, steps[1..][1..], w) == e;
    assert EffectiveSteps(e, steps[1..][1..], w) == 0;
    assert Run(r, steps[1..], w) && End(r, steps[1..], w) == e && EffectiveSteps(r, steps[1..], w) == 1;
  }

  lemma RunStep(q: Queue, step: Step, rest: seq<Step>, w: World)
    requires Enabled(q, step, w) && Run(After(q, step, w), rest, w)
    ensures Run(q, [step] + rest, w) && End(q, [step] + rest, w) == End(After(q, step, w), rest, w)
    ensures EffectiveSteps(q, [step] + rest, w)
         == (if Effective(q, step, w) then 1 else 0) + EffectiveSteps(After(q, step, w), rest, w)
  {
    assert ([step] + rest)[1..] == rest;
  }

  /** The run `t` takes `q` to `e` with `n` effective transactions. */
  ghost predicate Leads(q: Queue, t: seq<Step>, e: Queue, n: nat, w: World) {
    Run(q, t, w) && End(q, t, w) == e && EffectiveSteps(q, t, w) == n
  }

  lemma LeadsOn(q: Queue, step: Step, rest: seq<Step>, e: Queue, n: nat, w: World)
    requires Enabled(q, step, w) && Leads(After(q, step, w), rest, e, n, w)
    ensures Leads(q, [step] + rest, e, (if Effective(q, step, w) then 1 else 0) + n, w)
  {
    RunStep(q, step, rest, w);
  }

  lemma LeadsFrom(q: Queue, s: seq<Step>, m: Queue, k: nat, w: World) returns (n: nat)
    requires Leads(q, s, m, k, w) && |s| > 0
    ensures Enabled(q, s[0], w) && Leads(After(q, s[0], w), s[1..], m, n, w)
    ensures k == (if Effective(q, s[0], w) then 1 else 0) + n
  {
    n := EffectiveSteps(After(q, s[0], w), s[1..], w);
  }

  lemma FirstThenRest(s: seq<Step>, t: seq<Step>)
    requires |s| > 0
    ensures [s[0]] + (s[1..] + t) == s + t
  {
  }

  lemma {:induction false} RunsJoin(q: Queue, s: seq<Step>, t: seq<Step>, m: Queue, e: Queue, k: nat, n: nat, w: World)
    requires Leads(q, s, m, k, w) && Leads(m, t, e, n, w)
    ensures Leads(q, s + t, e, k + n, w)
    decreases |s|
  {
    if |s| == 0 {
      assert s + t == t;
    } else {
      var first := LeadsFrom(q, s, m, k, w);
      RunsJoin(After(q, s[0], w), s[1..], t, m, e, first, n, w);
      LeadsOn(q, s[0], s[1..] + t, e, first + n, w);
      FirstThenRest(s, t);
    }
  }

  /** Three failing attempts on the only artifact. */
  lemma ThreeFailures(q: Queue, now: Time, w: World) returns (steps: seq<Step>, last: Artifact)
    requires |q.rows| == 1 && q.rows[0].status == Pending && q.rows[0].attempts == 0
    requires q.rows[0].claimToken.None? && q.rows[0].leaseUntil.None?
    ensures Run(q, steps, w) && EffectiveSteps(q, steps, w) == 6
    ensures last.status == Failed && End(q, steps, w).rows == [last]
  {
    var one := [ClaimStep(now, {}), FailStep(|q.jobs|, now)];
    FailedAttempt(q, now, w);
    var q1 := End(q, one, w);
    var two := [ClaimStep(now, {}), FailStep(|q1.jobs|, now)];
    FailedAttempt(q1, now, w);
    var q2 := End(q1, two, w);
    var three := [ClaimStep(now, {}), FailStep(|q2.jobs|, now)];
    FailedAttempt(q2, now, w);
    var q3 := End(q2, three, w);
    RunsJoin(q, one, two, q1, q2, 2, 2, w);
    RunsJoin(q, one + two, three, q2, q3, 4, 2, w);
    steps, last := one + two + three, q3.rows[0];
    assert q3.rows == [last];
  }

  /** Six is exact: from the empty queue, one request and three failing attempts make six effective
      transactions on the one artifact there is. */
  lemma SixIsReached(r: Request, e: Evidence, id: nat, now: Time, w: World) returns (steps: seq<Step>)
    requires e.supported && e.fingerprintMatches && e.hasMapping && e.verifies
    ensures Run(START, steps, w)
    ensures var q := End(START, steps, w);
      |q.rows| == 1 && q.rows[0].status == Failed && EffectiveSteps(START, steps, w) == 6 * |q.rows|
  {
    var request := RequestStep(r, e, id, now);
    var q := After(START, request, w);
    assert q.rows == [NewArtifact(id, r.revisionId, e, now)];
    var rest, last := ThreeFailures(q, now, w);
    RunStep(START, request, rest, w);
    steps := [request] + rest;
  }

  // ---- nothing is left pending -----------------------------------------------------------------------------

  function PendingCount(rows: seq<Artifact>): nat {
    if |rows| == 0 then 0
    else PendingCount(rows[..|rows| - 1]) + if rows[|rows| - 1].status == Pending then 1 else 0
  }

  lemma {:induction false} NoPendingIff(rows: seq<Artifact>)
    ensures PendingCount(rows) == 0 <==> forall i :: 0 <= i < |rows| ==> rows[i].status != Pending
  {
    if |rows| > 0 {
      NoPendingIff(rows[..|rows| - 1]);
    }
  }

  lemma {:induction false} OneFewer(rows: seq<Artifact>, c: nat, x: Artifact)
    requires c < |rows| && rows[c].status == Pending && x.status != Pending
    ensures PendingCount(rows[c := x]) == PendingCount(rows) - 1
    decreases |rows|
  {
    var before := rows[..|rows| - 1];
    if c < |before| {
      OneFewer(before, c, x);
      assert rows[c := x][..|rows| - 1] == before[c := x];
    } else {
      assert rows[c := x][..|rows| - 1] == before;
    }
  }

  /** Every pending artifact has used its attempts, and its lease is over. */
  predicate Worn(rows: seq<Artifact>, now: Time) {
    forall i :: 0 <= i < |rows| && rows[i].status == Pending ==> Exhausted(rows[i], now, {})
  }

  /** One worn artifact fails. */
  lemma WornStep(rows: seq<Artifact>, now: Time, k: nat) returns (next: seq<Artifact>)
    requires DistinctIds(rows) && Worn(rows, now) && k > 0
    requires Oldest(rows, (row: Artifact) => Exhausted(row, now, {})).Some?
    ensures FailExhausted(rows, now, {}, k) == FailExhausted(next, now, {}, k - 1)
    ensures DistinctIds(next) && Worn(next, now) && PendingCount(next) == PendingCount(rows) - 1
  {
    var f := (row: Artifact) => Exhaust(row, now);
    var c := PickIsOne(rows, (row: Artifact) => Exhausted(row, now, {}), f);
    OneFewer(rows, c, f(rows[c]));
    next := rows[c := f(rows[c])];
  }

  lemma NoneWorn(rows: seq<Artifact>, now: Time)
    requires Worn(rows, now)
    ensures Oldest(rows, (row: Artifact) => Exhausted(row, now, {})).None? <==> PendingCount(rows) == 0
  {
    OldestIsOldest(rows, (row: Artifact) => Exhausted(row, now, {}));
    NoPendingIff(rows);
  }

  lemma {:induction false} WornOut(rows: seq<Artifact>, now: Time, k: nat)
    requires DistinctIds(rows) && Worn(rows, now)
    ensures var r := FailExhausted(rows, now, {}, k);
      && Worn(r, now) && DistinctIds(r)
      && PendingCount(r) == if PendingCount(rows) <= k then 0 else PendingCount(rows) - k
    decreases k
  {
    NoneWorn(rows, now);
    if k > 0 && PendingCount(rows) > 0 {
      var next := WornStep(rows, now, k);
      WornOut(next, now, k - 1);
    }
  }

  /** With only worn artifacts pending, a claim gives no job and fails the next four of them. */
  lemma WornClaim(q: Queue, now: Time)
    requires DistinctIds(q.rows) && Worn(q.rows, now)
    ensures var (r, token) := AfterClaim(q, now, {});
      && token.None? && Worn(r.rows, now) && DistinctIds(r.rows)
      && PendingCount(r.rows) == if PendingCount(q.rows) <= 4 then 0 else PendingCount(q.rows) - 4
  {
    WornOut(q.rows, now, BATCH);
    var m, c := ClaimTakes(q, now, {});
  }

  lemma WornLater(rows: seq<Artifact>, now: Time, later: Time)
    requires Worn(rows, now) && now <= later
    ensures Worn(rows, later)
  {
  }

  /** The queue after claims at the given times. */
  function AfterClaims(q: Queue, times: seq<Time>): Queue
    decreases |times|
  {
    if |times| == 0 then q else AfterClaims(AfterClaim(q, times[0], {}).0, times[1..])
  }

  lemma {:induction false} WornClaims(q: Queue, now: Time, times: seq<Time>)
    requires DistinctIds(q.rows) && Worn(q.rows, now)
    requires forall i :: 0 <= i < |times| ==> now <= times[i]
    requires forall i, j :: 0 <= i < j < |times| ==> times[i] <= times[j]
    ensures PendingCount(AfterClaims(q, times).rows)
         == if PendingCount(q.rows) <= 4 * |times| then 0 else PendingCount(q.rows) - 4 * |times|
    decreases |times|
  {
    if |times| > 0 {
      WornLater(q.rows, now, times[0]);
      WornClaim(q, times[0]);
      WornClaims(AfterClaim(q, times[0], {}).0, times[0], times[1..]);
    }
  }

  /** No pending artifact is under a lease. */
  predicate LeasesOver(rows: seq<Artifact>, now: Time) {
    forall i :: 0 <= i < |rows| && rows[i].status == Pending ==> Free(rows[i], now)
  }

  lemma NothingClaimable(q: Queue, now: Time, after: Queue, w: World)
    requires Inv(q, w) && LeasesOver(q.rows, now) && AfterClaim(q, now, {}) == (after, None)
    ensures DistinctIds(after.rows) && Worn(after.rows, now)
  {
    StepDistinctAndLive(q, ClaimStep(now, {}), w);
    var m, c := ClaimTakes(q, now, {});
    forall i | 0 <= i < |m| && m[i].status == Pending ensures Exhausted(m[i], now, {}) {
      assert m[i] == q.rows[i] && !Claimable(m[i], now, {});
    }
  }

  /** Once every lease is over and a claim has returned nothing, `k` further claims leave exactly
      `n - 4k` of the `n` jobs then pending, or none: a quarter as many claims, rounded up, is
      enough and fewer are not. */
  lemma QueueDrains(q: Queue, now: Time, after: Queue, times: seq<Time>, w: World)
    requires Inv(q, w) && LeasesOver(q.rows, now) && AfterClaim(q, now, {}) == (after, None)
    requires forall i :: 0 <= i < |times| ==> now <= times[i]
    requires forall i, j :: 0 <= i < j < |times| ==> times[i] <= times[j]
    ensures var n := PendingCount(after.rows);
      PendingCount(AfterClaims(after, times).rows) == if n <= 4 * |times| then 0 else n - 4 * |times|
  {
    NothingClaimable(q, now, after, w);
    WornClaims(after, now, times);
  }

  // ---- repeated requests ----------------------------------------------------------------------------------------

  /** Each record names an artifact of its revision. */
  ghost predicate RecordsOk(q: Queue) {
    forall key :: key in q.records ==> Names(q.rows, q.records[key].reply.artifactId, key.0)
  }

  ghost predicate Names(rows: seq<Artifact>, id: nat, revisionId: nat) {
    exists i :: 0 <= i < |rows| && rows[i].id == id && rows[i].revisionId == revisionId
  }

  lemma StepKeepsNames(q: Queue, step: Step, id: nat, revisionId: nat, w: World)
    requires DistinctIds(q.rows) && Enabled(q, step, w) && Names(q.rows, id, revisionId)
    ensures Names(After(q, step, w).rows, id, revisionId)
  {
    StepRows(q, step, w);
    var i :| 0 <= i < |q.rows| && q.rows[i].id == id && q.rows[i].revisionId == revisionId;
    MovesForward(q.rows[i], After(q, step, w).rows[i], q, step, w);
    assert After(q, step, w).rows[i].id == id;
  }

  /** The record that a request adds names the artifact that serves it. */
  lemma RequestNames(q: Queue, r: Request, e: Evidence, newId: nat, now: Time)
    requires KeyOf(r) !in q.records
    ensures var after := AfterRequest(q, r, e, newId, now).0;
      KeyOf(r) in after.records ==> Names(after.rows, after.records[KeyOf(r)].reply.artifactId, r.revisionId)
  {
    var p := (row: Artifact) => Serves(row, r.revisionId, e.cacheIdentity);
    OldestIsOldest(q.rows, p);
    var after := AfterRequest(q, r, e, newId, now).0;
    if KeyOf(r) in after.records {
      var i := |after.rows| - 1;
      if Oldest(q.rows, p).Some? {
        i :| 0 <= i < |q.rows| && q.rows[i] == Oldest(q.rows, p).value;
      }
      assert after.rows[i].id == after.records[KeyOf(r)].reply.artifactId && after.rows[i].revisionId == r.revisionId;
    }
  }

  lemma StepRecords(q: Queue, step: Step, w: World)
    requires Enabled(q, step, w)
    ensures forall key :: key in q.records ==>
      key in After(q, step, w).records && After(q, step, w).records[key] == q.records[key]
    ensures forall key :: key in After(q, step, w).records && key !in q.records ==>
      step.RequestStep? && key == KeyOf(step.r)
  {
  }

  lemma StepKeepsRecords(q: Queue, step: Step, w: World)
    requires DistinctIds(q.rows) && RecordsOk(q) && Enabled(q, step, w)
    ensures RecordsOk(After(q, step, w))
  {
    var r := After(q, step, w);
    StepRecords(q, step, w);
    forall key | key in r.records ensures Names(r.rows, r.records[key].reply.artifactId, key.0) {
      if key in q.records {
        StepKeepsNames(q, step, q.records[key].reply.artifactId, key.0, w);
      } else {
        RequestNames(q, step.r, step.e, step.newId, step.now);
      }
    }
  }

  /** A request that was answered is answered the same way ever after, without effect; with other
      content its key is refused. */
  lemma {:induction false} AnsweredOnce(q: Queue, steps: seq<Step>, r: Request, e: Evidence, newId: nat, now: Time, w: World)
    requires Inv(q, w) && RecordsOk(q) && Run(q, steps, w) && KeyOf(r) in q.records
    ensures RecordsOk(End(q, steps, w))
    ensures AfterRequest(End(q, steps, w), r, e, newId, now)
         == (End(q, steps, w),
             if q.records[KeyOf(r)].content == r.content then Ok((q.records[KeyOf(r)].reply, true)) else Err(KeyConflict))
    decreases |steps|
  {
    if |steps| > 0 {
      StepKeepsRecords(q, steps[0], w);
      StepRecords(q, steps[0], w);
      StepKeepsInv(q, steps[0], w);
      AnsweredOnce(After(q, steps[0], w), steps[1..], r, e, newId, now, w);
    }
  }

  lemma LiveIsOne(rows: seq<Artifact>, i: nat, j: nat)
    requires OneLive(rows) && i <= j < |rows| && SameEvidence(rows[i], rows[j])
    requires rows[i].status != Failed && rows[j].status != Failed
    ensures i == j
  {
  }

  /** A first request for evidence that has a live artifact is given that artifact, whoever asks,
      and no other is added. */
  lemma LiveArtifactIsShared(q: Queue, i: nat, r: Request, e: Evidence, newId: nat, now: Time, w: World)
    requires Inv(q, w) && i < |q.rows| && Serves(q.rows[i], r.revisionId, e.cacheIdentity)
    requires KeyOf(r) !in q.records && e.supported && e.fingerprintMatches && e.hasMapping && e.verifies
    ensures var (after, reply) := AfterRequest(q, r, e, newId, now);
      && after.rows == q.rows
      && reply == Ok((Reply(if q.rows[i].status == Ready then 200 else 202, q.rows[i].id), false))
  {
    var p := (row: Artifact) => Serves(row, r.revisionId, e.cacheIdentity);
    OldestIsOldest(q.rows, p);
    var j :| 0 <= j < |q.rows| && q.rows[j] == Oldest(q.rows, p).value;
    LiveIsOne(q.rows, if i < j then i else j, if i < j then j else i);
  }

  // ---- a worker's pass --------------------------------------------------------------------------------------------

  /** What a renderer that is a function renders. */
  ghost function WorldOf(render: Renderer, decode: Decoder): World {
    World((context, bytes) => render(context) == Some(bytes), decode)
  }

  lemma JobIsStep(q: Queue, token: nat, render: Renderer, name: Json -> Text, decode: Decoder, now: Time)
    returns (step: Step)
    requires token < |q.jobs|
    ensures var w := WorldOf(render, decode);
      Enabled(q, step, w) && After(q, step, w) == AfterJob(q, token, render, name, decode, now)
    ensures (step.FinalizeStep? || step.FailStep?) && step.token == token
  {
    match Rendered(q.jobs[token], render, name, decode)
    case Some(file) => step := FinalizeStep(token, file, now);
    case None => step := FailStep(token, now);
  }

  /** Taking a job and finishing it gives the token back for good. */
  lemma JobReturnsToken(q: Queue, claim: Step, finish: Step, rest: seq<Step>, w: World)
    requires Inv(q, w) && Enabled(q, claim, w) && claim.ClaimStep?
    requires var claimed := After(q, claim, w);
      && |claimed.jobs| == |q.jobs| + 1
      && Enabled(claimed, finish, w) && (finish.FinalizeStep? || finish.FailStep?) && finish.token == |q.jobs|
      && Run(After(claimed, finish, w), rest, w)
    ensures Run(q, [claim, finish] + rest, w)
    ensures End(q, [claim, finish] + rest, w) == End(After(After(q, claim, w), finish, w), rest, w)
    ensures Lost(End(q, [claim, finish] + rest, w), |q.jobs|)
  {
    var claimed := After(q, claim, w);
    StepKeepsInv(q, claim, w);
    OnlyLastClaimantActs(claimed, finish, w);
    StepKeepsInv(claimed, finish, w);
    StaleWorkerChangesNothing(After(claimed, finish, w), rest, |q.jobs|, File([], []), 0, w);
    RunStep(claimed, finish, rest, w);
    RunStep(q, claim, [finish] + rest, w);
    assert [claim] + ([finish] + rest) == [claim, finish] + rest;
  }

  /** The tokens issued since `from` have all been given back. */
  ghost predicate AllReturned(q: Queue, from: nat) {
    from <= |q.jobs| && forall t :: from <= t < |q.jobs| ==> Lost(q, t)
  }

  /** A recovery pass is a run of the queue, and it gives back every token that it took. */
  lemma {:induction false} PassIsRun(
      q: Queue, count: nat, s: Surroundings, render: Renderer, name: Json -> Text, decode: Decoder)
    returns (steps: seq<Step>)
    requires Inv(q, WorldOf(render, decode))
    ensures Run(q, steps, WorldOf(render, decode))
    ensures End(q, steps, WorldOf(render, decode)) == AfterPass(q, count, s, render, name, decode)
    ensures AllReturned(AfterPass(q, count, s, render, name, decode), |q.jobs|)
    decreases 4 - count
  {
    var w := WorldOf(render, decode);
    steps := [];
    if count < 4 && !s.stopping(count) {
      var claim := ClaimStep(s.claimedAt(count), s.locked(count));
      var (claimed, token) := AfterClaim(q, claim.now, claim.locked);
      StepKeepsInv(q, claim, w);
      if token.None? {
        RunStep(q, claim, [], w);
        steps := [claim] + [];
      } else {
        var finish := JobIsStep(claimed, token.value, render, name, decode, s.finishedAt(count));
        StepKeepsInv(claimed, finish, w);
        var rest := PassIsRun(After(claimed, finish, w), count + 1, s, render, name, decode);
        JobReturnsToken(q, claim, finish, rest, w);
        steps := [claim, finish] + rest;
      }
    }
  }
}
