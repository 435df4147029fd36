/** What every run of the export queue keeps, with any number of workers, crashes and repeated
    calls: a crash is a worker that makes no further call, and nothing is assumed about the clock. */
module ExportSafety {
  import opened Wrappers
  import opened CanonicalJson
  import opened ZipArchive
  import opened ExportQueue
  import opened Tables

  /** What rendering a context may give, and how archive names are decoded. */
  datatype World = World(renders: (Json, seq<Byte>) -> bool, decode: Decoder)

  datatype Step =
    | RequestStep(r: Request, e: Evidence, newId: nat, now: Time)
    | ClaimStep(now: Time, locked: set<nat>)
    | FinalizeStep(token: nat, file: File, now: Time)
    | FailStep(token: nat, now: Time)

  /** Ids are fresh; a worker finishes only a job it was given, with bytes that are a complete
      archive rendered from the context it was given. It may repeat a call, at any time. */
  ghost predicate Enabled(q: Queue, step: Step, w: World) {
    match step
    case RequestStep(_, _, newId, _) => forall i :: 0 <= i < |q.rows| ==> q.rows[i].id != newId
    case ClaimStep(_, _) => true
    case FinalizeStep(token, file, _) =>
      token < |q.jobs| && w.renders(q.jobs[token].context, file.bytes) && CompleteArchive(file.bytes, w.decode)
    case FailStep(token, _) => token < |q.jobs|
  }

  ghost function After(q: Queue, step: Step, w: World): Queue
    requires Enabled(q, step, w)
  {
    match step
    case RequestStep(r, e, newId, now) => AfterRequest(q, r, e, newId, now).0
    case ClaimStep(now, locked) => AfterClaim(q, now, locked).0
    case FinalizeStep(token, file, now) => AfterFinalize(q, q.jobs[token].exportId, token, file, now)
    case FailStep(token, now) => AfterFailAttempt(q, q.jobs[token].exportId, token, now)
  }

  ghost predicate Run(q: Queue, steps: seq<Step>, w: World)
    decreases |steps|
  {
    |steps| == 0 || (Enabled(q, steps[0], w) && Run(After(q, steps[0], w), steps[1..], w))
  }

  ghost function End(q: Queue, steps: seq<Step>, w: World): Queue
    requires Run(q, steps, w)
    decreases |steps|
  {
    if |steps| == 0 then q else End(After(q, steps[0], w), steps[1..], w)
  }

  const START := Queue([], map[], [])

  // ---- the invariant ---------------------------------------------------------------------------------

  /** The table's own constraints on a row's columns. */
  predicate ColumnsFit(row: Artifact) {
    && row.attempts <= MAX_ATTEMPTS
    && (row.claimToken.Some? <==> row.leaseUntil.Some?)
    && match row.status
       case Pending => row.completedAt.None? && row.failure.None? && row.content.None?
       case Failed => row.completedAt.Some? && row.failure.Some? && row.content.None? && row.claimToken.None?
       case Ready => row.completedAt.Some? && row.failure.None? && row.content.Some? && row.claimToken.None?
  }

  /** Token `t` belongs to the last claim of the artifact `id`. */
  predicate LastClaim(jobs: seq<Job>, t: nat, id: nat) {
    t < |jobs| && jobs[t].exportId == id && forall u :: t < u < |jobs| ==> jobs[u].exportId != id
  }

  ghost predicate RowOk(row: Artifact, jobs: seq<Job>, w: World) {
    && ColumnsFit(row)
    && (row.status == Pending && row.attempts == MAX_ATTEMPTS ==> row.claimToken.Some?)
    && (row.claimToken.Some? ==>
          && LastClaim(jobs, row.claimToken.value, row.id)
          && jobs[row.claimToken.value].context == row.context)
    && (row.status == Ready ==>
          && w.renders(row.context, row.content.value.bytes)
          && CompleteArchive(row.content.value.bytes, w.decode))
  }

  predicate DistinctIds(rows: seq<Artifact>) {
    forall i, j :: 0 <= i < j < |rows| ==> rows[i].id != rows[j].id
  }

  predicate SameEvidence(a: Artifact, b: Artifact) {
    a.revisionId == b.revisionId && a.cacheIdentity == b.cacheIdentity
  }

  /** At most one artifact that has not failed for a revision and a cache identity. */
  predicate OneLive(rows: seq<Artifact>) {
    forall i, j :: 0 <= i < j < |rows| && SameEvidence(rows[i], rows[j]) ==>
      rows[i].status == Failed || rows[j].status == Failed
  }

  ghost predicate RowsOk(q: Queue, w: World) {
    forall i :: 0 <= i < |q.rows| ==> RowOk(q.rows[i], q.jobs, w)
  }

  ghost predicate Inv(q: Queue, w: World) {
    RowsOk(q, w) && DistinctIds(q.rows) && OneLive(q.rows)
  }

  // ---- selecting and updating rows -----------------------------------------------------------------------

  lemma {:induction false} OldestIsOldest(rows: seq<Artifact>, p: Artifact -> bool)
    ensures Oldest(rows, p).None? <==> forall i :: 0 <= i < |rows| ==> !p(rows[i])
    ensures Oldest(rows, p).Some? ==>
      && Oldest(rows, p).value in rows
      && p(Oldest(rows, p).value)
      && forall i :: 0 <= i < |rows| && p(rows[i]) ==> !Before(rows[i], Oldest(rows, p).value)
  {
    if |rows| > 0 {
      OldestIsOldest(rows[..|rows| - 1], p);
      assert rows == rows[..|rows| - 1] + [rows[|rows| - 1]];
    }
  }

  /** A row keeps what identifies it and what it was asked to export. */
  predicate SameOrigin(a: Artifact, b: Artifact) {
    && a.id == b.id && a.revisionId == b.revisionId && a.cacheIdentity == b.cacheIdentity
    && a.context == b.context && a.createdAt == b.createdAt
  }

  /** What one transaction may do to a row. */
  ghost predicate Moves(a: Artifact, b: Artifact, q: Queue, step: Step, w: World)
    requires Enabled(q, step, w)
  {
    || a == b
    || match step
       case RequestStep(_, _, _, _) => false
       case ClaimStep(now, locked) =>
         || (Exhausted(a, now, locked) && b == Exhaust(a, now))
         || (Claimable(a, now, locked) && b == Take(a, |q.jobs|, now))
       case FinalizeStep(token, file, now) => Holds(a, q.jobs[token].exportId, token) && b == Complete(a, file, now)
       case FailStep(token, now) => Holds(a, q.jobs[token].exportId, token) && b == Release(a, now)
  }

  ghost predicate FailsSome(rows: seq<Artifact>, r: seq<Artifact>, now: Time, locked: set<nat>) {
    && |r| == |rows|
    && forall i :: 0 <= i < |rows| ==>
         r[i] == rows[i] || (Exhausted(rows[i], now, locked) && r[i] == Exhaust(rows[i], now))
  }

  lemma {:induction false} FailExhaustedRows(rows: seq<Artifact>, now: Time, locked: set<nat>, k: nat)
    requires DistinctIds(rows)
    ensures FailsSome(rows, FailExhausted(rows, now, locked, k), now, locked)
    decreases k
  {
    var p := (row: Artifact) => Exhausted(row, now, locked);
    OldestIsOldest(rows, p);
    if k > 0 && Oldest(rows, p).Some? {
      var oldest := Oldest(rows, p).value;
      var next := Update(rows, (row: Artifact) => row.id == oldest.id, (row: Artifact) => Exhaust(row, now));
      FailExhaustedRows(next, now, locked, k - 1);
    }
  }

  lemma PickIsOne(rows: seq<Artifact>, p: Artifact -> bool, f: Artifact -> Artifact) returns (c: nat)
    requires DistinctIds(rows) && Oldest(rows, p).Some?
    ensures c < |rows| && p(rows[c]) && rows[c] == Oldest(rows, p).value
    ensures forall i :: 0 <= i < |rows| && p(rows[i]) ==> !Before(rows[i], rows[c])
    ensures Update(rows, (row: Artifact) => row.id == Oldest(rows, p).value.id, f) == rows[c := f(rows[c])]
  {
    OldestIsOldest(rows, p);
    c :| 0 <= c < |rows| && rows[c] == Oldest(rows, p).value;
  }

  lemma FailKeepsDistinctIds(rows: seq<Artifact>, r: seq<Artifact>, now: Time, locked: set<nat>)
    requires DistinctIds(rows) && FailsSome(rows, r, now, locked)
    ensures DistinctIds(r)
  {
    forall i | 0 <= i < |r| ensures r[i].id == rows[i].id {
    }
  }

  /** A claim fails some exhausted rows, and then takes the oldest claimable row, if there is one. */
  lemma ClaimTakes(q: Queue, now: Time, locked: set<nat>) returns (m: seq<Artifact>, c: nat)
    requires DistinctIds(q.rows)
    ensures m == FailExhausted(q.rows, now, locked, BATCH) && FailsSome(q.rows, m, now, locked)
    ensures var (r, token) := AfterClaim(q, now, locked);
      if token.None? then
        r == q.(rows := m) && forall i :: 0 <= i < |m| ==> !Claimable(m[i], now, locked)
      else
        && c < |m| && Claimable(m[c], now, locked) && m[c] == q.rows[c] && token == Some(|q.jobs|)
        && (forall i :: 0 <= i < |m| && Claimable(m[i], now, locked) ==> !Before(m[i], m[c]))
        && r == q.(rows := m[c := Take(m[c], |q.jobs|, now)], jobs := q.jobs + [Job(m[c].id, m[c].context)])
  {
    m := FailExhausted(q.rows, now, locked, BATCH);
    FailExhaustedRows(q.rows, now, locked, BATCH);
    FailKeepsDistinctIds(q.rows, m, now, locked);
    var p := (row: Artifact) => Claimable(row, now, locked);
    OldestIsOldest(m, p);
    c := 0;
    if Oldest(m, p).Some? {
      var token := |q.jobs|;
      c := PickIsOne(m, p, (row: Artifact) => Take(row, token, now));
    }
  }

  lemma ClaimRows(q: Queue, now: Time, locked: set<nat>, w: World)
    requires DistinctIds(q.rows)
    ensures var r := AfterClaim(q, now, locked).0.rows;
      |r| == |q.rows| && forall i :: 0 <= i < |r| ==> Moves(q.rows[i], r[i], q, ClaimStep(now, locked), w)
  {
    var m, c := ClaimTakes(q, now, locked);
  }

  lemma StepRows(q: Queue, step: Step, w: World)
    requires DistinctIds(q.rows) && Enabled(q, step, w)
    ensures |q.rows| <= |After(q, step, w).rows|
    ensures forall i :: 0 <= i < |q.rows| ==> Moves(q.rows[i], After(q, step, w).rows[i], q, step, w)
    ensures |q.rows| < |After(q, step, w).rows| ==>
      && step.RequestStep?
      && After(q, step, w).rows == q.rows + [NewArtifact(step.newId, step.r.revisionId, step.e, step.now)]
      && forall i :: 0 <= i < |q.rows| ==> !Serves(q.rows[i], step.r.revisionId, step.e.cacheIdentity)
  {
    match step {
      case RequestStep(r, e, newId, now) =>
        OldestIsOldest(q.rows, (row: Artifact) => Serves(row, r.revisionId, e.cacheIdentity));
      case ClaimStep(now, locked) =>
        ClaimRows(q, now, locked, w);
      case FinalizeStep(_, _, _) =>
      case FailStep(_, _) =>
    }
  }

  // ---- each step keeps the invariant -------------------------------------------------------------------------

  lemma UntouchedRow(row: Artifact, jobs: seq<Job>, job: Job, w: World)
    requires RowOk(row, jobs, w) && (row.claimToken.Some? ==> job.exportId != row.id)
    ensures RowOk(row, jobs + [job], w)
  {
  }

  lemma TakenRow(row: Artifact, jobs: seq<Job>, now: Time, locked: set<nat>, w: World)
    requires RowOk(row, jobs, w) && Claimable(row, now, locked)
    ensures RowOk(Take(row, |jobs|, now), jobs + [Job(row.id, row.context)], w)
  {
  }

  lemma ClaimRowsOk(q: Queue, now: Time, locked: set<nat>, w: World)
    requires RowsOk(q, w) && DistinctIds(q.rows)
    ensures RowsOk(AfterClaim(q, now, locked).0, w)
  {
    var m, c := ClaimTakes(q, now, locked);
    var r := AfterClaim(q, now, locked).0;
    forall i | 0 <= i < |r.rows| ensures RowOk(r.rows[i], r.jobs, w) {
      assert RowOk(m[i], q.jobs, w) by { assert RowOk(q.rows[i], q.jobs, w); }
      if AfterClaim(q, now, locked).1.Some? {
        if i == c {
          TakenRow(m[c], q.jobs, now, locked, w);
        } else {
          UntouchedRow(m[i], q.jobs, Job(m[c].id, m[c].context), w);
        }
      }
    }
  }

  lemma StepRowsOk(q: Queue, step: Step, w: World)
    requires RowsOk(q, w) && DistinctIds(q.rows) && Enabled(q, step, w)
    ensures RowsOk(After(q, step, w), w)
  {
    if step.ClaimStep? {
      ClaimRowsOk(q, step.now, step.locked, w);
    } else {
      StepRows(q, step, w);
      var r := After(q, step, w);
      forall i | 0 <= i < |r.rows| ensures RowOk(r.rows[i], r.jobs, w) {
        if i < |q.rows| {
          assert RowOk(q.rows[i], q.jobs, w) && Moves(q.rows[i], r.rows[i], q, step, w);
        }
      }
    }
  }

  lemma MovesForward(a: Artifact, b: Artifact, q: Queue, step: Step, w: World)
    requires Enabled(q, step, w) && Moves(a, b, q, step, w)
    ensures SameOrigin(a, b)
    ensures a.status != Pending ==> a == b
  {
  }

  lemma StepDistinctAndLive(q: Queue, step: Step, w: World)
    requires DistinctIds(q.rows) && OneLive(q.rows) && Enabled(q, step, w)
    ensures DistinctIds(After(q, step, w).rows) && OneLive(After(q, step, w).rows)
  {
    StepRows(q, step, w);
    var r := After(q, step, w).rows;
    forall i | 0 <= i < |q.rows| ensures SameOrigin(q.rows[i], r[i]) && (q.rows[i].status == Failed ==> r[i].status == Failed) {
      MovesForward(q.rows[i], r[i], q, step, w);
    }
    forall i, j | 0 <= i < j < |r| && SameEvidence(r[i], r[j]) ensures r[i].status == Failed || r[j].status == Failed {
      if j < |q.rows| {
        assert SameEvidence(q.rows[i], q.rows[j]);
      } else {
        assert !Serves(q.rows[i], step.r.revisionId, step.e.cacheIdentity);
      }
    }
  }

  lemma StepKeepsInv(q: Queue, step: Step, w: World)
    requires Inv(q, w) && Enabled(q, step, w)
    ensures Inv(After(q, step, w), w)
  {
    StepRowsOk(q, step, w);
    StepDistinctAndLive(q, step, w);
  }

  /** In every reachable state the columns meet the table's constraints, a token is its artifact's
      last claim, a ready artifact holds a complete archive rendered from its own context, and no
      two live artifacts have the same evidence. */
  lemma {:induction false} RunKeepsInv(q: Queue, steps: seq<Step>, w: World)
    requires Inv(q, w) && Run(q, steps, w)
    ensures Inv(End(q, steps, w), w)
    decreases |steps|
  {
    if |steps| > 0 {
      StepKeepsInv(q, steps[0], w);
      RunKeepsInv(After(q, steps[0], w), steps[1..], w);
    }
  }

  lemma StartKeepsInv(w: World)
    ensures Inv(START, w)
  {
  }

  // ---- what runs never change ---------------------------------------------------------------------------------

  /** Rows stay where they are, with their captured context; ready and failed ones stay unchanged. */
  lemma {:induction false} FinishedForever(q: Queue, steps: seq<Step>, i: nat, w: World)
    requires Inv(q, w) && Run(q, steps, w) && i < |q.rows|
    ensures i < |End(q, steps, w).rows| && SameOrigin(q.rows[i], End(q, steps, w).rows[i])
    ensures q.rows[i].status != Pending ==> End(q, steps, w).rows[i] == q.rows[i]
    decreases |steps|
  {
    if |steps| > 0 {
      var r := After(q, steps[0], w);
      StepRows(q, steps[0], w);
      MovesForward(q.rows[i], r.rows[i], q, steps[0], w);
      StepKeepsInv(q, steps[0], w);
      FinishedForever(r, steps[1..], i, w);
    }
  }

  /** No row holds the token. */
  predicate Lost(q: Queue, token: nat) {
    && token < |q.jobs|
    && forall i :: 0 <= i < |q.rows| ==> q.rows[i].claimToken != Some(token)
  }

  lemma StepKeepsLost(q: Queue, step: Step, token: nat, w: World)
    requires Inv(q, w) && Enabled(q, step, w) && Lost(q, token)
    ensures Lost(After(q, step, w), token)
  {
    StepRows(q, step, w);
    var r := After(q, step, w);
    assert token < |r.jobs|;
    forall i | 0 <= i < |r.rows| ensures r.rows[i].claimToken != Some(token) {
      if i < |q.rows| {
        assert Moves(q.rows[i], r.rows[i], q, step, w);
      }
    }
  }

  lemma LostChangesNothing(q: Queue, token: nat, file: File, now: Time)
    requires Lost(q, token)
    ensures AfterFinalize(q, q.jobs[token].exportId, token, file, now) == q
    ensures AfterFailAttempt(q, q.jobs[token].exportId, token, now) == q
  {
    assert AfterFinalize(q, q.jobs[token].exportId, token, file, now).rows == q.rows;
    assert AfterFailAttempt(q, q.jobs[token].exportId, token, now).rows == q.rows;
  }

  /** A token that was replaced or cleared never comes back, and a worker that still uses it
      changes nothing, ever after. */
  lemma {:induction false} StaleWorkerChangesNothing(q: Queue, steps: seq<Step>, token: nat, file: File, now: Time, w: World)
    requires Inv(q, w) && Run(q, steps, w) && Lost(q, token)
    ensures var e := End(q, steps, w);
      && Lost(e, token)
      && AfterFinalize(e, e.jobs[token].exportId, token, file, now) == e
      && AfterFailAttempt(e, e.jobs[token].exportId, token, now) == e
    decreases |steps|
  {
    if |steps| > 0 {
      StepKeepsInv(q, steps[0], w);
      StepKeepsLost(q, steps[0], token, w);
      StaleWorkerChangesNothing(After(q, steps[0], w), steps[1..], token, file, now, w);
    } else {
      LostChangesNothing(q, token, file, now);
    }
  }

  /** Only the last claimant of an artifact can finish or fail it, and only with the artifact's own
      context; and its token is lost in doing so. */
  lemma OnlyLastClaimantActs(q: Queue, step: Step, w: World)
    requires Inv(q, w) && Enabled(q, step, w) && (step.FinalizeStep? || step.FailStep?)
    ensures !Lost(q, step.token) <==> After(q, step, w) != q
    ensures Lost(After(q, step, w), step.token)
    ensures After(q, step, w) != q ==>
      exists i :: 0 <= i < |q.rows|
        && q.rows[i].status == Pending && q.rows[i].claimToken == Some(step.token)
        && LastClaim(q.jobs, step.token, q.rows[i].id) && q.jobs[step.token].context == q.rows[i].context
        && After(q, step, w).rows
             == q.rows[i := if step.FinalizeStep? then Complete(q.rows[i], step.file, step.now)
                            else Release(q.rows[i], step.now)]
  {
    var r := After(q, step, w);
    if Lost(q, step.token) {
      LostChangesNothing(q, step.token, if step.FinalizeStep? then step.file else File([], []), step.now);
    } else {
      var i :| 0 <= i < |q.rows| && q.rows[i].claimToken == Some(step.token);
      assert RowOk(q.rows[i], q.jobs, w);
      assert q.rows[i].id == q.jobs[step.token].exportId;
      forall j | 0 <= j < |q.rows| && j != i ensures r.rows[j] == q.rows[j] && r.rows[j].claimToken != Some(step.token) {
        assert RowOk(q.rows[j], q.jobs, w);
      }
      assert r.rows[i] != q.rows[i];
      assert r.rows == q.rows[i := r.rows[i]];
    }
  }
}
