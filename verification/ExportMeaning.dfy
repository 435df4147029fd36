/** What the transactions of the export queue and a worker's pass do to the columns of artifacts. */
module ExportMeaning {
  import opened Wrappers
  import opened JsText
  import opened CanonicalJson
  import opened ZipArchive
  import opened ExportQueue
  import opened ExportWorker
  import opened ExportSafety
  import opened ExportProgress

  // ---- claims ------------------------------------------------------------------------------------------

  /** No lease, or one that ended before. */
  predicate LeaseOver(row: Artifact, now: Time) {
    row.leaseUntil.None? || row.leaseUntil.value < now
  }

  /** The job is pending, of nobody else's transaction, with an attempt left and no lease running. */
  predicate CanBeTaken(row: Artifact, now: Time, locked: set<nat>) {
    row.status == Pending && row.attempts < 3 && LeaseOver(row, now) && row.id !in locked
  }

  /** The same with no attempt left. */
  predicate MustFail(row: Artifact, now: Time, locked: set<nat>) {
    row.status == Pending && row.attempts >= 3 && LeaseOver(row, now) && row.id !in locked
  }

  predicate SameRequest(a: Artifact, b: Artifact) {
    && b.id == a.id && b.revisionId == a.revisionId && b.cacheIdentity == a.cacheIdentity
    && b.context == a.context && b.createdAt == a.createdAt
  }

  /** `b` is `a` failed for want of attempts. */
  predicate GivenUp(a: Artifact, b: Artifact, now: Time) {
    && SameRequest(a, b) && b.attempts == a.attempts && b.content == a.content
    && b.status == Failed && b.failure == Some(RecoveryExhausted) && b.completedAt == Some(now)
    && b.claimToken.None? && b.leaseUntil.None?
  }

  /** `b` is `a` taken under a new token, for two minutes. */
  predicate TakenUnder(a: Artifact, b: Artifact, token: nat, now: Time) {
    && SameRequest(a, b) && b.attempts == a.attempts + 1 && b.content == a.content
    && b.status == Pending && b.failure == a.failure && b.completedAt == a.completedAt
    && b.claimToken == Some(token) && b.leaseUntil == Some(now + 120_000)
  }

  /** A claim gives up some jobs that must fail, and takes the one that was created first, ties by id,
      among those that can be taken, if there is one; every other row stays as it is. */
  lemma ClaimMeaning(q: Queue, now: Time, locked: set<nat>) returns (c: nat)
    requires DistinctIds(q.rows)
    ensures var (r, token) := AfterClaim(q, now, locked);
      && |r.rows| == |q.rows| && r.records == q.records
      && (forall i :: 0 <= i < |q.rows| && (token.None? || i != c) ==>
            r.rows[i] == q.rows[i] || (MustFail(q.rows[i], now, locked) && GivenUp(q.rows[i], r.rows[i], now)))
      && (token.None? ==> r.jobs == q.jobs && forall i :: 0 <= i < |q.rows| ==> !CanBeTaken(q.rows[i], now, locked))
      && (token.Some? ==>
            && token.value == |q.jobs| && c < |q.rows| && CanBeTaken(q.rows[c], now, locked)
            && TakenUnder(q.rows[c], r.rows[c], token.value, now)
            && r.jobs == q.jobs + [Job(q.rows[c].id, q.rows[c].context)]
            && forall i :: 0 <= i < |q.rows| && CanBeTaken(q.rows[i], now, locked) ==>
                 q.rows[c].createdAt < q.rows[i].createdAt
                 || (q.rows[c].createdAt == q.rows[i].createdAt && q.rows[c].id <= q.rows[i].id))
  {
    var m: seq<Artifact>;
    m, c := ClaimTakes(q, now, locked);
    forall i | 0 <= i < |q.rows|
      ensures m[i] == q.rows[i] || (MustFail(q.rows[i], now, locked) && GivenUp(q.rows[i], m[i], now))
      ensures CanBeTaken(q.rows[i], now, locked) ==> m[i] == q.rows[i] && Claimable(m[i], now, locked)
    {
    }
  }

  /** A job whose lease is running is left alone by every claim. */
  lemma LeaseIsRespected(q: Queue, now: Time, locked: set<nat>, i: nat)
    requires DistinctIds(q.rows) && i < |q.rows|
    requires q.rows[i].leaseUntil.Some? && now <= q.rows[i].leaseUntil.value
    ensures i < |AfterClaim(q, now, locked).0.rows| && AfterClaim(q, now, locked).0.rows[i] == q.rows[i]
  {
    var c := ClaimMeaning(q, now, locked);
  }

  // ---- ends of attempts ------------------------------------------------------------------------------------

  /** The row is finished with this file. */
  predicate FinishedWith(a: Artifact, b: Artifact, file: File, now: Time) {
    && SameRequest(a, b) && b.attempts == a.attempts && b.status == Ready && b.content == Some(file)
    && b.completedAt == Some(now) && b.failure == a.failure && b.claimToken.None? && b.leaseUntil.None?
  }

  /** The attempt has failed, and with the third one the job has. */
  predicate AttemptFailed(a: Artifact, b: Artifact, now: Time) {
    && SameRequest(a, b) && b.attempts == a.attempts && b.content == a.content
    && b.claimToken.None? && b.leaseUntil.None?
    && if a.attempts >= 3 then b.status == Failed && b.failure == Some(RenderFailed) && b.completedAt == Some(now)
       else b.status == Pending && b.failure.None? && b.completedAt.None?
  }

  predicate HeldBy(row: Artifact, exportId: nat, token: nat) {
    row.id == exportId && row.claimToken == Some(token) && row.status == Pending
  }

  /** Finishing and failing act on the rows held under that token, and on no others. */
  lemma EndMeaning(q: Queue, exportId: nat, token: nat, file: File, now: Time)
    ensures var done, failed := AfterFinalize(q, exportId, token, file, now), AfterFailAttempt(q, exportId, token, now);
      && done == q.(rows := done.rows) && failed == q.(rows := failed.rows)
      && |done.rows| == |failed.rows| == |q.rows|
      && forall i :: 0 <= i < |q.rows| ==>
           if HeldBy(q.rows[i], exportId, token)
           then FinishedWith(q.rows[i], done.rows[i], file, now) && AttemptFailed(q.rows[i], failed.rows[i], now)
           else done.rows[i] == failed.rows[i] == q.rows[i]
  {
  }

  // ---- requests ----------------------------------------------------------------------------------------------

  /** The artifact can still serve, or serves, this evidence. */
  predicate ServesEvidence(row: Artifact, revisionId: nat, cacheIdentity: Text) {
    row.revisionId == revisionId && row.cacheIdentity == cacheIdentity && (row.status == Pending || row.status == Ready)
  }

  /** A pending artifact as it is when it is asked for. */
  predicate IsNew(row: Artifact, id: nat, r: Request, e: Evidence, now: Time) {
    && row.id == id && row.revisionId == r.revisionId && row.cacheIdentity == e.cacheIdentity
    && row.context == e.context && row.createdAt == now && row.status == Pending && row.attempts == 0
    && row.claimToken.None? && row.leaseUntil.None? && row.completedAt.None? && row.failure.None? && row.content.None?
  }

  /** A first request for good evidence is answered with an artifact of its own revision and evidence:
      one that serves it already, with 200 if it is ready and 202 if not; or a new one, with 202. */
  lemma RequestMeaning(q: Queue, r: Request, e: Evidence, newId: nat, now: Time)
    requires (r.revisionId, r.actorId, r.idempotencyKey) !in q.records
    requires e.supported && e.fingerprintMatches && e.hasMapping && e.verifies
    ensures var (after, reply) := AfterRequest(q, r, e, newId, now);
      && reply.Ok? && !reply.value.1
      && after.jobs == q.jobs
      && after.records == q.records[(r.revisionId, r.actorId, r.idempotencyKey) := IdempotencyRecord(r.content, reply.value.0)]
      && if exists i :: 0 <= i < |q.rows| && ServesEvidence(q.rows[i], r.revisionId, e.cacheIdentity)
         then
           && after.rows == q.rows
           && exists i ::
                && 0 <= i < |q.rows| && ServesEvidence(q.rows[i], r.revisionId, e.cacheIdentity)
                && reply.value.0 == Reply(if q.rows[i].status == Ready then 200 else 202, q.rows[i].id)
         else |after.rows| == |q.rows| + 1 && after.rows[..|q.rows|] == q.rows
              && IsNew(after.rows[|q.rows|], newId, r, e, now) && reply.value.0 == Reply(202, newId)
  {
    var p := (row: Artifact) => Serves(row, r.revisionId, e.cacheIdentity);
    OldestIsOldest(q.rows, p);
    forall row: Artifact ensures p(row) <==> ServesEvidence(row, r.revisionId, e.cacheIdentity) {
    }
    if Oldest(q.rows, p).Some? {
      var i :| 0 <= i < |q.rows| && q.rows[i] == Oldest(q.rows, p).value;
      assert ServesEvidence(q.rows[i], r.revisionId, e.cacheIdentity);
    }
  }

  /** Evidence that is not good is refused, for the first thing that is wrong with it, and nothing
      changes. */
  lemma RefusalMeaning(q: Queue, r: Request, e: Evidence, newId: nat, now: Time)
    requires (r.revisionId, r.actorId, r.idempotencyKey) !in q.records
    ensures var (after, reply) := AfterRequest(q, r, e, newId, now);
      && (reply.Ok? <==> e.supported && e.fingerprintMatches && e.hasMapping && e.verifies)
      && (reply.Err? ==> after == q)
      && (!e.supported <==> reply == Err(UnsupportedSchema))
      && (e.supported && !e.fingerprintMatches <==> reply == Err(StaleFingerprint))
      && (e.supported && e.fingerprintMatches && !e.hasMapping <==> reply == Err(NoTemplate))
      && (e.supported && e.fingerprintMatches && e.hasMapping && !e.verifies <==> reply == Err(IntegrityFailed))
  {
  }

  // ---- a worker's pass -----------------------------------------------------------------------------------------

  /** What a pass does with a job it has taken: bytes that are a complete archive make the artifact ready
      with these bytes, at once; anything else fails the attempt. */
  lemma JobMeaning(
      q: Queue, now: Time, locked: set<nat>, render: Renderer, name: Json -> Text, decode: Decoder, end: Time)
    returns (c: nat)
    requires DistinctIds(q.rows) && AfterClaim(q, now, locked).1.Some?
    ensures var (claimed, token) := AfterClaim(q, now, locked);
      var after, context := AfterJob(claimed, token.value, render, name, decode, end), claimed.jobs[token.value].context;
      && c < |claimed.rows| == |after.rows| && claimed.rows[c].claimToken == token && claimed.rows[c].context == context
      && (if render(context).Some? && CompleteArchive(render(context).value, decode)
          then FinishedWith(claimed.rows[c], after.rows[c], File(render(context).value, name(context)), end)
          else AttemptFailed(claimed.rows[c], after.rows[c], end))
  {
    c := ClaimMeaning(q, now, locked);
    var (claimed, token) := AfterClaim(q, now, locked);
    var job := claimed.jobs[token.value];
    assert HeldBy(claimed.rows[c], job.exportId, token.value);
    var bytes := render(job.context);
    EndMeaning(claimed, job.exportId, token.value,
      File(if bytes.Some? then bytes.value else [], name(job.context)), end);
  }

  /** After a whole pass, the artifact of a job that rendered to a complete archive is ready with these
      bytes, under the name for its context, whatever became of the pass's later jobs. */
  lemma RenderedIsReady(
      q: Queue, count: nat, s: Surroundings, render: Renderer, name: Json -> Text, decode: Decoder)
    returns (c: nat)
    requires Inv(q, WorldOf(render, decode)) && count < 4 && !s.stopping(count)
    requires AfterClaim(q, s.claimedAt(count), s.locked(count)).1.Some?
    requires var (claimed, token) := AfterClaim(q, s.claimedAt(count), s.locked(count));
      var rendered := render(claimed.jobs[token.value].context);
      rendered.Some? && CompleteArchive(rendered.value, decode)
    ensures var (claimed, token) := AfterClaim(q, s.claimedAt(count), s.locked(count));
      var e, context := AfterPass(q, count, s, render, name, decode), claimed.jobs[token.value].context;
      && c < |e.rows| && c < |claimed.rows| && claimed.rows[c].claimToken == token
      && e.rows[c].id == claimed.rows[c].id && e.rows[c].status == Ready
      && e.rows[c].content == Some(File(render(context).value, name(context)))
  {
    var w := WorldOf(render, decode);
    var claim := ClaimStep(s.claimedAt(count), s.locked(count));
    var (claimed, token) := AfterClaim(q, s.claimedAt(count), s.locked(count));
    c := JobMeaning(q, s.claimedAt(count), s.locked(count), render, name, decode, s.finishedAt(count));
    StepKeepsInv(q, claim, w);
    var finish := JobIsStep(claimed, token.value, render, name, decode, s.finishedAt(count));
    StepKeepsInv(claimed, finish, w);
    var after := AfterJob(claimed, token.value, render, name, decode, s.finishedAt(count));
    var rest := PassIsRun(after, count + 1, s, render, name, decode);
    FinishedForever(after, rest, c, w);
  }
}
