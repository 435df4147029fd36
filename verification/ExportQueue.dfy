/** The queue of Excel exports: requests add artifacts, workers claim them under a lease, and
    finish or fail them with the token of their claim. Every repository call is one transaction.
    Tokens are numbered in the order in which they are issued, which makes each one fresh. */
module ExportQueue {
  import opened Wrappers
  import opened JsText
  import opened CanonicalJson
  import opened ZipArchive
  import opened Tables

  const MAX_ATTEMPTS: nat := 3
  const BATCH: nat := 4

  /** Two minutes, in milliseconds. */
  const LEASE := 120_000

  type Time = int

  datatype Status = Pending | Ready | Failed

  datatype FailureCode = RenderFailed | RecoveryExhausted

  datatype File = File(bytes: seq<Byte>, name: Text)

  /** A row of `export_artifacts`. */
  datatype Artifact = Artifact(
    id: nat,
    revisionId: nat,
    cacheIdentity: Text,
    context: Json,
    createdAt: Time,
    status: Status,
    attempts: nat,
    claimToken: Option<nat>,
    leaseUntil: Option<Time>,
    completedAt: Option<Time>,
    failure: Option<FailureCode>,
    content: Option<File>)

  /** What a claim hands to a worker; the token is the job's position among all jobs. */
  datatype Job = Job(exportId: nat, context: Json)

  datatype Request = Request(
    revisionId: nat,
    actorId: nat,
    idempotencyKey: Text,
    content: Text)

  /** What the transaction finds out about the revision, and the context it would capture. */
  datatype Evidence = Evidence(
    supported: bool,
    fingerprintMatches: bool,
    hasMapping: bool,
    verifies: bool,
    context: Json,
    cacheIdentity: Text)

  datatype Reply = Reply(statusCode: nat, artifactId: nat)

  datatype Refusal = KeyConflict | UnsupportedSchema | StaleFingerprint | NoTemplate | IntegrityFailed

  datatype IdempotencyRecord = IdempotencyRecord(content: Text, reply: Reply)

  /** Revision, actor and key. */
  type RecordKey = (nat, nat, Text)

  datatype Queue = Queue(
    rows: seq<Artifact>,
    records: map<RecordKey, IdempotencyRecord>,
    jobs: seq<Job>)

  // ---- queries and updates --------------------------------------------------------------------------

  predicate Before(a: Artifact, b: Artifact) {
    a.createdAt < b.createdAt || (a.createdAt == b.createdAt && a.id < b.id)
  }

  /** The first row, by creation and id, that satisfies `p`. */
  function Oldest(rows: seq<Artifact>, p: Artifact -> bool): Option<Artifact> {
    if |rows| == 0 then None
    else
      var best, last := Oldest(rows[..|rows| - 1], p), rows[|rows| - 1];
      if p(last) && (best.None? || Before(last, best.value)) then Some(last) else best
  }

  predicate Free(row: Artifact, now: Time) {
    row.leaseUntil.None? || row.leaseUntil.value < now
  }

  predicate Exhausted(row: Artifact, now: Time, locked: set<nat>) {
    row.status == Pending && row.attempts >= MAX_ATTEMPTS && Free(row, now) && row.id !in locked
  }

  predicate Claimable(row: Artifact, now: Time, locked: set<nat>) {
    row.status == Pending && row.attempts < MAX_ATTEMPTS && Free(row, now) && row.id !in locked
  }

  function Exhaust(row: Artifact, now: Time): Artifact {
    row.(status := Failed, failure := Some(RecoveryExhausted), completedAt := Some(now),
         claimToken := None, leaseUntil := None)
  }

  function Take(row: Artifact, token: nat, now: Time): Artifact {
    row.(attempts := row.attempts + 1, claimToken := Some(token), leaseUntil := Some(now + LEASE))
  }

  function Complete(row: Artifact, file: File, now: Time): Artifact {
    row.(status := Ready, completedAt := Some(now), content := Some(file), claimToken := None, leaseUntil := None)
  }

  function Release(row: Artifact, now: Time): Artifact {
    if row.attempts >= MAX_ATTEMPTS then
      row.(status := Failed, completedAt := Some(now), failure := Some(RenderFailed),
           claimToken := None, leaseUntil := None)
    else
      row.(status := Pending, completedAt := None, failure := None, claimToken := None, leaseUntil := None)
  }

  /** The oldest `k` exhausted rows fail. */
  function FailExhausted(rows: seq<Artifact>, now: Time, locked: set<nat>, k: nat): (r: seq<Artifact>)
    ensures |r| == |rows|
    decreases k
  {
    if k == 0 then rows
    else
      match Oldest(rows, (row: Artifact) => Exhausted(row, now, locked))
      case None => rows
      case Some(oldest) =>
        FailExhausted(Update(rows, (row: Artifact) => row.id == oldest.id, (row: Artifact) => Exhaust(row, now)),
          now, locked, k - 1)
  }

  // ---- transactions ------------------------------------------------------------------------------------

  predicate Holds(row: Artifact, exportId: nat, token: nat) {
    row.id == exportId && row.claimToken == Some(token) && row.status == Pending
  }

  /** `locked` are the rows that other transactions hold, which `SKIP LOCKED` passes over. */
  function AfterClaim(q: Queue, now: Time, locked: set<nat>): (Queue, Option<nat>) {
    var rows := FailExhausted(q.rows, now, locked, BATCH);
    match Oldest(rows, (row: Artifact) => Claimable(row, now, locked))
    case None => (q.(rows := rows), None)
    case Some(oldest) =>
      var token := |q.jobs|;
      (q.(rows := Update(rows, (row: Artifact) => row.id == oldest.id, (row: Artifact) => Take(row, token, now)),
          jobs := q.jobs + [Job(oldest.id, oldest.context)]),
       Some(token))
  }

  function AfterFinalize(q: Queue, exportId: nat, token: nat, file: File, now: Time): Queue {
    q.(rows := Update(q.rows, (row: Artifact) => Holds(row, exportId, token),
      (row: Artifact) => Complete(row, file, now)))
  }

  function AfterFailAttempt(q: Queue, exportId: nat, token: nat, now: Time): Queue {
    q.(rows := Update(q.rows, (row: Artifact) => Holds(row, exportId, token), (row: Artifact) => Release(row, now)))
  }

  predicate Serves(row: Artifact, revisionId: nat, cacheIdentity: Text) {
    row.revisionId == revisionId && row.cacheIdentity == cacheIdentity && row.status != Failed
  }

  function NewArtifact(id: nat, revisionId: nat, e: Evidence, now: Time): Artifact {
    Artifact(id, revisionId, e.cacheIdentity, e.context, now, Pending, 0, None, None, None, None, None)
  }

  function KeyOf(r: Request): RecordKey {
    (r.revisionId, r.actorId, r.idempotencyKey)
  }

  /** `newId` is the id that an inserted row would get. The flag tells a replayed reply. */
  function AfterRequest(q: Queue, r: Request, e: Evidence, newId: nat, now: Time): (Queue, Result<(Reply, bool), Refusal>) {
    if KeyOf(r) in q.records then
      var record := q.records[KeyOf(r)];
      (q, if record.content != r.content then Err(KeyConflict) else Ok((record.reply, true)))
    else if !e.supported then (q, Err(UnsupportedSchema))
    else if !e.fingerprintMatches then (q, Err(StaleFingerprint))
    else if !e.hasMapping then (q, Err(NoTemplate))
    else if !e.verifies then (q, Err(IntegrityFailed))
    else
      var cached := Oldest(q.rows, (row: Artifact) => Serves(row, r.revisionId, e.cacheIdentity));
      var row := if cached.Some? then cached.value else NewArtifact(newId, r.revisionId, e, now);
      var reply := Reply(if row.status == Ready then 200 else 202, row.id);
      (q.(rows := if cached.Some? then q.rows else q.rows + [row],
          records := q.records[KeyOf(r) := IdempotencyRecord(r.content, reply)]),
       Ok((reply, false)))
  }

  // ---- the repository --------------------------------------------------------------------------------------

  class ExportRepository {
    var artifacts: seq<Artifact>
    var records: map<RecordKey, IdempotencyRecord>
    var issued: nat

    /** Every job ever handed out. */
    ghost var jobs: seq<Job>

    ghost predicate Valid()
      reads this
    {
      |jobs| == issued
    }

    ghost function State(): Queue
      reads this
    {
      Queue(artifacts, records, jobs)
    }

    constructor ()
      ensures Valid() && State() == Queue([], map[], [])
    {
      artifacts, records, issued, jobs := [], map[], 0, [];
    }

    method Request(r: Request, e: Evidence, newId: nat, now: Time) returns (reply: Result<(Reply, bool), Refusal>)
      requires Valid()
      modifies this
      ensures Valid()
      ensures (State(), reply) == AfterRequest(old(State()), r, e, newId, now)
    {
      var key := KeyOf(r);
      if key in records {
        if records[key].content != r.content {
          return Err(KeyConflict);
        }
        return Ok((records[key].reply, true));
      }
      if !e.supported {
        return Err(UnsupportedSchema);
      }
      if !e.fingerprintMatches {
        return Err(StaleFingerprint);
      }
      if !e.hasMapping {
        return Err(NoTemplate);
      }
      if !e.verifies {
        return Err(IntegrityFailed);
      }
      var cached := Oldest(artifacts, (row: Artifact) => Serves(row, r.revisionId, e.cacheIdentity));
      var row := NewArtifact(newId, r.revisionId, e, now);
      if cached.Some? {
        row := cached.value;
      } else {
        artifacts := artifacts + [row];
      }
      var body := Reply(if row.status == Ready then 200 else 202, row.id);
      records := records[key := IdempotencyRecord(r.content, body)];
      return Ok((body, false));
    }

    method Claim(now: Time, locked: set<nat>) returns (token: Option<nat>, job: Option<Job>)
      requires Valid()
      modifies this
      ensures Valid()
      ensures (State(), token) == AfterClaim(old(State()), now, locked)
      ensures job == if token.Some? then Some(jobs[token.value]) else None
    {
      var failed := 0;
      while failed < BATCH
        invariant Valid() && failed <= BATCH
        invariant jobs == old(jobs) && records == old(records)
        invariant FailExhausted(artifacts, now, locked, BATCH - failed)
               == FailExhausted(old(artifacts), now, locked, BATCH)
      {
        var oldest := Oldest(artifacts, (row: Artifact) => Exhausted(row, now, locked));
        if oldest.None? {
          break;
        }
        artifacts := Update(artifacts, (row: Artifact) => row.id == oldest.value.id,
          (row: Artifact) => Exhaust(row, now));
        failed := failed + 1;
      }
      var oldest := Oldest(artifacts, (row: Artifact) => Claimable(row, now, locked));
      if oldest.None? {
        return None, None;
      }
      var claimed := issued;
      artifacts := Update(artifacts, (row: Artifact) => row.id == oldest.value.id,
        (row: Artifact) => Take(row, claimed, now));
      jobs := jobs + [Job(oldest.value.id, oldest.value.context)];
      issued := issued + 1;
      return Some(claimed), Some(Job(oldest.value.id, oldest.value.context));
    }

    method Finalize(exportId: nat, token: nat, file: File, now: Time)
      requires Valid()
      modifies this
      ensures Valid() && issued == old(issued)
      ensures State() == AfterFinalize(old(State()), exportId, token, file, now)
    {
      artifacts := Update(artifacts, (row: Artifact) => Holds(row, exportId, token),
        (row: Artifact) => Complete(row, file, now));
    }

    method FailAttempt(exportId: nat, token: nat, now: Time)
      requires Valid()
      modifies this
      ensures Valid() && issued == old(issued)
      ensures State() == AfterFailAttempt(old(State()), exportId, token, now)
    {
      artifacts := Update(artifacts, (row: Artifact) => Holds(row, exportId, token),
        (row: Artifact) => Release(row, now));
    }
  }
}
