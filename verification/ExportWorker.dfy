/** One recovery pass of an export worker: claim, render, check, then finish or fail the attempt,
    for at most four jobs. */
module ExportWorker {
  import opened Wrappers
  import opened JsText
  import opened CanonicalJson
  import opened ZipArchive
  import opened ExportQueue

  /** Rendering gives bytes, or fails or times out. */
  type Renderer = Json -> Option<seq<Byte>>

  /** What the outside world contributes to a pass: the clock at each claim and each completion,
      the rows locked by others, and whether the worker is being stopped. */
  datatype Surroundings = Surroundings(
    claimedAt: nat -> Time,
    finishedAt: nat -> Time,
    locked: nat -> set<nat>,
    stopping: nat -> bool)

  /** The file that a job's rendering gives, when it is a complete archive. */
  ghost function Rendered(job: Job, render: Renderer, name: Json -> Text, decode: Decoder): Option<File> {
    match render(job.context)
    case None => None
    case Some(bytes) => if CompleteArchive(bytes, decode) then Some(File(bytes, name(job.context))) else None
  }

  ghost function AfterJob(q: Queue, token: nat, render: Renderer, name: Json -> Text, decode: Decoder, now: Time): Queue
    requires token < |q.jobs|
  {
    var job := q.jobs[token];
    match Rendered(job, render, name, decode)
    case Some(file) => AfterFinalize(q, job.exportId, token, file, now)
    case None => AfterFailAttempt(q, job.exportId, token, now)
  }

  /** The queue after a pass that has already taken `count` jobs. */
  ghost function AfterPass(
      q: Queue, count: nat, s: Surroundings, render: Renderer, name: Json -> Text, decode: Decoder): Queue
    decreases 4 - count
  {
    if count >= 4 || s.stopping(count) then q
    else
      var (claimed, token) := AfterClaim(q, s.claimedAt(count), s.locked(count));
      match token
      case None => claimed
      case Some(t) =>
        AfterPass(AfterJob(claimed, t, render, name, decode, s.finishedAt(count)), count + 1, s, render, name, decode)
  }

  method BufferFrom(bytes: seq<Byte>) returns (buffer: array<Byte>)
    ensures fresh(buffer) && buffer[..] == bytes
  {
    buffer := new Byte[|bytes|](i requires 0 <= i < |bytes| => bytes[i]);
  }

  method RecoverOnce(
      repository: ExportRepository, s: Surroundings, render: Renderer, name: Json -> Text, decode: Decoder)
    requires repository.Valid()
    modifies repository
    ensures repository.Valid()
    ensures repository.State() == AfterPass(old(repository.State()), 0, s, render, name, decode)
  {
    var count := 0;
    while count < 4 && !s.stopping(count)
      invariant count <= 4 && repository.Valid()
      invariant AfterPass(repository.State(), count, s, render, name, decode)
             == AfterPass(old(repository.State()), 0, s, render, name, decode)
    {
      var token, job := repository.Claim(s.claimedAt(count), s.locked(count));
      if token.None? {
        return;
      }
      var rendered := render(job.value.context);
      var good := false;
      if rendered.Some? {
        var buffer := BufferFrom(rendered.value);
        good := CompleteWorkbookArchive(buffer, decode);
      }
      if good {
        repository.Finalize(job.value.exportId, token.value, File(rendered.value, name(job.value.context)),
          s.finishedAt(count));
      } else {
        repository.FailAttempt(job.value.exportId, token.value, s.finishedAt(count));
      }
      count := count + 1;
    }
  }
}
