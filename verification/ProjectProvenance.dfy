/** Where calculations and revisions come from: what is shown or saved as belonging to a draft
    version was computed from that version's document and from the catalog it was pinned to. */
module ProjectProvenance {
  import opened Wrappers
  import opened CanonicalJson
  import opened ProjectStore
  import opened ProjectRuns

  /** `input` is what compiling `source` gives, under its own run id. */
  predicate CompiledFrom(w: World, input: CalculationInput, source: Source) {
    w.compile(source).Some? && input == InputOf(w, source, w.compile(source).value, input.runId)
  }

  /** Somebody's compilation of the document, at that version and with that catalog. */
  ghost predicate Compiled(w: World, input: CalculationInput, projectId: Id, document: Json, version: nat, pair: Pair) {
    exists actorId: Id :: CompiledFrom(w, input, Source(projectId, document, version, pair, actorId))
  }

  /** A calculation for draft version `version` agrees with the project, if that is still its version. */
  ghost predicate Traces(w: World, s: Store, projectId: Id, version: nat, pair: Pair, input: CalculationInput) {
    && projectId in s.projects
    && var project := s.projects[projectId];
      && version <= project.draftVersion
      && (version == project.draftVersion ==>
            pair == project.pair && Compiled(w, input, projectId, project.document, version, pair))
  }

  ghost predicate JobOk(w: World, s: Store, job: Job) {
    && Traces(w, s, job.projectId, job.expectedVersion, job.pair, job.input)
    && w.calculate(job.input) == Some(job.result)
  }

  ghost predicate CalculationOk(w: World, s: Store, projectId: Id, c: Calculation) {
    && Traces(w, s, projectId, c.draftVersion, c.pair, c.input)
    && w.calculate(c.input) == Some(c.result)
    && c.id == c.input.runId && c.fingerprint == c.input.fingerprint && c.engineVersion == c.result.engineVersion
  }

  /** A payload joins one version of a project's document with what was computed from it. */
  ghost predicate PayloadOk(w: World, projectId: Id, p: Payload) {
    && p.project.id == projectId
    && p.project.draftVersion == p.sourceDraftVersion
    && (exists pair: Pair ::
          && Compiled(w, p.input, projectId, p.project.document, p.sourceDraftVersion, pair)
          && p.catalog == w.catalogs(pair.catalogId)
          && p.rules == w.ruleSets(pair.ruleSetId))
    && w.calculate(p.input) == Some(p.result)
    && p.calculationRunId == p.input.runId && p.fingerprint == p.input.fingerprint
    && p.engineVersion == p.result.engineVersion && p.approvalReady == p.result.approvalReady
    && p.warningSummary == Summary(p.result.warnings)
  }

  ghost predicate Provenance(w: World, s: Store) {
    && (forall i :: 0 <= i < |s.jobs| ==> JobOk(w, s, s.jobs[i]))
    && (forall p :: p in s.calculations ==> CalculationOk(w, s, p, s.calculations[p]))
    && forall i :: 0 <= i < |s.revisions| && s.revisions[i].payload.Some? ==>
         PayloadOk(w, s.revisions[i].projectId, s.revisions[i].payload.value)
  }

  // ---- how steps change what calculations trace to ------------------------------------------------------

  /** Projects keep their version, or get a new one. */
  predicate ProjectsMove(s: Store, r: Store) {
    forall p :: p in s.projects ==>
      p in r.projects && (r.projects[p] == s.projects[p] || r.projects[p].draftVersion > s.projects[p].draftVersion)
  }

  lemma StepMovesProjects(s: Store, w: World, step: Step)
    requires Enabled(s, step)
    ensures ProjectsMove(s, After(s, w, step))
  {
  }

  lemma TracesOn(w: World, s: Store, r: Store, projectId: Id, version: nat, pair: Pair, input: CalculationInput)
    requires Traces(w, s, projectId, version, pair, input) && ProjectsMove(s, r)
    ensures Traces(w, r, projectId, version, pair, input)
  {
  }

  lemma StepJobs(s: Store, w: World, step: Step)
    requires Enabled(s, step) && (forall i :: 0 <= i < |s.jobs| ==> JobOk(w, s, s.jobs[i]))
    ensures forall i :: 0 <= i < |After(s, w, step).jobs| ==> JobOk(w, After(s, w, step), After(s, w, step).jobs[i])
  {
    var r := After(s, w, step);
    StepMovesProjects(s, w, step);
    forall i | 0 <= i < |r.jobs| ensures JobOk(w, r, r.jobs[i]) {
      if i < |s.jobs| {
        var job := s.jobs[i];
        assert r.jobs[i] == job;
        TracesOn(w, s, r, job.projectId, job.expectedVersion, job.pair, job.input);
      } else {
        NewJob(s, w, step);
      }
    }
  }

  lemma NewJob(s: Store, w: World, step: Step)
    requires Enabled(s, step) && After(s, w, step).jobs != s.jobs
    ensures var r := After(s, w, step);
      |r.jobs| == |s.jobs| + 1 && JobOk(w, r, r.jobs[|s.jobs|])
  {
    var r := After(s, w, step);
    var project := s.projects[step.projectId];
    var source := Source(step.projectId, project.document, project.draftVersion, project.pair, step.actor.id);
    var job := r.jobs[|s.jobs|];
    assert CompiledFrom(w, job.input, source);
  }

  lemma StepCalculations(s: Store, w: World, step: Step)
    requires Enabled(s, step)
    requires forall i :: 0 <= i < |s.jobs| ==> JobOk(w, s, s.jobs[i])
    requires forall p :: p in s.calculations ==> CalculationOk(w, s, p, s.calculations[p])
    ensures forall p :: p in After(s, w, step).calculations ==>
      CalculationOk(w, After(s, w, step), p, After(s, w, step).calculations[p])
  {
    var r := After(s, w, step);
    StepMovesProjects(s, w, step);
    forall p | p in r.calculations ensures CalculationOk(w, r, p, r.calculations[p]) {
      if p in s.calculations && r.calculations[p] == s.calculations[p] {
        var c := s.calculations[p];
        TracesOn(w, s, r, p, c.draftVersion, c.pair, c.input);
      } else {
        var job := s.jobs[step.job];
        TracesOn(w, s, r, job.projectId, job.expectedVersion, job.pair, job.input);
      }
    }
  }

  // ---- saving ---------------------------------------------------------------------------------------------

  /** The nineteen comparisons of a save never fail: once the versions agree, so does all the
      evidence. */
  lemma EvidenceIsConsistent(w: World, s: Store, projectId: Id)
    requires WellBehaved(w) && projectId in s.calculations && CalculationOk(w, s, projectId, s.calculations[projectId])
    requires s.calculations[projectId].draftVersion == s.projects[projectId].draftVersion
    ensures Consistent(w, s.calculations[projectId], s.projects[projectId], projectId)
  {
    var c, project := s.calculations[projectId], s.projects[projectId];
    var actorId: Id :| CompiledFrom(w, c.input, Source(projectId, project.document, c.draftVersion, c.pair, actorId));
    assert w.calculate(c.input).Some?;
  }

  lemma SavedPayload(w: World, s: Store, actor: Actor, projectId: Id, request: Request, now: Time)
    requires projectId in s.calculations && CalculationOk(w, s, projectId, s.calculations[projectId])
    requires request.SaveRequest? && request.expectedVersion == s.projects[projectId].draftVersion
    requires s.calculations[projectId].draftVersion == request.expectedVersion
    ensures PayloadOk(w, projectId,
      PayloadOf(s.calculations[projectId], s.projects[projectId], projectId, actor, request, now))
  {
    var c, project := s.calculations[projectId], s.projects[projectId];
    var actorId: Id :| CompiledFrom(w, c.input, Source(projectId, project.document, c.draftVersion, c.pair, actorId));
    assert c.input.catalog == w.catalogs(c.pair.catalogId) && c.input.rules == w.ruleSets(c.pair.ruleSetId);
  }

  lemma OldRevision(s: Store, w: World, step: Step, i: nat)
    requires Enabled(s, step) && i < |s.revisions|
    ensures i < |After(s, w, step).revisions|
    ensures After(s, w, step).revisions[i].payload == s.revisions[i].payload
    ensures After(s, w, step).revisions[i].projectId == s.revisions[i].projectId
  {
  }

  lemma NewRevision(s: Store, w: World, step: Step, i: nat)
    requires Enabled(s, step) && (forall p :: p in s.calculations ==> CalculationOk(w, s, p, s.calculations[p]))
    requires |s.revisions| <= i < |After(s, w, step).revisions|
    ensures var revision := After(s, w, step).revisions[i];
      revision.payload.Some? && PayloadOk(w, revision.projectId, revision.payload.value)
  {
    SavedPayload(w, s, step.actor, step.projectId, step.request, step.now);
  }

  lemma StepRevisions(s: Store, w: World, step: Step, i: nat)
    requires Enabled(s, step) && Provenance(w, s)
    requires i < |After(s, w, step).revisions| && After(s, w, step).revisions[i].payload.Some?
    ensures PayloadOk(w, After(s, w, step).revisions[i].projectId, After(s, w, step).revisions[i].payload.value)
  {
    if i < |s.revisions| {
      OldRevision(s, w, step, i);
    } else {
      NewRevision(s, w, step, i);
    }
  }

  lemma StepKeepsProvenance(s: Store, w: World, step: Step)
    requires Enabled(s, step) && Provenance(w, s)
    ensures Provenance(w, After(s, w, step))
  {
    StepJobs(s, w, step);
    StepCalculations(s, w, step);
    var r := After(s, w, step);
    forall i | 0 <= i < |r.revisions| && r.revisions[i].payload.Some?
      ensures PayloadOk(w, r.revisions[i].projectId, r.revisions[i].payload.value)
    {
      StepRevisions(s, w, step, i);
    }
  }

  lemma {:induction false} RunKeepsProvenance(s: Store, w: World, steps: seq<Step>)
    requires Provenance(w, s) && Run(s, w, steps)
    ensures Provenance(w, End(s, w, steps))
    decreases |steps|
  {
    if |steps| > 0 {
      StepKeepsProvenance(s, w, steps[0]);
      RunKeepsProvenance(After(s, w, steps[0]), w, steps[1..]);
    }
  }

  /** Every saved revision, after any run, joins the snapshot of a draft version with the result of
      calculating what was compiled from that version's document and catalog. */
  lemma RevisionsHaveProvenance(s: Store, w: World, steps: seq<Step>, i: nat)
    requires Initial(s) && Run(s, w, steps) && HasPayload(End(s, w, steps), i)
    ensures var revision := End(s, w, steps).revisions[i]; PayloadOk(w, revision.projectId, revision.payload.value)
  {
    RunKeepsProvenance(s, w, steps);
  }

  /** A current calculation that is not shown as stale was computed from the document and the
      catalog that the project has now. */
  lemma FreshCalculationIsCurrent(s: Store, w: World, steps: seq<Step>, projectId: Id)
    requires Initial(s) && Run(s, w, steps) && projectId in End(s, w, steps).projects
    ensures var e := End(s, w, steps);
      CurrentCalculation(e, projectId).Some? && !CurrentCalculation(e, projectId).value.1 ==>
        var c, project := CurrentCalculation(e, projectId).value.0, e.projects[projectId];
        && Compiled(w, c.input, projectId, project.document, project.draftVersion, project.pair)
        && w.calculate(c.input) == Some(c.result)
  {
    RunKeepsProvenance(s, w, steps);
  }

  /** A save that is not refused for staleness or a missing calculation is not refused at all: in
      every reachable state the request decides alone. */
  lemma SaveSucceedsIff(s: Store, w: World, steps: seq<Step>, projectId: Id, request: Request)
    requires Initial(s) && Run(s, w, steps) && WellBehaved(w)
    requires projectId in End(s, w, steps).projects && request.SaveRequest?
    ensures var e := End(s, w, steps);
      SaveFailure(e, w, projectId, request).None?
      <==> && request.expectedVersion == e.projects[projectId].draftVersion
           && request.expectedLatest == LargestNumber(e.revisions, projectId)
           && projectId in e.calculations
           && e.calculations[projectId].draftVersion == e.projects[projectId].draftVersion
           && request.runId == e.calculations[projectId].id
           && request.fingerprint == e.calculations[projectId].fingerprint
  {
    RunKeepsProvenance(s, w, steps);
    var e := End(s, w, steps);
    if projectId in e.calculations && e.calculations[projectId].draftVersion == e.projects[projectId].draftVersion {
      EvidenceIsConsistent(w, e, projectId);
    }
  }
}
