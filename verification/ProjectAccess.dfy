/** Whose calls can change a project: the owner's, unless a viewer, and an administrator's. */
module ProjectAccess {
  import opened Wrappers
  import opened ProjectStore
  import opened ProjectRuns

  predicate MayWrite(actor: Actor, ownerId: Id) {
    actor.role == Administrator || (actor.role != Viewer && actor.id == ownerId)
  }

  /** Whose authority a step has, and on which project's draft, calculation or revisions it acts. */
  function ActsOn(s: Store, step: Step): Option<(Actor, Id)>
    requires Enabled(s, step)
  {
    match step
    case ReplaceStep(actor, projectId, _, _, _) => Some((actor, projectId))
    case StoreStep(job) => Some((s.jobs[job].actor, s.jobs[job].projectId))
    case SaveStep(actor, projectId, _, _, _) => Some((actor, projectId))
    case _ => None
  }

  function NumbersOf(revisions: seq<Revision>, projectId: Id): seq<nat> {
    if |revisions| == 0 then []
    else
      var last := revisions[|revisions| - 1];
      NumbersOf(revisions[..|revisions| - 1], projectId) + if last.projectId == projectId then [last.number] else []
  }

  /** The project's draft, its calculation, and the numbers of its revisions. */
  predicate SameProject(s: Store, r: Store, projectId: Id)
    requires projectId in s.projects
  {
    && projectId in r.projects && r.projects[projectId] == s.projects[projectId]
    && (projectId in r.calculations <==> projectId in s.calculations)
    && (projectId in s.calculations ==> r.calculations[projectId] == s.calculations[projectId])
    && NumbersOf(r.revisions, projectId) == NumbersOf(s.revisions, projectId)
  }

  lemma {:induction false} SameNumbers(a: seq<Revision>, b: seq<Revision>, projectId: Id)
    requires |a| == |b|
    requires forall i :: 0 <= i < |a| ==> a[i].projectId == b[i].projectId && a[i].number == b[i].number
    ensures NumbersOf(a, projectId) == NumbersOf(b, projectId)
  {
    if |a| > 0 {
      SameNumbers(a[..|a| - 1], b[..|b| - 1], projectId);
    }
  }

  lemma OtherRevision(revisions: seq<Revision>, revision: Revision, projectId: Id)
    requires revision.projectId != projectId
    ensures NumbersOf(revisions + [revision], projectId) == NumbersOf(revisions, projectId)
  {
    assert (revisions + [revision])[..|revisions|] == revisions;
  }

  lemma StepRevisions(s: Store, w: World, step: Step)
    requires Enabled(s, step)
    ensures var r := After(s, w, step).revisions;
      || (|r| == |s.revisions|
          && forall i :: 0 <= i < |r| ==> r[i].projectId == s.revisions[i].projectId && r[i].number == s.revisions[i].number)
      || (&& step.SaveStep? && Writable(s, step.projectId, step.actor).Ok?
          && |r| == |s.revisions| + 1 && r == s.revisions + [r[|s.revisions|]]
          && r[|s.revisions|].projectId == step.projectId)
  {
  }

  lemma StepNumbers(s: Store, w: World, step: Step, projectId: Id)
    requires Enabled(s, step)
    ensures NumbersOf(After(s, w, step).revisions, projectId) == NumbersOf(s.revisions, projectId)
         || (step.SaveStep? && step.projectId == projectId && Writable(s, projectId, step.actor).Ok?)
  {
    var r := After(s, w, step).revisions;
    StepRevisions(s, w, step);
    if |r| == |s.revisions| {
      SameNumbers(r, s.revisions, projectId);
    } else if step.projectId != projectId {
      OtherRevision(s.revisions, r[|s.revisions|], projectId);
    }
  }

  lemma StepDraft(s: Store, w: World, step: Step, projectId: Id)
    requires Enabled(s, step) && projectId in s.projects
    ensures var r := After(s, w, step);
      || (projectId in r.projects && r.projects[projectId] == s.projects[projectId])
      || (step.ReplaceStep? && step.projectId == projectId && Writable(s, projectId, step.actor).Ok?)
  {
  }

  lemma StepCalculation(s: Store, w: World, step: Step, projectId: Id)
    requires Enabled(s, step)
    ensures var r := After(s, w, step);
      || (&& (projectId in r.calculations <==> projectId in s.calculations)
          && (projectId in s.calculations ==> r.calculations[projectId] == s.calculations[projectId]))
      || (step.StoreStep? && s.jobs[step.job].projectId == projectId && Writable(s, projectId, s.jobs[step.job].actor).Ok?)
  {
  }

  lemma WritableIff(s: Store, projectId: Id, actor: Actor)
    requires projectId in s.projects
    ensures Writable(s, projectId, actor).Ok? <==> MayWrite(actor, s.projects[projectId].ownerId)
  {
  }

  lemma StepProjectsStay(s: Store, w: World, step: Step, projectId: Id)
    requires Enabled(s, step) && projectId in s.projects
    ensures projectId in After(s, w, step).projects
  {
  }

  /** A step that changes a project is by someone who may write it. */
  lemma OnlyWritersChange(s: Store, w: World, step: Step, projectId: Id)
    requires Enabled(s, step) && projectId in s.projects
    ensures SameProject(s, After(s, w, step), projectId)
         || (&& ActsOn(s, step).Some? && ActsOn(s, step).value.1 == projectId
             && MayWrite(ActsOn(s, step).value.0, s.projects[projectId].ownerId))
  {
    StepProjectsStay(s, w, step, projectId);
    StepNumbers(s, w, step, projectId);
    StepDraft(s, w, step, projectId);
    StepCalculation(s, w, step, projectId);
    if ActsOn(s, step).Some? {
      WritableIff(s, projectId, ActsOn(s, step).value.0);
    }
  }

  /** No step of the run acts on the project with the right to write it. */
  predicate NoWriter(s: Store, w: World, steps: seq<Step>, projectId: Id, ownerId: Id)
    requires Run(s, w, steps)
    decreases |steps|
  {
    |steps| == 0
    || (&& (ActsOn(s, steps[0]).Some? && ActsOn(s, steps[0]).value.1 == projectId ==>
              !MayWrite(ActsOn(s, steps[0]).value.0, ownerId))
        && NoWriter(After(s, w, steps[0]), w, steps[1..], projectId, ownerId))
  }

  /** Whatever others do, in whatever roles, a project on which none of its writers acts stays as it
      is: its draft, its owner, its calculation, and the list of its revisions. */
  lemma {:induction false} OthersChangeNothing(s: Store, w: World, steps: seq<Step>, projectId: Id)
    requires Run(s, w, steps) && projectId in s.projects
    requires NoWriter(s, w, steps, projectId, s.projects[projectId].ownerId)
    ensures SameProject(s, End(s, w, steps), projectId)
    decreases |steps|
  {
    if |steps| > 0 {
      OnlyWritersChange(s, w, steps[0], projectId);
      OthersChangeNothing(After(s, w, steps[0]), w, steps[1..], projectId);
    }
  }

  /** Locking answers a foreign project exactly as one that does not exist. */
  lemma ForeignLooksAbsent(s: Store, w: World, step: Step, projectId: Id)
    requires projectId in s.projects && Enabled(s, step)
    requires ActsOn(s, step).Some? && ActsOn(s, step).value.1 == projectId
    requires !MayWrite(ActsOn(s, step).value.0, s.projects[projectId].ownerId)
    ensures var t := s.(projects := s.projects - {projectId});
      && Enabled(t, step) && Effect(t, w, step).1 == Effect(s, w, step).1
      && After(s, w, step) == s && After(t, w, step) == t
  {
  }
}
