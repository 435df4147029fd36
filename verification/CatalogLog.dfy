/** The log of catalog versions: what each transaction writes to it, and what it says after any run. */
module CatalogLog {
  import opened Wrappers
  import opened JsText
  import opened Tables
  import opened CatalogStore
  import opened CatalogLifecycle
  import opened CatalogContent

  // ---- the content of each version was imported -----------------------------------------------------------

  predicate Imported(imports: seq<Import>, id: Id, hash: Hash) {
    exists i :: 0 <= i < |imports| && imports[i].versionId == id && imports[i].hash == hash
  }

  predicate AllImported(c: Catalog) {
    forall id :: 0 <= id < |c.versions| ==> Imported(c.imports, id, c.versions[id].contentHash)
  }

  lemma StaysImported(a: seq<Import>, b: seq<Import>, id: Id, hash: Hash)
    requires Imported(a, id, hash) && |a| <= |b| && SameImports(a, b[..|a|])
    ensures Imported(b, id, hash)
  {
    var i :| 0 <= i < |a| && a[i].versionId == id && a[i].hash == hash;
    assert b[..|a|][i] == b[i];
  }

  lemma WithContentImports(c: Catalog, scope: Text, version: Text, hash: Hash)
    requires WithContent(c, scope, version, hash).Ok?
    ensures var (m, id, prior) := WithContent(c, scope, version, hash).value;
      && SameImports(c.imports, m.imports) && id < |m.versions| && m.versions[id].contentHash == hash
      && forall v :: 0 <= v < |m.versions| && v != id ==> v < |c.versions| && m.versions[v] == c.versions[v]
  {
  }

  lemma SaveKeepsImported(c: Catalog, scope: Text, version: Text, bundle: Bundle, hash: Hash)
    requires AllImported(c)
    ensures AllImported(AfterSaveDraft(c, scope, version, bundle, hash).0)
  {
    var (r, outcome) := AfterSaveDraft(c, scope, version, bundle, hash);
    if WithContent(c, scope, version, hash).Ok? {
      var (m, id, prior) := WithContent(c, scope, version, hash).value;
      WithContentImports(c, scope, version, hash);
      assert r.imports[..|c.imports|] == m.imports;
      forall v | 0 <= v < |r.versions| ensures Imported(r.imports, v, r.versions[v].contentHash) {
        if v != id {
          StaysImported(c.imports, r.imports, v, c.versions[v].contentHash);
        } else if Find(m.imports, (i: Import) => i.versionId == id && i.hash == hash) == |m.imports| {
          assert r.imports[|m.imports|].versionId == id;
        }
      }
    }
  }

  lemma SameKeepsImported(c: Catalog, r: Catalog)
    requires AllImported(c) && SameImports(c.imports, r.imports) && |r.versions| == |c.versions|
    requires forall v :: 0 <= v < |c.versions| ==> r.versions[v].contentHash == c.versions[v].contentHash
    ensures AllImported(r)
  {
    forall v | 0 <= v < |r.versions| ensures Imported(r.imports, v, r.versions[v].contentHash) {
      assert r.imports[..|c.imports|] == r.imports;
      StaysImported(c.imports, r.imports, v, c.versions[v].contentHash);
    }
  }

  lemma ValidationKeepsImported(c: Catalog, id: Id, bundle: Bundle, hash: Hash, valid: bool)
    requires ReportsOk(c) && AllImported(c)
    ensures AllImported(AfterValidation(c, id, bundle, hash, valid).0)
  {
    var (r, outcome) := AfterValidation(c, id, bundle, hash, valid);
    if outcome.Ok? {
      ValidationTables(c, id, bundle, hash, valid);
      SameKeepsImported(c, r);
    }
  }

  lemma ActivationKeepsImported(c: Catalog, id: Id, hash: Hash)
    requires AllImported(c)
    ensures AllImported(AfterActivate(c, id, hash).0)
  {
    if AfterActivate(c, id, hash).0 != c {
      ActivateVersions(c, id, hash);
      SameKeepsImported(c, AfterActivate(c, id, hash).0);
    }
  }

  lemma StepKeepsImported(c: Catalog, hashOf: Bundle -> Hash, step: Step)
    requires ReportsOk(c) && AllImported(c)
    ensures AllImported(After(c, hashOf, step))
  {
    match step {
      case SaveDraftStep(scope, version, bundle) => SaveKeepsImported(c, scope, version, bundle, hashOf(bundle));
      case ValidateStep(id, bundle, valid) => ValidationKeepsImported(c, id, bundle, hashOf(bundle), valid);
      case ApproveStep(id, hash) => SameKeepsImported(c, AfterApprove(c, id, hash).0);
      case ActivateStep(id, hash) => ActivationKeepsImported(c, id, hash);
      case ArchiveStep(id) => SameKeepsImported(c, AfterArchive(c, id).0);
    }
  }

  // ---- what a transaction logs ------------------------------------------------------------------------------

  /** The line tells a version's status before, if it existed, and after. */
  predicate Tells(line: Transition, c: Catalog, r: Catalog) {
    var id := line.versionId;
    && id < |r.versions| && line.next == r.versions[id].status
    && line.prior == if id < |c.versions| then Some(c.versions[id].status) else Option.None
  }

  predicate HasLine(lines: seq<Transition>, id: Id) {
    exists i :: 0 <= i < |lines| && lines[i].versionId == id
  }

  predicate OneLineEach(lines: seq<Transition>) {
    forall i, j :: 0 <= i < j < |lines| ==> lines[i].versionId != lines[j].versionId
  }

  predicate Changed(c: Catalog, r: Catalog, id: Id) {
    id < |r.versions| && (id >= |c.versions| || r.versions[id].status != c.versions[id].status)
  }

  /** The log grows by one line for each version that is new or has another status, and every line tells
      a status before and after; only a version that becomes a draft again may have none. */
  ghost predicate Logged(c: Catalog, r: Catalog, lines: seq<Transition>) {
    && r.transitions == c.transitions + lines && OneLineEach(lines)
    && (forall i :: 0 <= i < |lines| ==> Tells(lines[i], c, r))
    && forall id: Id :: Changed(c, r, id) && !HasLine(lines, id) ==> id < |c.versions| && r.versions[id].status == Draft
  }

  lemma NoLine(c: Catalog, r: Catalog)
    requires r.transitions == c.transitions
    requires forall id: Id :: Changed(c, r, id) ==> id < |c.versions| && r.versions[id].status == Draft
    ensures Logged(c, r, [])
  {
    assert c.transitions + [] == c.transitions;
  }

  lemma OneLine(c: Catalog, r: Catalog, line: Transition)
    requires r.transitions == c.transitions + [line] && Tells(line, c, r)
    requires forall id: Id :: Changed(c, r, id) ==> id == line.versionId
    ensures Logged(c, r, [line])
  {
    forall id: Id | Changed(c, r, id) ensures HasLine([line], id) {
      assert [line][0].versionId == id;
    }
  }

  lemma SaveIsLogged(c: Catalog, scope: Text, version: Text, bundle: Bundle, hash: Hash) returns (lines: seq<Transition>)
    requires ReportsOk(c) && AllImported(c)
    ensures Logged(c, AfterSaveDraft(c, scope, version, bundle, hash).0, lines)
  {
    var r := AfterSaveDraft(c, scope, version, bundle, hash).0;
    if r.transitions == c.transitions {
      NewIsLogged(c, scope, version, bundle, hash);
      NoLine(c, r);
      lines := [];
    } else {
      var (m, id, prior) := WithContent(c, scope, version, hash).value;
      NewIsLogged(c, scope, version, bundle, hash);
      OneLine(c, r, Transition(id, prior, Draft));
      lines := [Transition(id, prior, Draft)];
    }
  }

  lemma NewIsLogged(c: Catalog, scope: Text, version: Text, bundle: Bundle, hash: Hash)
    requires ReportsOk(c) && AllImported(c)
    ensures var r := AfterSaveDraft(c, scope, version, bundle, hash).0;
      if r.transitions == c.transitions then
        forall v: Id :: Changed(c, r, v) ==> v < |c.versions| && r.versions[v].status == Draft
      else
        && WithContent(c, scope, version, hash).Ok?
        && var (m, id, prior) := WithContent(c, scope, version, hash).value;
          r.transitions == c.transitions + [Transition(id, prior, Draft)]
          && Tells(Transition(id, prior, Draft), c, r) && forall v: Id :: Changed(c, r, v) ==> v == id
  {
    if WithContent(c, scope, version, hash).Ok? {
      var (m, id, prior) := WithContent(c, scope, version, hash).value;
      if id < |c.versions| && c.versions[id].contentHash == hash {
        assert Imported(c.imports, id, hash);
      }
    }
  }

  lemma ValidationIsLogged(c: Catalog, id: Id, bundle: Bundle, hash: Hash, valid: bool) returns (lines: seq<Transition>)
    requires ReportsOk(c)
    ensures Logged(c, AfterValidation(c, id, bundle, hash, valid).0, lines)
  {
    var (r, outcome) := AfterValidation(c, id, bundle, hash, valid);
    if outcome.Ok? {
      ValidationTables(c, id, bundle, hash, valid);
    }
    if outcome.Ok? && valid && c.versions[id].status == Draft {
      OneLine(c, r, Transition(id, Some(Draft), Validated));
      lines := [Transition(id, Some(Draft), Validated)];
    } else {
      NoLine(c, r);
      lines := [];
    }
  }

  lemma ApprovalIsLogged(c: Catalog, id: Id, hash: Hash) returns (lines: seq<Transition>)
    ensures Logged(c, AfterApprove(c, id, hash).0, lines)
  {
    var r := AfterApprove(c, id, hash).0;
    if r.transitions == c.transitions {
      NoLine(c, r);
      lines := [];
    } else {
      OneLine(c, r, Transition(id, Some(Validated), Approved));
      lines := [Transition(id, Some(Validated), Approved)];
    }
  }

  lemma ArchivingIsLogged(c: Catalog, id: Id) returns (lines: seq<Transition>)
    ensures Logged(c, AfterArchive(c, id).0, lines)
  {
    var (r, outcome) := AfterArchive(c, id);
    if outcome.Err? {
      NoLine(c, r);
      lines := [];
    } else {
      OneLine(c, r, Transition(id, Some(Active), Archived));
      lines := [Transition(id, Some(Active), Archived)];
    }
  }

  /** The lines about the versions that an activation archives. */
  predicate ArchivedLines(c: Catalog, id: Id, scope: Text, n: nat, lines: seq<Transition>)
    requires n <= |c.versions|
  {
    && (forall i :: 0 <= i < |lines| ==>
          var j := lines[i].versionId;
          j < n && j != id && Replaced(c.versions[j], scope) && lines[i] == Transition(j, Some(Active), Archived))
    && OneLineEach(lines)
    && forall j :: 0 <= j < n && j != id && Replaced(c.versions[j], scope) ==> HasLine(lines, j)
  }

  lemma OneArchivedMore(c: Catalog, id: Id, scope: Text, n: nat, lines: seq<Transition>)
    requires 0 < n <= |c.versions| && ArchivedLines(c, id, scope, n - 1, lines)
    requires n - 1 != id && Replaced(c.versions[n - 1], scope)
    ensures ArchivedLines(c, id, scope, n, lines + [Transition(n - 1, Some(Active), Archived)])
  {
    var more := lines + [Transition(n - 1, Some(Active), Archived)];
    forall j | 0 <= j < n && j != id && Replaced(c.versions[j], scope) ensures HasLine(more, j) {
      if j < n - 1 {
        var i :| 0 <= i < |lines| && lines[i].versionId == j;
        assert more[i].versionId == j;
      } else {
        assert more[|lines|].versionId == j;
      }
    }
  }

  lemma {:induction false} OthersLogged(c: Catalog, id: Id, scope: Text, n: nat) returns (lines: seq<Transition>)
    requires n <= |c.versions|
    ensures ArchiveOthers(c, id, scope, n).transitions == c.transitions + lines
    ensures ArchivedLines(c, id, scope, n, lines)
    decreases n
  {
    lines := [];
    if n > 0 {
      lines := OthersLogged(c, id, scope, n - 1);
      if n - 1 != id && Replaced(c.versions[n - 1], scope) {
        OneArchivedMore(c, id, scope, n, lines);
        lines := lines + [Transition(n - 1, Some(Active), Archived)];
      }
    }
  }

  lemma ActivationIsLogged(c: Catalog, id: Id, hash: Hash) returns (lines: seq<Transition>)
    ensures Logged(c, AfterActivate(c, id, hash).0, lines)
  {
    var r := AfterActivate(c, id, hash).0;
    if r == c {
      lines := [];
    } else {
      ActivateVersions(c, id, hash);
      var scope := c.versions[id].scope;
      var others := OthersLogged(c, id, scope, |c.versions|);
      lines := others + [Transition(id, Some(Approved), Active)];
      assert c.transitions + others + [Transition(id, Some(Approved), Active)] == c.transitions + lines;
      forall v: Id | Changed(c, r, v) ensures HasLine(lines, v) {
        if v == id {
          assert lines[|others|].versionId == id;
        } else {
          var i :| 0 <= i < |others| && others[i].versionId == v;
          assert lines[i].versionId == v;
        }
      }
    }
  }

  lemma StepIsLogged(c: Catalog, hashOf: Bundle -> Hash, step: Step) returns (lines: seq<Transition>)
    requires ReportsOk(c) && AllImported(c)
    ensures Logged(c, After(c, hashOf, step), lines)
  {
    match step {
      case SaveDraftStep(scope, version, bundle) => lines := SaveIsLogged(c, scope, version, bundle, hashOf(bundle));
      case ValidateStep(id, bundle, valid) => lines := ValidationIsLogged(c, id, bundle, hashOf(bundle), valid);
      case ApproveStep(id, hash) => lines := ApprovalIsLogged(c, id, hash);
      case ActivateStep(id, hash) => lines := ActivationIsLogged(c, id, hash);
      case ArchiveStep(id) => lines := ArchivingIsLogged(c, id);
    }
  }

  // ---- what the log says after a run ---------------------------------------------------------------------------

  /** The status that the last line about the version leads to. */
  function LastLogged(lines: seq<Transition>, id: Id): Option<Status> {
    if |lines| == 0 then None
    else if lines[|lines| - 1].versionId == id then Some(lines[|lines| - 1].next)
    else LastLogged(lines[..|lines| - 1], id)
  }

  lemma {:induction false} LastOfMore(before: seq<Transition>, lines: seq<Transition>, id: Id)
    ensures !HasLine(lines, id) ==> LastLogged(before + lines, id) == LastLogged(before, id)
    ensures HasLine(lines, id) && OneLineEach(lines) ==>
      exists i :: 0 <= i < |lines| && lines[i].versionId == id && LastLogged(before + lines, id) == Some(lines[i].next)
    decreases |lines|
  {
    if |lines| == 0 {
      assert before + lines == before;
    } else {
      var rest := lines[..|lines| - 1];
      assert (before + lines)[..|before + lines| - 1] == before + rest;
      assert (before + lines)[|before + lines| - 1] == lines[|lines| - 1];
      LastOfMore(before, rest, id);
      if lines[|lines| - 1].versionId != id && HasLine(lines, id) {
        var i :| 0 <= i < |lines| && lines[i].versionId == id;
        assert rest[i].versionId == id;
      }
    }
  }

  /** The log knows every version, and its last line tells the status of each that is not a draft. */
  predicate LogOk(c: Catalog) {
    forall id :: 0 <= id < |c.versions| ==>
      LastLogged(c.transitions, id).Some?
      && (c.versions[id].status != Draft ==> LastLogged(c.transitions, id) == Some(c.versions[id].status))
  }

  lemma LoggedKeepsLog(c: Catalog, r: Catalog, lines: seq<Transition>)
    requires LogOk(c) && Logged(c, r, lines) && |c.versions| <= |r.versions|
    ensures LogOk(r)
  {
    forall id | 0 <= id < |r.versions|
      ensures LastLogged(r.transitions, id).Some?
      ensures r.versions[id].status != Draft ==> LastLogged(r.transitions, id) == Some(r.versions[id].status)
    {
      LastOfMore(c.transitions, lines, id);
      assert HasLine(lines, id) || !Changed(c, r, id) || (id < |c.versions| && r.versions[id].status == Draft);
    }
  }

  lemma {:induction false} RunKeepsLog(c: Catalog, hashOf: Bundle -> Hash, steps: seq<Step>)
    requires Evidence(c) && AllImported(c) && LogOk(c)
    ensures LogOk(AfterAll(c, hashOf, steps))
    decreases |steps|
  {
    if |steps| > 0 {
      var r := After(c, hashOf, steps[0]);
      var lines := StepIsLogged(c, hashOf, steps[0]);
      StepVersions(c, hashOf, steps[0]);
      LoggedKeepsLog(c, r, lines);
      StepKeepsEvidence(c, hashOf, steps[0]);
      StepKeepsImported(c, hashOf, steps[0]);
      RunKeepsLog(r, hashOf, steps[1..]);
    }
  }

  lemma StepVersions(c: Catalog, hashOf: Bundle -> Hash, step: Step)
    ensures |c.versions| <= |After(c, hashOf, step).versions|
  {
    if step.ActivateStep? && After(c, hashOf, step) != c {
      ActivateVersions(c, step.id, step.hash);
    }
  }

  lemma {:induction false} RunKeepsImported(c: Catalog, hashOf: Bundle -> Hash, steps: seq<Step>)
    requires Evidence(c) && AllImported(c)
    ensures Evidence(AfterAll(c, hashOf, steps)) && AllImported(AfterAll(c, hashOf, steps))
    decreases |steps|
  {
    if |steps| > 0 {
      StepKeepsEvidence(c, hashOf, steps[0]);
      StepKeepsImported(c, hashOf, steps[0]);
      RunKeepsImported(After(c, hashOf, steps[0]), hashOf, steps[1..]);
    }
  }

  /** After any run from the empty catalog, the next transaction, whichever it is, logs one line for each
      version that it adds or moves, with the status before and after; only a version that becomes a
      draft again may have none. */
  lemma EveryStepIsLogged(hashOf: Bundle -> Hash, steps: seq<Step>, step: Step) returns (lines: seq<Transition>)
    ensures var e := AfterAll(EMPTY, hashOf, steps); Logged(e, After(e, hashOf, step), lines)
  {
    EmptyInv(hashOf);
    RunKeepsImported(EMPTY, hashOf, steps);
    lines := StepIsLogged(AfterAll(EMPTY, hashOf, steps), hashOf, step);
  }

  /** After any run from the empty catalog, the last line of the log about a version that is not a draft
      leads to the status that the version has. */
  lemma LogTellsStatus(hashOf: Bundle -> Hash, steps: seq<Step>, id: Id)
    requires id < |AfterAll(EMPTY, hashOf, steps).versions|
    ensures var e := AfterAll(EMPTY, hashOf, steps);
      && LastLogged(e.transitions, id).Some?
      && (e.versions[id].status != Draft ==> LastLogged(e.transitions, id) == Some(e.versions[id].status))
  {
    EmptyInv(hashOf);
    RunKeepsLog(EMPTY, hashOf, steps);
  }
}
