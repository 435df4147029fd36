/** When the transactions on catalog versions succeed, and what they leave, column by column. */
module CatalogMeaning {
  import opened Wrappers
  import opened JsText
  import opened Tables
  import opened CatalogStore
  import opened CatalogLifecycle
  import opened CatalogContent

  // ---- imports -------------------------------------------------------------------------------------------

  /** A version as it is when it is given content. */
  predicate FreshDraft(v: Version, scope: Text, version: Text, hash: Hash) {
    && v.scope == scope && v.version == version && v.contentHash == hash && v.status == Draft
    && v.validatedHash.None? && v.approvedHash.None? && v.reportId.None?
  }

  predicate IsVersion(c: Catalog, id: Id, scope: Text, version: Text) {
    && id < |c.versions| && c.versions[id].scope == scope && c.versions[id].version == version
    && forall j :: 0 <= j < id ==> c.versions[j].scope != scope || c.versions[j].version != version
  }

  lemma VersionFound(c: Catalog, id: Id, scope: Text, version: Text)
    requires IsVersion(c, id, scope, version)
    ensures Find(c.versions, (v: Version) => v.scope == scope && v.version == version) == id
  {
  }

  /** Importing into a version that exists: an active or archived one refuses it; the same content
      changes no version; other content makes it a fresh draft and leaves the others alone. */
  lemma ImportIntoVersion(c: Catalog, id: Id, scope: Text, version: Text, bundle: Bundle, hash: Hash)
    requires IsVersion(c, id, scope, version)
    ensures var (r, outcome), v := AfterSaveDraft(c, scope, version, bundle, hash), c.versions[id];
      if v.status == Active || v.status == Archived then r == c && outcome == Err(Immutable)
      else if v.contentHash == hash then r.versions == c.versions && outcome == Ok(id)
      else
        && outcome == Ok(id) && |r.versions| == |c.versions| && FreshDraft(r.versions[id], scope, version, hash)
        && (forall j :: 0 <= j < |c.versions| && j != id ==> r.versions[j] == c.versions[j])
        && forall i :: 0 <= i < |c.imports| ==>
             i < |r.imports| && r.imports[i]
               == if c.imports[i].versionId == id then c.imports[i].(status := SupersededImport) else c.imports[i]
  {
    VersionFound(c, id, scope, version);
  }

  /** Importing a new version adds a fresh draft with its import, and a line to the log. */
  lemma ImportNewVersion(c: Catalog, scope: Text, version: Text, bundle: Bundle, hash: Hash)
    requires forall j :: 0 <= j < |c.versions| ==> c.versions[j].scope != scope || c.versions[j].version != version
    requires forall i :: 0 <= i < |c.imports| ==> c.imports[i].versionId < |c.versions|
    ensures var (r, outcome), n := AfterSaveDraft(c, scope, version, bundle, hash), |c.versions|;
      && outcome == Ok(n) && |r.versions| == n + 1 && r.versions[..n] == c.versions
      && FreshDraft(r.versions[n], scope, version, hash)
      && r.imports == c.imports + [Import(n, hash, bundle, DraftImport)]
      && r.transitions == c.transitions + [Transition(n, Option.None, Draft)]
  {
    var p := (v: Version) => v.scope == scope && v.version == version;
    assert Find(c.versions, p) == |c.versions|;
  }

  /** Every import is of content with its hash, and what a version's validation would read is of the
      version's present content. */
  ghost predicate ImportsCurrent(c: Catalog, hashOf: Bundle -> Hash) {
    && (forall i :: 0 <= i < |c.imports| ==> c.imports[i].hash == hashOf(c.imports[i].bundle))
    && forall i :: 0 <= i < |c.imports| && c.imports[i].status != SupersededImport ==>
         c.imports[i].versionId < |c.versions| && c.imports[i].hash == c.versions[c.imports[i].versionId].contentHash
  }

  predicate SameContents(c: Catalog, r: Catalog) {
    && |c.versions| <= |r.versions|
    && (forall i :: 0 <= i < |c.versions| ==> r.versions[i].contentHash == c.versions[i].contentHash)
    && r.imports == c.imports
  }

  lemma WithContentKeepsImports(c: Catalog, hashOf: Bundle -> Hash, scope: Text, version: Text, hash: Hash)
    requires ImportsCurrent(c, hashOf) && WithContent(c, scope, version, hash).Ok?
    ensures var (r, id, prior) := WithContent(c, scope, version, hash).value;
      ImportsCurrent(r, hashOf) && id < |r.versions| && r.versions[id].contentHash == hash
  {
  }

  lemma SaveDraftKeepsImports(c: Catalog, hashOf: Bundle -> Hash, scope: Text, version: Text, bundle: Bundle)
    requires ImportsCurrent(c, hashOf)
    ensures ImportsCurrent(AfterSaveDraft(c, scope, version, bundle, hashOf(bundle)).0, hashOf)
  {
    if WithContent(c, scope, version, hashOf(bundle)).Ok? {
      WithContentKeepsImports(c, hashOf, scope, version, hashOf(bundle));
    }
  }

  lemma ValidationKeepsImports(c: Catalog, hashOf: Bundle -> Hash, id: Id, bundle: Bundle, valid: bool)
    requires ReportsOk(c) && ImportsCurrent(c, hashOf)
    ensures ImportsCurrent(AfterValidation(c, id, bundle, hashOf(bundle), valid).0, hashOf)
  {
    var (r, outcome) := AfterValidation(c, id, bundle, hashOf(bundle), valid);
    if outcome.Ok? {
      ValidationTables(c, id, bundle, hashOf(bundle), valid);
      assert r.imports[ImportOf(c, id, hashOf(bundle))].hash == c.versions[id].contentHash;
      assert forall i :: 0 <= i < |r.imports| && i != ImportOf(c, id, hashOf(bundle)) ==> r.imports[i] == c.imports[i];
    }
  }

  lemma SameContentsKeepImports(c: Catalog, r: Catalog, hashOf: Bundle -> Hash)
    requires ImportsCurrent(c, hashOf) && SameContents(c, r)
    ensures ImportsCurrent(r, hashOf)
  {
  }

  lemma StepKeepsImports(c: Catalog, hashOf: Bundle -> Hash, step: Step)
    requires ReportsOk(c) && ImportsCurrent(c, hashOf)
    ensures ImportsCurrent(After(c, hashOf, step), hashOf)
  {
    match step {
      case SaveDraftStep(scope, version, bundle) => SaveDraftKeepsImports(c, hashOf, scope, version, bundle);
      case ValidateStep(id, bundle, valid) => ValidationKeepsImports(c, hashOf, id, bundle, valid);
      case ApproveStep(id, hash) => SameContentsKeepImports(c, AfterApprove(c, id, hash).0, hashOf);
      case ActivateStep(id, hash) =>
        if AfterActivate(c, id, hash).0 != c {
          ActivateVersions(c, id, hash);
          SameContentsKeepImports(c, AfterActivate(c, id, hash).0, hashOf);
        }
      case ArchiveStep(id) => SameContentsKeepImports(c, AfterArchive(c, id).0, hashOf);
    }
  }

  lemma {:induction false} RunKeepsImports(c: Catalog, hashOf: Bundle -> Hash, steps: seq<Step>)
    requires Evidence(c) && ImportsCurrent(c, hashOf)
    ensures ImportsCurrent(AfterAll(c, hashOf, steps), hashOf)
    decreases |steps|
  {
    if |steps| > 0 {
      StepKeepsImports(c, hashOf, steps[0]);
      StepKeepsEvidence(c, hashOf, steps[0]);
      RunKeepsImports(After(c, hashOf, steps[0]), hashOf, steps[1..]);
    }
  }

  lemma {:induction false} NewestIsLoadable(imports: seq<Import>, id: Id)
    requires Newest(imports, id).Some?
    ensures exists i ::
      && 0 <= i < |imports| && imports[i].versionId == id && imports[i].status != SupersededImport
      && imports[i].bundle == Newest(imports, id).value
  {
    if !Loadable(imports[|imports| - 1], id) {
      NewestIsLoadable(imports[..|imports| - 1], id);
    }
  }

  /** After any transactions, what is loaded for a version's validation is content of the version's
      present hash. */
  lemma LoadedIsCurrent(hashOf: Bundle -> Hash, steps: seq<Step>, id: Id)
    requires LoadDraft(AfterAll(EMPTY, hashOf, steps), id).Some?
    ensures var e := AfterAll(EMPTY, hashOf, steps);
      id < |e.versions| && hashOf(LoadDraft(e, id).value) == e.versions[id].contentHash
  {
    EmptyInv(hashOf);
    RunKeepsImports(EMPTY, hashOf, steps);
    NewestIsLoadable(AfterAll(EMPTY, hashOf, steps).imports, id);
  }

  // ---- approval, activation and archiving -----------------------------------------------------------------

  /** After any transactions, an approved version is activated exactly when its content hash is named.
      Then it is active, every other active version of its scope is archived, and nothing else about
      versions changes. */
  lemma ActivationMeaning(hashOf: Bundle -> Hash, steps: seq<Step>, id: Id, hash: Hash)
    requires var e := AfterAll(EMPTY, hashOf, steps); id < |e.versions| && e.versions[id].status == Approved
    ensures var e := AfterAll(EMPTY, hashOf, steps);
      var (r, outcome) := AfterActivate(e, id, hash);
      && (outcome.Ok? <==> hash == e.versions[id].contentHash)
      && (outcome.Err? ==> r == e)
      && (outcome.Ok? ==>
            && |r.versions| == |e.versions| && r.versions[id] == e.versions[id].(status := Active)
            && forall j :: 0 <= j < |e.versions| && j != id ==>
                 r.versions[j] == if e.versions[j].scope == e.versions[id].scope && e.versions[j].status == Active
                                  then e.versions[j].(status := Archived) else e.versions[j])
  {
    var e := AfterAll(EMPTY, hashOf, steps);
    EmptyInv(hashOf);
    RunKeepsInv(EMPTY, hashOf, steps);
    assert HashesOk(e, id);
    if hash == e.versions[id].contentHash {
      ApprovalIsFound(e, id, hash);
      ActivateVersions(e, id, hash);
    }
  }

  lemma ApprovalIsFound(c: Catalog, id: Id, hash: Hash)
    requires ApprovedAs(c, id, hash)
    ensures Find(c.approvals, (a: Approval) => a.versionId == id && a.hash == hash) < |c.approvals|
  {
  }

  /** Any version in another state is not activated, but an active one may be named again. */
  lemma NotActivated(c: Catalog, id: Id, hash: Hash)
    requires id >= |c.versions| || c.versions[id].status != Approved
    ensures AfterActivate(c, id, hash).0 == c
    ensures AfterActivate(c, id, hash).1.Ok? <==>
      id < |c.versions| && c.versions[id].status == Active && c.versions[id].contentHash == hash
  {
  }

  /** An approval that is added is of the version, its report and its hash; only the status and the
      approved hash of the version change. */
  lemma ApprovalMeaning(c: Catalog, id: Id, hash: Hash)
    requires AfterApprove(c, id, hash).0 != c
    ensures id < |c.versions| && c.versions[id].status == Validated && c.versions[id].reportId.Some?
    ensures var r, v := AfterApprove(c, id, hash).0, c.versions[id];
      && v.contentHash == hash && v.validatedHash == Some(hash)
      && r.approvals == c.approvals + [Approval(id, v.reportId.value, hash)]
      && r.versions == c.versions[id := v.(status := Approved, approvedHash := Some(hash))]
      && r.transitions == c.transitions + [Transition(id, Some(Validated), Approved)]
      && r.imports == c.imports && r.reports == c.reports && r.rules == c.rules && r.templates == c.templates
  {
  }

  /** Exactly an active version can be archived on its own. */
  lemma ArchiveMeaning(c: Catalog, id: Id)
    ensures var (r, outcome) := AfterArchive(c, id);
      && (outcome.Ok? <==> id < |c.versions| && c.versions[id].status == Active)
      && (outcome.Err? ==> r == c)
      && (outcome.Ok? ==>
            && r.versions == c.versions[id := c.versions[id].(status := Archived)]
            && r.transitions == c.transitions + [Transition(id, Some(Active), Archived)])
  {
  }

  /** When a validation is accepted, and what it says about the import and the version. */
  lemma ValidationMeaning(c: Catalog, id: Id, bundle: Bundle, hash: Hash, valid: bool)
    requires Evidence(c)
    ensures var (r, outcome) := AfterValidation(c, id, bundle, hash, valid);
      && (outcome.Ok? <==>
            && id < |c.versions| && (c.versions[id].status == Draft || c.versions[id].status == Validated)
            && c.versions[id].contentHash == hash
            && exists i :: 0 <= i < |c.imports| && c.imports[i].versionId == id && c.imports[i].hash == hash)
      && (outcome.Err? ==> r == c)
      && (outcome.Ok? ==>
            && (exists i :: 0 <= i < |c.imports| && c.imports[i].versionId == id && c.imports[i].hash == hash
                  && r.imports == c.imports[i := c.imports[i].(status := if valid then ValidatedImport else InvalidImport)])
            && (c.versions[id].status == Draft && valid <==> r.versions != c.versions)
            && (c.versions[id].status == Draft && valid ==> r.transitions == c.transitions + [Transition(id, Some(Draft), Validated)]))
  {
    var (r, outcome) := AfterValidation(c, id, bundle, hash, valid);
    var i := ImportOf(c, id, hash);
    if outcome.Ok? {
      ValidationTables(c, id, bundle, hash, valid);
      assert r.imports == c.imports[i := c.imports[i].(status := if valid then ValidatedImport else InvalidImport)];
    }
  }
}
