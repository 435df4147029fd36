/** A draft that passes its checks compiles without a gap: everything the compiler takes for granted is
    there, and everything the draft selects is authorised exactly once. */
module CompilationTheorems {
  import opened Wrappers
  import opened JsText
  import opened Preflight
  import opened Compilation

  // ---- relations and grants --------------------------------------------------------------------------

  predicate ExactlyOne(relations: seq<Relation>, context: Context, productId: Id) {
    exists i :: 0 <= i < |relations| && Allows(relations[i], context, productId)
      && forall j :: 0 <= j < |relations| && Allows(relations[j], context, productId) ==> j == i
  }

  predicate OncePer(relations: seq<Relation>, projectId: Id) {
    && (forall i :: 0 <= i < |relations| ==>
          relations[i].id == RelationId(projectId, relations[i].context, relations[i].productId))
    && forall i, j :: 0 <= i < j < |relations| ==> !Allows(relations[j], relations[i].context, relations[i].productId)
  }

  predicate FromGrant(r: Relation, g: Grant) {
    r.context == g.context && r.productId == g.productId && r.basis == g.basis
  }

  predicate SameTarget(g: Grant, h: Grant) {
    g.context == h.context && g.productId == h.productId
  }

  /** The first grant of the relation's product in its context is the one it comes from. */
  predicate Granted(grants: seq<Grant>, r: Relation) {
    exists i :: 0 <= i < |grants| && FromGrant(r, grants[i])
      && forall j :: 0 <= j < i ==> !SameTarget(grants[j], grants[i])
  }

  predicate AllAllowed(relations: seq<Relation>, grants: seq<Grant>) {
    forall i :: 0 <= i < |grants| ==> Allowed(relations, grants[i].context, grants[i].productId)
  }

  predicate AllGranted(grants: seq<Grant>, relations: seq<Relation>) {
    forall i :: 0 <= i < |relations| ==> Granted(grants, relations[i])
  }

  lemma AddedAllows(relations: seq<Relation>, projectId: Id, g: Grant, context: Context, productId: Id)
    ensures Allowed(Added(relations, projectId, g), context, productId)
       <==> Allowed(relations, context, productId) || (context == g.context && productId == g.productId)
  {
    var r := Added(relations, projectId, g);
    if Allowed(relations, context, productId) {
      var i :| 0 <= i < |relations| && Allows(relations[i], context, productId);
      assert Allows(r[i], context, productId);
    } else if context == g.context && productId == g.productId {
      assert Allows(r[|relations|], context, productId);
    }
  }

  lemma AddedOncePer(relations: seq<Relation>, projectId: Id, g: Grant)
    requires OncePer(relations, projectId)
    ensures OncePer(Added(relations, projectId, g), projectId)
  {
  }

  lemma MoreGranted(grants: seq<Grant>, g: Grant, r: Relation)
    requires Granted(grants, r) || (FromGrant(r, g) && forall j :: 0 <= j < |grants| ==> !SameTarget(grants[j], g))
    ensures Granted(grants + [g], r)
  {
    var more := grants + [g];
    if Granted(grants, r) {
      var k :| 0 <= k < |grants| && FromGrant(r, grants[k]) && forall j :: 0 <= j < k ==> !SameTarget(grants[j], grants[k]);
      assert FromGrant(r, more[k]);
      assert forall j :: 0 <= j < k ==> more[j] == grants[j];
    } else {
      assert FromGrant(r, more[|grants|]);
      assert forall j :: 0 <= j < |grants| ==> more[j] == grants[j];
    }
  }

  lemma AddedGranted(relations: seq<Relation>, projectId: Id, grants: seq<Grant>, g: Grant)
    requires AllGranted(grants, relations) && AllAllowed(relations, grants)
    ensures AllGranted(grants + [g], Added(relations, projectId, g))
  {
    var r := Added(relations, projectId, g);
    if !Allowed(relations, g.context, g.productId) {
      forall j | 0 <= j < |grants| ensures !SameTarget(grants[j], g) {
        assert Allowed(relations, grants[j].context, grants[j].productId);
      }
    }
    forall i | 0 <= i < |r| ensures Granted(grants + [g], r[i]) {
      MoreGranted(grants, g, r[i]);
    }
  }

  lemma AddedAllAllowed(relations: seq<Relation>, projectId: Id, grants: seq<Grant>, g: Grant)
    requires AllAllowed(relations, grants)
    ensures AllAllowed(Added(relations, projectId, g), grants + [g])
  {
    var more := grants + [g];
    forall i | 0 <= i < |more| ensures Allowed(Added(relations, projectId, g), more[i].context, more[i].productId) {
      if i < |grants| {
        assert more[i] == grants[i];
      }
      AddedAllows(relations, projectId, g, more[i].context, more[i].productId);
    }
  }

  /** The relations are those of the grants, each once and with the first evidence given for it. */
  predicate Represents(relations: seq<Relation>, projectId: Id, grants: seq<Grant>) {
    OncePer(relations, projectId) && AllAllowed(relations, grants) && AllGranted(grants, relations)
  }

  lemma AddedRepresents(relations: seq<Relation>, projectId: Id, grants: seq<Grant>, g: Grant)
    requires Represents(relations, projectId, grants)
    ensures Represents(Added(relations, projectId, g), projectId, grants + [g])
  {
    AddedOncePer(relations, projectId, g);
    AddedGranted(relations, projectId, grants, g);
    AddedAllAllowed(relations, projectId, grants, g);
  }

  lemma LastGrant(grants: seq<Grant>)
    requires |grants| > 0
    ensures grants[..|grants| - 1] + [grants[|grants| - 1]] == grants
  {
  }

  /** Each grant is allowed once, with the first evidence given for it, and nothing else is. */
  lemma {:induction false} RelationsAreGrants(projectId: Id, grants: seq<Grant>)
    ensures Represents(AddedAll([], projectId, grants), projectId, grants)
    decreases |grants|
  {
    if |grants| > 0 {
      var rest, g := grants[..|grants| - 1], grants[|grants| - 1];
      RelationsAreGrants(projectId, rest);
      AddedRepresents(AddedAll([], projectId, rest), projectId, rest, g);
      AddedAllMore([], projectId, rest, g);
      LastGrant(grants);
    }
  }

  lemma AllowedOnce(relations: seq<Relation>, projectId: Id, context: Context, productId: Id)
    requires OncePer(relations, projectId) && Allowed(relations, context, productId)
    ensures ExactlyOne(relations, context, productId)
  {
    var i :| 0 <= i < |relations| && Allows(relations[i], context, productId);
    assert forall j :: 0 <= j < |relations| && Allows(relations[j], context, productId) ==> j == i;
  }

  lemma DistinctIds(relations: seq<Relation>, projectId: Id, i: nat, j: nat)
    requires OncePer(relations, projectId) && i < j < |relations|
    ensures relations[i].id != relations[j].id
  {
    if relations[i].id == relations[j].id {
      IdsDiffer(projectId, relations[i].context, relations[i].productId, relations[j].context, relations[j].productId);
    }
  }

  // ---- what a ready draft is granted -----------------------------------------------------------------------

  predicate Grants1(grants: seq<Grant>, context: Context, productId: Id) {
    exists i :: 0 <= i < |grants| && grants[i].context == context && grants[i].productId == productId
  }

  lemma GrantsOfBoth(a: seq<Grant>, b: seq<Grant>, context: Context, productId: Id)
    ensures Grants1(a + b, context, productId) <==> Grants1(a, context, productId) || Grants1(b, context, productId)
  {
    if Grants1(a, context, productId) {
      var i :| 0 <= i < |a| && a[i].context == context && a[i].productId == productId;
      assert (a + b)[i] == a[i];
    }
    if Grants1(b, context, productId) {
      var i :| 0 <= i < |b| && b[i].context == context && b[i].productId == productId;
      assert (a + b)[|a| + i] == b[i];
    }
  }

  lemma {:induction false} RouteIsGranted(c: Catalog, routes: seq<Route>, k: nat, context: Context, productId: Id)
    requires k < |routes| && Grants1(RouteGrants(c, routes[k]), context, productId)
    ensures Grants1(RoutesGrants(c, routes), context, productId)
    decreases |routes|
  {
    var before := routes[..|routes| - 1];
    if k < |before| {
      RouteIsGranted(c, before, k, context, productId);
    }
    GrantsOfBoth(RoutesGrants(c, before), RouteGrants(c, routes[|routes| - 1]), context, productId);
  }

  lemma {:induction false} ItemIsGranted(items: seq<ManualItem>, k: nat)
    requires k < |items| && items[k].CatalogItem?
    ensures Grants1(ManualGrants(items), ManualContext, items[k].productId)
    decreases |items|
  {
    var n := |items| - 1;
    ManualGrantsStep(items, n);
    assert items[..n + 1] == items;
    if k < n {
      ItemIsGranted(items[..n], k);
      var g := ManualGrants(items[..n]);
      var i :| 0 <= i < |g| && g[i].context == ManualContext && g[i].productId == items[k].productId;
      assert ManualGrants(items)[i] == g[i];
    } else {
      assert ManualGrants(items)[|ManualGrants(items[..n])|].productId == items[k].productId;
    }
  }

  /** The route has no problem. */
  ghost predicate SoundRoute(c: Catalog, r: Route) {
    forall p: RouteProblem :: !Faulty(c, r, p)
  }

  /** Everything that compilation and the engine's input need and the draft may leave open. */
  predicate FieldsPresent(r: Route) {
    && r.selection.system.Some? && r.selection.dimensionId.Some? && r.selection.width.Some?
    && r.selection.height.Some? && r.selection.material.Some? && r.selection.finish.Some?
    && r.selection.straightProductId.Some? && r.selection.supplyOptionId.Some?
    && r.supports.spacing.Some? && r.supports.supportType.Some? && r.supports.wstb.Some?
  }

  lemma FieldChosen(c: Catalog, r: Route, field: Field)
    requires SoundRoute(c, r)
    ensures FieldOf(r.selection, field).Some?
  {
    assert !Faulty(c, r, SelectionRequired(field));
  }

  lemma RouteChoices(c: Catalog, r: Route)
    requires SoundRoute(c, r)
    ensures r.supports.spacing.Some? && r.supports.supportType.Some? && r.supports.wstb.Some?
  {
    assert !Faulty(c, r, SpacingRequired);
    assert !Faulty(c, r, SupportTypeRequired);
    assert !Faulty(c, r, WstbRequired);
  }

  lemma StraightIsGood(c: Catalog, r: Route)
    requires SoundRoute(c, r)
    ensures r.selection.straightProductId.Some? && GoodStraight(c, r.selection)
  {
    assert !Faulty(c, r, StraightRequired);
    assert !Faulty(c, r, StraightInvalid);
  }

  lemma SupplyIsGood(c: Catalog, r: Route)
    requires SoundRoute(c, r)
    ensures GoodSupplyOption(c, r.selection)
  {
    assert !Faulty(c, r, SupplyOptionRequired);
  }

  /** A route without problems: what it must have. */
  lemma RouteSelections(c: Catalog, r: Route)
    requires SoundRoute(c, r)
    ensures FieldsPresent(r)
    ensures GoodStraight(c, r.selection) && GoodSupplyOption(c, r.selection)
  {
    FieldChosen(c, r, SystemField);
    FieldChosen(c, r, DimensionField);
    FieldChosen(c, r, WidthField);
    FieldChosen(c, r, HeightField);
    FieldChosen(c, r, MaterialField);
    FieldChosen(c, r, FinishField);
    RouteChoices(c, r);
    StraightIsGood(c, r);
    SupplyIsGood(c, r);
  }

  predicate OverrideHasBaseline(c: Catalog, r: Route) {
    r.supports.overridesAnchors ==> AnchorBaseline(c, r.supports.templateId).Some?
  }

  lemma RouteBaseline(c: Catalog, r: Route)
    requires SoundRoute(c, r)
    ensures OverrideHasBaseline(c, r)
  {
    assert !Faulty(c, r, AnchorBaselineMissing);
  }

  lemma RouteStraight(c: Catalog, r: Route)
    requires SoundRoute(c, r)
    ensures r.selection.straightProductId.Some?
    ensures Grants1(StraightGrants(c, r), StraightContext, r.selection.straightProductId.value)
  {
    StraightIsGood(c, r);
    assert !Faulty(c, r, SelectionRuleMissing);
    assert StraightGrants(c, r)[0].productId == r.selection.straightProductId.value;
  }

  lemma RouteProductChosen(c: Catalog, r: Route, which: SupportField)
    requires SoundRoute(c, r) && ProductField(r.supports, which).Some?
    ensures Chosen(c, ProductField(r.supports, which)).Some?
  {
    assert !Faulty(c, r, ProductMissing(which));
  }

  lemma RouteSupport(c: Catalog, r: Route)
    requires SoundRoute(c, r) && r.supports.supportProductId.Some?
    ensures Grants1(SupportGrants(c, r), SupportContext, r.supports.supportProductId.value)
  {
    RouteProductChosen(c, r, SupportProductField);
    assert !Faulty(c, r, SupportRuleMissing);
    assert SupportGrants(c, r)[0].productId == r.supports.supportProductId.value;
  }

  lemma RouteAnchor(c: Catalog, r: Route)
    requires SoundRoute(c, r) && r.supports.anchorProductId.Some?
    ensures Grants1(AnchorGrants(c, r), AnchorContext, r.supports.anchorProductId.value)
  {
    RouteProductChosen(c, r, AnchorProductField);
    assert !Faulty(c, r, AnchorRuleMissing);
    assert AnchorGrants(c, r)[0].productId == r.supports.anchorProductId.value;
  }

  lemma RouteWstb(c: Catalog, r: Route)
    requires SoundRoute(c, r) && r.supports.wstbProductId.Some?
    ensures Grants1(WstbGrants(c, r), WstbContext, r.supports.wstbProductId.value)
  {
    assert !Faulty(c, r, TemplateWstbMismatch);
    assert !Faulty(c, r, TemplateWstbMissing);
    assert WstbGrants(c, r)[0].productId == r.supports.wstbProductId.value;
  }

  /** The route's selected products, each in its context. */
  predicate Selects(r: Route, context: Context, productId: Id) {
    match context
    case StraightContext => r.selection.straightProductId == Some(productId)
    case SupportContext => r.supports.supportProductId == Some(productId)
    case AnchorContext => r.supports.anchorProductId == Some(productId)
    case WstbContext => r.supports.wstbProductId == Some(productId)
    case _ => false
  }

  lemma OneOfFive(
      a: seq<Grant>, b: seq<Grant>, c: seq<Grant>, d: seq<Grant>, e: seq<Grant>, context: Context, productId: Id)
    requires
      || Grants1(a, context, productId) || Grants1(b, context, productId) || Grants1(c, context, productId)
      || Grants1(d, context, productId)
    ensures Grants1(a + b + c + d + e, context, productId)
  {
    GrantsOfBoth(a, b, context, productId);
    GrantsOfBoth(a + b, c, context, productId);
    GrantsOfBoth(a + b + c, d, context, productId);
    GrantsOfBoth(a + b + c + d, e, context, productId);
  }

  lemma SelectedIsGranted(c: Catalog, r: Route, context: Context, productId: Id)
    requires SoundRoute(c, r) && Selects(r, context, productId)
    ensures Grants1(RouteGrants(c, r), context, productId)
  {
    match context {
      case StraightContext => RouteStraight(c, r);
      case SupportContext => RouteSupport(c, r);
      case AnchorContext => RouteAnchor(c, r);
      case WstbContext => RouteWstb(c, r);
      case _ =>
    }
    OneOfFive(StraightGrants(c, r), SupportGrants(c, r), AnchorGrants(c, r), WstbGrants(c, r),
      TemplateGrants(c, r.supports.templateId, c.components), context, productId);
  }

  // ---- every granted product is in the snapshots --------------------------------------------------------------

  predicate InSnapshots(snapshots: seq<Snapshot>, id: Id) {
    exists i :: 0 <= i < |snapshots| && snapshots[i].id == id
  }

  lemma {:induction false} SupportedHasSnapshot(c: Catalog, products: seq<Product>, p: Product)
    requires p in products && Supported(p)
    ensures SnapshotOf(c, p) in Snapshots(c, products)
  {
    if products[0] != p {
      SupportedHasSnapshot(c, products[1..], p);
    }
  }

  predicate IsSupported(c: Catalog, id: Id) {
    exists i :: 0 <= i < |c.products| && c.products[i].id == id && Supported(c.products[i])
  }

  lemma SupportedInSnapshots(c: Catalog, id: Id)
    requires IsSupported(c, id)
    ensures InSnapshots(Snapshots(c, c.products), id)
  {
    var i :| 0 <= i < |c.products| && c.products[i].id == id && Supported(c.products[i]);
    SupportedHasSnapshot(c, c.products, c.products[i]);
  }

  lemma ChosenIsSupported(c: Catalog, id: Option<Id>)
    requires Chosen(c, id).Some?
    ensures IsSupported(c, id.value)
  {
  }

  predicate AllSupported(c: Catalog, grants: seq<Grant>) {
    forall i :: 0 <= i < |grants| ==> IsSupported(c, grants[i].productId)
  }

  lemma {:induction false} TemplateSupported(c: Catalog, templateId: Id, components: seq<Component>)
    requires IsEngineTemplate(c, templateId) && forall k :: k in components ==> k in c.components
    ensures AllSupported(c, TemplateGrants(c, Some(templateId), components))
    decreases |components|
  {
    if |components| > 0 {
      var last := components[|components| - 1];
      TemplateSupported(c, templateId, components[..|components| - 1]);
      var t :| 0 <= t < |c.templates| && c.templates[t].id == templateId && EngineTemplate(c, c.templates[t]);
      assert last in c.components;
      if last.templateId == templateId {
        assert UsableComponent(c, last);
      }
    }
  }

  lemma StraightSupported(c: Catalog, r: Route)
    requires SoundRoute(c, r)
    ensures AllSupported(c, StraightGrants(c, r))
  {
    StraightIsGood(c, r);
    ChosenIsSupported(c, r.selection.straightProductId);
  }

  lemma FieldSupported(c: Catalog, r: Route, which: SupportField)
    requires SoundRoute(c, r)
    ensures ProductField(r.supports, which).Some? ==> IsSupported(c, ProductField(r.supports, which).value)
  {
    if ProductField(r.supports, which).Some? {
      RouteProductChosen(c, r, which);
      ChosenIsSupported(c, ProductField(r.supports, which));
    }
  }

  lemma SupportsSupported(c: Catalog, r: Route)
    requires SoundRoute(c, r)
    ensures AllSupported(c, SupportGrants(c, r))
    ensures AllSupported(c, AnchorGrants(c, r)) && AllSupported(c, WstbGrants(c, r))
  {
    FieldSupported(c, r, SupportProductField);
    FieldSupported(c, r, AnchorProductField);
    FieldSupported(c, r, WstbProductField);
  }

  lemma AllSupportedBoth(c: Catalog, a: seq<Grant>, b: seq<Grant>)
    requires AllSupported(c, a) && AllSupported(c, b)
    ensures AllSupported(c, a + b)
  {
  }

  lemma TemplateGrantsSupported(c: Catalog, r: Route)
    requires SoundRoute(c, r)
    ensures AllSupported(c, TemplateGrants(c, r.supports.templateId, c.components))
  {
    if r.supports.templateId.Some? {
      assert !Faulty(c, r, TemplateMissing);
      TemplateSupported(c, r.supports.templateId.value, c.components);
    }
  }

  lemma RouteSupported(c: Catalog, r: Route)
    requires SoundRoute(c, r)
    ensures AllSupported(c, RouteGrants(c, r))
  {
    StraightSupported(c, r);
    SupportsSupported(c, r);
    TemplateGrantsSupported(c, r);
    AllSupportedBoth(c, StraightGrants(c, r), SupportGrants(c, r));
    AllSupportedBoth(c, StraightGrants(c, r) + SupportGrants(c, r), AnchorGrants(c, r));
    AllSupportedBoth(c, StraightGrants(c, r) + SupportGrants(c, r) + AnchorGrants(c, r), WstbGrants(c, r));
  }

  predicate SoundRoutes(c: Catalog, routes: seq<Route>) {
    forall k :: 0 <= k < |routes| ==> Sound(c, routes[k])
  }

  /** The route's grants are of supported products. */
  predicate Sound(c: Catalog, r: Route) {
    AllSupported(c, RouteGrants(c, r))
  }

  lemma {:induction false} RoutesSupported(c: Catalog, routes: seq<Route>)
    requires SoundRoutes(c, routes)
    ensures AllSupported(c, RoutesGrants(c, routes))
    decreases |routes|
  {
    if |routes| > 0 {
      RoutesSupported(c, routes[..|routes| - 1]);
      assert Sound(c, routes[|routes| - 1]);
    }
  }

  lemma {:induction false} ManualSupported(c: Catalog, items: seq<ManualItem>)
    requires forall k :: 0 <= k < |items| && items[k].CatalogItem? ==> SupportedProduct(c, items[k].productId).Some?
    ensures AllSupported(c, ManualGrants(items))
    decreases |items|
  {
    if |items| > 0 {
      ManualSupported(c, items[..|items| - 1]);
    }
  }

  lemma ReadyRoute(c: Catalog, d: Draft, k: nat)
    requires Ready(c, d) && k < |d.routes|
    ensures SoundRoute(c, d.routes[k])
  {
    forall p: RouteProblem ensures !Faulty(c, d.routes[k], p) {
      assert !Warranted(c, d, RouteIssue(k, p));
    }
  }

  lemma ReadyItem(c: Catalog, d: Draft, k: nat)
    requires Ready(c, d) && k < |d.manualItems| && d.manualItems[k].CatalogItem?
    ensures SupportedProduct(c, d.manualItems[k].productId).Some?
  {
    assert !Warranted(c, d, ManualProductMissing(k));
  }

  lemma GrantsSupported(c: Catalog, d: Draft)
    requires Ready(c, d)
    ensures AllSupported(c, Grants(c, d))
  {
    forall k | 0 <= k < |d.routes| ensures Sound(c, d.routes[k]) {
      ReadyRoute(c, d, k);
      RouteSupported(c, d.routes[k]);
    }
    RoutesSupported(c, d.routes);
    forall k | 0 <= k < |d.manualItems| && d.manualItems[k].CatalogItem?
      ensures SupportedProduct(c, d.manualItems[k].productId).Some?
    {
      ReadyItem(c, d, k);
    }
    ManualSupported(c, d.manualItems);
  }

  // ---- main results -----------------------------------------------------------------------------------------------

  lemma SelectedIsAllowedOnce(c: Catalog, d: Draft, projectId: Id, k: nat, context: Context, productId: Id)
    requires Ready(c, d) && k < |d.routes| && Selects(d.routes[k], context, productId)
    ensures ExactlyOne(PartsOf(c, d, projectId).relations, context, productId)
  {
    ReadyRoute(c, d, k);
    SelectedIsGranted(c, d.routes[k], context, productId);
    RouteIsGranted(c, d.routes, k, context, productId);
    GrantsOfBoth(RoutesGrants(c, d.routes), ManualGrants(d.manualItems), context, productId);
    GrantIsAllowedOnce(c, d, projectId, context, productId);
  }

  lemma GrantIsAllowedOnce(c: Catalog, d: Draft, projectId: Id, context: Context, productId: Id)
    requires Grants1(Grants(c, d), context, productId)
    ensures ExactlyOne(PartsOf(c, d, projectId).relations, context, productId)
  {
    RelationsAreGrants(projectId, Grants(c, d));
    AllowedOnce(PartsOf(c, d, projectId).relations, projectId, context, productId);
  }

  /** A draft without issues compiles to an input in which nothing is missing: each route has all it
      needs; each selected straight, support, anchor and WSTB product, and each manual catalog
      product, has exactly one relation in its context; relation ids are distinct and are what the
      compatibility rule lists; and every product with a relation is in the snapshots. A route that
      overrides its anchors has the baseline that the override is recorded against. */
  lemma ReadyDraftCompiles(c: Catalog, d: Draft, projectId: Id)
    requires Ready(c, d)
    ensures var parts := PartsOf(c, d, projectId);
      && |d.routes| > 0
      && (forall k :: 0 <= k < |d.routes| ==> FieldsPresent(d.routes[k]) && OverrideHasBaseline(c, d.routes[k]))
      && (forall k, context, productId :: 0 <= k < |d.routes| && Selects(d.routes[k], context, productId) ==>
            ExactlyOne(parts.relations, context, productId))
      && (forall k :: 0 <= k < |d.manualItems| && d.manualItems[k].CatalogItem? ==>
            ExactlyOne(parts.relations, ManualContext, d.manualItems[k].productId))
      && (forall i, j :: 0 <= i < j < |parts.relations| ==> parts.relations[i].id != parts.relations[j].id)
      && CompatibilityRule(RelationIds(parts.relations)) in parts.rules
      && (forall i :: 0 <= i < |parts.relations| ==> InSnapshots(Snapshots(c, c.products), parts.relations[i].productId))
  {
    var parts := PartsOf(c, d, projectId);
    assert !Warranted(c, d, RouteRequired);
    forall k | 0 <= k < |d.routes| ensures FieldsPresent(d.routes[k]) && OverrideHasBaseline(c, d.routes[k]) {
      ReadyRoute(c, d, k);
      RouteSelections(c, d.routes[k]);
      RouteBaseline(c, d.routes[k]);
    }
    forall k, context, productId | 0 <= k < |d.routes| && Selects(d.routes[k], context, productId)
      ensures ExactlyOne(parts.relations, context, productId)
    {
      SelectedIsAllowedOnce(c, d, projectId, k, context, productId);
    }
    forall k | 0 <= k < |d.manualItems| && d.manualItems[k].CatalogItem?
      ensures ExactlyOne(parts.relations, ManualContext, d.manualItems[k].productId)
    {
      ManualIsAllowedOnce(c, d, projectId, k);
    }
    RelationsAreGrants(projectId, Grants(c, d));
    forall i: nat, j: nat | i < j < |parts.relations| ensures parts.relations[i].id != parts.relations[j].id {
      DistinctIds(parts.relations, projectId, i, j);
    }
    RelationsHaveSnapshots(c, d, projectId);
    CompatibilityRuleIsThere(c, d, projectId);
  }

  lemma ManualIsAllowedOnce(c: Catalog, d: Draft, projectId: Id, k: nat)
    requires k < |d.manualItems| && d.manualItems[k].CatalogItem?
    ensures ExactlyOne(PartsOf(c, d, projectId).relations, ManualContext, d.manualItems[k].productId)
  {
    ItemIsGranted(d.manualItems, k);
    GrantsOfBoth(RoutesGrants(c, d.routes), ManualGrants(d.manualItems), ManualContext, d.manualItems[k].productId);
    GrantIsAllowedOnce(c, d, projectId, ManualContext, d.manualItems[k].productId);
  }

  lemma RelationsHaveSnapshots(c: Catalog, d: Draft, projectId: Id)
    requires Ready(c, d)
    ensures var r := PartsOf(c, d, projectId).relations;
      forall i :: 0 <= i < |r| ==> InSnapshots(Snapshots(c, c.products), r[i].productId)
  {
    var r, grants := PartsOf(c, d, projectId).relations, Grants(c, d);
    GrantsSupported(c, d);
    RelationsAreGrants(projectId, grants);
    forall i | 0 <= i < |r| ensures InSnapshots(Snapshots(c, c.products), r[i].productId) {
      assert Granted(grants, r[i]);
      var g :| 0 <= g < |grants| && FromGrant(r[i], grants[g]);
      SupportedInSnapshots(c, r[i].productId);
    }
  }

  lemma CompatibilityRuleIsThere(c: Catalog, d: Draft, projectId: Id)
    requires Ready(c, d)
    ensures CompatibilityRule(RelationIds(PartsOf(c, d, projectId).relations)) in PartsOf(c, d, projectId).rules
  {
    var parts := PartsOf(c, d, projectId);
    assert !Warranted(c, d, RouteRequired);
    ReadyRoute(c, d, 0);
    RouteSelections(c, d.routes[0]);
    SelectedIsAllowedOnce(c, d, projectId, 0, StraightContext, d.routes[0].selection.straightProductId.value);
    assert parts.relations != [];
    assert parts.rules[|parts.rules| - 1] == CompatibilityRule(RelationIds(parts.relations));
  }

  lemma {:induction false} ProductHasSupplyRule(products: seq<Product>, p: Product)
    requires p in products && HasSupplyRule(p)
    ensures SupplyRule(p.id, SupplyOptionId(p.id, ProductLength(p).value)) in SupplyRules(products)
    decreases |products|
  {
    var last := products[|products| - 1];
    if last != p {
      var i :| 0 <= i < |products| && products[i] == p;
      assert products[..|products| - 1][i] == p;
      ProductHasSupplyRule(products[..|products| - 1], p);
    } else {
      var rules := SupplyRules(products);
      assert rules[|rules| - 1] == SupplyRule(p.id, SupplyOptionId(p.id, ProductLength(p).value));
    }
  }

  /** The supply option that a route selects has its rule. */
  lemma SupplyOptionHasRule(c: Catalog, d: Draft, projectId: Id, k: nat)
    requires Ready(c, d) && k < |d.routes|
    ensures FieldsPresent(d.routes[k])
    ensures SupplyRule(d.routes[k].selection.straightProductId.value, d.routes[k].selection.supplyOptionId.value)
      in PartsOf(c, d, projectId).rules
  {
    ReadyRoute(c, d, k);
    RouteSelections(c, d.routes[k]);
    ProductHasSupplyRule(c.products, Chosen(c, d.routes[k].selection.straightProductId).value);
  }

  // ---- what the checks do not see ------------------------------------------------------------------------------------

  lemma NoContextIsStraight(c: Catalog, components: seq<Component>, id: Id)
    ensures LastRole(c, components, id).Some? ==> LastRole(c, components, id).value != STRAIGHT
    ensures RoleText(ConnectorRole) != STRAIGHT
  {
    assert |STRAIGHT| == 15;
    if |components| > 0 {
      NoContextIsStraight(c, components[..|components| - 1], id);
    }
  }

  /** The selected supply option is offered by the snapshot of the route's straight product exactly
      when no connector rule and no template component gives that product another role. The checks
      do not ask this, so a draft can pass them and still name a supply option that its compiled
      input does not contain. */
  lemma SupplyOptionKeptIff(c: Catalog, d: Draft, k: nat)
    requires Ready(c, d) && k < |d.routes|
    ensures var s := d.routes[k].selection;
      && FieldsPresent(d.routes[k]) && Chosen(c, s.straightProductId).Some?
      && (s.supplyOptionId.value in SnapshotOf(c, Chosen(c, s.straightProductId).value).supplyOptions
          <==> ContextualRole(c, s.straightProductId.value).None?)
  {
    var s := d.routes[k].selection;
    ReadyRoute(c, d, k);
    RouteSelections(c, d.routes[k]);
    NoContextIsStraight(c, c.components, s.straightProductId.value);
  }

  /** A catalog with one straight product, a rule that selects it, and an active template with a
      component of it. */
  function SmallCatalog(p: Product, rule: Rule, template: Template, component: Component): Catalog {
    Catalog([p], [rule], [template], [component], (t: Text) => t)
  }

  function SmallSelection(p: Product, rule: Rule): Selection
    requires rule.system.Some? && ProductLength(p).Some?
  {
    Selection(rule.system, Some(DimensionId(rule.system.value, rule.height, rule.width)), Some(rule.width),
      Some(rule.height), rule.material, rule.finish, Some(p.id), Some(SupplyOptionId(p.id, ProductLength(p).value)))
  }

  function SmallRoute(p: Product, rule: Rule): Route
    requires rule.system.Some? && ProductLength(p).Some?
  {
    Route(Lit("r"), SmallSelection(p, rule), [Straight], None, None,
      Supports(Some(Lit("1500")), Some(Lit("wall")), Some(One), None, None, None, None, None, false))
  }

  predicate SmallExample(p: Product, rule: Rule, template: Template, component: Component) {
    && Demandable(p) && p.category == STRAIGHT && ProductLength(p).Some? && p.code != []
    && rule.relation == ProjectSelection && rule.allowed && rule.sourceCode == Some(p.code)
    && Truthy(rule.system) && rule.width != [] && rule.height != [] && rule.material.Some? && rule.finish.Some?
    && template.active && component.templateId == template.id
    && component.productId == p.id && component.role == AccessoryRole
  }

  lemma SmallSelectionIsGood(p: Product, rule: Rule, template: Template, component: Component)
    requires SmallExample(p, rule, template, component)
    ensures var c, s := SmallCatalog(p, rule, template, component), SmallSelection(p, rule);
      GoodStraight(c, s) && GoodSupplyOption(c, s) && SelectionEvidence(c, s).Some?
  {
    var c, s := SmallCatalog(p, rule, template, component), SmallSelection(p, rule);
    assert c.products[0] == p && c.rules[0] == rule;
    assert NamesProduct(c, rule.sourceCode, p.id);
    assert SelectionRule(c, s, p.id, c.rules[0]);
  }

  /** A route with a good selection, straight geometry and no selected material. */
  predicate PlainRoute(c: Catalog, r: Route) {
    && FieldsPresent(r) && GoodStraight(c, r.selection) && GoodSupplyOption(c, r.selection)
    && SelectionEvidence(c, r.selection).Some?
    && r.geometry == [Straight] && r.startProductId.None? && r.endProductId.None?
    && r.supports.supportProductId.None? && r.supports.anchorProductId.None? && r.supports.wstbProductId.None?
    && r.supports.templateId.None? && !r.supports.overridesAnchors
  }

  predicate AboutTemplates(p: RouteProblem) {
    || p.TemplateMissing? || p.TemplateTypeMismatch? || p.TemplateSystemMissing? || p.TemplateSystemMismatch?
    || p.TemplateWstbMissing? || p.TemplateWstbMismatch? || p.TemplateAnchorMismatch? || p.AnchorBaselineMissing?
  }

  predicate AboutProducts(p: RouteProblem) {
    || p.ProductMissing? || p.NotOrderable? || p.WstbInvalid? || p.SupportRuleMissing? || p.AnchorRuleMissing?
  }

  lemma PlainTemplates(c: Catalog, r: Route, p: RouteProblem)
    requires PlainRoute(c, r) && AboutTemplates(p)
    ensures !Faulty(c, r, p)
  {
  }

  lemma PlainProducts(c: Catalog, r: Route, p: RouteProblem)
    requires PlainRoute(c, r) && AboutProducts(p)
    ensures !Faulty(c, r, p)
  {
    match p {
      case ProductMissing(which) => assert ProductField(r.supports, which).None?;
      case NotOrderable(which) => assert ProductField(r.supports, which).None?;
      case _ =>
    }
  }

  lemma PlainSelection(c: Catalog, r: Route, p: RouteProblem)
    requires PlainRoute(c, r) && !AboutTemplates(p) && !AboutProducts(p)
    ensures !Faulty(c, r, p)
  {
    match p {
      case SelectionRequired(field) => assert FieldOf(r.selection, field).Some?;
      case FittingProblem(index, _) => assert index < |r.geometry| ==> r.geometry[index] == Straight;
      case _ =>
    }
  }

  lemma PlainRouteIsSound(c: Catalog, r: Route)
    requires PlainRoute(c, r)
    ensures SoundRoute(c, r)
  {
    forall p: RouteProblem ensures !Faulty(c, r, p) {
      if AboutTemplates(p) {
        PlainTemplates(c, r, p);
      } else if AboutProducts(p) {
        PlainProducts(c, r, p);
      } else {
        PlainSelection(c, r, p);
      }
    }
  }

  lemma SmallRouteIsSound(p: Product, rule: Rule, template: Template, component: Component)
    requires SmallExample(p, rule, template, component)
    ensures SoundRoute(SmallCatalog(p, rule, template, component), SmallRoute(p, rule))
  {
    SmallSelectionIsGood(p, rule, template, component);
    PlainRouteIsSound(SmallCatalog(p, rule, template, component), SmallRoute(p, rule));
  }

  /** So it happens: a product of a single-route draft that an active template, which the route does
      not use, contains as an accessory. The draft is ready, and its supply option is not in the
      snapshot. */
  lemma RoleHidesSupplyOption(p: Product, rule: Rule, template: Template, component: Component)
    requires SmallExample(p, rule, template, component)
    ensures var c, d := SmallCatalog(p, rule, template, component), Draft([SmallRoute(p, rule)], [], [], []);
      Ready(c, d) && SnapshotOf(c, p).supplyOptions == []
  {
    var c, d := SmallCatalog(p, rule, template, component), Draft([SmallRoute(p, rule)], [], [], []);
    SmallRouteIsSound(p, rule, template, component);
    assert c.products[0] == p && c.components[0] == component;
    assert c.components[..0] == [];
    assert GivesRole(c, component, p.id);
    NoContextIsStraight(c, c.components, p.id);
  }
}
