/** What a draft compiles to, written out in the catalog's and the draft's own columns. */
module CompiledDrafts {
  import opened Wrappers
  import opened JsText
  import opened Tables
  import opened Preflight
  import opened Compilation
  import opened CompilationTheorems
  import opened ReadyDrafts

  // ---- what relations rest on ---------------------------------------------------------------------------

  /** The first rule of the catalog that allows the straight product for the selection has this id. */
  ghost predicate FirstForStraight(c: Catalog, s: Selection, productId: Id, ruleId: Id) {
    exists i :: 0 <= i < |c.rules| && AllowsStraight(c, s, productId, c.rules[i]) && c.rules[i].id == ruleId
      && forall j :: 0 <= j < i ==> !AllowsStraight(c, s, productId, c.rules[j])
  }

  /** So with the rules that allow an anchor on a substrate. */
  ghost predicate FirstForAnchor(c: Catalog, productId: Id, substrate: Option<Text>, ruleId: Id) {
    exists i :: 0 <= i < |c.rules| && AllowsAnchor(c, productId, substrate, c.rules[i]) && c.rules[i].id == ruleId
      && forall j :: 0 <= j < i ==> !AllowsAnchor(c, productId, substrate, c.rules[j])
  }

  /** The rule or component of that id is in the catalog and says that the route may use the product. */
  ghost predicate RouteAllows(c: Catalog, r: Route, context: Context, productId: Id, basis: Basis) {
    match context
    case StraightContext =>
      && r.selection.straightProductId == Some(productId)
      && basis.RuleBasis? && FirstForStraight(c, r.selection, productId, basis.id)
    case AnchorContext =>
      && r.supports.anchorProductId == Some(productId)
      && basis.RuleBasis? && FirstForAnchor(c, productId, r.supports.substrate, basis.id)
    case SupportContext =>
      exists k :: TemplateHas(c, r.supports.templateId, productId, SupportRole, k) && basis == ComponentBasis(k.id)
    case WstbContext =>
      && r.supports.wstbProductId == Some(productId)
      && exists k :: TemplateHas(c, r.supports.templateId, productId, WstbRole, k) && basis == ComponentBasis(k.id)
    case StructureContext =>
      exists k :: TemplateHas(c, r.supports.templateId, productId, StructureRole, k) && basis == ComponentBasis(k.id)
    case AccessoryContext =>
      exists k, role :: role in OTHER_ROLES && TemplateHas(c, r.supports.templateId, productId, role, k)
        && basis == ComponentBasis(k.id)
    case ManualContext => false
  }

  /** The roles of which a template's components are accessories to the engine. */
  const OTHER_ROLES: set<Role> := {FastenerRole, AccessoryRole, ConnectorRole, OtherRole}

  ghost predicate AllAllow(c: Catalog, r: Route, grants: seq<Grant>) {
    forall i :: 0 <= i < |grants| ==> RouteAllows(c, r, grants[i].context, grants[i].productId, grants[i].basis)
  }

  lemma StraightRests(c: Catalog, r: Route)
    ensures AllAllow(c, r, StraightGrants(c, r))
  {
    if SelectionEvidence(c, r.selection).Some? {
      var id := r.selection.straightProductId.value;
      forall rule ensures SelectionRule(c, r.selection, id, rule) <==> AllowsStraight(c, r.selection, id, rule) {
        AllowsStraightIff(c, r.selection, id, rule);
      }
      var i := Find(c.rules, (rule: Rule) => SelectionRule(c, r.selection, id, rule));
      assert AllowsStraight(c, r.selection, id, c.rules[i]);
    }
  }

  lemma AnchorRests(c: Catalog, r: Route)
    ensures AllAllow(c, r, AnchorGrants(c, r))
  {
    var id := r.supports.anchorProductId;
    if id.Some? {
      var substrate := r.supports.substrate;
      if AnchorEvidence(c, id.value, substrate).Some? {
        forall rule ensures AnchorRule(c, id.value, substrate.value, rule) <==> AllowsAnchor(c, id.value, substrate, rule) {
          AllowsAnchorIff(c, id.value, substrate, rule);
        }
        var i := Find(c.rules, (rule: Rule) => AnchorRule(c, id.value, substrate.value, rule));
        assert AllowsAnchor(c, id.value, substrate, c.rules[i]);
      }
    }
  }

  lemma EvidenceIsComponent(c: Catalog, templateId: Option<Id>, productId: Id, role: Role)
    requires ComponentEvidence(c, templateId, productId, role).Some?
    ensures TemplateHas(c, templateId, productId, role, ComponentEvidence(c, templateId, productId, role).value)
  {
    PlaysRoleIff(c, ComponentEvidence(c, templateId, productId, role).value, role);
  }

  lemma SupportRests(c: Catalog, r: Route)
    ensures AllAllow(c, r, SupportGrants(c, r))
  {
    var id := r.supports.supportProductId;
    if id.Some? && ComponentEvidence(c, r.supports.templateId, id.value, SupportRole).Some? {
      EvidenceIsComponent(c, r.supports.templateId, id.value, SupportRole);
    }
  }

  lemma WstbRests(c: Catalog, r: Route)
    ensures AllAllow(c, r, WstbGrants(c, r))
  {
    var id := r.supports.wstbProductId;
    if id.Some? && ComponentEvidence(c, r.supports.templateId, id.value, WstbRole).Some? {
      EvidenceIsComponent(c, r.supports.templateId, id.value, WstbRole);
    }
  }

  lemma ComponentRests(c: Catalog, r: Route, k: Component)
    requires k in c.components && r.supports.templateId == Some(k.templateId) && GrantedByTemplate(c, k.templateId, k)
    ensures var g := TemplateGrant(c, k); RouteAllows(c, r, g.context, g.productId, g.basis)
  {
    var role := EffectiveRole(c, k);
    PlaysRoleIff(c, k, role);
    assert TemplateHas(c, r.supports.templateId, k.productId, role, k);
  }

  lemma {:induction false} TemplateRests(c: Catalog, r: Route, components: seq<Component>)
    requires forall k :: k in components ==> k in c.components
    ensures AllAllow(c, r, TemplateGrants(c, r.supports.templateId, components))
    decreases |components|
  {
    if |components| > 0 && r.supports.templateId.Some? {
      var last := components[|components| - 1];
      TemplateRests(c, r, components[..|components| - 1]);
      assert last in c.components;
      if GrantedByTemplate(c, r.supports.templateId.value, last) {
        ComponentRests(c, r, last);
      }
    }
  }

  lemma AllowBoth(c: Catalog, r: Route, a: seq<Grant>, b: seq<Grant>)
    requires AllAllow(c, r, a) && AllAllow(c, r, b)
    ensures AllAllow(c, r, a + b)
  {
  }

  lemma RouteRests(c: Catalog, r: Route)
    ensures AllAllow(c, r, RouteGrants(c, r))
  {
    StraightRests(c, r);
    SupportRests(c, r);
    AnchorRests(c, r);
    WstbRests(c, r);
    TemplateRests(c, r, c.components);
    var straight, support := StraightGrants(c, r), SupportGrants(c, r);
    var anchor, wstb := AnchorGrants(c, r), WstbGrants(c, r);
    AllowBoth(c, r, straight, support);
    AllowBoth(c, r, straight + support, anchor);
    AllowBoth(c, r, straight + support + anchor, wstb);
    AllowBoth(c, r, straight + support + anchor + wstb, TemplateGrants(c, r.supports.templateId, c.components));
  }

  /** Some route of the draft, or some manual item, is what the relation is for. */
  ghost predicate Rests(c: Catalog, d: Draft, context: Context, productId: Id, basis: Basis) {
    || (exists k :: 0 <= k < |d.routes| && RouteAllows(c, d.routes[k], context, productId, basis))
    || (context == ManualContext
        && exists k :: 0 <= k < |d.manualItems| && d.manualItems[k].CatalogItem?
             && d.manualItems[k].productId == productId && basis == ManualBasis(d.manualItems[k].id))
  }

  ghost predicate AllRest(c: Catalog, d: Draft, grants: seq<Grant>) {
    forall i :: 0 <= i < |grants| ==> Rests(c, d, grants[i].context, grants[i].productId, grants[i].basis)
  }

  lemma RestBoth(c: Catalog, d: Draft, a: seq<Grant>, b: seq<Grant>)
    requires AllRest(c, d, a) && AllRest(c, d, b)
    ensures AllRest(c, d, a + b)
  {
  }

  lemma RouteOf(c: Catalog, d: Draft, k: nat, grants: seq<Grant>)
    requires k < |d.routes| && AllAllow(c, d.routes[k], grants)
    ensures AllRest(c, d, grants)
  {
  }

  lemma {:induction false} RoutesRest(c: Catalog, d: Draft, n: nat)
    requires n <= |d.routes|
    ensures AllRest(c, d, RoutesGrants(c, d.routes[..n]))
    decreases n
  {
    if n > 0 {
      assert d.routes[..n][..n - 1] == d.routes[..n - 1];
      RoutesRest(c, d, n - 1);
      RouteRests(c, d.routes[n - 1]);
      RouteOf(c, d, n - 1, RouteGrants(c, d.routes[n - 1]));
      RestBoth(c, d, RoutesGrants(c, d.routes[..n - 1]), RouteGrants(c, d.routes[n - 1]));
    }
  }

  lemma {:induction false} ItemsRest(c: Catalog, d: Draft, n: nat)
    requires n <= |d.manualItems|
    ensures AllRest(c, d, ManualGrants(d.manualItems[..n]))
    decreases n
  {
    if n > 0 {
      ManualGrantsStep(d.manualItems, n - 1);
      ItemsRest(c, d, n - 1);
    }
  }

  lemma GrantsRest(c: Catalog, d: Draft)
    ensures AllRest(c, d, Grants(c, d))
  {
    assert d.routes[..|d.routes|] == d.routes && d.manualItems[..|d.manualItems|] == d.manualItems;
    RoutesRest(c, d, |d.routes|);
    ItemsRest(c, d, |d.manualItems|);
    RestBoth(c, d, RoutesGrants(c, d.routes), ManualGrants(d.manualItems));
  }

  lemma RepresentedRests(c: Catalog, d: Draft, relations: seq<Relation>, projectId: Id, grants: seq<Grant>, i: nat)
    requires i < |relations| && Represents(relations, projectId, grants)
    requires AllRest(c, d, grants)
    ensures Rests(c, d, relations[i].context, relations[i].productId, relations[i].basis)
  {
    assert Granted(grants, relations[i]);
  }

  /** Every relation that is compiled rests on the first rule that allows its product to a route, on a
      component of a route's template, or on a manual item. */
  lemma RelationRests(c: Catalog, d: Draft, projectId: Id, i: nat)
    requires i < |PartsOf(c, d, projectId).relations|
    ensures var r := PartsOf(c, d, projectId).relations[i]; Rests(c, d, r.context, r.productId, r.basis)
  {
    var grants := Grants(c, d);
    RelationsAreGrants(projectId, grants);
    GrantsRest(c, d);
    RepresentedRests(c, d, PartsOf(c, d, projectId).relations, projectId, grants, i);
  }

  // ---- components of the selected templates ---------------------------------------------------------------

  /** In which context a template allows a component; anchors and WSTB products are selected. */
  function ComponentContext(role: Role): Option<Context> {
    match role
    case StructureRole => Some(StructureContext)
    case SupportRole => Some(SupportContext)
    case AnchorRole => None
    case WstbRole => None
    case FastenerRole => Some(AccessoryContext)
    case AccessoryRole => Some(AccessoryContext)
    case ConnectorRole => Some(AccessoryContext)
    case OtherRole => Some(AccessoryContext)
  }

  lemma {:induction false} TemplateGrantsAll(c: Catalog, templateId: Id, components: seq<Component>, k: Component)
    requires k in components && k.templateId == templateId
    requires ComponentContext(EffectiveRole(c, k)).Some?
    ensures Grants1(TemplateGrants(c, Some(templateId), components), ComponentContext(EffectiveRole(c, k)).value, k.productId)
    decreases |components|
  {
    var before, last := components[..|components| - 1], components[|components| - 1];
    var grants := TemplateGrants(c, Some(templateId), components);
    if k == last {
      assert grants[|grants| - 1] == TemplateGrant(c, last);
    } else {
      var i :| 0 <= i < |components| && components[i] == k;
      assert before[i] == k;
      TemplateGrantsAll(c, templateId, before, k);
      GrantsOfBoth(TemplateGrants(c, Some(templateId), before),
        if GrantedByTemplate(c, templateId, last) then [TemplateGrant(c, last)] else [],
        ComponentContext(EffectiveRole(c, k)).value, k.productId);
    }
  }

  /** Each component of a route's template is allowed exactly once in the context of its role. */
  lemma ComponentIsAllowed(c: Catalog, d: Draft, projectId: Id, k: nat, component: Component, role: Role)
    requires k < |d.routes| && component in c.components && d.routes[k].supports.templateId == Some(component.templateId)
    requires PlaysRole(c, component, role) && ComponentContext(role).Some?
    ensures ExactlyOne(PartsOf(c, d, projectId).relations, ComponentContext(role).value, component.productId)
  {
    var r, context := d.routes[k], ComponentContext(role).value;
    PlaysRoleIff(c, component, role);
    TemplateGrantsAll(c, component.templateId, c.components, component);
    GrantsOfBoth(StraightGrants(c, r) + SupportGrants(c, r) + AnchorGrants(c, r) + WstbGrants(c, r),
      TemplateGrants(c, r.supports.templateId, c.components), context, component.productId);
    RouteIsGranted(c, d.routes, k, context, component.productId);
    GrantsOfBoth(RoutesGrants(c, d.routes), ManualGrants(d.manualItems), context, component.productId);
    GrantIsAllowedOnce(c, d, projectId, context, component.productId);
  }

  // ---- ids and names -----------------------------------------------------------------------------------------

  function NameOf(context: Context): string {
    match context
    case StraightContext => "straightSection"
    case SupportContext => "support"
    case AnchorContext => "anchor"
    case WstbContext => "wstb"
    case StructureContext => "structure"
    case AccessoryContext => "accessory"
    case ManualContext => "manualCatalog"
  }

  /** A relation's id names its context, the project and the product. */
  lemma RelationNamed(c: Catalog, d: Draft, projectId: Id, i: nat)
    requires i < |PartsOf(c, d, projectId).relations|
    ensures var r := PartsOf(c, d, projectId).relations[i];
      r.id == Lit("compat:") + Lit(NameOf(r.context)) + [0x3A] + projectId + [0x3A] + r.productId
  {
    RelationsAreGrants(projectId, Grants(c, d));
  }

  // ---- rules -----------------------------------------------------------------------------------------------------

  /** How many WSTB pieces each support of the route gets. */
  ghost predicate PerSupport(wstb: Wstb, quantity: Text) {
    match wstb
    case One => quantity == Digits(1)
    case Two => quantity == Digits(2)
    case Custom(n) => quantity == n
  }

  predicate IsWstbRule(rules: seq<CompiledRule>, i: int, routeId: Id) {
    0 <= i < |rules| && rules[i].WstbRule? && rules[i].routeId == routeId
  }

  lemma {:induction false} NoWstbAmongSupplies(products: seq<Product>)
    ensures forall i :: 0 <= i < |SupplyRules(products)| ==> SupplyRules(products)[i].SupplyRule?
    decreases |products|
  {
    if |products| > 0 {
      NoWstbAmongSupplies(products[..|products| - 1]);
    }
  }

  /** Supply rules first, then one rule for each route, then perhaps the compatibility rule. */
  ghost predicate LaidOut(rules: seq<CompiledRule>, supplies: seq<CompiledRule>, wstbs: seq<CompiledRule>, relations: seq<Relation>) {
    && rules == supplies + wstbs + (if relations == [] then [] else [CompatibilityRule(RelationIds(relations))])
    && (forall i :: 0 <= i < |supplies| ==> supplies[i].SupplyRule?)
    && (forall i :: 0 <= i < |wstbs| ==> wstbs[i].WstbRule?)
  }

  lemma RulesLaidOut(c: Catalog, d: Draft, projectId: Id)
    ensures var parts := PartsOf(c, d, projectId);
      LaidOut(parts.rules, SupplyRules(c.products), WstbRules(d.routes), parts.relations)
  {
    NoWstbAmongSupplies(c.products);
  }

  lemma WstbOnce(rules: seq<CompiledRule>, supplies: seq<CompiledRule>, wstbs: seq<CompiledRule>, relations: seq<Relation>, k: nat)
    requires LaidOut(rules, supplies, wstbs, relations) && k < |wstbs|
    requires forall j :: 0 <= j < |wstbs| && wstbs[j].routeId == wstbs[k].routeId ==> j == k
    ensures IsWstbRule(rules, |supplies| + k, wstbs[k].routeId) && rules[|supplies| + k] == wstbs[k]
    ensures forall j :: IsWstbRule(rules, j, wstbs[k].routeId) ==> j == |supplies| + k
  {
    forall j | IsWstbRule(rules, j, wstbs[k].routeId) ensures j == |supplies| + k {
      if |supplies| <= j < |supplies| + |wstbs| {
        assert rules[j] == wstbs[j - |supplies|];
      }
    }
  }

  lemma QuantityMeaning(wstb: Wstb)
    ensures WstbQuantity(Some(wstb)).Some? && PerSupport(wstb, WstbQuantity(Some(wstb)).value)
  {
    assert Lit("1") == Digits(1) && Lit("2") == Digits(2);
  }

  /** Each route has exactly one WSTB rule, with one piece, two pieces, or the route's own number of
      pieces per support. */
  lemma OneWstbRule(c: Catalog, d: Draft, projectId: Id, k: nat) returns (i: nat, quantity: Text)
    requires k < |d.routes| && d.routes[k].supports.wstb.Some?
    requires forall i, j :: 0 <= i < j < |d.routes| ==> d.routes[i].id != d.routes[j].id
    ensures var rules := PartsOf(c, d, projectId).rules;
      && i < |rules| && rules[i] == WstbRule(d.routes[k].id, Some(quantity))
      && PerSupport(d.routes[k].supports.wstb.value, quantity)
      && forall j :: IsWstbRule(rules, j, d.routes[k].id) ==> j == i
  {
    var parts, wstbs := PartsOf(c, d, projectId), WstbRules(d.routes);
    RulesLaidOut(c, d, projectId);
    WstbOnce(parts.rules, SupplyRules(c.products), wstbs, parts.relations, k);
    QuantityMeaning(d.routes[k].supports.wstb.value);
    i, quantity := |SupplyRules(c.products)| + k, WstbQuantity(d.routes[k].supports.wstb).value;
  }

  /** The product is a straight section of a length that is supplied, and this is its option. */
  ghost predicate Supplied(p: Product, option: Text) {
    && Usable(p) && p.category == Lit("straightSection")
    && (p.length == Some(Lit("3000")) || p.length == Some(Lit("6000")))
    && option == Lit("supply:") + p.id + Lit(":") + p.length.value
  }

  lemma {:induction false} SupplyRulesMeaning(products: seq<Product>, id: Id, option: Text)
    ensures SupplyRule(id, option) in SupplyRules(products) <==> exists p :: p in products && p.id == id && Supplied(p, option)
    decreases |products|
  {
    if |products| > 0 {
      var before, last := products[..|products| - 1], products[|products| - 1];
      SupplyRulesMeaning(before, id, option);
      UsableIff(last);
      assert products == before + [last];
      assert SupplyRule(id, option) in SupplyRules(products) <==>
        SupplyRule(id, option) in SupplyRules(before) || (last.id == id && Supplied(last, option));
    }
  }

  lemma RuleKinds(
      rules: seq<CompiledRule>, supplies: seq<CompiledRule>, wstbs: seq<CompiledRule>, relations: seq<Relation>, rule: CompiledRule)
    requires LaidOut(rules, supplies, wstbs, relations)
    ensures rule.SupplyRule? ==> (rule in rules <==> rule in supplies)
    ensures rule.CompatibilityRule? ==>
      (rule in rules <==> relations != [] && rule == CompatibilityRule(RelationIds(relations)))
  {
  }

  /** There is a supply rule exactly for the straight sections that are supplied. */
  lemma SupplyRulesCompiled(c: Catalog, d: Draft, projectId: Id, id: Id, option: Text)
    ensures SupplyRule(id, option) in PartsOf(c, d, projectId).rules <==> exists p :: p in c.products && p.id == id && Supplied(p, option)
  {
    var parts := PartsOf(c, d, projectId);
    RulesLaidOut(c, d, projectId);
    RuleKinds(parts.rules, SupplyRules(c.products), WstbRules(d.routes), parts.relations, SupplyRule(id, option));
    SupplyRulesMeaning(c.products, id, option);
  }

  /** There is a compatibility rule, which lists all relations in order, exactly if there are relations. */
  lemma CompatibilityRuleCompiled(c: Catalog, d: Draft, projectId: Id, ids: seq<Text>)
    ensures var parts := PartsOf(c, d, projectId);
      CompatibilityRule(ids) in parts.rules <==>
        && |parts.relations| > 0 && |ids| == |parts.relations|
        && forall i :: 0 <= i < |ids| ==> ids[i] == parts.relations[i].id
  {
    var parts := PartsOf(c, d, projectId);
    RulesLaidOut(c, d, projectId);
    RuleKinds(parts.rules, SupplyRules(c.products), WstbRules(d.routes), parts.relations, CompatibilityRule(ids));
  }

  /** Routes keep their order, and name their own straight product and supply option. */
  lemma RoutesCompiled(c: Catalog, d: Draft, projectId: Id)
    ensures var routes := PartsOf(c, d, projectId).routes;
      && |routes| == |d.routes|
      && forall k :: 0 <= k < |routes| ==>
           && routes[k].id == d.routes[k].id
           && routes[k].straightProductId == d.routes[k].selection.straightProductId
           && routes[k].supplyOptionId == d.routes[k].selection.supplyOptionId
  {
  }

  // ---- product snapshots ------------------------------------------------------------------------------------------

  function RoleName(role: Role): Option<string> {
    match role
    case SupportRole => Some("support")
    case StructureRole => Some("structure")
    case AnchorRole => Some("anchor")
    case FastenerRole => Some("fastener")
    case AccessoryRole => Some("accessory")
    case WstbRole => Some("wstb")
    case ConnectorRole => None
    case OtherRole => None
  }

  /** The component gives its product this role's name. */
  ghost predicate Gives(c: Catalog, k: Component, id: Id, name: string) {
    k.productId == id && exists role :: PlaysRole(c, k, role) && RoleName(role) == Some(name)
  }

  /** The last component that names a role for the product names this one. */
  ghost predicate LastNames(c: Catalog, id: Id, name: string) {
    exists i :: 0 <= i < |c.components| && Gives(c, c.components[i], id, name)
      && forall j, other :: i < j < |c.components| ==> !Gives(c, c.components[j], id, other)
  }

  predicate Matches(c: Catalog, p: Product, attribute: Attribute, expected: Text) {
    match attribute
    case Family => p.family.Some? && c.lower(p.family.value) == expected
    case System => p.series.Some? && c.lower(p.series.value) == expected
    case ProductCode => c.lower(p.code) == expected
    case Category => c.lower(p.category) == expected
    case MaterialCode => p.material.Some? && c.lower(p.material.value) == expected
    case FinishCode => p.coating.Some? && c.lower(p.coating.value) == expected
    case OtherAttribute => false
  }

  predicate HasCode(c: Catalog, p: Product, code: Option<Text>) {
    code.Some? && c.lower(code.value) != [] && c.lower(p.code) == c.lower(code.value)
  }

  /** A connector rule is for this product: it is the first one with the rule's target code; or none
      has that code, and it is as the rule's selector says. */
  ghost predicate Connects(c: Catalog, rule: Rule, id: Id) {
    && rule.relation == SeparateConnector
    && exists i :: 0 <= i < |c.products| && c.products[i].id == id && Usable(c.products[i])
         && if HasCode(c, c.products[i], rule.targetCode)
            then forall j :: 0 <= j < i ==> !HasCode(c, c.products[j], rule.targetCode)
            else
              && (forall j :: 0 <= j < |c.products| ==> !HasCode(c, c.products[j], rule.targetCode))
              && rule.targetSelector.Some?
              && forall n :: 0 <= n < |rule.targetSelector.value| ==>
                   Matches(c, c.products[i], rule.targetSelector.value[n].0, rule.targetSelector.value[n].1)
  }

  lemma SelectorIff(c: Catalog, p: Product, selector: Selector)
    ensures SelectorMatches(c, p, selector) <==>
      selector.Some? && forall n :: 0 <= n < |selector.value| ==> Matches(c, p, selector.value[n].0, selector.value[n].1)
  {
  }

  lemma CodedIff(c: Catalog, code: Option<Text>)
    ensures ProductByCode(c, code).None? <==> forall j :: 0 <= j < |c.products| ==> !HasCode(c, c.products[j], code)
    ensures ProductByCode(c, code).Some? ==>
      exists i :: 0 <= i < |c.products| && c.products[i] == ProductByCode(c, code).value && HasCode(c, c.products[i], code)
        && forall j :: 0 <= j < i ==> !HasCode(c, c.products[j], code)
  {
    if code.Some? && c.lower(code.value) != [] {
      var n := Find(c.products, (p: Product) => c.lower(p.code) == c.lower(code.value));
      assert forall j :: 0 <= j < n ==> !HasCode(c, c.products[j], code);
    }
  }

  lemma DirectTarget(c: Catalog, rule: Rule, id: Id)
    requires rule.relation == SeparateConnector && ProductByCode(c, rule.targetCode).Some?
    ensures MakesConnector(c, rule, id) <==> Connects(c, rule, id)
  {
    var direct := ProductByCode(c, rule.targetCode).value;
    CodedIff(c, rule.targetCode);
    UsableIff(direct);
    if MakesConnector(c, rule, id) {
      var i :| 0 <= i < |c.products| && c.products[i] == direct && HasCode(c, c.products[i], rule.targetCode)
        && forall j :: 0 <= j < i ==> !HasCode(c, c.products[j], rule.targetCode);
      assert c.products[i].id == id && Usable(c.products[i]);
    }
    if Connects(c, rule, id) {
      assert [direct][0].id == id;
      assert HasId([direct], id);
    }
  }

  lemma SelectedTarget(c: Catalog, rule: Rule, id: Id)
    requires rule.relation == SeparateConnector && ProductByCode(c, rule.targetCode).None?
    ensures MakesConnector(c, rule, id) <==> Connects(c, rule, id)
  {
    CodedIff(c, rule.targetCode);
    var targets := SelectedProducts(c, rule.targetCode, rule.targetSelector);
    forall p: Product ensures p in targets <==> p in c.products && Usable(p) && SelectorMatches(c, p, rule.targetSelector) {
      UsableIff(p);
    }
    forall p: Product { SelectorIff(c, p, rule.targetSelector); }
    if MakesConnector(c, rule, id) {
      var t :| 0 <= t < |targets| && targets[t].id == id;
      assert targets[t] in targets;
      var i :| 0 <= i < |c.products| && c.products[i] == targets[t];
    }
    if Connects(c, rule, id) {
      var i :| 0 <= i < |c.products| && c.products[i].id == id && Usable(c.products[i])
        && SelectorMatches(c, c.products[i], rule.targetSelector);
      assert c.products[i] in targets;
      var t :| 0 <= t < |targets| && targets[t] == c.products[i];
      assert targets[t].id == id;
    }
  }

  lemma ConnectsIff(c: Catalog, rule: Rule, id: Id)
    ensures MakesConnector(c, rule, id) <==> Connects(c, rule, id)
  {
    if rule.relation == SeparateConnector {
      if ProductByCode(c, rule.targetCode).Some? {
        DirectTarget(c, rule, id);
      } else {
        SelectedTarget(c, rule, id);
      }
    }
  }

  lemma GivesIff(c: Catalog, k: Component, id: Id)
    ensures GivesRole(c, k, id) <==> exists name :: Gives(c, k, id, name)
    ensures GivesRole(c, k, id) ==> exists name :: Gives(c, k, id, name) && RoleText(EffectiveRole(c, k)) == Lit(name)
    ensures forall name :: Gives(c, k, id, name) ==> RoleText(EffectiveRole(c, k)) == Lit(name)
  {
    forall role ensures EffectiveRole(c, k) == role <==> PlaysRole(c, k, role) {
      PlaysRoleIff(c, k, role);
    }
    var role := EffectiveRole(c, k);
    if GivesRole(c, k, id) {
      assert PlaysRole(c, k, role) && RoleName(role).Some?;
      assert Gives(c, k, id, RoleName(role).value);
    }
  }

  lemma {:induction false} LastRoleIff(c: Catalog, n: nat, id: Id)
    requires n <= |c.components|
    ensures var role := LastRole(c, c.components[..n], id);
      if role.None? then forall j, other :: 0 <= j < n ==> !Gives(c, c.components[j], id, other)
      else exists i, name :: 0 <= i < n && Gives(c, c.components[i], id, name) && role.value == Lit(name)
             && forall j, other :: i < j < n ==> !Gives(c, c.components[j], id, other)
    decreases n
  {
    if n > 0 {
      var last := c.components[n - 1];
      LastRoleMore(c, n - 1, id);
      LastRoleIff(c, n - 1, id);
      GivesIff(c, last, id);
      if GivesRole(c, last, id) {
        var name :| Gives(c, last, id, name) && RoleText(EffectiveRole(c, last)) == Lit(name);
        assert Gives(c, c.components[n - 1], id, name);
      }
    }
  }

  /** The role of a product's snapshot: what the last component that names one says; else, whether a
      connector rule is for it; else its category. */
  ghost predicate HasRole(c: Catalog, p: Product, role: Text) {
    || (exists name :: LastNames(c, p.id, name) && role == Lit(name))
    || ((forall name :: !LastNames(c, p.id, name))
        && if exists rule :: rule in c.rules && Connects(c, rule, p.id) then role == Lit("connector") else role == p.category)
  }

  lemma LastNamesIff(c: Catalog, id: Id)
    ensures var role := LastRole(c, c.components, id);
      if role.None? then forall name :: !LastNames(c, id, name)
      else exists name :: LastNames(c, id, name) && role.value == Lit(name)
  {
    assert c.components[..|c.components|] == c.components;
    LastRoleIff(c, |c.components|, id);
    var role := LastRole(c, c.components, id);
    if role.Some? {
      var i, name :| 0 <= i < |c.components| && Gives(c, c.components[i], id, name) && role.value == Lit(name)
        && forall j, other :: i < j < |c.components| ==> !Gives(c, c.components[j], id, other);
      assert LastNames(c, id, name);
    }
  }

  lemma RoleMeaning(c: Catalog, p: Product)
    ensures HasRole(c, p, RoleFor(c, p))
  {
    LastNamesIff(c, p.id);
    ConnectorIff(c, p.id);
  }

  lemma ConnectorIff(c: Catalog, id: Id)
    ensures IsConnector(c, c.rules, id) <==> exists rule :: rule in c.rules && Connects(c, rule, id)
  {
    forall rule ensures MakesConnector(c, rule, id) <==> Connects(c, rule, id) {
      ConnectsIff(c, rule, id);
    }
    if rule :| rule in c.rules && Connects(c, rule, id) {
      var i :| 0 <= i < |c.rules| && c.rules[i] == rule;
      assert MakesConnector(c, c.rules[i], id);
    }
  }

  /** A product's snapshot: its id, its role, and its supply option if it is a straight section by its
      role and of a length that is supplied. */
  lemma SnapshotMeaning(c: Catalog, p: Product)
    ensures var s := SnapshotOf(c, p);
      && s.id == p.id && HasRole(c, p, s.role)
      && s.supplyOptions
           == if s.role == Lit("straightSection") && (p.length == Some(Lit("3000")) || p.length == Some(Lit("6000")))
              then [Lit("supply:") + p.id + Lit(":") + p.length.value] else []
  {
    RoleMeaning(c, p);
  }

  /** The snapshots are those of the usable products. */
  lemma {:induction false} SnapshotsMeaning(c: Catalog, products: seq<Product>, s: Snapshot)
    ensures s in Snapshots(c, products) <==> exists p :: p in products && Usable(p) && s == SnapshotOf(c, p)
  {
    if |products| > 0 {
      SnapshotsMeaning(c, products[1..], s);
      UsableIff(products[0]);
      assert products == [products[0]] + products[1..];
    }
  }
}
