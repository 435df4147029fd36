/** What a draft is compiled to, as far as authorisation goes: the compatibility relations, the rule
    that lists them, the supply rules, and the product snapshots with their roles. */
module Compilation {
  import opened Wrappers
  import opened JsText
  import opened Tables
  import opened Preflight

  // ---- relations -------------------------------------------------------------------------------------

  datatype Context =
    | StraightContext | SupportContext | AnchorContext | WstbContext | StructureContext | AccessoryContext
    | ManualContext

  const COLON: CodeUnit := 0x3A

  function ContextName(context: Context): Text {
    match context
    case StraightContext => Lit("straightSection")
    case SupportContext => Lit("support")
    case AnchorContext => Lit("anchor")
    case WstbContext => Lit("wstb")
    case StructureContext => Lit("structure")
    case AccessoryContext => Lit("accessory")
    case ManualContext => Lit("manualCatalog")
  }

  /** What a relation is based on. */
  datatype Basis = RuleBasis(id: Id) | ComponentBasis(id: Id) | ManualBasis(id: Id)

  datatype Grant = Grant(context: Context, productId: Id, basis: Basis)

  datatype Relation = Relation(id: Text, context: Context, productId: Id, basis: Basis)

  function KeyOf(context: Context, productId: Id): Text {
    ContextName(context) + [COLON] + productId
  }

  function RelationId(projectId: Id, context: Context, productId: Id): Text {
    Lit("compat:") + ContextName(context) + [COLON] + projectId + [COLON] + productId
  }

  function RelationOf(projectId: Id, g: Grant): Relation {
    Relation(RelationId(projectId, g.context, g.productId), g.context, g.productId, g.basis)
  }

  predicate Allows(r: Relation, context: Context, productId: Id) {
    r.context == context && r.productId == productId
  }

  predicate Allowed(relations: seq<Relation>, context: Context, productId: Id) {
    exists i :: 0 <= i < |relations| && Allows(relations[i], context, productId)
  }

  /** A grant adds a relation unless its product is already allowed in its context. */
  function Added(relations: seq<Relation>, projectId: Id, g: Grant): seq<Relation> {
    if Allowed(relations, g.context, g.productId) then relations else relations + [RelationOf(projectId, g)]
  }

  function AddedAll(relations: seq<Relation>, projectId: Id, grants: seq<Grant>): seq<Relation> {
    if |grants| == 0 then relations
    else Added(AddedAll(relations, projectId, grants[..|grants| - 1]), projectId, grants[|grants| - 1])
  }

  // ---- names do not run into each other ----------------------------------------------------------------

  lemma NamesHaveNoColon(context: Context)
    ensures COLON !in ContextName(context)
  {
    match context {
      case StraightContext => assert ':' !in "straightSection";
      case SupportContext => assert ':' !in "support";
      case AnchorContext => assert ':' !in "anchor";
      case WstbContext => assert ':' !in "wstb";
      case StructureContext => assert ':' !in "structure";
      case AccessoryContext => assert ':' !in "accessory";
      case ManualContext => assert ':' !in "manualCatalog";
    }
  }

  lemma NamesDiffer(a: Context, b: Context)
    requires ContextName(a) == ContextName(b)
    ensures a == b
  {
    assert |ContextName(a)| == |ContextName(b)|;
    assert "structure"[0] != "accessory"[0];
    assert Lit("structure")[0] != Lit("accessory")[0];
  }

  lemma SplitAtColon(a: Text, b: Text, s: Text, t: Text)
    requires COLON !in a && COLON !in b && a + [COLON] + s == b + [COLON] + t
    ensures a == b && s == t
  {
    assert a + [COLON] + s == a + ([COLON] + s) && b + [COLON] + t == b + ([COLON] + t);
    if |a| < |b| {
      Overhang(a, b, [COLON] + s, [COLON] + t);
    }
    if |b| < |a| {
      Overhang(b, a, [COLON] + t, [COLON] + s);
    }
    assert (a + [COLON] + s)[..|a|] == a && (b + [COLON] + t)[..|b|] == b;
    assert (a + [COLON] + s)[|a| + 1..] == s && (b + [COLON] + t)[|b| + 1..] == t;
  }

  lemma KeysDiffer(c: Context, p: Id, d: Context, q: Id)
    ensures KeyOf(c, p) == KeyOf(d, q) <==> c == d && p == q
  {
    if KeyOf(c, p) == KeyOf(d, q) {
      NamesHaveNoColon(c);
      NamesHaveNoColon(d);
      SplitAtColon(ContextName(c), ContextName(d), p, q);
      NamesDiffer(c, d);
    }
  }

  lemma DropPrefix(prefix: Text, s: Text, t: Text)
    requires prefix + s == prefix + t
    ensures s == t
  {
    assert (prefix + s)[|prefix|..] == s && (prefix + t)[|prefix|..] == t;
  }

  lemma IdParts(projectId: Id, c: Context, p: Id)
    ensures RelationId(projectId, c, p) == Lit("compat:") + (ContextName(c) + [COLON] + (projectId + [COLON] + p))
  {
  }

  /** Relations of one project have the same id only when they allow the same product in the same
      context. */
  lemma IdsDiffer(projectId: Id, c: Context, p: Id, d: Context, q: Id)
    requires RelationId(projectId, c, p) == RelationId(projectId, d, q)
    ensures c == d && p == q
  {
    IdParts(projectId, c, p);
    IdParts(projectId, d, q);
    DropPrefix(Lit("compat:"), ContextName(c) + [COLON] + (projectId + [COLON] + p),
      ContextName(d) + [COLON] + (projectId + [COLON] + q));
    NamesHaveNoColon(c);
    NamesHaveNoColon(d);
    SplitAtColon(ContextName(c), ContextName(d), projectId + [COLON] + p, projectId + [COLON] + q);
    NamesDiffer(c, d);
    DropPrefix(projectId + [COLON], p, q);
  }

  // ---- the list that compilation fills -----------------------------------------------------------------------

  class RelationList {
    const projectId: Id
    var relations: seq<Relation>
    var keys: set<Text>

    ghost predicate Valid()
      reads this
    {
      forall context: Context, productId: Id ::
        KeyOf(context, productId) in keys <==> Allowed(relations, context, productId)
    }

    constructor (projectId: Id)
      ensures Valid() && this.projectId == projectId && relations == []
    {
      this.projectId := projectId;
      relations, keys := [], {};
    }

    method Allow(g: Grant)
      requires Valid()
      modifies this
      ensures Valid()
      ensures relations == Added(old(relations), projectId, g)
    {
      var key := KeyOf(g.context, g.productId);
      if key in keys {
        return;
      }
      keys := keys + {key};
      relations := relations + [RelationOf(projectId, g)];
      forall context: Context, productId: Id
        ensures KeyOf(context, productId) in keys <==> Allowed(relations, context, productId)
      {
        KeysDiffer(context, productId, g.context, g.productId);
        if Allowed(old(relations), context, productId) {
          var i :| 0 <= i < |old(relations)| && Allows(old(relations)[i], context, productId);
          assert Allows(relations[i], context, productId);
        }
        if context == g.context && productId == g.productId {
          assert Allows(relations[|old(relations)|], context, productId);
        }
      }
    }

    method AllowAll(grants: seq<Grant>)
      requires Valid()
      modifies this
      ensures Valid()
      ensures relations == AddedAll(old(relations), projectId, grants)
    {
      var k := 0;
      while k < |grants|
        invariant k <= |grants| && Valid()
        invariant relations == AddedAll(old(relations), projectId, grants[..k])
      {
        assert grants[..k + 1][..k] == grants[..k];
        Allow(grants[k]);
        k := k + 1;
      }
      assert grants[..k] == grants;
    }
  }

  // ---- what is granted ---------------------------------------------------------------------------------------

  function StraightGrants(c: Catalog, r: Route): seq<Grant> {
    var evidence := SelectionEvidence(c, r.selection);
    if evidence.None? then []
    else [Grant(StraightContext, r.selection.straightProductId.value, RuleBasis(evidence.value.id))]
  }

  function SupportGrants(c: Catalog, r: Route): seq<Grant> {
    var id := r.supports.supportProductId;
    if id.None? then []
    else
      var component := ComponentEvidence(c, r.supports.templateId, id.value, SupportRole);
      if component.None? then [] else [Grant(SupportContext, id.value, ComponentBasis(component.value.id))]
  }

  function AnchorGrants(c: Catalog, r: Route): seq<Grant> {
    var id := r.supports.anchorProductId;
    if id.None? then []
    else
      var evidence := AnchorEvidence(c, id.value, r.supports.substrate);
      if evidence.None? then [] else [Grant(AnchorContext, id.value, RuleBasis(evidence.value.id))]
  }

  function WstbGrants(c: Catalog, r: Route): seq<Grant> {
    var id := r.supports.wstbProductId;
    if id.None? then []
    else
      var component := ComponentEvidence(c, r.supports.templateId, id.value, WstbRole);
      if component.None? then [] else [Grant(WstbContext, id.value, ComponentBasis(component.value.id))]
  }

  /** Anchors and WSTB products are not granted by being in a template: they are selected. */
  predicate GrantedByTemplate(c: Catalog, templateId: Id, component: Component) {
    && component.templateId == templateId
    && EffectiveRole(c, component) != AnchorRole && EffectiveRole(c, component) != WstbRole
  }

  function ContextOf(role: Role): Context {
    match role
    case StructureRole => StructureContext
    case SupportRole => SupportContext
    case _ => AccessoryContext
  }

  function TemplateGrant(c: Catalog, component: Component): Grant {
    Grant(ContextOf(EffectiveRole(c, component)), component.productId, ComponentBasis(component.id))
  }

  function TemplateGrants(c: Catalog, templateId: Option<Id>, components: seq<Component>): seq<Grant> {
    if |components| == 0 || templateId.None? then []
    else
      var before, last := components[..|components| - 1], components[|components| - 1];
      TemplateGrants(c, templateId, before)
      + if GrantedByTemplate(c, templateId.value, last) then [TemplateGrant(c, last)] else []
  }

  function RouteGrants(c: Catalog, r: Route): seq<Grant> {
    StraightGrants(c, r) + SupportGrants(c, r) + AnchorGrants(c, r) + WstbGrants(c, r)
    + TemplateGrants(c, r.supports.templateId, c.components)
  }

  function RoutesGrants(c: Catalog, routes: seq<Route>): seq<Grant> {
    if |routes| == 0 then []
    else RoutesGrants(c, routes[..|routes| - 1]) + RouteGrants(c, routes[|routes| - 1])
  }

  function ManualGrants(items: seq<ManualItem>): seq<Grant> {
    if |items| == 0 then []
    else
      var last := items[|items| - 1];
      ManualGrants(items[..|items| - 1])
      + if last.CatalogItem? then [Grant(ManualContext, last.productId, ManualBasis(last.id))] else []
  }

  function Grants(c: Catalog, d: Draft): seq<Grant> {
    RoutesGrants(c, d.routes) + ManualGrants(d.manualItems)
  }

  lemma {:induction false} AddedAllConcat(relations: seq<Relation>, projectId: Id, a: seq<Grant>, b: seq<Grant>)
    ensures AddedAll(relations, projectId, a + b) == AddedAll(AddedAll(relations, projectId, a), projectId, b)
  {
    if |b| == 0 {
      assert a + b == a;
    } else {
      AddedAllConcat(relations, projectId, a, b[..|b| - 1]);
      assert (a + b)[..|a + b| - 1] == a + b[..|b| - 1];
    }
  }

  lemma AddedAllMore(relations: seq<Relation>, projectId: Id, grants: seq<Grant>, g: Grant)
    ensures AddedAll(relations, projectId, grants + [g]) == Added(AddedAll(relations, projectId, grants), projectId, g)
  {
    assert (grants + [g])[..|grants|] == grants;
  }

  // ---- the compiled parts ----------------------------------------------------------------------------------------

  datatype CompiledRule =
    | SupplyRule(productId: Id, supplyOptionId: Text)
    | WstbRule(routeId: Id, quantity: Option<Text>)
    | CompatibilityRule(relationIds: seq<Text>)

  datatype CompiledRoute = CompiledRoute(id: Id, straightProductId: Option<Id>, supplyOptionId: Option<Text>)

  datatype Parts = Parts(relations: seq<Relation>, rules: seq<CompiledRule>, routes: seq<CompiledRoute>)

  predicate HasSupplyRule(p: Product) {
    Supported(p) && p.category == STRAIGHT && ProductLength(p).Some?
  }

  function SupplyRules(products: seq<Product>): seq<CompiledRule> {
    if |products| == 0 then []
    else
      var last := products[|products| - 1];
      SupplyRules(products[..|products| - 1])
      + if HasSupplyRule(last) then [SupplyRule(last.id, SupplyOptionId(last.id, ProductLength(last).value))] else []
  }

  function WstbQuantity(wstb: Option<Wstb>): Option<Text> {
    match wstb
    case None => None
    case Some(One) => Some(Lit("1"))
    case Some(Two) => Some(Lit("2"))
    case Some(Custom(quantity)) => Some(quantity)
  }

  function WstbRules(routes: seq<Route>): (r: seq<CompiledRule>)
    ensures |r| == |routes|
    ensures forall i :: 0 <= i < |routes| ==> r[i] == WstbRule(routes[i].id, WstbQuantity(routes[i].supports.wstb))
  {
    seq(|routes|, i requires 0 <= i < |routes| => WstbRule(routes[i].id, WstbQuantity(routes[i].supports.wstb)))
  }

  function CompiledRoutes(routes: seq<Route>): (r: seq<CompiledRoute>)
    ensures |r| == |routes|
    ensures forall i :: 0 <= i < |routes| ==>
      r[i] == CompiledRoute(routes[i].id, routes[i].selection.straightProductId, routes[i].selection.supplyOptionId)
  {
    seq(|routes|, i requires 0 <= i < |routes| =>
      CompiledRoute(routes[i].id, routes[i].selection.straightProductId, routes[i].selection.supplyOptionId))
  }

  function RelationIds(relations: seq<Relation>): (r: seq<Text>)
    ensures |r| == |relations| && forall i :: 0 <= i < |relations| ==> r[i] == relations[i].id
  {
    seq(|relations|, i requires 0 <= i < |relations| => relations[i].id)
  }

  function PartsOf(c: Catalog, d: Draft, projectId: Id): Parts {
    var relations := AddedAll([], projectId, Grants(c, d));
    Parts(relations,
      SupplyRules(c.products) + WstbRules(d.routes)
      + (if relations == [] then [] else [CompatibilityRule(RelationIds(relations))]),
      CompiledRoutes(d.routes))
  }

  method CollectSupplyRules(c: Catalog) returns (rules: seq<CompiledRule>)
    ensures rules == SupplyRules(c.products)
  {
    rules := [];
    var k := 0;
    while k < |c.products|
      invariant k <= |c.products| && rules == SupplyRules(c.products[..k])
    {
      var product := c.products[k];
      assert c.products[..k + 1][..k] == c.products[..k];
      if HasSupplyRule(product) {
        rules := rules + [SupplyRule(product.id, SupplyOptionId(product.id, ProductLength(product).value))];
      }
      k := k + 1;
    }
    assert c.products[..k] == c.products;
  }

  method AllowRoute(c: Catalog, r: Route, list: RelationList)
    requires list.Valid()
    modifies list
    ensures list.Valid()
    ensures list.relations == AddedAll(old(list.relations), list.projectId, RouteGrants(c, r))
  {
    ghost var start, p := list.relations, list.projectId;
    var straight, support := StraightGrants(c, r), SupportGrants(c, r);
    var anchor, wstb := AnchorGrants(c, r), WstbGrants(c, r);
    list.AllowAll(straight);
    list.AllowAll(support);
    AddedAllConcat(start, p, straight, support);
    list.AllowAll(anchor);
    AddedAllConcat(start, p, straight + support, anchor);
    list.AllowAll(wstb);
    AddedAllConcat(start, p, straight + support + anchor, wstb);
    AllowTemplate(c, r.supports.templateId, list);
    AddedAllConcat(start, p, straight + support + anchor + wstb, TemplateGrants(c, r.supports.templateId, c.components));
  }

  lemma TemplateGrantsStep(c: Catalog, templateId: Option<Id>, k: nat)
    requires templateId.Some? && k < |c.components|
    ensures var before := TemplateGrants(c, templateId, c.components[..k]);
      TemplateGrants(c, templateId, c.components[..k + 1])
        == if GrantedByTemplate(c, templateId.value, c.components[k]) then before + [TemplateGrant(c, c.components[k])]
           else before
  {
    assert c.components[..k + 1][..k] == c.components[..k];
    assert TemplateGrants(c, templateId, c.components[..k]) + [] == TemplateGrants(c, templateId, c.components[..k]);
  }

  lemma ManualGrantsStep(items: seq<ManualItem>, k: nat)
    requires k < |items|
    ensures var before := ManualGrants(items[..k]);
      ManualGrants(items[..k + 1])
        == if items[k].CatalogItem? then before + [Grant(ManualContext, items[k].productId, ManualBasis(items[k].id))]
           else before
  {
    assert items[..k + 1][..k] == items[..k];
    assert ManualGrants(items[..k]) + [] == ManualGrants(items[..k]);
  }

  method AllowTemplate(c: Catalog, templateId: Option<Id>, list: RelationList)
    requires list.Valid()
    modifies list
    ensures list.Valid()
    ensures list.relations == AddedAll(old(list.relations), list.projectId, TemplateGrants(c, templateId, c.components))
  {
    if templateId.None? {
      return;
    }
    ghost var start, p := list.relations, list.projectId;
    var k := 0;
    while k < |c.components|
      invariant k <= |c.components| && list.Valid()
      invariant list.relations == AddedAll(start, p, TemplateGrants(c, templateId, c.components[..k]))
    {
      var component := c.components[k];
      TemplateGrantsStep(c, templateId, k);
      AddedAllMore(start, p, TemplateGrants(c, templateId, c.components[..k]), TemplateGrant(c, component));
      if GrantedByTemplate(c, templateId.value, component) {
        list.Allow(TemplateGrant(c, component));
      }
      k := k + 1;
    }
    assert c.components[..k] == c.components;
  }

  method CollectRelations(c: Catalog, d: Draft, projectId: Id) returns (relations: seq<Relation>)
    ensures relations == AddedAll([], projectId, Grants(c, d))
  {
    var list := new RelationList(projectId);
    var k := 0;
    while k < |d.routes|
      invariant k <= |d.routes| && list.Valid() && fresh(list) && list.projectId == projectId
      invariant list.relations == AddedAll([], projectId, RoutesGrants(c, d.routes[..k]))
    {
      assert d.routes[..k + 1][..k] == d.routes[..k];
      AddedAllConcat([], projectId, RoutesGrants(c, d.routes[..k]), RouteGrants(c, d.routes[k]));
      AllowRoute(c, d.routes[k], list);
      k := k + 1;
    }
    assert d.routes[..k] == d.routes;
    AllowManual(d, list);
    AddedAllConcat([], projectId, RoutesGrants(c, d.routes), ManualGrants(d.manualItems));
    relations := list.relations;
  }

  method AllowManual(d: Draft, list: RelationList)
    requires list.Valid()
    modifies list
    ensures list.Valid()
    ensures list.relations == AddedAll(old(list.relations), list.projectId, ManualGrants(d.manualItems))
  {
    ghost var start, p := list.relations, list.projectId;
    var k := 0;
    while k < |d.manualItems|
      invariant k <= |d.manualItems| && list.Valid()
      invariant list.relations == AddedAll(start, p, ManualGrants(d.manualItems[..k]))
    {
      var item := d.manualItems[k];
      ManualGrantsStep(d.manualItems, k);
      if item.CatalogItem? {
        ghost var before := ManualGrants(d.manualItems[..k]);
        var grant := Grant(ManualContext, item.productId, ManualBasis(item.id));
        list.Allow(grant);
        AddedAllMore(start, p, before, grant);
      }
      k := k + 1;
    }
    assert d.manualItems[..k] == d.manualItems;
  }

  method CalculationParts(c: Catalog, d: Draft, projectId: Id) returns (parts: Parts)
    ensures parts == PartsOf(c, d, projectId)
  {
    var rules := CollectSupplyRules(c);
    var relations := CollectRelations(c, d, projectId);
    rules := rules + WstbRules(d.routes);
    if |relations| > 0 {
      rules := rules + [CompatibilityRule(RelationIds(relations))];
    }
    parts := Parts(relations, rules, CompiledRoutes(d.routes));
  }

  // ---- product snapshots ---------------------------------------------------------------------------------------------

  datatype Snapshot = Snapshot(id: Id, role: Text, supplyOptions: seq<Text>)

  function RoleText(role: Role): Text {
    match role
    case SupportRole => Lit("support")
    case StructureRole => Lit("structure")
    case AnchorRole => Lit("anchor")
    case FastenerRole => Lit("fastener")
    case AccessoryRole => Lit("accessory")
    case WstbRole => Lit("wstb")
    case ConnectorRole => Lit("connector")
    case OtherRole => []
  }

  predicate GivesRole(c: Catalog, component: Component, id: Id) {
    component.productId == id && EffectiveRole(c, component) != ConnectorRole && EffectiveRole(c, component) != OtherRole
  }

  function AttributeOf(p: Product, attribute: Attribute): Option<Text> {
    match attribute
    case Family => p.family
    case System => p.series
    case ProductCode => Some(p.code)
    case Category => Some(p.category)
    case MaterialCode => p.material
    case FinishCode => p.coating
    case OtherAttribute => None
  }

  predicate SelectorMatches(c: Catalog, p: Product, selector: Selector) {
    selector.Some? && forall i :: 0 <= i < |selector.value| ==>
      var actual := AttributeOf(p, selector.value[i].0);
      actual.Some? && c.lower(actual.value) == selector.value[i].1
  }

  /** The supported product with the code; without such a product, those that the selector matches. */
  function SelectedProducts(c: Catalog, code: Option<Text>, selector: Selector): seq<Product> {
    var direct := ProductByCode(c, code);
    if direct.Some? then (if Supported(direct.value) then [direct.value] else [])
    else Keep(c.products, (p: Product) => Supported(p) && SelectorMatches(c, p, selector))
  }

  predicate HasId(products: seq<Product>, id: Id) {
    exists i :: 0 <= i < |products| && products[i].id == id
  }

  /** The rule is a connector rule and selects the product as its target. */
  predicate MakesConnector(c: Catalog, rule: Rule, id: Id) {
    rule.relation == SeparateConnector && HasId(SelectedProducts(c, rule.targetCode, rule.targetSelector), id)
  }

  predicate IsConnector(c: Catalog, rules: seq<Rule>, id: Id) {
    exists i :: 0 <= i < |rules| && MakesConnector(c, rules[i], id)
  }

  /** The role that the last of the components gives to the product. */
  function LastRole(c: Catalog, components: seq<Component>, id: Id): Option<Text> {
    if |components| == 0 then None
    else
      var last := components[|components| - 1];
      if GivesRole(c, last, id) then Some(RoleText(EffectiveRole(c, last)))
      else LastRole(c, components[..|components| - 1], id)
  }

  function ContextualRole(c: Catalog, id: Id): Option<Text> {
    var role := LastRole(c, c.components, id);
    if role.Some? then role else if IsConnector(c, c.rules, id) then Some(RoleText(ConnectorRole)) else None
  }

  function Lookup(roles: map<Id, Text>, id: Id): Option<Text> {
    if id in roles then Some(roles[id]) else None
  }

  /** Every product of `targets` is given the connector's role. */
  method SetConnectors(roles: map<Id, Text>, targets: seq<Product>) returns (r: map<Id, Text>)
    ensures forall id :: Lookup(r, id) == if HasId(targets, id) then Some(RoleText(ConnectorRole)) else Lookup(roles, id)
  {
    r := roles;
    var t := 0;
    while t < |targets|
      invariant t <= |targets|
      invariant forall id ::
        Lookup(r, id) == if HasId(targets[..t], id) then Some(RoleText(ConnectorRole)) else Lookup(roles, id)
    {
      ghost var before := r;
      r := r[targets[t].id := RoleText(ConnectorRole)];
      HasIdMore(targets, t);
      forall id
        ensures Lookup(r, id) == if HasId(targets[..t + 1], id) then Some(RoleText(ConnectorRole)) else Lookup(roles, id)
      {
        assert Lookup(r, id) == if targets[t].id == id then Some(RoleText(ConnectorRole)) else Lookup(before, id);
      }
      t := t + 1;
    }
    assert targets[..t] == targets;
  }

  /** The roles are those that the rules give to their targets. */
  ghost predicate ConnectorsOf(c: Catalog, rules: seq<Rule>, roles: map<Id, Text>) {
    forall id :: Lookup(roles, id) == if IsConnector(c, rules, id) then Some(RoleText(ConnectorRole)) else None
  }

  lemma OneRuleMore(c: Catalog, k: nat, roles: map<Id, Text>, r: map<Id, Text>)
    requires k < |c.rules| && ConnectorsOf(c, c.rules[..k], roles)
    requires forall id ::
      Lookup(r, id) == if MakesConnector(c, c.rules[k], id) then Some(RoleText(ConnectorRole)) else Lookup(roles, id)
    ensures ConnectorsOf(c, c.rules[..k + 1], r)
  {
    IsConnectorMore(c, k);
  }

  method ConnectorRoles(c: Catalog) returns (roles: map<Id, Text>)
    ensures ConnectorsOf(c, c.rules, roles)
  {
    roles := map[];
    var k := 0;
    while k < |c.rules|
      invariant k <= |c.rules|
      invariant ConnectorsOf(c, c.rules[..k], roles)
    {
      ghost var before := roles;
      if c.rules[k].relation == SeparateConnector {
        roles := SetConnectors(roles, SelectedProducts(c, c.rules[k].targetCode, c.rules[k].targetSelector));
      }
      OneRuleMore(c, k, before, roles);
      k := k + 1;
    }
    assert c.rules[..k] == c.rules;
  }

  lemma HasIdMore(products: seq<Product>, t: nat)
    requires t < |products|
    ensures forall id :: HasId(products[..t + 1], id) <==> HasId(products[..t], id) || products[t].id == id
  {
    forall id ensures HasId(products[..t + 1], id) <==> HasId(products[..t], id) || products[t].id == id {
      if HasId(products[..t], id) {
        var i :| 0 <= i < t && products[..t][i].id == id;
        assert products[..t + 1][i].id == id;
      }
      if products[t].id == id {
        assert products[..t + 1][t].id == id;
      }
    }
  }

  lemma IsConnectorMore(c: Catalog, k: nat)
    requires k < |c.rules|
    ensures forall id ::
      IsConnector(c, c.rules[..k + 1], id) <==> IsConnector(c, c.rules[..k], id) || MakesConnector(c, c.rules[k], id)
  {
    var more, before := c.rules[..k + 1], c.rules[..k];
    forall id ensures IsConnector(c, more, id) <==> IsConnector(c, before, id) || MakesConnector(c, c.rules[k], id) {
      assert more[k] == c.rules[k];
      assert forall i :: 0 <= i < k ==> more[i] == before[i];
      if IsConnector(c, before, id) {
        var i :| 0 <= i < k && MakesConnector(c, before[i], id);
        assert MakesConnector(c, more[i], id);
      }
    }
  }

  lemma LastRoleMore(c: Catalog, k: nat, id: Id)
    requires k < |c.components|
    ensures LastRole(c, c.components[..k + 1], id)
         == if GivesRole(c, c.components[k], id) then Some(RoleText(EffectiveRole(c, c.components[k])))
            else LastRole(c, c.components[..k], id)
  {
    assert c.components[..k + 1][..k] == c.components[..k];
  }

  /** The roles are those that the components give last, and otherwise the connectors'. */
  ghost predicate RolesOf(c: Catalog, components: seq<Component>, connectors: map<Id, Text>, roles: map<Id, Text>) {
    forall id :: Lookup(roles, id)
      == if LastRole(c, components, id).Some? then LastRole(c, components, id) else Lookup(connectors, id)
  }

  lemma OneComponentMore(c: Catalog, k: nat, connectors: map<Id, Text>, roles: map<Id, Text>)
    requires k < |c.components| && RolesOf(c, c.components[..k], connectors, roles)
    ensures var last := c.components[k];
      RolesOf(c, c.components[..k + 1], connectors,
        if GivesRole(c, last, last.productId) then roles[last.productId := RoleText(EffectiveRole(c, last))] else roles)
  {
    forall id {
      LastRoleMore(c, k, id);
    }
  }

  /** The map from products to roles that the connector rules and the template components give. */
  method ContextualRoles(c: Catalog) returns (roles: map<Id, Text>)
    ensures forall id :: Lookup(roles, id) == ContextualRole(c, id)
  {
    roles := ConnectorRoles(c);
    ghost var connectors := roles;
    var k := 0;
    while k < |c.components|
      invariant k <= |c.components|
      invariant RolesOf(c, c.components[..k], connectors, roles)
    {
      var component := c.components[k];
      OneComponentMore(c, k, connectors, roles);
      if GivesRole(c, component, component.productId) {
        roles := roles[component.productId := RoleText(EffectiveRole(c, component))];
      }
      k := k + 1;
    }
    assert c.components[..k] == c.components;
  }

  function RoleFor(c: Catalog, p: Product): Text {
    var role := ContextualRole(c, p.id);
    if role.Some? then role.value else p.category
  }

  function SnapshotOf(c: Catalog, p: Product): Snapshot {
    Snapshot(p.id, RoleFor(c, p),
      if RoleFor(c, p) == STRAIGHT && ProductLength(p).Some? then [SupplyOptionId(p.id, ProductLength(p).value)] else [])
  }

  function Snapshots(c: Catalog, products: seq<Product>): seq<Snapshot> {
    if |products| == 0 then []
    else (if Supported(products[0]) then [SnapshotOf(c, products[0])] else []) + Snapshots(c, products[1..])
  }
}
