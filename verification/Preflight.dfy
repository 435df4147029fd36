/** The checks that a project draft must pass before it is compiled. Catalog texts are represented
    as the code reads them: blank strings as absent, decimals in canonical form. Lower-casing is a
    parameter. */
module Preflight {
  import opened Wrappers
  import opened JsText
  import opened Tables

  type Id = Text

  // ---- the catalog ------------------------------------------------------------------------------------

  datatype Product = Product(
    id: Id, code: Text, category: Text, family: Option<Text>, series: Option<Text>, material: Option<Text>,
    coating: Option<Text>, baseUnit: Text, minimumPackage: Option<Text>, packagingUnit: Option<Text>,
    active: bool, orderable: bool, length: Option<Text>)

  datatype Attribute = Family | System | ProductCode | Category | MaterialCode | FinishCode | OtherAttribute

  type Selector = Option<seq<(Attribute, Text)>>

  datatype RelationType = ProjectSelection | AnchorSubstrate | SeparateConnector | OtherRelation

  datatype Rule = Rule(
    id: Id, relation: RelationType, allowed: bool, sourceCode: Option<Text>, sourceSubstrate: Option<Text>,
    targetCode: Option<Text>, targetSelector: Selector, targetSubstrate: Option<Text>,
    system: Option<Text>, width: Text, height: Text, material: Option<Text>, finish: Option<Text>)

  datatype Template = Template(id: Id, active: bool, kind: Text, system: Option<Text>)

  datatype Role =
    | SupportRole | StructureRole | AnchorRole | FastenerRole | AccessoryRole | WstbRole | ConnectorRole
    | OtherRole

  datatype Component = Component(
    id: Id, templateId: Id, productId: Id, role: Role, quantity: Option<Text>, unit: Option<Text>,
    hasMode: bool, hasExpression: bool)

  datatype Catalog = Catalog(
    products: seq<Product>, rules: seq<Rule>, templates: seq<Template>, components: seq<Component>,
    lower: Text -> Text)

  /** Product ids are a primary key. */
  predicate DistinctProducts(c: Catalog) {
    forall i, j :: 0 <= i < j < |c.products| ==> c.products[i].id != c.products[j].id
  }

  const PIECES: Text := Lit("pcs")
  const METRES: Text := Lit("m")
  const KILOGRAMS: Text := Lit("kg")
  const STRAIGHT: Text := Lit("straightSection")
  const WSTB: Text := Lit("wstb")

  // ---- the draft ---------------------------------------------------------------------------------------

  datatype Selection = Selection(
    system: Option<Text>, dimensionId: Option<Text>, width: Option<Text>, height: Option<Text>,
    material: Option<Text>, finish: Option<Text>, straightProductId: Option<Id>, supplyOptionId: Option<Text>)

  datatype Geometry = Straight | Fitting(selectedProductId: Option<Id>)

  datatype Wstb = One | Two | Custom(quantityPerSupport: Text)

  datatype Supports = Supports(
    spacing: Option<Text>, supportType: Option<Text>, wstb: Option<Wstb>, supportProductId: Option<Id>,
    anchorProductId: Option<Id>, wstbProductId: Option<Id>, templateId: Option<Id>, substrate: Option<Text>,
    overridesAnchors: bool)

  datatype Route = Route(
    id: Id, selection: Selection, geometry: seq<Geometry>, startProductId: Option<Id>, endProductId: Option<Id>,
    supports: Supports)

  datatype Connection = Connection(materialProductId: Option<Id>, corrections: nat)

  datatype ManualItem = CatalogItem(id: Id, productId: Id, unit: Text) | CustomItem(id: Id)

  datatype Draft = Draft(
    routes: seq<Route>, connections: seq<Connection>, accessories: seq<Id>, manualItems: seq<ManualItem>)

  // ---- evidence in the catalog ------------------------------------------------------------------------------

  predicate KnownUnit(p: Product) {
    p.baseUnit == PIECES || p.baseUnit == METRES || p.baseUnit == KILOGRAMS
  }

  predicate HasIncrement(p: Product) {
    p.minimumPackage.Some? && p.packagingUnit.Some? && KnownUnit(p) && p.packagingUnit.value == p.baseUnit
  }

  predicate Supported(p: Product) {
    KnownUnit(p) && (p.orderable ==> HasIncrement(p))
  }

  predicate Demandable(p: Product) {
    Supported(p) && p.active && p.orderable
  }

  function ProductLength(p: Product): Option<Text> {
    if p.length == Some(Lit("3000")) || p.length == Some(Lit("6000")) then p.length else None
  }

  function FindProduct(products: seq<Product>, id: Id): (r: Option<Product>)
    ensures r.Some? ==> r.value in products && r.value.id == id
  {
    var i := Find(products, (p: Product) => p.id == id);
    if i < |products| then Some(products[i]) else None
  }

  /** The supported product with this id: `productMap.get`. */
  function SupportedProduct(c: Catalog, id: Id): (r: Option<Product>)
    ensures r.Some? ==> r.value in c.products && r.value.id == id && Supported(r.value)
  {
    var i := Find(c.products, (p: Product) => p.id == id && Supported(p));
    if i < |c.products| then Some(c.products[i]) else None
  }

  function ProductByCode(c: Catalog, code: Option<Text>): Option<Product> {
    if code.None? || c.lower(code.value) == [] then None
    else
      var i := Find(c.products, (p: Product) => c.lower(p.code) == c.lower(code.value));
      if i < |c.products| then Some(c.products[i]) else None
  }

  predicate NamesProduct(c: Catalog, code: Option<Text>, id: Id) {
    ProductByCode(c, code).Some? && ProductByCode(c, code).value.id == id
  }

  predicate Truthy(t: Option<Text>) {
    t.Some? && t.value != []
  }

  function Sanitized(t: Text): Text {
    if |t| == 0 then []
    else
      [if IsDigit(t[0]) || 0x41 <= t[0] <= 0x5A || 0x61 <= t[0] <= 0x7A || t[0] in Lit("._-") then t[0] else 0x2D]
      + Sanitized(t[1..])
  }

  function DimensionId(system: Text, height: Text, width: Text): Text {
    Lit("dimension:") + Sanitized(system) + Lit(":") + height + Lit("x") + width
  }

  function SupplyOptionId(productId: Id, length: Text): Text {
    Lit("supply:") + productId + Lit(":") + length
  }

  /** A rule that allows exactly the route's selection for its straight product. */
  predicate SelectionRule(c: Catalog, s: Selection, productId: Id, rule: Rule) {
    && Truthy(s.system) && Truthy(s.width) && Truthy(s.height)
    && rule.allowed && rule.relation == ProjectSelection
    && NamesProduct(c, rule.sourceCode, productId)
    && rule.system == s.system
    && rule.width == s.width.value && rule.height == s.height.value
    && s.dimensionId == Some(DimensionId(s.system.value, s.height.value, s.width.value))
    && rule.material == s.material && rule.finish == s.finish
  }

  function SelectionEvidence(c: Catalog, s: Selection): (r: Option<Rule>)
    ensures r.Some? <==>
      && s.straightProductId.Some? && FindProduct(c.products, s.straightProductId.value).Some?
      && exists i :: 0 <= i < |c.rules| && SelectionRule(c, s, s.straightProductId.value, c.rules[i])
    ensures r.Some? ==> r.value in c.rules && SelectionRule(c, s, s.straightProductId.value, r.value)
  {
    if s.straightProductId.None? || FindProduct(c.products, s.straightProductId.value).None? then None
    else
      var i := Find(c.rules, (rule: Rule) => SelectionRule(c, s, s.straightProductId.value, rule));
      if i < |c.rules| then Some(c.rules[i]) else None
  }

  predicate AnchorRule(c: Catalog, productId: Id, substrate: Text, rule: Rule) {
    && rule.allowed && rule.relation == AnchorSubstrate
    && NamesProduct(c, rule.sourceCode, productId)
    && Some(substrate) == if rule.targetSubstrate.Some? then rule.targetSubstrate else rule.sourceSubstrate
  }

  function AnchorEvidence(c: Catalog, productId: Id, substrate: Option<Text>): (r: Option<Rule>)
    ensures r.Some? <==>
      && Truthy(substrate) && FindProduct(c.products, productId).Some?
      && exists i :: 0 <= i < |c.rules| && AnchorRule(c, productId, substrate.value, c.rules[i])
    ensures r.Some? ==> r.value in c.rules && AnchorRule(c, productId, substrate.value, r.value)
  {
    if !Truthy(substrate) || FindProduct(c.products, productId).None? then None
    else
      var i := Find(c.rules, (rule: Rule) => AnchorRule(c, productId, substrate.value, rule));
      if i < |c.rules| then Some(c.rules[i]) else None
  }

  /** The catalog's own category of WSTB products is stronger than a template's role. */
  function EffectiveRole(c: Catalog, component: Component): Role {
    var product := FindProduct(c.products, component.productId);
    if product.Some? && product.value.category == WSTB then WstbRole else component.role
  }

  predicate IsComponent(c: Catalog, templateId: Id, productId: Id, role: Role, component: Component) {
    component.templateId == templateId && component.productId == productId && EffectiveRole(c, component) == role
  }

  function ComponentEvidence(c: Catalog, templateId: Option<Id>, productId: Id, role: Role): (r: Option<Component>)
    ensures r.Some? <==>
      && templateId.Some?
      && exists i :: 0 <= i < |c.components| && IsComponent(c, templateId.value, productId, role, c.components[i])
    ensures r.Some? ==> r.value in c.components && IsComponent(c, templateId.value, productId, role, r.value)
  {
    if templateId.None? then None
    else
      var i := Find(c.components, (k: Component) => IsComponent(c, templateId.value, productId, role, k));
      if i < |c.components| then Some(c.components[i]) else None
  }

  /** The quantity that anchors have in the selected template: of its first anchor component. */
  function AnchorBaseline(c: Catalog, templateId: Option<Id>): Option<Text> {
    if templateId.None? then None
    else
      var i := Find(c.components, (k: Component) => k.templateId == templateId.value && EffectiveRole(c, k) == AnchorRole);
      if i < |c.components| then c.components[i].quantity else None
  }

  /** A component that the engine can use. */
  predicate UsableComponent(c: Catalog, k: Component) {
    && (exists i :: 0 <= i < |c.products| && c.products[i].id == k.productId && Demandable(c.products[i]))
    && FindProduct(c.products, k.productId).Some?
    && k.quantity.Some? && k.hasMode && !k.hasExpression
    && k.unit == (var p := FindProduct(c.products, k.productId).value; if KnownUnit(p) then Some(p.baseUnit) else None)
    && EffectiveRole(c, k) != ConnectorRole && EffectiveRole(c, k) != OtherRole
  }

  /** A template that reaches the engine: active, with components, all of them usable. */
  predicate EngineTemplate(c: Catalog, t: Template) {
    && t.active
    && (exists i :: 0 <= i < |c.components| && c.components[i].templateId == t.id)
    && forall i :: 0 <= i < |c.components| && c.components[i].templateId == t.id ==> UsableComponent(c, c.components[i])
  }

  predicate IsEngineTemplate(c: Catalog, id: Id) {
    exists i :: 0 <= i < |c.templates| && c.templates[i].id == id && EngineTemplate(c, c.templates[i])
  }

  function SelectedTemplate(c: Catalog, templateId: Option<Id>): (r: Option<Template>)
    ensures r.Some? ==> templateId.Some? && r.value in c.templates && r.value.id == templateId.value && r.value.active
  {
    if templateId.None? then None
    else
      var i := Find(c.templates, (t: Template) => t.id == templateId.value && t.active);
      if i < |c.templates| then Some(c.templates[i]) else None
  }

  predicate HasWstbComponent(c: Catalog, templateId: Id) {
    exists i :: 0 <= i < |c.components| && c.components[i].templateId == templateId
      && EffectiveRole(c, c.components[i]) == WstbRole
  }

  // ---- problems ------------------------------------------------------------------------------------------------

  datatype Field = SystemField | DimensionField | WidthField | HeightField | MaterialField | FinishField

  datatype SupportField = SupportProductField | AnchorProductField | WstbProductField

  datatype RouteProblem =
    | SelectionRequired(field: Field) | StraightRequired | StraightInvalid | SelectionRuleMissing
    | SupplyOptionRequired
    | GeometryRequired | FittingProblem(index: nat, known: bool) | EndpointProblem(atEnd: bool, known: bool)
    | SpacingRequired | SupportTypeRequired | WstbRequired
    | ProductMissing(which: SupportField) | NotOrderable(which: SupportField) | WstbInvalid
    | SupportRuleMissing | AnchorRuleMissing
    | TemplateMissing | TemplateTypeMismatch | TemplateSystemMissing | TemplateSystemMismatch
    | TemplateWstbMissing | TemplateWstbMismatch | TemplateAnchorMismatch | AnchorBaselineMissing

  datatype Issue =
    | RouteRequired
    | RouteIssue(route: nat, problem: RouteProblem)
    | ConnectionMaterial(connection: nat, known: bool)
    | ConnectorCorrection(connection: nat, correction: nat)
    | AccessoryIssue(accessory: nat, known: bool)
    | ManualProductMissing(item: nat) | ManualNotOrderable(item: nat) | ManualUnitMismatch(item: nat)

  function FieldOf(s: Selection, field: Field): Option<Text> {
    match field
    case SystemField => s.system
    case DimensionField => s.dimensionId
    case WidthField => s.width
    case HeightField => s.height
    case MaterialField => s.material
    case FinishField => s.finish
  }

  function ProductField(s: Supports, which: SupportField): Option<Id> {
    match which
    case SupportProductField => s.supportProductId
    case AnchorProductField => s.anchorProductId
    case WstbProductField => s.wstbProductId
  }

  function Chosen(c: Catalog, id: Option<Id>): (r: Option<Product>)
    ensures r.Some? ==> id.Some? && r.value in c.products && r.value.id == id.value && Supported(r.value)
  {
    if id.None? then None else SupportedProduct(c, id.value)
  }

  /** The straight product is in the pinned catalog, active and orderable. */
  predicate GoodStraight(c: Catalog, s: Selection) {
    var straight := Chosen(c, s.straightProductId);
    straight.Some? && straight.value.category == STRAIGHT && straight.value.orderable && straight.value.active
  }

  predicate GoodSupplyOption(c: Catalog, s: Selection) {
    var straight := Chosen(c, s.straightProductId);
    && straight.Some? && ProductLength(straight.value).Some?
    && s.supplyOptionId == Some(SupplyOptionId(straight.value.id, ProductLength(straight.value).value))
  }

  /** What each problem of a route means. */
  predicate Faulty(c: Catalog, r: Route, p: RouteProblem) {
    var s, straight := r.supports, r.selection.straightProductId;
    var template := SelectedTemplate(c, s.templateId);
    match p
    case SelectionRequired(field) => FieldOf(r.selection, field).None?
    case StraightRequired => straight.None?
    case StraightInvalid => straight.Some? && !GoodStraight(c, r.selection)
    case SelectionRuleMissing => GoodStraight(c, r.selection) && SelectionEvidence(c, r.selection).None?
    case SupplyOptionRequired => !GoodSupplyOption(c, r.selection)
    case GeometryRequired => |r.geometry| == 0
    case FittingProblem(index, known) =>
      && index < |r.geometry| && r.geometry[index].Fitting? && r.geometry[index].selectedProductId.Some?
      && known == Chosen(c, r.geometry[index].selectedProductId).Some?
    case EndpointProblem(atEnd, known) =>
      var id := if atEnd then r.endProductId else r.startProductId;
      id.Some? && known == Chosen(c, id).Some?
    case SpacingRequired => s.spacing.None?
    case SupportTypeRequired => s.supportType.None?
    case WstbRequired => s.wstb.None?
    case ProductMissing(which) => ProductField(s, which).Some? && Chosen(c, ProductField(s, which)).None?
    case NotOrderable(which) =>
      which != WstbProductField && Chosen(c, ProductField(s, which)).Some?
      && !Demandable(Chosen(c, ProductField(s, which)).value)
    case WstbInvalid =>
      var wstb := Chosen(c, s.wstbProductId);
      wstb.Some? && !(wstb.value.category == WSTB && wstb.value.active && wstb.value.orderable)
    case SupportRuleMissing =>
      Chosen(c, s.supportProductId).Some?
      && ComponentEvidence(c, s.templateId, s.supportProductId.value, SupportRole).None?
    case AnchorRuleMissing =>
      Chosen(c, s.anchorProductId).Some? && AnchorEvidence(c, s.anchorProductId.value, s.substrate).None?
    case TemplateMissing => s.templateId.Some? && !IsEngineTemplate(c, s.templateId.value)
    case TemplateTypeMismatch => template.Some? && s.supportType.Some? && template.value.kind != s.supportType.value
    case TemplateSystemMissing => template.Some? && template.value.system.None?
    case TemplateSystemMismatch =>
      template.Some? && template.value.system.Some? && template.value.system != r.selection.system
    case TemplateWstbMissing =>
      template.Some? && HasWstbComponent(c, template.value.id)
      && (s.wstbProductId.None? || ComponentEvidence(c, Some(template.value.id), s.wstbProductId.value, WstbRole).None?)
    case TemplateWstbMismatch =>
      s.wstbProductId.Some? && (template.None? || !HasWstbComponent(c, template.value.id))
    case TemplateAnchorMismatch =>
      template.Some? && s.anchorProductId.Some?
      && ComponentEvidence(c, Some(template.value.id), s.anchorProductId.value, AnchorRole).None?
    case AnchorBaselineMissing => s.overridesAnchors && AnchorBaseline(c, s.templateId).None?
  }

  predicate Warranted(c: Catalog, d: Draft, i: Issue) {
    match i
    case RouteRequired => |d.routes| == 0
    case RouteIssue(route, problem) => route < |d.routes| && Faulty(c, d.routes[route], problem)
    case ConnectionMaterial(connection, known) =>
      && connection < |d.connections| && d.connections[connection].materialProductId.Some?
      && known == Chosen(c, d.connections[connection].materialProductId).Some?
    case ConnectorCorrection(connection, correction) =>
      connection < |d.connections| && correction < d.connections[connection].corrections
    case AccessoryIssue(accessory, known) =>
      accessory < |d.accessories| && known == SupportedProduct(c, d.accessories[accessory]).Some?
    case ManualProductMissing(item) =>
      item < |d.manualItems| && d.manualItems[item].CatalogItem?
      && SupportedProduct(c, d.manualItems[item].productId).None?
    case ManualNotOrderable(item) =>
      item < |d.manualItems| && d.manualItems[item].CatalogItem?
      && var p := SupportedProduct(c, d.manualItems[item].productId); p.Some? && !(p.value.active && p.value.orderable)
    case ManualUnitMismatch(item) =>
      item < |d.manualItems| && d.manualItems[item].CatalogItem?
      && var p := SupportedProduct(c, d.manualItems[item].productId);
         p.Some? && p.value.baseUnit != d.manualItems[item].unit
  }

  /** A draft with nothing to object to. */
  ghost predicate Ready(c: Catalog, d: Draft) {
    forall i: Issue :: !Warranted(c, d, i)
  }

  // ---- the checks --------------------------------------------------------------------------------------------------

  method SelectionProblems(c: Catalog, r: Route) returns (problems: seq<RouteProblem>)
    ensures forall p :: p in problems <==>
      (p.SelectionRequired? || p.StraightRequired? || p.StraightInvalid? || p.SelectionRuleMissing?
       || p.SupplyOptionRequired?) && Faulty(c, r, p)
  {
    problems := [];
    var fields := [SystemField, DimensionField, WidthField, HeightField, MaterialField, FinishField];
    var k := 0;
    while k < |fields|
      invariant k <= |fields|
      invariant forall p :: p in problems <==>
        p.SelectionRequired? && p.field in fields[..k] && FieldOf(r.selection, p.field).None?
    {
      if FieldOf(r.selection, fields[k]).None? {
        problems := problems + [SelectionRequired(fields[k])];
      }
      k := k + 1;
    }
    assert forall field: Field :: field in fields by {
      forall field: Field ensures field in fields {
        match field {
          case SystemField => assert fields[0] == field;
          case DimensionField => assert fields[1] == field;
          case WidthField => assert fields[2] == field;
          case HeightField => assert fields[3] == field;
          case MaterialField => assert fields[4] == field;
          case FinishField => assert fields[5] == field;
        }
      }
    }
    assert fields[..k] == fields;
    var straight := Chosen(c, r.selection.straightProductId);
    if r.selection.straightProductId.None? {
      problems := problems + [StraightRequired];
    } else if straight.None? || straight.value.category != STRAIGHT || !straight.value.orderable || !straight.value.active {
      problems := problems + [StraightInvalid];
    } else if SelectionEvidence(c, r.selection).None? {
      problems := problems + [SelectionRuleMissing];
    }
    var length := if straight.Some? then ProductLength(straight.value) else None;
    if
      || r.selection.supplyOptionId.None? || straight.None? || length.None?
      || r.selection.supplyOptionId.value != SupplyOptionId(straight.value.id, length.value)
    {
      problems := problems + [SupplyOptionRequired];
    }
  }

  method GeometryProblems(c: Catalog, r: Route) returns (problems: seq<RouteProblem>)
    ensures forall p :: p in problems <==>
      (p.GeometryRequired? || p.FittingProblem? || p.EndpointProblem?) && Faulty(c, r, p)
  {
    problems := [];
    if |r.geometry| == 0 {
      problems := [GeometryRequired];
    }
    var index := 0;
    while index < |r.geometry|
      invariant index <= |r.geometry|
      invariant forall p :: p in problems <==>
        (p.GeometryRequired? || (p.FittingProblem? && p.index < index)) && Faulty(c, r, p)
    {
      var item := r.geometry[index];
      if item.Fitting? && item.selectedProductId.Some? {
        problems := problems + [FittingProblem(index, Chosen(c, item.selectedProductId).Some?)];
      }
      index := index + 1;
    }
    if r.startProductId.Some? {
      problems := problems + [EndpointProblem(false, Chosen(c, r.startProductId).Some?)];
    }
    if r.endProductId.Some? {
      problems := problems + [EndpointProblem(true, Chosen(c, r.endProductId).Some?)];
    }
  }

  method ChoiceProblems(c: Catalog, r: Route) returns (problems: seq<RouteProblem>)
    ensures forall p :: p in problems <==>
      (p.SpacingRequired? || p.SupportTypeRequired? || p.WstbRequired?) && Faulty(c, r, p)
  {
    problems := [];
    if r.supports.spacing.None? {
      problems := problems + [SpacingRequired];
    }
    if r.supports.supportType.None? {
      problems := problems + [SupportTypeRequired];
    }
    if r.supports.wstb.None? {
      problems := problems + [WstbRequired];
    }
  }

  method SupportProblems(c: Catalog, r: Route) returns (problems: seq<RouteProblem>)
    ensures forall p :: p in problems <==>
      (p.WstbInvalid? || p.SupportRuleMissing? || p.AnchorRuleMissing? || p.TemplateMissing?) && Faulty(c, r, p)
  {
    var s := r.supports;
    problems := [];
    var wstb := Chosen(c, s.wstbProductId);
    if wstb.Some? && (wstb.value.category != WSTB || !wstb.value.active || !wstb.value.orderable) {
      problems := problems + [WstbInvalid];
    }
    if
      && Chosen(c, s.supportProductId).Some?
      && ComponentEvidence(c, s.templateId, s.supportProductId.value, SupportRole).None?
    {
      problems := problems + [SupportRuleMissing];
    }
    if Chosen(c, s.anchorProductId).Some? && AnchorEvidence(c, s.anchorProductId.value, s.substrate).None? {
      problems := problems + [AnchorRuleMissing];
    }
    if s.templateId.Some? && !IsEngineTemplate(c, s.templateId.value) {
      problems := problems + [TemplateMissing];
    }
  }

  method ProductProblems(c: Catalog, r: Route) returns (problems: seq<RouteProblem>)
    ensures forall p :: p in problems <==> (p.ProductMissing? || p.NotOrderable?) && Faulty(c, r, p)
  {
    problems := [];
    var fields := [SupportProductField, AnchorProductField, WstbProductField];
    var k := 0;
    while k < |fields|
      invariant k <= |fields|
      invariant forall p :: p in problems <==>
        (p.ProductMissing? || p.NotOrderable?) && p.which in fields[..k] && Faulty(c, r, p)
    {
      var id := ProductField(r.supports, fields[k]);
      if id.Some? && Chosen(c, id).None? {
        problems := problems + [ProductMissing(fields[k])];
      } else if id.Some? && fields[k] != WstbProductField && !Demandable(Chosen(c, id).value) {
        problems := problems + [NotOrderable(fields[k])];
      }
      k := k + 1;
    }
    assert forall which: SupportField :: which in fields by {
      forall which: SupportField ensures which in fields {
        match which {
          case SupportProductField => assert fields[0] == which;
          case AnchorProductField => assert fields[1] == which;
          case WstbProductField => assert fields[2] == which;
        }
      }
    }
    assert fields[..k] == fields;
  }

  method TemplateProblems(c: Catalog, r: Route) returns (problems: seq<RouteProblem>)
    ensures forall p :: p in problems <==>
      (p.TemplateTypeMismatch? || p.TemplateSystemMissing? || p.TemplateSystemMismatch?) && Faulty(c, r, p)
  {
    problems := [];
    var template := SelectedTemplate(c, r.supports.templateId);
    if template.Some? {
      if r.supports.supportType.Some? && template.value.kind != r.supports.supportType.value {
        problems := problems + [TemplateTypeMismatch];
      }
      if template.value.system.None? {
        problems := problems + [TemplateSystemMissing];
      } else if template.value.system != r.selection.system {
        problems := problems + [TemplateSystemMismatch];
      }
    }
  }

  method TemplateMaterialProblems(c: Catalog, r: Route) returns (problems: seq<RouteProblem>)
    ensures forall p :: p in problems <==>
      (p.TemplateWstbMissing? || p.TemplateWstbMismatch? || p.TemplateAnchorMismatch? || p.AnchorBaselineMissing?)
      && Faulty(c, r, p)
  {
    var s := r.supports;
    problems := [];
    var template := SelectedTemplate(c, s.templateId);
    if template.Some? {
      var id := template.value.id;
      var needsWstb := HasWstbComponent(c, id);
      if needsWstb
        && (s.wstbProductId.None? || ComponentEvidence(c, Some(id), s.wstbProductId.value, WstbRole).None?)
      {
        problems := problems + [TemplateWstbMissing];
      } else if !needsWstb && s.wstbProductId.Some? {
        problems := problems + [TemplateWstbMismatch];
      }
      if s.anchorProductId.Some? && ComponentEvidence(c, Some(id), s.anchorProductId.value, AnchorRole).None? {
        problems := problems + [TemplateAnchorMismatch];
      }
    } else if s.wstbProductId.Some? {
      problems := problems + [TemplateWstbMismatch];
    }
    if s.overridesAnchors && AnchorBaseline(c, s.templateId).None? {
      problems := problems + [AnchorBaselineMissing];
    }
  }

  method RouteProblems(c: Catalog, r: Route) returns (problems: seq<RouteProblem>)
    ensures forall p :: p in problems <==> Faulty(c, r, p)
  {
    var selection := SelectionProblems(c, r);
    var geometry := GeometryProblems(c, r);
    var choice := ChoiceProblems(c, r);
    var products := ProductProblems(c, r);
    var support := SupportProblems(c, r);
    var template := TemplateProblems(c, r);
    var material := TemplateMaterialProblems(c, r);
    problems := selection + geometry + choice + products + support + template + material;
  }

  method RouteIssues(c: Catalog, d: Draft) returns (issues: seq<Issue>)
    ensures forall i :: i in issues <==> (i.RouteRequired? || i.RouteIssue?) && Warranted(c, d, i)
  {
    issues := [];
    if |d.routes| == 0 {
      issues := [RouteRequired];
    }
    var index := 0;
    while index < |d.routes|
      invariant index <= |d.routes|
      invariant forall i :: i in issues <==>
        (i.RouteRequired? || (i.RouteIssue? && i.route < index)) && Warranted(c, d, i)
    {
      var problems := RouteProblems(c, d.routes[index]);
      var tagged := Tagged(index, problems);
      issues := issues + tagged;
      index := index + 1;
    }
  }

  function Tagged(route: nat, problems: seq<RouteProblem>): (r: seq<Issue>)
    ensures forall i :: i in r <==> i.RouteIssue? && i.route == route && i.problem in problems
  {
    if |problems| == 0 then [] else [RouteIssue(route, problems[0])] + Tagged(route, problems[1..])
  }

  method ConnectionIssues(c: Catalog, d: Draft) returns (issues: seq<Issue>)
    ensures forall i :: i in issues <==> (i.ConnectionMaterial? || i.ConnectorCorrection?) && Warranted(c, d, i)
  {
    issues := [];
    var index := 0;
    while index < |d.connections|
      invariant index <= |d.connections|
      invariant forall i :: i in issues <==>
        (i.ConnectionMaterial? || i.ConnectorCorrection?) && i.connection < index && Warranted(c, d, i)
    {
      var connection := d.connections[index];
      if connection.materialProductId.Some? {
        issues := issues + [ConnectionMaterial(index, Chosen(c, connection.materialProductId).Some?)];
      }
      var correction := 0;
      while correction < connection.corrections
        invariant correction <= connection.corrections
        invariant forall i :: i in issues <==>
          || ((i.ConnectionMaterial? || i.ConnectorCorrection?) && i.connection < index && Warranted(c, d, i))
          || (i.ConnectionMaterial? && i.connection == index && Warranted(c, d, i))
          || (i.ConnectorCorrection? && i.connection == index && i.correction < correction)
      {
        issues := issues + [ConnectorCorrection(index, correction)];
        correction := correction + 1;
      }
      index := index + 1;
    }
  }

  method AccessoryIssues(c: Catalog, d: Draft) returns (issues: seq<Issue>)
    ensures forall i :: i in issues <==> i.AccessoryIssue? && Warranted(c, d, i)
  {
    issues := [];
    var index := 0;
    while index < |d.accessories|
      invariant index <= |d.accessories|
      invariant forall i :: i in issues <==> i.AccessoryIssue? && i.accessory < index && Warranted(c, d, i)
    {
      issues := issues + [AccessoryIssue(index, SupportedProduct(c, d.accessories[index]).Some?)];
      index := index + 1;
    }
  }

  predicate IsManualIssue(i: Issue) {
    i.ManualProductMissing? || i.ManualNotOrderable? || i.ManualUnitMismatch?
  }

  method ManualIssues(c: Catalog, d: Draft) returns (issues: seq<Issue>)
    ensures forall i :: i in issues <==> IsManualIssue(i) && Warranted(c, d, i)
  {
    issues := [];
    var index := 0;
    while index < |d.manualItems|
      invariant index <= |d.manualItems|
      invariant forall i :: i in issues <==> IsManualIssue(i) && i.item < index && Warranted(c, d, i)
    {
      var item := d.manualItems[index];
      if item.CatalogItem? {
        var selected := SupportedProduct(c, item.productId);
        if selected.None? {
          issues := issues + [ManualProductMissing(index)];
        } else {
          if !selected.value.active || !selected.value.orderable {
            issues := issues + [ManualNotOrderable(index)];
          }
          if selected.value.baseUnit != item.unit {
            issues := issues + [ManualUnitMismatch(index)];
          }
        }
      }
      index := index + 1;
    }
  }

  /** The checks find exactly the issues that are warranted, so they find none exactly when the draft
      is ready. */
  method PreflightIssues(c: Catalog, d: Draft) returns (issues: seq<Issue>)
    ensures forall i :: i in issues <==> Warranted(c, d, i)
    ensures issues == [] <==> Ready(c, d)
  {
    var routes := RouteIssues(c, d);
    var connections := ConnectionIssues(c, d);
    var accessories := AccessoryIssues(c, d);
    var manual := ManualIssues(c, d);
    issues := routes + connections + accessories + manual;
    assert issues != [] ==> issues[0] in issues;
  }
}
