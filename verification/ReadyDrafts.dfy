/** What the checks of a draft come to, written out in the catalog's and the draft's own columns. */
module ReadyDrafts {
  import opened Wrappers
  import opened JsText
  import opened Tables
  import opened Preflight
  import opened CompilationTheorems

  // ---- products -----------------------------------------------------------------------------------------

  /** The engine can work with the product: a known unit and, if it can be ordered, packages of it. */
  predicate Usable(p: Product) {
    && (p.baseUnit == Lit("pcs") || p.baseUnit == Lit("m") || p.baseUnit == Lit("kg"))
    && (p.orderable ==> p.minimumPackage.Some? && p.packagingUnit == Some(p.baseUnit))
  }

  predicate ForSale(p: Product) {
    p.active && p.orderable
  }

  lemma UsableIff(p: Product)
    ensures Supported(p) <==> Usable(p)
    ensures Demandable(p) <==> Usable(p) && ForSale(p)
  {
  }

  /** `p` is the first usable product with this id. */
  ghost predicate IsProduct(c: Catalog, id: Id, p: Product) {
    exists i :: 0 <= i < |c.products| && c.products[i] == p && p.id == id && Usable(p)
      && forall j :: 0 <= j < i ==> c.products[j].id != id || !Usable(c.products[j])
  }

  /** `p` is the first product with this id, usable or not. */
  ghost predicate IsEntry(c: Catalog, id: Id, p: Product) {
    exists i :: 0 <= i < |c.products| && c.products[i] == p && p.id == id
      && forall j :: 0 <= j < i ==> c.products[j].id != id
  }

  lemma SupportedProductIff(c: Catalog, id: Id, p: Product)
    ensures SupportedProduct(c, id) == Some(p) <==> IsProduct(c, id, p)
  {
    forall q: Product ensures Supported(q) <==> Usable(q) {
      UsableIff(q);
    }
    var n := Find(c.products, (q: Product) => q.id == id && Supported(q));
    if IsProduct(c, id, p) {
      var i :| 0 <= i < |c.products| && c.products[i] == p && p.id == id && Usable(p)
        && forall j :: 0 <= j < i ==> c.products[j].id != id || !Usable(c.products[j]);
      assert n == i;
    }
  }

  lemma ChosenIff(c: Catalog, id: Option<Id>, p: Product)
    ensures Chosen(c, id) == Some(p) <==> id.Some? && IsProduct(c, id.value, p)
  {
    if id.Some? {
      SupportedProductIff(c, id.value, p);
    }
  }

  lemma EntryIff(c: Catalog, id: Id, p: Product)
    ensures FindProduct(c.products, id) == Some(p) <==> IsEntry(c, id, p)
  {
    var n := Find(c.products, (q: Product) => q.id == id);
    if IsEntry(c, id, p) {
      var i :| 0 <= i < |c.products| && c.products[i] == p && p.id == id
        && forall j :: 0 <= j < i ==> c.products[j].id != id;
      assert n == i;
    }
  }

  /** The first product whose code is `code`, but for case, is the one with this id. */
  ghost predicate CodeNames(c: Catalog, code: Option<Text>, id: Id) {
    && code.Some? && c.lower(code.value) != []
    && exists i :: 0 <= i < |c.products| && c.products[i].id == id && c.lower(c.products[i].code) == c.lower(code.value)
         && forall j :: 0 <= j < i ==> c.lower(c.products[j].code) != c.lower(code.value)
  }

  lemma CodeNamesIff(c: Catalog, code: Option<Text>, id: Id)
    ensures NamesProduct(c, code, id) <==> CodeNames(c, code, id)
  {
    if code.Some? && c.lower(code.value) != [] {
      var n := Find(c.products, (p: Product) => c.lower(p.code) == c.lower(code.value));
      if CodeNames(c, code, id) {
        var i :| 0 <= i < |c.products| && c.products[i].id == id && c.lower(c.products[i].code) == c.lower(code.value)
          && forall j :: 0 <= j < i ==> c.lower(c.products[j].code) != c.lower(code.value);
        assert n == i;
      }
    }
  }

  // ---- rules ----------------------------------------------------------------------------------------------

  /** Letters, digits, dots, underscores and dashes stay; everything else becomes a dash. */
  ghost predicate IsCleaned(t: Text, r: Text) {
    && |r| == |t|
    && forall i :: 0 <= i < |t| ==>
         r[i] == (if 0x30 <= t[i] <= 0x39 || 0x41 <= t[i] <= 0x5A || 0x61 <= t[i] <= 0x7A
                     || t[i] == 0x2E || t[i] == 0x5F || t[i] == 0x2D then t[i] else 0x2D)
  }

  lemma {:induction false} SanitizedMeaning(t: Text)
    ensures IsCleaned(t, Sanitized(t))
  {
    assert Lit("._-") == [0x2E, 0x5F, 0x2D];
    if |t| > 0 {
      SanitizedMeaning(t[1..]);
    }
  }

  /** The rule allows the straight product for exactly this selection. */
  ghost predicate AllowsStraight(c: Catalog, s: Selection, id: Id, rule: Rule) {
    && rule.allowed && rule.relation == ProjectSelection && CodeNames(c, rule.sourceCode, id)
    && s.system.Some? && s.system.value != [] && rule.system == s.system
    && s.width == Some(rule.width) && rule.width != []
    && s.height == Some(rule.height) && rule.height != []
    && (exists clean :: IsCleaned(s.system.value, clean)
          && s.dimensionId == Some(Lit("dimension:") + clean + Lit(":") + rule.height + Lit("x") + rule.width))
    && rule.material == s.material && rule.finish == s.finish
  }

  lemma AllowsStraightIff(c: Catalog, s: Selection, id: Id, rule: Rule)
    ensures SelectionRule(c, s, id, rule) <==> AllowsStraight(c, s, id, rule)
  {
    CodeNamesIff(c, rule.sourceCode, id);
    if s.system.Some? {
      SanitizedMeaning(s.system.value);
      forall clean | IsCleaned(s.system.value, clean) ensures clean == Sanitized(s.system.value) {
      }
    }
  }

  /** The rule allows the anchor on this substrate: its target's, or its source's if the target has none. */
  ghost predicate AllowsAnchor(c: Catalog, id: Id, substrate: Option<Text>, rule: Rule) {
    && rule.allowed && rule.relation == AnchorSubstrate && CodeNames(c, rule.sourceCode, id)
    && substrate.Some? && substrate.value != []
    && (rule.targetSubstrate == substrate || (rule.targetSubstrate.None? && rule.sourceSubstrate == substrate))
  }

  lemma AllowsAnchorIff(c: Catalog, id: Id, substrate: Option<Text>, rule: Rule)
    ensures Truthy(substrate) && AnchorRule(c, id, substrate.value, rule) <==> AllowsAnchor(c, id, substrate, rule)
  {
    CodeNamesIff(c, rule.sourceCode, id);
  }

  lemma ProductHasEntry(c: Catalog, id: Id, p: Product)
    requires IsProduct(c, id, p)
    ensures FindProduct(c.products, id).Some?
  {
    SupportedProductIff(c, id, p);
    var n := Find(c.products, (q: Product) => q.id == id);
  }

  // ---- components ------------------------------------------------------------------------------------------

  /** The component's role; a product of category `wstb` is one whatever the template says. */
  ghost predicate PlaysRole(c: Catalog, k: Component, role: Role) {
    if exists p :: IsEntry(c, k.productId, p) && p.category == Lit("wstb") then role == WstbRole else role == k.role
  }

  lemma PlaysRoleIff(c: Catalog, k: Component, role: Role)
    ensures EffectiveRole(c, k) == role <==> PlaysRole(c, k, role)
  {
    forall p ensures FindProduct(c.products, k.productId) == Some(p) <==> IsEntry(c, k.productId, p) {
      EntryIff(c, k.productId, p);
    }
    var found := FindProduct(c.products, k.productId);
    if found.Some? {
      assert IsEntry(c, k.productId, found.value);
    }
  }

  /** The template has the product in this role. */
  ghost predicate TemplateHas(c: Catalog, templateId: Option<Id>, productId: Id, role: Role, k: Component) {
    k in c.components && templateId == Some(k.templateId) && k.productId == productId && PlaysRole(c, k, role)
  }

  lemma TemplateHasIff(c: Catalog, templateId: Option<Id>, productId: Id, role: Role)
    ensures ComponentEvidence(c, templateId, productId, role).Some?
       <==> exists k :: TemplateHas(c, templateId, productId, role, k)
  {
    forall k ensures EffectiveRole(c, k) == role <==> PlaysRole(c, k, role) {
      PlaysRoleIff(c, k, role);
    }
    var found := ComponentEvidence(c, templateId, productId, role);
    if found.Some? {
      assert TemplateHas(c, templateId, productId, role, found.value);
    }
    if k :| TemplateHas(c, templateId, productId, role, k) {
      var i :| 0 <= i < |c.components| && c.components[i] == k;
      assert IsComponent(c, templateId.value, productId, role, c.components[i]);
    }
  }

  // ---- templates ---------------------------------------------------------------------------------------------

  /** The engine can use the component: its product is for sale, its quantity is a number and not an
      expression, its unit is the product's, and it has a role. */
  ghost predicate EngineComponent(c: Catalog, k: Component) {
    && (exists p :: p in c.products && p.id == k.productId && Usable(p) && ForSale(p))
    && (exists p :: IsEntry(c, k.productId, p)
          && k.unit == if p.baseUnit == Lit("pcs") || p.baseUnit == Lit("m") || p.baseUnit == Lit("kg") then Some(p.baseUnit)
                       else None)
    && k.quantity.Some? && k.hasMode && !k.hasExpression
    && !PlaysRole(c, k, ConnectorRole) && !PlaysRole(c, k, OtherRole)
  }

  lemma EngineComponentIff(c: Catalog, k: Component)
    ensures UsableComponent(c, k) <==> EngineComponent(c, k)
  {
    PlaysRoleIff(c, k, ConnectorRole);
    PlaysRoleIff(c, k, OtherRole);
    forall p ensures FindProduct(c.products, k.productId) == Some(p) <==> IsEntry(c, k.productId, p) {
      EntryIff(c, k.productId, p);
    }
    forall p: Product ensures Demandable(p) <==> Usable(p) && ForSale(p) {
      UsableIff(p);
    }
    if FindProduct(c.products, k.productId).Some? {
      assert IsEntry(c, k.productId, FindProduct(c.products, k.productId).value);
    }
    if p :| p in c.products && p.id == k.productId && Usable(p) && ForSale(p) {
      var i :| 0 <= i < |c.products| && c.products[i] == p;
      assert c.products[i].id == k.productId && Demandable(c.products[i]);
    }
  }

  /** There is such an active template, with components, all of which the engine can use. */
  ghost predicate ReachesEngine(c: Catalog, id: Id) {
    exists t :: t in c.templates && t.id == id && t.active
      && (exists k :: k in c.components && k.templateId == id)
      && forall k :: k in c.components && k.templateId == id ==> EngineComponent(c, k)
  }

  lemma ReachesEngineIff(c: Catalog, id: Id)
    ensures IsEngineTemplate(c, id) <==> ReachesEngine(c, id)
  {
    forall k ensures UsableComponent(c, k) <==> EngineComponent(c, k) {
      EngineComponentIff(c, k);
    }
    forall t: Template | t.id == id
      ensures EngineTemplate(c, t) <==>
        t.active && (exists k :: k in c.components && k.templateId == id)
        && forall k :: k in c.components && k.templateId == id ==> EngineComponent(c, k)
    {
      EngineTemplateIff(c, t);
    }
    if t :| t in c.templates && t.id == id && EngineTemplate(c, t) {
      var i :| 0 <= i < |c.templates| && c.templates[i] == t;
      assert c.templates[i].id == id && EngineTemplate(c, c.templates[i]);
    }
  }

  lemma EngineTemplateIff(c: Catalog, t: Template)
    requires forall k :: UsableComponent(c, k) <==> EngineComponent(c, k)
    ensures EngineTemplate(c, t) <==>
      t.active && (exists k :: k in c.components && k.templateId == t.id)
      && forall k :: k in c.components && k.templateId == t.id ==> EngineComponent(c, k)
  {
    if k :| k in c.components && k.templateId == t.id {
      var i :| 0 <= i < |c.components| && c.components[i] == k;
      assert c.components[i].templateId == t.id;
    }
  }

  /** `t` is the first active template with this id. */
  ghost predicate IsTemplate(c: Catalog, id: Id, t: Template) {
    exists i :: 0 <= i < |c.templates| && c.templates[i] == t && t.id == id && t.active
      && forall j :: 0 <= j < i ==> c.templates[j].id != id || !c.templates[j].active
  }

  lemma TemplateIff(c: Catalog, id: Option<Id>, t: Template)
    ensures SelectedTemplate(c, id) == Some(t) <==> id.Some? && IsTemplate(c, id.value, t)
  {
    if id.Some? {
      var n := Find(c.templates, (u: Template) => u.id == id.value && u.active);
      if IsTemplate(c, id.value, t) {
        var i :| 0 <= i < |c.templates| && c.templates[i] == t && t.id == id.value && t.active
          && forall j :: 0 <= j < i ==> c.templates[j].id != id.value || !c.templates[j].active;
        assert n == i;
      }
    }
  }

  /** Some component of the template is a WSTB product. */
  ghost predicate WantsWstb(c: Catalog, id: Id) {
    exists k :: k in c.components && k.templateId == id && PlaysRole(c, k, WstbRole)
  }

  lemma WantsWstbIff(c: Catalog, id: Id)
    ensures HasWstbComponent(c, id) <==> WantsWstb(c, id)
  {
    forall k ensures EffectiveRole(c, k) == WstbRole <==> PlaysRole(c, k, WstbRole) {
      PlaysRoleIff(c, k, WstbRole);
    }
    if k :| k in c.components && k.templateId == id && PlaysRole(c, k, WstbRole) {
      var i :| 0 <= i < |c.components| && c.components[i] == k;
      assert c.components[i].templateId == id && EffectiveRole(c, c.components[i]) == WstbRole;
    }
  }

  /** The template's first anchor has a quantity. */
  ghost predicate CountsAnchors(c: Catalog, id: Id) {
    exists i :: 0 <= i < |c.components| && c.components[i].templateId == id && PlaysRole(c, c.components[i], AnchorRole)
      && c.components[i].quantity.Some?
      && forall j :: 0 <= j < i ==> c.components[j].templateId != id || !PlaysRole(c, c.components[j], AnchorRole)
  }

  lemma CountsAnchorsIff(c: Catalog, id: Id)
    ensures AnchorBaseline(c, Some(id)).Some? <==> CountsAnchors(c, id)
  {
    forall k ensures EffectiveRole(c, k) == AnchorRole <==> PlaysRole(c, k, AnchorRole) {
      PlaysRoleIff(c, k, AnchorRole);
    }
    var n := Find(c.components, (k: Component) => k.templateId == id && EffectiveRole(c, k) == AnchorRole);
    if CountsAnchors(c, id) {
      var i :| 0 <= i < |c.components| && c.components[i].templateId == id && PlaysRole(c, c.components[i], AnchorRole)
        && c.components[i].quantity.Some?
        && forall j :: 0 <= j < i ==> c.components[j].templateId != id || !PlaysRole(c, c.components[j], AnchorRole);
      assert n == i;
    }
  }

  // ---- routes ------------------------------------------------------------------------------------------------

  /** The straight product, its length and the option that supplies it. */
  ghost predicate StraightFits(c: Catalog, s: Selection, p: Product) {
    && s.straightProductId.Some? && IsProduct(c, s.straightProductId.value, p)
    && p.category == Lit("straightSection") && ForSale(p)
    && (p.length == Some(Lit("3000")) || p.length == Some(Lit("6000")))
    && s.supplyOptionId == Some(Lit("supply:") + p.id + Lit(":") + p.length.value)
  }

  ghost predicate SelectionFits(c: Catalog, r: Route) {
    var s := r.selection;
    && s.system.Some? && s.dimensionId.Some? && s.width.Some? && s.height.Some? && s.material.Some? && s.finish.Some?
    && (exists p :: StraightFits(c, s, p))
    && exists rule :: rule in c.rules && AllowsStraight(c, s, s.straightProductId.value, rule)
  }

  /** There is some geometry, and no material is selected for fittings and ends, which no fact of the
      catalog could authorise. */
  predicate GeometryFits(r: Route) {
    && |r.geometry| > 0 && r.startProductId.None? && r.endProductId.None?
    && forall i :: 0 <= i < |r.geometry| ==> r.geometry[i].Straight? || r.geometry[i].selectedProductId.None?
  }

  /** The selected support is for sale and in the selected template. */
  ghost predicate SupportFits(c: Catalog, s: Supports) {
    s.supportProductId.Some? ==>
      && (exists p :: IsProduct(c, s.supportProductId.value, p) && ForSale(p))
      && exists k :: TemplateHas(c, s.templateId, s.supportProductId.value, SupportRole, k)
  }

  /** The selected anchor is for sale, some rule allows it on the substrate, and it is in the selected
      template if that is active. */
  ghost predicate AnchorFits(c: Catalog, s: Supports) {
    s.anchorProductId.Some? ==>
      && (exists p :: IsProduct(c, s.anchorProductId.value, p) && ForSale(p))
      && (exists rule :: rule in c.rules && AllowsAnchor(c, s.anchorProductId.value, s.substrate, rule))
      && ((exists t :: s.templateId.Some? && IsTemplate(c, s.templateId.value, t)) ==>
            exists k :: TemplateHas(c, s.templateId, s.anchorProductId.value, AnchorRole, k))
  }

  /** A WSTB product is selected exactly if the selected template is active and wants one; it is for
      sale, of that category, and in the template. */
  ghost predicate WstbFits(c: Catalog, s: Supports) {
    && (s.wstbProductId.Some? <==>
          s.templateId.Some? && (exists t :: IsTemplate(c, s.templateId.value, t)) && WantsWstb(c, s.templateId.value))
    && (s.wstbProductId.Some? ==>
          && (exists p :: IsProduct(c, s.wstbProductId.value, p) && p.category == Lit("wstb") && ForSale(p))
          && exists k :: TemplateHas(c, s.templateId, s.wstbProductId.value, WstbRole, k))
  }

  /** The selected template reaches the engine, and is for the selected type and system. */
  ghost predicate TemplateFits(c: Catalog, r: Route) {
    r.supports.templateId.Some? ==>
      && ReachesEngine(c, r.supports.templateId.value)
      && forall t :: IsTemplate(c, r.supports.templateId.value, t) ==>
           && (r.supports.supportType.Some? ==> r.supports.supportType == Some(t.kind))
           && t.system.Some? && t.system == r.selection.system
  }

  ghost predicate Fits(c: Catalog, r: Route) {
    && SelectionFits(c, r) && GeometryFits(r)
    && r.supports.spacing.Some? && r.supports.supportType.Some? && r.supports.wstb.Some?
    && SupportFits(c, r.supports) && AnchorFits(c, r.supports) && WstbFits(c, r.supports) && TemplateFits(c, r)
    && (r.supports.overridesAnchors ==> r.supports.templateId.Some? && CountsAnchors(c, r.supports.templateId.value))
  }

  lemma StraightFitsIff(c: Catalog, s: Selection)
    ensures GoodStraight(c, s) && GoodSupplyOption(c, s) <==> exists p :: StraightFits(c, s, p)
  {
    if s.straightProductId.Some? {
      forall p ensures Chosen(c, s.straightProductId) == Some(p) <==> IsProduct(c, s.straightProductId.value, p) {
        ChosenIff(c, s.straightProductId, p);
      }
    }
    var chosen := Chosen(c, s.straightProductId);
    if GoodStraight(c, s) && GoodSupplyOption(c, s) {
      assert StraightFits(c, s, chosen.value);
    }
  }

  lemma SelectionEvidenceIff(c: Catalog, s: Selection)
    requires s.straightProductId.Some? && Chosen(c, s.straightProductId).Some?
    ensures SelectionEvidence(c, s).Some?
       <==> exists rule :: rule in c.rules && AllowsStraight(c, s, s.straightProductId.value, rule)
  {
    var id := s.straightProductId.value;
    ChosenIff(c, s.straightProductId, Chosen(c, s.straightProductId).value);
    ProductHasEntry(c, id, Chosen(c, s.straightProductId).value);
    forall rule ensures SelectionRule(c, s, id, rule) <==> AllowsStraight(c, s, id, rule) {
      AllowsStraightIff(c, s, id, rule);
    }
    if rule :| rule in c.rules && AllowsStraight(c, s, id, rule) {
      var i :| 0 <= i < |c.rules| && c.rules[i] == rule;
      assert SelectionRule(c, s, id, c.rules[i]);
    }
  }

  lemma AnchorEvidenceIff(c: Catalog, id: Id, substrate: Option<Text>)
    requires Chosen(c, Some(id)).Some?
    ensures AnchorEvidence(c, id, substrate).Some?
       <==> exists rule :: rule in c.rules && AllowsAnchor(c, id, substrate, rule)
  {
    ChosenIff(c, Some(id), Chosen(c, Some(id)).value);
    ProductHasEntry(c, id, Chosen(c, Some(id)).value);
    forall rule ensures Truthy(substrate) && AnchorRule(c, id, substrate.value, rule) <==> AllowsAnchor(c, id, substrate, rule) {
      AllowsAnchorIff(c, id, substrate, rule);
    }
    if rule :| rule in c.rules && AllowsAnchor(c, id, substrate, rule) {
      var i :| 0 <= i < |c.rules| && c.rules[i] == rule;
      assert AnchorRule(c, id, substrate.value, c.rules[i]);
    }
  }

  // ---- no problem, part by part ------------------------------------------------------------------------------

  lemma FieldsIff(c: Catalog, r: Route)
    ensures (forall field :: !Faulty(c, r, SelectionRequired(field))) <==>
      var s := r.selection;
      && s.system.Some? && s.dimensionId.Some? && s.width.Some? && s.height.Some? && s.material.Some? && s.finish.Some?
  {
    var s := r.selection;
    assert Faulty(c, r, SelectionRequired(SystemField)) <==> s.system.None?;
    assert Faulty(c, r, SelectionRequired(DimensionField)) <==> s.dimensionId.None?;
    assert Faulty(c, r, SelectionRequired(WidthField)) <==> s.width.None?;
    assert Faulty(c, r, SelectionRequired(HeightField)) <==> s.height.None?;
    assert Faulty(c, r, SelectionRequired(MaterialField)) <==> s.material.None?;
    assert Faulty(c, r, SelectionRequired(FinishField)) <==> s.finish.None?;
  }

  lemma StraightIff(c: Catalog, r: Route)
    ensures !Faulty(c, r, StraightRequired) && !Faulty(c, r, StraightInvalid) && !Faulty(c, r, SupplyOptionRequired)
       <==> exists p :: StraightFits(c, r.selection, p)
  {
    StraightFitsIff(c, r.selection);
  }

  lemma StraightRuleIff(c: Catalog, r: Route, p: Product)
    requires StraightFits(c, r.selection, p)
    ensures !Faulty(c, r, SelectionRuleMissing)
       <==> exists rule :: rule in c.rules && AllowsStraight(c, r.selection, r.selection.straightProductId.value, rule)
  {
    StraightFitsIff(c, r.selection);
    ChosenIff(c, r.selection.straightProductId, p);
    SelectionEvidenceIff(c, r.selection);
  }

  lemma SelectionFitsIff(c: Catalog, r: Route)
    ensures SelectionFits(c, r) <==>
      && (forall field :: !Faulty(c, r, SelectionRequired(field)))
      && !Faulty(c, r, StraightRequired) && !Faulty(c, r, StraightInvalid) && !Faulty(c, r, SelectionRuleMissing)
      && !Faulty(c, r, SupplyOptionRequired)
  {
    FieldsIff(c, r);
    StraightIff(c, r);
    if p :| StraightFits(c, r.selection, p) {
      StraightRuleIff(c, r, p);
    }
  }

  lemma GeometryFitsIff(c: Catalog, r: Route)
    ensures GeometryFits(r) <==>
      && !Faulty(c, r, GeometryRequired)
      && (forall index, known :: !Faulty(c, r, FittingProblem(index, known)))
      && forall atEnd, known :: !Faulty(c, r, EndpointProblem(atEnd, known))
  {
    if !GeometryFits(r) && |r.geometry| > 0 {
      if r.startProductId.Some? {
        assert Faulty(c, r, EndpointProblem(false, Chosen(c, r.startProductId).Some?));
      } else if r.endProductId.Some? {
        assert Faulty(c, r, EndpointProblem(true, Chosen(c, r.endProductId).Some?));
      } else {
        var i :| 0 <= i < |r.geometry| && r.geometry[i].Fitting? && r.geometry[i].selectedProductId.Some?;
        assert Faulty(c, r, FittingProblem(i, Chosen(c, r.geometry[i].selectedProductId).Some?));
      }
    }
  }

  /** The product is there and for sale. */
  lemma ForSaleIff(c: Catalog, r: Route, which: SupportField)
    requires which != WstbProductField && ProductField(r.supports, which).Some?
    ensures !Faulty(c, r, ProductMissing(which)) && !Faulty(c, r, NotOrderable(which))
       <==> exists p :: IsProduct(c, ProductField(r.supports, which).value, p) && ForSale(p)
  {
    var id := ProductField(r.supports, which);
    forall p ensures Chosen(c, id) == Some(p) <==> IsProduct(c, id.value, p) {
      ChosenIff(c, id, p);
    }
    if Chosen(c, id).Some? {
      UsableIff(Chosen(c, id).value);
      assert IsProduct(c, id.value, Chosen(c, id).value);
    }
  }

  lemma SupportFitsIff(c: Catalog, r: Route)
    ensures SupportFits(c, r.supports) <==>
      && !Faulty(c, r, ProductMissing(SupportProductField)) && !Faulty(c, r, NotOrderable(SupportProductField))
      && !Faulty(c, r, SupportRuleMissing)
  {
    var s := r.supports;
    if s.supportProductId.Some? {
      ForSaleIff(c, r, SupportProductField);
      TemplateHasIff(c, s.templateId, s.supportProductId.value, SupportRole);
    }
  }

  lemma AnchorMissingIff(c: Catalog, r: Route, id: Id)
    requires r.supports.anchorProductId == Some(id) && Chosen(c, Some(id)).Some?
    ensures Faulty(c, r, AnchorRuleMissing) <==> AnchorEvidence(c, id, r.supports.substrate).None?
  {
  }

  lemma AnchorRuleIff(c: Catalog, r: Route, p: Product)
    requires r.supports.anchorProductId.Some? && IsProduct(c, r.supports.anchorProductId.value, p)
    ensures !Faulty(c, r, AnchorRuleMissing)
       <==> exists rule :: rule in c.rules && AllowsAnchor(c, r.supports.anchorProductId.value, r.supports.substrate, rule)
  {
    var id := r.supports.anchorProductId.value;
    ChosenIff(c, Some(id), p);
    AnchorMissingIff(c, r, id);
    AnchorEvidenceIff(c, id, r.supports.substrate);
  }

  lemma AnchorComponentIff(c: Catalog, r: Route)
    requires r.supports.anchorProductId.Some?
    ensures !Faulty(c, r, TemplateAnchorMismatch) <==>
      var s := r.supports;
      ((exists t :: s.templateId.Some? && IsTemplate(c, s.templateId.value, t)) ==>
         exists k :: TemplateHas(c, s.templateId, s.anchorProductId.value, AnchorRole, k))
  {
    TemplateHasIff(c, r.supports.templateId, r.supports.anchorProductId.value, AnchorRole);
    SelectedTemplateIff(c, r.supports.templateId);
  }

  lemma NoAnchorFits(c: Catalog, r: Route)
    requires r.supports.anchorProductId.None?
    ensures !Faulty(c, r, ProductMissing(AnchorProductField)) && !Faulty(c, r, NotOrderable(AnchorProductField))
    ensures !Faulty(c, r, AnchorRuleMissing) && !Faulty(c, r, TemplateAnchorMismatch)
  {
  }

  lemma AnchorFitsIff(c: Catalog, r: Route)
    ensures AnchorFits(c, r.supports) <==>
      && !Faulty(c, r, ProductMissing(AnchorProductField)) && !Faulty(c, r, NotOrderable(AnchorProductField))
      && !Faulty(c, r, AnchorRuleMissing) && !Faulty(c, r, TemplateAnchorMismatch)
  {
    if r.supports.anchorProductId.None? {
      NoAnchorFits(c, r);
    } else {
      ForSaleIff(c, r, AnchorProductField);
      AnchorComponentIff(c, r);
      assert ProductField(r.supports, AnchorProductField) == r.supports.anchorProductId;
      if p :| IsProduct(c, r.supports.anchorProductId.value, p) {
        AnchorRuleIff(c, r, p);
      }
    }
  }

  lemma SelectedTemplateIff(c: Catalog, id: Option<Id>)
    ensures SelectedTemplate(c, id).Some? <==> exists t :: id.Some? && IsTemplate(c, id.value, t)
  {
    forall t ensures SelectedTemplate(c, id) == Some(t) <==> id.Some? && IsTemplate(c, id.value, t) {
      TemplateIff(c, id, t);
    }
    if SelectedTemplate(c, id).Some? {
      assert IsTemplate(c, id.value, SelectedTemplate(c, id).value);
    }
  }

  lemma WstbForSaleIff(c: Catalog, r: Route)
    requires r.supports.wstbProductId.Some?
    ensures !Faulty(c, r, ProductMissing(WstbProductField)) && !Faulty(c, r, WstbInvalid)
       <==> exists p :: IsProduct(c, r.supports.wstbProductId.value, p) && p.category == Lit("wstb") && ForSale(p)
  {
    var id := r.supports.wstbProductId;
    forall p ensures Chosen(c, id) == Some(p) <==> IsProduct(c, id.value, p) {
      ChosenIff(c, id, p);
    }
    if Chosen(c, id).Some? {
      assert IsProduct(c, id.value, Chosen(c, id).value);
    }
  }

  lemma WstbFitsIff(c: Catalog, r: Route)
    ensures WstbFits(c, r.supports) <==>
      && !Faulty(c, r, ProductMissing(WstbProductField)) && !Faulty(c, r, WstbInvalid)
      && !Faulty(c, r, TemplateWstbMissing) && !Faulty(c, r, TemplateWstbMismatch)
  {
    var s := r.supports;
    SelectedTemplateIff(c, s.templateId);
    if s.templateId.Some? {
      WantsWstbIff(c, s.templateId.value);
    }
    if s.wstbProductId.Some? {
      WstbForSaleIff(c, r);
      TemplateHasIff(c, s.templateId, s.wstbProductId.value, WstbRole);
    }
  }

  lemma NoTemplate(c: Catalog, r: Route)
    requires SelectedTemplate(c, r.supports.templateId).None?
    ensures !Faulty(c, r, TemplateTypeMismatch)
    ensures !Faulty(c, r, TemplateSystemMissing) && !Faulty(c, r, TemplateSystemMismatch)
  {
  }

  lemma OneTemplate(c: Catalog, r: Route, t: Template)
    requires SelectedTemplate(c, r.supports.templateId) == Some(t)
    ensures !Faulty(c, r, TemplateTypeMismatch) <==> (r.supports.supportType.Some? ==> r.supports.supportType == Some(t.kind))
    ensures !Faulty(c, r, TemplateSystemMissing) && !Faulty(c, r, TemplateSystemMismatch)
       <==> t.system.Some? && t.system == r.selection.system
  {
  }

  lemma TemplateFitsIff(c: Catalog, r: Route)
    ensures TemplateFits(c, r) <==>
      && !Faulty(c, r, TemplateMissing) && !Faulty(c, r, TemplateTypeMismatch)
      && !Faulty(c, r, TemplateSystemMissing) && !Faulty(c, r, TemplateSystemMismatch)
  {
    var id := r.supports.templateId;
    var template := SelectedTemplate(c, id);
    forall t ensures template == Some(t) <==> id.Some? && IsTemplate(c, id.value, t) {
      TemplateIff(c, id, t);
    }
    if id.Some? {
      ReachesEngineIff(c, id.value);
    }
    if template.None? {
      NoTemplate(c, r);
    } else {
      assert IsTemplate(c, id.value, template.value);
      OneTemplate(c, r, template.value);
    }
  }

  lemma BaselineIff(c: Catalog, r: Route)
    ensures !Faulty(c, r, AnchorBaselineMissing) <==>
      (r.supports.overridesAnchors ==> r.supports.templateId.Some? && CountsAnchors(c, r.supports.templateId.value))
  {
    if r.supports.templateId.Some? {
      CountsAnchorsIff(c, r.supports.templateId.value);
    }
  }

  lemma ChoicesIff(c: Catalog, r: Route)
    ensures r.supports.spacing.Some? && r.supports.supportType.Some? && r.supports.wstb.Some? <==>
      !Faulty(c, r, SpacingRequired) && !Faulty(c, r, SupportTypeRequired) && !Faulty(c, r, WstbRequired)
  {
  }

  /** A route has no problem exactly when it fits. */
  lemma SoundIff(c: Catalog, r: Route)
    ensures SoundRoute(c, r) <==> Fits(c, r)
  {
    SelectionFitsIff(c, r);
    GeometryFitsIff(c, r);
    ChoicesIff(c, r);
    SupportFitsIff(c, r);
    AnchorFitsIff(c, r);
    WstbFitsIff(c, r);
    TemplateFitsIff(c, r);
    BaselineIff(c, r);
    if Fits(c, r) {
      forall p: RouteProblem ensures !Faulty(c, r, p) {
        NotFaulty(c, r, p);
      }
    }
  }

  lemma NotFaulty(c: Catalog, r: Route, p: RouteProblem)
    requires Fits(c, r)
    ensures !Faulty(c, r, p)
  {
    match p {
      case SelectionRequired(field) => SelectionFitsIff(c, r);
      case StraightRequired => SelectionFitsIff(c, r);
      case StraightInvalid => SelectionFitsIff(c, r);
      case SelectionRuleMissing => SelectionFitsIff(c, r);
      case SupplyOptionRequired => SelectionFitsIff(c, r);
      case GeometryRequired => GeometryFitsIff(c, r);
      case FittingProblem(_, _) => GeometryFitsIff(c, r);
      case EndpointProblem(_, _) => GeometryFitsIff(c, r);
      case SpacingRequired => ChoicesIff(c, r);
      case SupportTypeRequired => ChoicesIff(c, r);
      case WstbRequired => ChoicesIff(c, r);
      case ProductMissing(which) => ProductIsThere(c, r, which);
      case NotOrderable(which) => ProductIsThere(c, r, which);
      case WstbInvalid => WstbFitsIff(c, r);
      case SupportRuleMissing => SupportFitsIff(c, r);
      case AnchorRuleMissing => AnchorFitsIff(c, r);
      case TemplateMissing => TemplateFitsIff(c, r);
      case TemplateTypeMismatch => TemplateFitsIff(c, r);
      case TemplateSystemMissing => TemplateFitsIff(c, r);
      case TemplateSystemMismatch => TemplateFitsIff(c, r);
      case TemplateWstbMissing => WstbFitsIff(c, r);
      case TemplateWstbMismatch => WstbFitsIff(c, r);
      case TemplateAnchorMismatch => AnchorFitsIff(c, r);
      case AnchorBaselineMissing => BaselineIff(c, r);
    }
  }

  lemma ProductIsThere(c: Catalog, r: Route, which: SupportField)
    requires Fits(c, r)
    ensures !Faulty(c, r, ProductMissing(which)) && !Faulty(c, r, NotOrderable(which))
  {
    match which {
      case SupportProductField => SupportFitsIff(c, r);
      case AnchorProductField => AnchorFitsIff(c, r);
      case WstbProductField => WstbFitsIff(c, r);
    }
  }

  // ---- drafts ---------------------------------------------------------------------------------------------------

  /** The catalog product of a manual item is for sale in the item's unit. */
  ghost predicate ItemFits(c: Catalog, item: ManualItem) {
    item.CatalogItem? ==> exists p :: IsProduct(c, item.productId, p) && ForSale(p) && p.baseUnit == item.unit
  }

  /** Routes that fit, at least one; connections without material and without corrections; no
      accessories; and manual items that fit. */
  ghost predicate DraftFits(c: Catalog, d: Draft) {
    && |d.routes| > 0
    && (forall k :: 0 <= k < |d.routes| ==> Fits(c, d.routes[k]))
    && (forall k :: 0 <= k < |d.connections| ==> d.connections[k] == Connection(Option.None, 0))
    && d.accessories == []
    && forall k :: 0 <= k < |d.manualItems| ==> ItemFits(c, d.manualItems[k])
  }

  lemma ItemIff(c: Catalog, d: Draft, k: nat)
    requires k < |d.manualItems|
    ensures ItemFits(c, d.manualItems[k]) <==>
      && !Warranted(c, d, ManualProductMissing(k)) && !Warranted(c, d, ManualNotOrderable(k))
      && !Warranted(c, d, ManualUnitMismatch(k))
  {
    var item := d.manualItems[k];
    if item.CatalogItem? {
      forall p ensures SupportedProduct(c, item.productId) == Some(p) <==> IsProduct(c, item.productId, p) {
        SupportedProductIff(c, item.productId, p);
      }
      if SupportedProduct(c, item.productId).Some? {
        assert IsProduct(c, item.productId, SupportedProduct(c, item.productId).value);
      }
    }
  }

  lemma OthersIff(c: Catalog, d: Draft)
    ensures (forall k :: 0 <= k < |d.connections| ==> d.connections[k] == Connection(Option.None, 0)) && d.accessories == []
       <==> && (forall k, known :: !Warranted(c, d, ConnectionMaterial(k, known)))
            && (forall k, n :: !Warranted(c, d, ConnectorCorrection(k, n)))
            && forall k, known :: !Warranted(c, d, AccessoryIssue(k, known))
  {
    if k :| 0 <= k < |d.connections| && d.connections[k] != Connection(Option.None, 0) {
      if d.connections[k].materialProductId.Some? {
        assert Warranted(c, d, ConnectionMaterial(k, Chosen(c, d.connections[k].materialProductId).Some?));
      } else {
        assert Warranted(c, d, ConnectorCorrection(k, 0));
      }
    }
    if d.accessories != [] {
      assert Warranted(c, d, AccessoryIssue(0, SupportedProduct(c, d.accessories[0]).Some?));
    }
  }

  lemma RoutesIff(c: Catalog, d: Draft)
    ensures (forall k :: 0 <= k < |d.routes| ==> Fits(c, d.routes[k]))
       <==> forall k, p :: !Warranted(c, d, RouteIssue(k, p))
  {
    forall k | 0 <= k < |d.routes| ensures Fits(c, d.routes[k]) <==> forall p :: !Warranted(c, d, RouteIssue(k, p)) {
      SoundIff(c, d.routes[k]);
      if !Fits(c, d.routes[k]) {
        var p :| Faulty(c, d.routes[k], p);
        assert Warranted(c, d, RouteIssue(k, p));
      } else {
        forall p ensures !Warranted(c, d, RouteIssue(k, p)) {
          NotFaulty(c, d.routes[k], p);
        }
      }
    }
  }

  /** The checks find nothing exactly when the draft fits. */
  lemma ReadyIff(c: Catalog, d: Draft)
    ensures Ready(c, d) <==> DraftFits(c, d)
  {
    RoutesIff(c, d);
    OthersIff(c, d);
    forall k: nat | k < |d.manualItems|
      ensures ItemFits(c, d.manualItems[k]) <==>
        && !Warranted(c, d, ManualProductMissing(k)) && !Warranted(c, d, ManualNotOrderable(k))
        && !Warranted(c, d, ManualUnitMismatch(k))
    {
      ItemIff(c, d, k);
    }
    assert Warranted(c, d, RouteRequired) <==> |d.routes| == 0;
    if DraftFits(c, d) {
      forall i: Issue ensures !Warranted(c, d, i) {
        match i {
          case RouteRequired =>
          case RouteIssue(k, p) => assert !Warranted(c, d, RouteIssue(k, p));
          case ConnectionMaterial(k, known) => assert !Warranted(c, d, ConnectionMaterial(k, known));
          case ConnectorCorrection(k, n) => assert !Warranted(c, d, ConnectorCorrection(k, n));
          case AccessoryIssue(k, known) => assert !Warranted(c, d, AccessoryIssue(k, known));
          case ManualProductMissing(k) =>
          case ManualNotOrderable(k) =>
          case ManualUnitMismatch(k) =>
        }
      }
    }
  }

  /** An anchor that the catalog has is objected to exactly when no rule allows it on the substrate: a
      rule that disallows it is none. */
  lemma AnchorIssueIff(c: Catalog, d: Draft, k: nat, p: Product)
    requires k < |d.routes| && d.routes[k].supports.anchorProductId.Some?
    requires IsProduct(c, d.routes[k].supports.anchorProductId.value, p)
    ensures Warranted(c, d, RouteIssue(k, AnchorRuleMissing)) <==>
      forall rule :: rule in c.rules ==>
        !AllowsAnchor(c, d.routes[k].supports.anchorProductId.value, d.routes[k].supports.substrate, rule)
  {
    var s := d.routes[k].supports;
    ChosenIff(c, s.anchorProductId, p);
    AnchorEvidenceIff(c, s.anchorProductId.value, s.substrate);
  }

  /** So with the straight product. */
  lemma StraightIssueIff(c: Catalog, d: Draft, k: nat, p: Product)
    requires k < |d.routes| && StraightFits(c, d.routes[k].selection, p)
    ensures Warranted(c, d, RouteIssue(k, SelectionRuleMissing)) <==>
      forall rule :: rule in c.rules ==> !AllowsStraight(c, d.routes[k].selection, p.id, rule)
  {
    var s := d.routes[k].selection;
    ChosenIff(c, s.straightProductId, p);
    StraightFitsIff(c, s);
    SelectionEvidenceIff(c, s);
  }
}
