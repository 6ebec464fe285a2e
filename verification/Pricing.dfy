/**
 The accounting price table: how `compose_pricing` (`src/config_store.rs`) layers four sources into one
 table, and which layer a lookup in that table (`src/config/pricing.rs`) ends up taking its price from.
 Prices are `real`.
 */
module Pricing {
  import opened Wrappers

  datatype Price = Price(prompt: real, completion: real)
  datatype ModelPricing = ModelPricing(base: Price, tenants: map<string, Price>)
  type Table = map<string, ModelPricing>
  datatype CatalogEntry = CatalogEntry(id: string, input: Option<real>, output: Option<real>)
  datatype Override = Override(model: string, tenant: Option<string>, price: Price, from: int, until: Option<int>)

  const ZERO := Price(0.0, 0.0)

  predicate IsEffectiveAt(o: Override, now: int) {
    o.from <= now && (o.until.None? || now < o.until.value)
  }

  /** `PricingConfig::lookup`: tenant entry, then the model's default, then zero. */
  function Lookup(t: Table, model: string, tenant: Option<string>): Price {
    if model !in t then ZERO
    else if tenant.Some? && tenant.value in t[model].tenants then t[model].tenants[tenant.value]
    else t[model].base
  }

  // ---- The layers ------------------------------------------------------------------------

  function OrZero(r: Option<real>): real { if r.Some? then r.value else 0.0 }

  /** The last catalog row of a model; zero if it has none. */
  function CatalogPrice(catalog: seq<CatalogEntry>, model: string): Price {
    if catalog == [] then ZERO
    else
      var e := catalog[|catalog| - 1];
      if e.id == model then Price(OrZero(e.input), OrZero(e.output)) else CatalogPrice(catalog[..|catalog| - 1], model)
  }

  predicate IsSet(p: Price) { p.prompt > 0.0 || p.completion > 0.0 }

  function YamlTenant(yaml: Table, model: string, tenant: Option<string>): Option<Price> {
    if tenant.None? || model !in yaml || tenant.value !in yaml[model].tenants then None
    else Some(yaml[model].tenants[tenant.value])
  }

  function YamlDefault(yaml: Table, model: string): Option<Price> {
    if model in yaml && IsSet(yaml[model].base) then Some(yaml[model].base) else None
  }

  predicate Applies(o: Override, now: int, model: string, tenant: Option<string>) {
    IsEffectiveAt(o, now) && o.model == model && o.tenant == tenant
  }

  /** The last row in force for exactly this model and tenant (`None`: the global row). */
  function LastOverride(rows: seq<Override>, now: int, model: string, tenant: Option<string>): Option<Price> {
    if rows == [] then None
    else
      var o := rows[|rows| - 1];
      if Applies(o, now, model, tenant) then Some(o.price) else LastOverride(rows[..|rows| - 1], now, model, tenant)
  }

  function Else(p: Option<Price>, q: Price): Price { if p.Some? then p.value else q }

  datatype Sources = Sources(yaml: Table, catalog: seq<CatalogEntry>, overrides: seq<Override>, now: int)

  function TenantOverride(s: Sources, model: string, tenant: Option<string>): Option<Price> {
    if tenant.Some? then LastOverride(s.overrides, s.now, model, tenant) else None
  }

  function GlobalOverride(s: Sources, model: string): Option<Price> { LastOverride(s.overrides, s.now, model, None) }

  /** What the code does: a YAML price for the tenant outranks a global override. */
  function Resolve(s: Sources, model: string, tenant: Option<string>): Price {
    Else(TenantOverride(s, model, tenant),
         Else(YamlTenant(s.yaml, model, tenant),
              Else(GlobalOverride(s, model),
                   Else(YamlDefault(s.yaml, model), CatalogPrice(s.catalog, model)))))
  }

  /** What its documentation says: both kinds of override outrank everything in YAML. */
  function Documented(s: Sources, model: string, tenant: Option<string>): Price {
    Else(TenantOverride(s, model, tenant),
         Else(GlobalOverride(s, model),
              Else(YamlTenant(s.yaml, model, tenant),
                   Else(YamlDefault(s.yaml, model), CatalogPrice(s.catalog, model)))))
  }

  // ---- Composition -----------------------------------------------------------------------

  function BaseOf(t: Table, model: string): Price { if model in t then t[model].base else ZERO }

  function TenantOf(t: Table, model: string, tenant: string): Option<Price> {
    if model in t && tenant in t[model].tenants then Some(t[model].tenants[tenant]) else None
  }

  function Slot(t: Table, model: string): ModelPricing { if model in t then t[model] else ModelPricing(ZERO, map[]) }

  method CatalogLayer(catalog: seq<CatalogEntry>) returns (t: Table)
    ensures forall m :: BaseOf(t, m) == CatalogPrice(catalog, m)
    ensures forall m, n :: TenantOf(t, m, n) == None
  {
    t := map[];
    for i := 0 to |catalog|
      invariant forall m :: BaseOf(t, m) == CatalogPrice(catalog[..i], m)
      invariant forall m, n :: TenantOf(t, m, n) == None
    {
      var e := catalog[i];
      assert catalog[..i + 1][..i] == catalog[..i];
      ghost var t0 := t;
      t := t[e.id := ModelPricing(Price(OrZero(e.input), OrZero(e.output)), map[])];
      assert forall m, n :: m != e.id ==> TenantOf(t, m, n) == TenantOf(t0, m, n);
    }
    assert catalog[..|catalog|] == catalog;
  }

  /** The inner loop over one model's YAML tenants. */
  method InsertTenants(tenants: map<string, Price>, extra: map<string, Price>) returns (r: map<string, Price>)
    ensures r == tenants + extra
  {
    r := tenants;
    var todo := extra.Keys;
    while todo != {}
      invariant todo <= extra.Keys
      invariant forall n :: n in r <==> n in tenants || n in extra.Keys - todo
      invariant forall n :: n in r ==> r[n] == if n in extra.Keys - todo then extra[n] else tenants[n]
      decreases todo
    {
      var n :| n in todo;
      r := r[n := extra[n]];
      todo := todo - {n};
    }
  }

  method YamlLayer(yaml: Table, base: Table) returns (t: Table)
    requires forall m, n :: TenantOf(base, m, n) == None
    ensures forall m :: BaseOf(t, m) == Else(YamlDefault(yaml, m), BaseOf(base, m))
    ensures forall m, n :: TenantOf(t, m, n) == YamlTenant(yaml, m, Some(n))
  {
    t := base;
    var todo := yaml.Keys;
    while todo != {}
      invariant todo <= yaml.Keys
      invariant forall m ::
                  BaseOf(t, m) == if m in todo then BaseOf(base, m) else Else(YamlDefault(yaml, m), BaseOf(base, m))
      invariant forall m, n :: TenantOf(t, m, n) == if m in todo then None else YamlTenant(yaml, m, Some(n))
      decreases todo
    {
      var m :| m in todo;
      var slot := Slot(t, m);
      ghost var t0, before := t, slot.tenants;
      if IsSet(yaml[m].base) {
        slot := slot.(base := yaml[m].base);
      }
      var tenants := InsertTenants(slot.tenants, yaml[m].tenants);
      assert forall n :: n in before ==> TenantOf(t, m, n).Some?;
      slot := slot.(tenants := tenants);
      t := t[m := slot];
      assert forall x, n :: x != m ==> TenantOf(t, x, n) == TenantOf(t0, x, n);
      todo := todo - {m};
    }
  }

  method GlobalLayer(rows: seq<Override>, now: int, base: Table) returns (t: Table)
    ensures forall m :: BaseOf(t, m) == Else(LastOverride(rows, now, m, None), BaseOf(base, m))
    ensures forall m, n :: TenantOf(t, m, n) == TenantOf(base, m, n)
  {
    t := base;
    for i := 0 to |rows|
      invariant forall m :: BaseOf(t, m) == Else(LastOverride(rows[..i], now, m, None), BaseOf(base, m))
      invariant forall m, n :: TenantOf(t, m, n) == TenantOf(base, m, n)
    {
      var o := rows[i];
      assert rows[..i + 1][..i] == rows[..i];
      if IsEffectiveAt(o, now) && o.tenant.None? {
        t := t[o.model := Slot(t, o.model).(base := o.price)];
      }
    }
    assert rows[..|rows|] == rows;
  }

  method TenantLayer(rows: seq<Override>, now: int, base: Table) returns (t: Table)
    ensures forall m :: BaseOf(t, m) == BaseOf(base, m)
    ensures forall m, n ::
              TenantOf(t, m, n) ==
              if LastOverride(rows, now, m, Some(n)).Some? then LastOverride(rows, now, m, Some(n))
              else TenantOf(base, m, n)
  {
    t := base;
    for i := 0 to |rows|
      invariant forall m :: BaseOf(t, m) == BaseOf(base, m)
      invariant forall m, n ::
                  TenantOf(t, m, n) ==
                  if LastOverride(rows[..i], now, m, Some(n)).Some? then LastOverride(rows[..i], now, m, Some(n))
                  else TenantOf(base, m, n)
    {
      var o := rows[i];
      assert rows[..i + 1][..i] == rows[..i];
      if IsEffectiveAt(o, now) && o.tenant.Some? {
        var slot := Slot(t, o.model);
        t := t[o.model := slot.(tenants := slot.tenants[o.tenant.value := o.price])];
      }
    }
    assert rows[..|rows|] == rows;
  }

  /** `compose_pricing`: for every model and tenant, looking up the composed table is `Resolve`. */
  method ComposePricing(s: Sources) returns (t: Table)
    ensures forall model, tenant :: Lookup(t, model, tenant) == Resolve(s, model, tenant)
  {
    t := CatalogLayer(s.catalog);
    t := YamlLayer(s.yaml, t);
    t := GlobalLayer(s.overrides, s.now, t);
    t := TenantLayer(s.overrides, s.now, t);
    forall model, tenant ensures Lookup(t, model, tenant) == Resolve(s, model, tenant) {
      LookupParts(t, model, tenant);
    }
  }

  lemma LookupParts(t: Table, model: string, tenant: Option<string>)
    ensures Lookup(t, model, tenant) ==
            if tenant.Some? then Else(TenantOf(t, model, tenant.value), BaseOf(t, model)) else BaseOf(t, model)
  {
  }

  // ---- Theorems --------------------------------------------------------------------------

  /** Code and documentation part exactly where a global override would have to beat a YAML tenant price. */
  lemma DocumentedExactly(s: Sources, model: string, tenant: Option<string>)
    ensures Resolve(s, model, tenant) == Documented(s, model, tenant) <==>
            !(&& TenantOverride(s, model, tenant).None?
              && GlobalOverride(s, model).Some? && YamlTenant(s.yaml, model, tenant).Some?
              && GlobalOverride(s, model) != YamlTenant(s.yaml, model, tenant))
  {
    hide LastOverride, CatalogPrice;
  }

  /** They do part: YAML gives one tenant a price, and a global row is in force. */
  lemma DocumentationDiffers()
    ensures var yaml := map["m" := ModelPricing(ZERO, map["acme" := Price(1.0, 1.0)])];
            var row := Override("m", None, Price(2.0, 2.0), 0, None);
            var s := Sources(yaml, [], [row], 5);
            Resolve(s, "m", Some("acme")) == Price(1.0, 1.0) && Documented(s, "m", Some("acme")) == Price(2.0, 2.0)
  {
    var row := Override("m", None, Price(2.0, 2.0), 0, None);
    assert [row][..0] == [];
    assert LastOverride([row], 5, "m", Some("acme")) == None;
    assert LastOverride([row], 5, "m", None) == Some(Price(2.0, 2.0));
  }

  /** Row `i` applies and no later row does. */
  ghost predicate IsLast(rows: seq<Override>, now: int, model: string, tenant: Option<string>, i: nat) {
    && i < |rows| && Applies(rows[i], now, model, tenant)
    && forall j :: i < j < |rows| ==> !Applies(rows[j], now, model, tenant)
  }

  /** A row applies to its model and tenant from its start, and up to but not at its end, if it has one. */
  lemma AppliesExactly(o: Override, now: int)
    ensures forall model, tenant :: Applies(o, now, model, tenant) <==>
              && model == o.model && tenant == o.tenant && o.from <= now
              && !exists end :: o.until == Some(end) && end <= now
  {
  }

  /** The override that counts is the last row that applies; there is none exactly if no row applies. */
  lemma {:induction false} LastOverrideIs(rows: seq<Override>, now: int, model: string, tenant: Option<string>)
    ensures match LastOverride(rows, now, model, tenant)
            case Some(p) => exists i: nat :: IsLast(rows, now, model, tenant, i) && rows[i].price == p
            case None => forall o :: o in rows ==> !Applies(o, now, model, tenant)
  {
    hide Applies;
    if rows != [] {
      var n := |rows| - 1;
      var front := rows[..n];
      LastOverrideIs(front, now, model, tenant);
      assert rows == front + [rows[n]];
      if Applies(rows[n], now, model, tenant) {
        assert IsLast(rows, now, model, tenant, n);
      } else if LastOverride(front, now, model, tenant).Some? {
        var i: nat :| IsLast(front, now, model, tenant, i) &&
          front[i].price == LastOverride(front, now, model, tenant).value;
        assert IsLast(rows, now, model, tenant, i);
      }
    }
  }

  /** Row `i` is the last one of the model, and says this price: prompts by input, completions by output. */
  ghost predicate Prices(catalog: seq<CatalogEntry>, model: string, i: nat, p: Price) {
    && i < |catalog| && catalog[i].id == model
    && (forall j :: i < j < |catalog| ==> catalog[j].id != model)
    && p.prompt == (match catalog[i].input case Some(r) => r case None => 0.0)
    && p.completion == (match catalog[i].output case Some(r) => r case None => 0.0)
  }

  /** A model costs what its last catalog row says; nothing exactly if it has no row. */
  lemma {:induction false} CatalogPriceIs(catalog: seq<CatalogEntry>, model: string)
    ensures var p := CatalogPrice(catalog, model);
            || (p == Price(0.0, 0.0) && forall e :: e in catalog ==> e.id != model)
            || exists i: nat :: Prices(catalog, model, i, p)
  {
    if catalog != [] {
      var n := |catalog| - 1;
      var front, p := catalog[..n], CatalogPrice(catalog, model);
      CatalogPriceIs(front, model);
      assert catalog == front + [catalog[n]];
      if catalog[n].id == model {
        assert Prices(catalog, model, n, p);
      } else if i: nat :| Prices(front, model, i, p) {
        assert Prices(catalog, model, i, p);
      }
    }
  }

  /** Where nothing overrides it, a YAML default counts as soon as one of its two prices is not zero. */
  lemma DefaultOverCatalog(s: Sources, model: string)
    requires forall o :: o in s.overrides && o.model == model ==> o.tenant.Some?
    ensures Resolve(s, model, None) ==
            if model in s.yaml && (s.yaml[model].base.prompt > 0.0 || s.yaml[model].base.completion > 0.0)
            then s.yaml[model].base
            else CatalogPrice(s.catalog, model)
  {
    hide CatalogPrice, LastOverride;
    LastOverrideIs(s.overrides, s.now, model, None);
  }

  /** No two rows in force are for the same model and tenant. */
  ghost predicate Unambiguous(rows: seq<Override>, now: int) {
    forall i, j :: 0 <= i < j < |rows| && IsEffectiveAt(rows[i], now) && IsEffectiveAt(rows[j], now) ==>
      (rows[i].model, rows[i].tenant) != (rows[j].model, rows[j].tenant)
  }

  lemma SameOverride(a: seq<Override>, b: seq<Override>, now: int, model: string, tenant: Option<string>)
    requires multiset(a) == multiset(b) && Unambiguous(a, now)
    ensures LastOverride(a, now, model, tenant) == LastOverride(b, now, model, tenant)
  {
    hide LastOverride, IsEffectiveAt;
    LastOverrideIs(a, now, model, tenant);
    LastOverrideIs(b, now, model, tenant);
    assert forall o :: o in a <==> o in multiset(a);
    assert forall o :: o in b <==> o in multiset(b);
    assert forall i: nat :: IsLast(a, now, model, tenant, i) ==> a[i] in a;
    assert forall i: nat :: IsLast(b, now, model, tenant, i) ==> b[i] in b;
    forall o, p | o in a && p in a && Applies(o, now, model, tenant) && Applies(p, now, model, tenant) ensures o == p {
      var i :| 0 <= i < |a| && a[i] == o;
      var j :| 0 <= j < |a| && a[j] == p;
      assert i == j;
    }
  }

  /** Unambiguous overrides can be listed in any order. */
  lemma OrderIrrelevant(s: Sources, rows: seq<Override>, model: string, tenant: Option<string>)
    requires multiset(s.overrides) == multiset(rows) && Unambiguous(s.overrides, s.now)
    ensures Resolve(s.(overrides := rows), model, tenant) == Resolve(s, model, tenant)
  {
    hide LastOverride, CatalogPrice, Unambiguous;
    SameOverride(s.overrides, rows, s.now, model, tenant);
    SameOverride(s.overrides, rows, s.now, model, None);
  }
}
