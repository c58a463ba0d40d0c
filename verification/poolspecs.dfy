/** What a standalone ResourcePool and a standalone Tenant must look like (validatePools in
    axisml-standalone/loader.go, validateStandaloneResourceList in resource_validation.go) and how
    units and quotas are resolved from them. */
module PoolSpecs {
  import opened Options
  import opened Resources
  import opened Decimal
  import opened VersionedStore
  import Stores

  /** Quantities are counted in nano-units, so one whole unit is this many. */
  const WHOLE := 1_000_000_000
  const GPU := "nvidia.com/gpu"

  predicate Supported(name: string) { name == "cpu" || name == "memory" || name == GPU }

  /** One resource of a list is acceptable: a supported name, not negative, and for GPUs a whole
      number that fits 64 bits. */
  predicate FineAmount(name: string, amount: int) {
    Supported(name) && amount >= 0 && (name == GPU ==> amount % WHOLE == 0 && amount / WHOLE <= MAX64)
  }

  predicate FineList(list: ResourceList) { forall r | r in list :: FineAmount(r, list[r]) }

  /** Exactly the lists of CPU, memory and whole GPUs with no negative amount are acceptable. */
  lemma FineListIff(list: ResourceList)
    ensures FineList(list) <==>
            && list.Keys <= {"cpu", "memory", "nvidia.com/gpu"} && (forall r | r in list :: list[r] >= 0)
            && ("nvidia.com/gpu" in list ==> exists k: nat :: list["nvidia.com/gpu"] == k * 1_000_000_000 && k <= MAX64)
  {
    if "nvidia.com/gpu" in list && list["nvidia.com/gpu"] >= 0 {
      var amount := list["nvidia.com/gpu"];
      var k := amount / WHOLE;
      assert amount == k * WHOLE + amount % WHOLE;
      if j: nat :| amount == j * 1_000_000_000 && j <= MAX64 { assert j == k; }
    }
  }

  datatype Unit = Unit(name: string, nodeSelector: map<string, string>, requests: ResourceList, limits: ResourceList)

  datatype PoolSpec = PoolSpec(nodeSelector: map<string, string>, capacity: ResourceList, units: seq<Unit>)

  datatype Pool = Pool(name: string, spec: PoolSpec)

  predicate FineUnit(u: Unit) {
    u.name != "" && u.nodeSelector == map[] && FineList(u.requests) && FineList(u.limits)
  }

  /** A valid pool: unrestricted nodes, fine capacity, and fine units with distinct names. */
  predicate ValidPool(name: string, spec: PoolSpec) {
    && name != "" && spec.nodeSelector == map[] && FineList(spec.capacity)
    && (forall i | 0 <= i < |spec.units| :: FineUnit(spec.units[i]))
    && (forall i, j | 0 <= i < j < |spec.units| :: spec.units[i].name != spec.units[j].name)
  }

  /** The unit part of validatePools. */
  method CheckUnits(units: seq<Unit>) returns (ok: bool)
    ensures ok <==> (forall i | 0 <= i < |units| :: FineUnit(units[i])) &&
                    (forall i, j | 0 <= i < j < |units| :: units[i].name != units[j].name)
  {
    var seen: set<string> := {};
    for k := 0 to |units|
      invariant forall i | 0 <= i < k :: FineUnit(units[i]) && units[i].name in seen
      invariant forall s | s in seen :: exists i :: 0 <= i < k && units[i].name == s
      invariant forall i, j | 0 <= i < j < k :: units[i].name != units[j].name
    {
      var u := units[k];
      if u.name == "" {
        return false;
      }
      if u.name in seen {
        return false;
      }
      seen := seen + {u.name};
      if u.nodeSelector != map[] || !FineList(u.requests) || !FineList(u.limits) {
        return false;
      }
    }
    return true;
  }

  /** validatePools: the pools are there, valid, and distinctly named. */
  method ValidatePools(pools: seq<Option<Pool>>) returns (ok: bool)
    ensures ok <==> (forall i | 0 <= i < |pools| :: pools[i].Some? && ValidPool(pools[i].value.name, pools[i].value.spec)) &&
                    (forall i, j | 0 <= i < j < |pools| :: pools[i].value.name != pools[j].value.name)
  {
    var byName: set<string> := {};
    for k := 0 to |pools|
      invariant forall i | 0 <= i < k ::
                  pools[i].Some? && ValidPool(pools[i].value.name, pools[i].value.spec) && pools[i].value.name in byName
      invariant forall s | s in byName :: exists i :: 0 <= i < k && pools[i].value.name == s
      invariant forall i, j | 0 <= i < j < k :: pools[i].value.name != pools[j].value.name
    {
      if pools[k].None? {
        return false;
      }
      var pool := pools[k].value;
      if pool.name == "" || pool.name in byName {
        return false;
      }
      byName := byName + {pool.name};
      if pool.spec.nodeSelector != map[] || !FineList(pool.spec.capacity) {
        return false;
      }
      var unitsOk := CheckUnits(pool.spec.units);
      if !unitsOk {
        return false;
      }
    }
    return true;
  }

  /** ResolveResourceUnit's loop: the first unit of that name, which in a valid pool is the only one. */
  method ResolveUnit(spec: PoolSpec, name: string) returns (unit: Option<Unit>)
    ensures unit.Some? <==> name != "" && exists i :: 0 <= i < |spec.units| && spec.units[i].name == name
    ensures unit.Some? ==> unit.value in spec.units && unit.value.name == name
  {
    if name == "" {
      return None;
    }
    for k := 0 to |spec.units|
      invariant forall i | 0 <= i < k :: spec.units[i].name != name
    {
      if spec.units[k].name == name {
        return Some(spec.units[k]);
      }
    }
    return None;
  }

  /** Over every interleaving of requests to the pool store, with any number of restarts, a unit
      name means at most one unit of a stored pool. */
  lemma UnitNamesAreUnambiguous(start: Table<PoolSpec>, requests: seq<Stores.Request<PoolSpec>>, n: string, u: Unit, v: Unit)
    requires forall m | m in start :: ValidPool(m, start[m].obj.spec)
    requires var t := Stores.ServeAll(ValidPool, true, start, requests).rows;
             n in t && u in t[n].obj.spec.units && v in t[n].obj.spec.units && u.name == v.name
    ensures u == v
  {
    Stores.AlwaysValid(ValidPool, start, requests, n);
    var units := Stores.ServeAll(ValidPool, true, start, requests).rows[n].obj.spec.units;
    var a :| 0 <= a < |units| && units[a] == u;
    var b :| 0 <= b < |units| && units[b] == v;
  }

  // ---- Tenants ----------------------------------------------------------------------------------------

  datatype Quota = Quota(pool: string, min: ResourceList, max: ResourceList)

  datatype TenantSpec = TenantSpec(quotas: seq<Quota>)

  /** validatePersistentTenantResources. */
  predicate ValidTenant(name: string, spec: TenantSpec) {
    name != "" && forall i | 0 <= i < |spec.quotas| :: FineList(spec.quotas[i].min) && FineList(spec.quotas[i].max)
  }

  /** validatePersistentTenantResources: the minimum and the maximum of every quota. */
  method CheckQuotas(quotas: seq<Quota>) returns (bad: Option<nat>)
    ensures bad == None <==> forall i | 0 <= i < |quotas| :: FineList(quotas[i].min) && FineList(quotas[i].max)
    ensures bad.Some? ==>
              && bad.value < |quotas| && !(FineList(quotas[bad.value].min) && FineList(quotas[bad.value].max))
              && forall i | 0 <= i < bad.value :: FineList(quotas[i].min) && FineList(quotas[i].max)
    ensures forall name :: ValidTenant(name, TenantSpec(quotas)) <==> name != "" && bad == None
  {
    for k := 0 to |quotas|
      invariant forall i | 0 <= i < k :: FineList(quotas[i].min) && FineList(quotas[i].max)
    {
      if !FineList(quotas[k].min) || !FineList(quotas[k].max) {
        return Some(k);
      }
    }
    return None;
  }

  datatype QuotaReply = Max(list: ResourceList) | NameMissing | NoTenant | NoQuota

  /** ResolveQuota: the hard maximum of the live tenant's first quota for the pool, or exactly why
      there is none. */
  method ResolveQuota(t: Table<TenantSpec>, tenant: string, pool: string) returns (reply: QuotaReply)
    ensures reply == NameMissing <==> tenant == "" || pool == ""
    ensures reply == NoTenant <==> tenant != "" && pool != "" && !Live(t, tenant)
    ensures reply == NoQuota <==>
            && tenant != "" && pool != "" && Live(t, tenant)
            && forall i | 0 <= i < |t[tenant].obj.spec.quotas| :: t[tenant].obj.spec.quotas[i].pool != pool
    ensures reply.Max? ==>
              exists i :: 0 <= i < |t[tenant].obj.spec.quotas| && t[tenant].obj.spec.quotas[i].pool == pool &&
                          reply.list == t[tenant].obj.spec.quotas[i].max &&
                          forall j | 0 <= j < i :: t[tenant].obj.spec.quotas[j].pool != pool
  {
    if tenant == "" || pool == "" {
      return NameMissing;
    }
    if !Live(t, tenant) {
      return NoTenant;
    }
    var quotas := t[tenant].obj.spec.quotas;
    for k := 0 to |quotas|
      invariant forall j | 0 <= j < k :: quotas[j].pool != pool
    {
      if quotas[k].pool == pool {
        return Max(quotas[k].max);
      }
    }
    return NoQuota;
  }

  /** The tenant store does not validate patches: a patch of a valid tenant can store a quota the
      store would refuse to create. It stays valid exactly when the patch itself is. */
  lemma TenantPatchValidIff(t: Table<TenantSpec>, o: Object<TenantSpec>, base: Object<TenantSpec>)
    requires PatchHits(t, o, base) && forall m | m in t :: ValidTenant(m, t[m].obj.spec)
    ensures (forall m | m in Patched(t, o, base) :: ValidTenant(m, Patched(t, o, base)[m].obj.spec)) <==>
            ValidTenant(o.name, o.spec)
  {
    var t' := Patched(t, o, base);
    assert o.name in t' && t'[o.name].obj.spec == o.spec;
  }

  lemma TenantPatchCanBeInvalid(base: Object<TenantSpec>)
    requires base.name != "" && base.version == "1" && ValidTenant(base.name, base.spec)
    ensures var t := map[base.name := Row(base, 1, false)];
            var o := base.(spec := TenantSpec([Quota("p", map[], map["cpu" := -1])]));
            PatchHits(t, o, base) && !ValidTenant(o.name, Patched(t, o, base)[o.name].obj.spec)
  {
    ParseFormat(1);
    assert Format(1) == "1";
    var o := base.(spec := TenantSpec([Quota("p", map[], map["cpu" := -1])]));
    var bad: ResourceList := map["cpu" := -1];
    assert !FineAmount("cpu", bad["cpu"]);
    assert o.spec.quotas[0].max == bad;
  }
}
