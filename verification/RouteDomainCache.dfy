/** The route-domain cache: tenant subnets are placed first-fit into route domains so
    that overlapping subnets never share one.

    The cache is the source's nested dictionary (tenant, route domain, network short
    name, subnet id).  Python leaves the order in which a tenant's route domains are
    tried open, so each placement takes that order as an argument. */
module RouteDomainCache {
  import opened Cidr
  import opened RouteDomainIds

  type Tenant = string
  type SubnetId = string

  /** `<network type>-<segmentation id>`, kept as the pair. */
  datatype NetName = NetName(networkType: string, segmentationId: nat)

  datatype Network = Network(networkType: string, segmentationId: nat, common: bool)

  datatype Subnet = Subnet(id: SubnetId, cidr: Cidr)

  type RdEntry = map<NetName, map<SubnetId, Cidr>>
  type TenantEntry = map<Rd, RdEntry>
  type Cache = map<Tenant, TenantEntry>

  /** The cache together with the route-domain ids present on each device. */
  datatype State = State(cache: Cache, devices: seq<set<Rd>>)

  /** `tenantRd` is the id of the tenant's own route domain, read from the device when a
      tenant may have only one. */
  datatype Config = Config(maxNamespaces: int, tenantRd: Rd)

  datatype AssignResult =
    | Assigned(rd: Rd)
    | InvalidNetworkType
    | UnknownTenant         // KeyError: the tenant was never loaded
    | CannotAllocate
    | NoDefaultDomain       // ValueError from the id allocator
    | CreationFailed        // a device failed to create the route domain

  predicate Named(n: Network) {
    n.networkType != "" && n.segmentationId != 0
  }

  function ShortName(n: Network): NetName {
    NetName(n.networkType, n.segmentationId)
  }

  /** The route domain lists the network. */
  predicate Holds(c: Cache, t: Tenant, r: Rd, n: NetName) {
    t in c && r in c[t] && n in c[t][r]
  }

  ghost predicate Cached(c: Cache, n: NetName) {
    exists t, r :: Holds(c, t, r, n)
  }

  /** The entry records the subnet under some network. */
  predicate Lists(e: RdEntry, n: NetName, s: Subnet) {
    n in e && s.id in e[n] && e[n][s.id] == s.cidr
  }

  /** Some other subnet of the route domain overlaps `s`. */
  ghost predicate Conflicts(e: RdEntry, s: Subnet) {
    exists n, x :: Lists(e, n, x) && x.id != s.id && Overlaps(x.cidr, s.cidr)
  }

  ghost predicate IsOrder(order: seq<Rd>, keys: set<Rd>) {
    && (forall r :: r in order <==> r in keys)
    && forall i, j :: 0 <= i < j < |order| ==> order[i] != order[j]
  }

  /** `r` is the first route domain in `order` with room for `s`. */
  ghost predicate FirstFree(te: TenantEntry, order: seq<Rd>, s: Subnet, r: Rd) {
    exists i :: 0 <= i < |order| && FreeAt(te, order, s, i) && order[i] == r
  }

  ghost predicate FreeAt(te: TenantEntry, order: seq<Rd>, s: Subnet, i: nat)
    requires i < |order|
  {
    && order[i] in te && !Conflicts(te[order[i]], s)
    && forall j :: 0 <= j < i ==> order[j] in te && Conflicts(te[order[j]], s)
  }

  ghost predicate Full(te: TenantEntry, s: Subnet) {
    forall r :: r in te ==> Conflicts(te[r], s)
  }

  /** Record subnet `s` of network `n` in route domain `r`, opening `r` if it is new. */
  function Place(c: Cache, t: Tenant, r: Rd, n: NetName, s: Subnet): Cache
    requires t in c
  {
    var e: RdEntry := if r in c[t] then c[t][r] else map[];
    var subnets: map<SubnetId, Cidr> := if n in e then e[n] else map[];
    var placed: RdEntry := e[n := subnets[s.id := s.cidr]];
    var te: TenantEntry := c[t][r := placed];
    c[t := te]
  }

  /** What one call of `assign_route_domain` may do. */
  ghost predicate AssignStep(conf: Config, before: State, t: Tenant, network: Network,
                             s: Subnet, order: seq<Rd>, after: State, res: AssignResult)
  {
    var n := ShortName(network);
    if network.common then
      after == before && res == Assigned(0)
    else if !Named(network) then
      after == before && res == InvalidNetworkType
    else if Cached(before.cache, n) then
      after == before && res.Assigned? && exists u :: Holds(before.cache, u, res.rd, n)
    else if conf.maxNamespaces == 1 then
      after == before && res == Assigned(conf.tenantRd)
    else if t !in before.cache then
      after == before && res == UnknownTenant
    else if !Full(before.cache[t], s) then
      && res.Assigned? && FirstFree(before.cache[t], order, s, res.rd)
      && after == before.(cache := Place(before.cache, t, res.rd, n, s))
    else if |before.cache[t]| >= conf.maxNamespaces then
      after == before && res == CannotAllocate
    else if !Used(before.devices, 0) then
      after == before && res == NoDefaultDomain
    else if res == CreationFailed then
      after.cache == before.cache && exists r, k :: CreatedOnSome(before.devices, r, k, after.devices)
    else
      && res.Assigned? && LeastFree(before.devices, res.rd)
      && after.devices == WithDomain(before.devices, res.rd)
      && after.cache == Place(OpenDomain(before.cache, t, res.rd), t, res.rd, n, s)
  }

  /** The next id was created on the first `k` devices, and device `k` failed. */
  ghost predicate CreatedOnSome(before: seq<set<Rd>>, r: Rd, k: nat, after: seq<set<Rd>>) {
    && LeastFree(before, r) && k < |before| == |after|
    && forall d :: 0 <= d < |after| ==> after[d] == if d < k then before[d] + {r} else before[d]
  }

  /** Create the route domain on every device. */
  function WithDomain(devices: seq<set<Rd>>, r: Rd): (out: seq<set<Rd>>)
    ensures |out| == |devices|
    ensures forall d :: 0 <= d < |devices| ==> out[d] == devices[d] + {r}
  {
    seq(|devices|, d requires 0 <= d < |devices| => devices[d] + {r})
  }

  /** `rds_cache[tenant][rd] = {}`, which would overwrite an entry already there. */
  function OpenDomain(c: Cache, t: Tenant, r: Rd): Cache
    requires t in c
  {
    var te: TenantEntry := c[t][r := map[]];
    c[t := te]
  }

  /** One route-domain entry with the subnet taken out of the network, and the network
      dropped when that was its last subnet. */
  function RemoveFromDomain(e: RdEntry, n: NetName, id: SubnetId): RdEntry {
    if n !in e || id !in e[n] then e
    else if e[n] - {id} == map[] then e - {n}
    else e[n := e[n] - {id}]
  }

  function RemoveFromTenant(te: TenantEntry, n: NetName, id: SubnetId): TenantEntry {
    map r | r in te && RemoveFromDomain(te[r], n, id) != map[] :: RemoveFromDomain(te[r], n, id)
  }

  function Remove(c: Cache, n: NetName, id: SubnetId): Cache {
    map t | t in c :: RemoveFromTenant(c[t], n, id)
  }

  /** What one call of `remove_from_rds_cache` does. */
  predicate RemoveStep(before: Cache, network: Network, id: SubnetId, after: Cache) {
    after == if Named(network) then Remove(before, ShortName(network), id) else before
  }

  class NetworkServiceBuilder {
    const conf: Config
    var rdsCache: Cache
    var devices: seq<set<Rd>>

    constructor (conf: Config, devices: seq<set<Rd>>)
      ensures this.conf == conf && Now() == State(map[], devices)
    {
      this.conf := conf;
      this.devices := devices;
      rdsCache := map[];
    }

    function Now(): State
      reads this
    {
      State(rdsCache, devices)
    }

    /** First caching of a tenant, with the entry read back from the devices. */
    method UpdateRdsCache(tenant: Tenant, loaded: TenantEntry)
      modifies this`rdsCache
      ensures rdsCache == if tenant in old(rdsCache) then old(rdsCache) else old(rdsCache)[tenant := loaded]
    {
      if tenant !in rdsCache {
        rdsCache := rdsCache[tenant := loaded];
      }
    }

    method GetRouteDomainFromCache(n: NetName) returns (hit: bool, rd: Rd)
      ensures hit <==> Cached(rdsCache, n)
      ensures hit ==> exists t :: Holds(rdsCache, t, rd, n)
    {
      hit, rd := false, 0;
      var tenants := rdsCache.Keys;
      while tenants != {}
        invariant tenants <= rdsCache.Keys
        invariant forall t, r :: Holds(rdsCache, t, r, n) ==> t in tenants
        decreases |tenants|
      {
        var t :| t in tenants;
        var rds := rdsCache[t].Keys;
        while rds != {}
          invariant rds <= rdsCache[t].Keys
          invariant forall r :: Holds(rdsCache, t, r, n) ==> r in rds
          decreases |rds|
        {
          var r :| r in rds;
          if n in rdsCache[t][r] {
            assert Holds(rdsCache, t, r, n);
            return true, r;
          }
          rds := rds - {r};
        }
        tenants := tenants - {t};
      }
    }

    /** The scan of one route domain for an overlapping subnet. */
    method FindOverlap(e: RdEntry, s: Subnet) returns (overlapping: bool)
      ensures overlapping <==> Conflicts(e, s)
    {
      overlapping := false;
      var nets := e.Keys;
      while nets != {}
        invariant nets <= e.Keys
        invariant forall n, x :: Lists(e, n, x) && n !in nets && x.id != s.id ==> !Overlaps(x.cidr, s.cidr)
        decreases |nets|
      {
        var n :| n in nets;
        var ids := e[n].Keys;
        while ids != {}
          invariant ids <= e[n].Keys
          invariant forall id :: id in e[n] && id !in ids && id != s.id ==> !Overlaps(e[n][id], s.cidr)
          decreases |ids|
        {
          var id :| id in ids;
          if id != s.id && (Contains(e[n][id], s.cidr) || Contains(s.cidr, e[n][id])) {
            assert Lists(e, n, Subnet(id, e[n][id]));
            return true;
          }
          ids := ids - {id};
        }
        nets := nets - {n};
      }
    }

    /** The next id on every device; a device may fail, and then the ones before keep it. */
    method CreateAuxRd() returns (r: DomainId, failed: bool)
      modifies this`devices
      ensures r != OutOfOrder
      ensures r == DefaultDomainMissing <==> !Used(old(devices), 0)
      ensures r == DefaultDomainMissing ==> devices == old(devices) && !failed
      ensures r.Next? ==> LeastFree(old(devices), r.id)
      ensures r.Next? && !failed ==> devices == WithDomain(old(devices), r.id)
      ensures r.Next? && failed ==> exists k :: CreatedOnSome(old(devices), r.id, k, devices)
    {
      failed := false;
      r := GetNextDomainId(devices);
      if r.Next? {
        for d := 0 to |devices|
          invariant |devices| == |old(devices)|
          invariant forall k :: 0 <= k < d ==> devices[k] == old(devices)[k] + {r.id}
          invariant forall k :: d <= k < |devices| ==> devices[k] == old(devices)[k]
        {
          failed := *;
          if failed {
            assert CreatedOnSome(old(devices), r.id, d, devices);
            return;
          }
          devices := devices[d := devices[d] + {r.id}];
        }
        failed := false;
      }
    }

    /** Gives the network a route domain.  The result is what `network['route_domain_id']`
        is set to, or the exception raised. */
    method AssignRouteDomain(tenant: Tenant, network: Network, subnet: Subnet, order: seq<Rd>)
      returns (res: AssignResult)
      requires tenant in rdsCache ==> IsOrder(order, rdsCache[tenant].Keys)
      modifies this`rdsCache, this`devices
      ensures AssignStep(conf, old(Now()), tenant, network, subnet, order, Now(), res)
    {
      if network.common {
        return Assigned(0);
      }
      if !Named(network) {
        return InvalidNetworkType;
      }
      var hit, cachedRd := GetRouteDomainFromCache(ShortName(network));
      if hit {
        return Assigned(cachedRd);
      }
      if conf.maxNamespaces == 1 {
        return Assigned(conf.tenantRd);
      }
      if tenant !in rdsCache {
        return UnknownTenant;
      }
      var placed := false;
      var rd: Rd := 0;
      var i := 0;
      while i < |order|
        invariant 0 <= i <= |order| && !placed && Now() == old(Now())
        invariant forall j :: 0 <= j < i ==> Conflicts(rdsCache[tenant][order[j]], subnet)
      {
        var overlapping := FindOverlap(rdsCache[tenant][order[i]], subnet);
        if !overlapping {
          placed, rd := true, order[i];
          assert FreeAt(rdsCache[tenant], order, subnet, i);
          break;
        }
        i := i + 1;
      }
      if !placed {
        if |rdsCache[tenant]| < conf.maxNamespaces {
          var next, failed := CreateAuxRd();
          if next == DefaultDomainMissing {
            return NoDefaultDomain;
          }
          if failed {
            return CreationFailed;
          }
          rd := next.id;
          rdsCache := OpenDomain(rdsCache, tenant, rd);
        } else {
          return CannotAllocate;
        }
      }
      rdsCache := Place(rdsCache, tenant, rd, ShortName(network), subnet);
      return Assigned(rd);
    }

    method RemoveFromRdsCache(network: Network, id: SubnetId)
      modifies this`rdsCache
      ensures RemoveStep(old(rdsCache), network, id, rdsCache)
    {
      if !Named(network) {
        return;
      }
      var n := ShortName(network);
      var tenants := rdsCache.Keys;
      while tenants != {}
        invariant rdsCache.Keys == old(rdsCache).Keys && tenants <= rdsCache.Keys
        invariant forall t :: t in rdsCache ==>
                    rdsCache[t] == if t in tenants then old(rdsCache)[t] else RemoveFromTenant(old(rdsCache)[t], n, id)
        decreases |tenants|
      {
        var t :| t in tenants;
        var entry := RemoveNetwork(rdsCache[t], n, id);
        rdsCache := rdsCache[t := entry];
        tenants := tenants - {t};
      }
    }

    method RemoveSubnet(e: RdEntry, n: NetName, id: SubnetId) returns (r: RdEntry)
      ensures r == RemoveFromDomain(e, n, id)
    {
      r := e;
      if n in e && id in e[n] {
        var subnets: map<SubnetId, Cidr> := e[n] - {id};
        if |subnets| == 0 {
          r := r - {n};
        } else {
          r := r[n := subnets];
        }
      }
    }

    /** One round of the removal loop: first the subnet in every route domain of the
        tenant, then the route domains left empty. */
    method RemoveNetwork(was: TenantEntry, n: NetName, id: SubnetId) returns (entry: TenantEntry)
      ensures entry == RemoveFromTenant(was, n, id)
    {
      entry := was;
      var deleted: set<Rd> := {};
      var rds := was.Keys;
      while rds != {}
        invariant Removing(was, n, id, rds, entry, deleted)
        decreases |rds|
      {
        var r :| r in rds;
        var e := RemoveSubnet(entry[r], n, id);
        RemovingNext(was, n, id, rds, entry, deleted, r, e);
        entry := entry[r := e];
        if |e| == 0 {
          deleted := deleted + {r};
        }
        rds := rds - {r};
      }
      entry := entry - deleted;
    }
  }

  /** The route domains outside `rds` are done, those left empty are to be deleted. */
  ghost predicate Removing(was: TenantEntry, n: NetName, id: SubnetId, rds: set<Rd>, entry: TenantEntry,
                           deleted: set<Rd>)
  {
    && rds <= was.Keys == entry.Keys
    && (forall r :: r in was ==> entry[r] == if r in rds then was[r] else RemoveFromDomain(was[r], n, id))
    && (forall r :: r in deleted <==> r in was && r !in rds && entry[r] == map[])
  }

  lemma RemovingNext(was: TenantEntry, n: NetName, id: SubnetId, rds: set<Rd>, entry: TenantEntry, deleted: set<Rd>,
                     r: Rd, e: RdEntry)
    requires Removing(was, n, id, rds, entry, deleted) && r in rds && e == RemoveFromDomain(was[r], n, id)
    ensures Removing(was, n, id, rds - {r}, entry[r := e], if |e| == 0 then deleted + {r} else deleted)
  {
  }
}
