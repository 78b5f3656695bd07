/** What the route-domain cache keeps over every run of placements and removals. */
module RouteDomainLaws {
  import opened Cidr
  import opened RouteDomainIds
  import opened RouteDomainCache

  /** Subnet `x` is recorded under network `n` in route domain `r` of tenant `t`. */
  ghost predicate At(c: Cache, t: Tenant, r: Rd, n: NetName, x: Subnet) {
    t in c && r in c[t] && Lists(c[t][r], n, x)
  }

  /** Different subnets of one route domain do not overlap. */
  ghost predicate DisjointDomains(c: Cache) {
    forall t, r, n, m, x, y ::
      At(c, t, r, n, x) && At(c, t, r, m, y) && x.id != y.id ==> !Overlaps(x.cidr, y.cidr)
  }

  /** A network sits in at most one route domain of one tenant. */
  ghost predicate OneDomain(c: Cache) {
    forall t, u, r, q, n :: Holds(c, t, r, n) && Holds(c, u, q, n) ==> t == u && r == q
  }

  ghost predicate NoEmptyDomain(c: Cache) {
    forall t, r :: t in c && r in c[t] ==> c[t][r] != map[]
  }

  /** Every cached route domain exists on a device. */
  ghost predicate OnDevices(st: State) {
    forall t, r :: t in st.cache && r in st.cache[t] ==> Used(st.devices, r)
  }

  ghost predicate WithinCap(conf: Config, c: Cache) {
    forall t :: t in c ==> c[t] == map[] || |c[t]| <= conf.maxNamespaces
  }

  ghost predicate Inv(conf: Config, st: State) {
    && DisjointDomains(st.cache) && OneDomain(st.cache) && NoEmptyDomain(st.cache)
    && OnDevices(st) && WithinCap(conf, st.cache)
  }

  /** Under the invariant no address belongs to two different subnets of a route domain. */
  lemma NoSharedAddress(conf: Config, st: State, t: Tenant, r: Rd, n: NetName, m: NetName,
                        x: Subnet, y: Subnet, a: Address)
    requires Inv(conf, st)
    requires At(st.cache, t, r, n, x) && At(st.cache, t, r, m, y) && x.id != y.id
    ensures !(Covers(x.cidr, a) && Covers(y.cidr, a))
  {
    OverlapIsSharedAddress(x.cidr, y.cidr);
  }

  // ----- Single steps

  /** Placing a network that the cache does not know adds exactly one record. */
  lemma PlaceAddsOne(c: Cache, t: Tenant, r: Rd, n: NetName, s: Subnet)
    requires t in c && !Cached(c, n)
    ensures forall u, q, m ::
              Holds(Place(c, t, r, n, s), u, q, m) <==> Holds(c, u, q, m) || (u == t && q == r && m == n)
    ensures forall u, q, m, x ::
              At(Place(c, t, r, n, s), u, q, m, x) <==> At(c, u, q, m, x) || (u == t && q == r && m == n && x == s)
  {
    var d := Place(c, t, r, n, s);
    forall q
      ensures q in c[t] ==> !Holds(c, t, q, n)
    {
    }
    assert d[t][r] == (if r in c[t] then c[t][r] else map[])[n := map[s.id := s.cidr]];
    forall u: Tenant, q: Rd, m: NetName, x: Subnet
      ensures At(d, u, q, m, x) <==> At(c, u, q, m, x) || (u == t && q == r && m == n && x == s)
    {
      if At(d, u, q, m, x) && (u == t && q == r && m == n) {
        assert x == s;
      }
    }
  }

  /** A newly allocated id is not cached, so opening its entry overwrites nothing. */
  lemma FreshDomain(conf: Config, st: State, t: Tenant, r: Rd)
    requires Inv(conf, st) && t in st.cache && LeastFree(st.devices, r)
    ensures forall u :: u in st.cache ==> r !in st.cache[u]
  {
  }

  lemma OpenThenPlace(c: Cache, t: Tenant, r: Rd, n: NetName, s: Subnet)
    requires t in c && r !in c[t]
    ensures Place(OpenDomain(c, t, r), t, r, n, s) == Place(c, t, r, n, s)
  {
    var o := OpenDomain(c, t, r);
    assert c[t][r := map[]][r := Place(c, t, r, n, s)[t][r]] == c[t][r := Place(c, t, r, n, s)[t][r]];
  }

  /** A placement puts the network into a route domain without conflict, and does nothing else. */
  lemma PlacementEffect(conf: Config, st: State, t: Tenant, network: Network, s: Subnet, order: seq<Rd>,
                        st': State, res: AssignResult)
    requires Inv(conf, st) && AssignStep(conf, st, t, network, s, order, st', res) && st'.cache != st.cache
    ensures res.Assigned? && t in st.cache && !Cached(st.cache, ShortName(network))
    ensures st'.cache == Place(st.cache, t, res.rd, ShortName(network), s)
    ensures res.rd in st.cache[t] ==> !Conflicts(st.cache[t][res.rd], s) && st'.devices == st.devices
    ensures res.rd !in st.cache[t] ==>
              && Full(st.cache[t], s) && |st.cache[t]| < conf.maxNamespaces
              && LeastFree(st.devices, res.rd) && st'.devices == WithDomain(st.devices, res.rd)
  {
    if Full(st.cache[t], s) {
      FreshDomain(conf, st, t, res.rd);
      OpenThenPlace(st.cache, t, res.rd, ShortName(network), s);
    }
  }

  lemma AssignKeepsDisjoint(conf: Config, st: State, t: Tenant, network: Network, s: Subnet, order: seq<Rd>,
                            st': State, res: AssignResult)
    requires Inv(conf, st) && AssignStep(conf, st, t, network, s, order, st', res) && st'.cache != st.cache
    ensures DisjointDomains(st'.cache)
  {
    PlacementEffect(conf, st, t, network, s, order, st', res);
    var name := ShortName(network);
    PlaceAddsOne(st.cache, t, res.rd, name, s);
    forall u, r, n, m, x, y | At(st'.cache, u, r, n, x) && At(st'.cache, u, r, m, y) && x.id != y.id
      ensures !Overlaps(x.cidr, y.cidr)
    {
      if At(st.cache, u, r, n, x) && At(st.cache, u, r, m, y) {
      } else if At(st.cache, u, r, n, x) {
        assert (u, r, m, y) == (t, res.rd, name, s) && Lists(st.cache[t][r], n, x);
      } else {
        assert (u, r, n, x) == (t, res.rd, name, s) && Lists(st.cache[t][r], m, y);
      }
    }
  }

  lemma AssignKeepsOneDomain(conf: Config, st: State, t: Tenant, network: Network, s: Subnet, order: seq<Rd>,
                             st': State, res: AssignResult)
    requires Inv(conf, st) && AssignStep(conf, st, t, network, s, order, st', res) && st'.cache != st.cache
    ensures OneDomain(st'.cache) && NoEmptyDomain(st'.cache)
  {
    PlacementEffect(conf, st, t, network, s, order, st', res);
    var name := ShortName(network);
    PlaceAddsOne(st.cache, t, res.rd, name, s);
    assert forall u, r :: !Holds(st.cache, u, r, name);
    forall u, r | u in st'.cache && r in st'.cache[u]
      ensures st'.cache[u][r] != map[]
    {
      if u == t && r == res.rd {
        assert name in st'.cache[u][r];
      }
    }
  }

  lemma AssignKeepsBounds(conf: Config, st: State, t: Tenant, network: Network, s: Subnet, order: seq<Rd>,
                          st': State, res: AssignResult)
    requires Inv(conf, st) && AssignStep(conf, st, t, network, s, order, st', res) && st'.cache != st.cache
    ensures OnDevices(st') && WithinCap(conf, st'.cache)
  {
    PlacementEffect(conf, st, t, network, s, order, st', res);
    UsedGrows(st.devices, st'.devices, res.rd);
    assert st'.cache[t].Keys == st.cache[t].Keys + {res.rd};
    OneMoreKey(st.cache[t], st'.cache[t], res.rd);
  }

  lemma OneMoreKey(before: TenantEntry, after: TenantEntry, r: Rd)
    requires after.Keys == before.Keys + {r}
    ensures |after| == |before| + if r in before then 0 else 1
  {
    assert |after.Keys| == |after| && |before.Keys| == |before|;
    if r in before {
      assert before.Keys + {r} == before.Keys;
    }
  }

  lemma AssignKeepsInv(conf: Config, st: State, t: Tenant, network: Network, s: Subnet, order: seq<Rd>,
                       st': State, res: AssignResult)
    requires Inv(conf, st) && AssignStep(conf, st, t, network, s, order, st', res)
    ensures Inv(conf, st')
  {
    if st'.cache != st.cache {
      AssignKeepsDisjoint(conf, st, t, network, s, order, st', res);
      AssignKeepsOneDomain(conf, st, t, network, s, order, st', res);
      AssignKeepsBounds(conf, st, t, network, s, order, st', res);
    } else if st' != st {
      OnlyMoreUsed(conf, st, t, network, s, order, st', res);
    }
  }

  /** Where the cache stays the same, the devices can only have gained an unused id. */
  lemma OnlyMoreUsed(conf: Config, st: State, t: Tenant, network: Network, s: Subnet, order: seq<Rd>,
                     st': State, res: AssignResult)
    requires Inv(conf, st) && AssignStep(conf, st, t, network, s, order, st', res) && st'.cache == st.cache
    ensures res == CreationFailed || st' == st
    ensures forall q :: Used(st.devices, q) ==> Used(st'.devices, q)
  {
    if res != CreationFailed && st' != st {
      PlacementAdds(conf, st, t, network, s, order, st', res);
    }
    if st' != st {
      var r, k :| CreatedOnSome(st.devices, r, k, st'.devices);
      forall q | Used(st.devices, q)
        ensures Used(st'.devices, q)
      {
        var d :| 0 <= d < |st.devices| && q in st.devices[d];
        assert q in st'.devices[d];
      }
    }
  }

  /** A network that gets its own route domain was not in the cache and now is. */
  lemma PlacementAdds(conf: Config, st: State, t: Tenant, network: Network, s: Subnet, order: seq<Rd>,
                      st': State, res: AssignResult)
    requires Inv(conf, st) && AssignStep(conf, st, t, network, s, order, st', res) && st' != st && res != CreationFailed
    ensures st'.cache != st.cache
  {
    var n := ShortName(network);
    assert !Cached(st.cache, n) && t in st.cache && res.Assigned?;
    if Full(st.cache[t], s) {
      FreshDomain(conf, st, t, res.rd);
      OpenThenPlace(st.cache, t, res.rd, n, s);
    }
    PlaceAddsOne(st.cache, t, res.rd, n, s);
    assert Holds(st'.cache, t, res.rd, n) && !Holds(st.cache, t, res.rd, n);
  }

  lemma UsedGrows(devices: seq<set<Rd>>, devices': seq<set<Rd>>, r: Rd)
    requires devices' == devices || (Used(devices, 0) && devices' == WithDomain(devices, r))
    ensures forall q :: Used(devices, q) ==> Used(devices', q)
    ensures devices' != devices ==> Used(devices', r)
  {
    forall q | Used(devices, q)
      ensures Used(devices', q)
    {
      var d :| 0 <= d < |devices| && q in devices[d];
      assert q in devices'[d];
    }
    if devices' != devices {
      assert r in devices'[0];
    }
  }

  /** A removal takes exactly one record out of every route domain; a network stays unless that
      was its only subnet, and a route domain stays exactly when a network is left in it. */
  lemma RemoveEffect(c: Cache, n: NetName, id: SubnetId)
    ensures forall t :: t in Remove(c, n, id) <==> t in c
    ensures forall t, r, m, x :: At(Remove(c, n, id), t, r, m, x) <==> At(c, t, r, m, x) && !(m == n && x.id == id)
    ensures forall t, r, m ::
              Holds(Remove(c, n, id), t, r, m) <==> Holds(c, t, r, m) && !(m == n && c[t][r][m].Keys == {id})
    ensures forall t, r :: t in c ==>
              (r in Remove(c, n, id)[t] <==> exists m :: Holds(Remove(c, n, id), t, r, m))
  {
    var d := Remove(c, n, id);
    forall t, r | t in c && r in c[t]
      ensures forall m :: Holds(d, t, r, m) <==> m in c[t][r] && !(m == n && c[t][r][m].Keys == {id})
      ensures forall m, x :: At(d, t, r, m, x) <==> Lists(c[t][r], m, x) && !(m == n && x.id == id)
      ensures r in d[t] ==> d[t][r] != map[]
    {
      DomainEffect(c[t][r], n, id);
    }
    forall t, r | t in c && r in d[t]
      ensures exists m :: Holds(d, t, r, m)
    {
      var m :| m in d[t][r];
      assert Holds(d, t, r, m);
    }
  }

  lemma DomainEffect(e: RdEntry, n: NetName, id: SubnetId)
    ensures forall m :: m in RemoveFromDomain(e, n, id) <==> m in e && !(m == n && e[m].Keys == {id})
    ensures forall m, x :: Lists(RemoveFromDomain(e, n, id), m, x) <==> Lists(e, m, x) && !(m == n && x.id == id)
  {
    if n in e && id in e[n] {
      var left := e[n] - {id};
      assert forall k :: k in left <==> k in e[n] && k != id;
      if left == map[] {
        assert e[n].Keys == {id};
      } else {
        var k :| k in left;
        assert k in e[n].Keys;
      }
    }
  }

  lemma RemoveKeepsInv(conf: Config, st: State, n: NetName, id: SubnetId)
    requires Inv(conf, st)
    ensures Inv(conf, st.(cache := Remove(st.cache, n, id)))
  {
    RemoveEffect(st.cache, n, id);
    var c := Remove(st.cache, n, id);
    forall t | t in c
      ensures c[t] == map[] || |c[t]| <= conf.maxNamespaces
    {
      assert c[t].Keys <= st.cache[t].Keys;
      CardinalityMonotone(c[t].Keys, st.cache[t].Keys);
      assert |c[t].Keys| == |c[t]| && |st.cache[t].Keys| == |st.cache[t]|;
    }
  }

  lemma CardinalityMonotone(a: set<Rd>, b: set<Rd>)
    requires a <= b
    ensures |a| <= |b|
  {
    assert b == a + (b - a);
  }

  // ----- Placement results

  /** Some record of another subnet in the route domain shares addresses with the subnet. */
  ghost predicate Blocked(c: Cache, t: Tenant, r: Rd, s: Subnet) {
    exists n, x :: At(c, t, r, n, x) && x.id != s.id && Overlaps(x.cidr, s.cidr)
  }

  ghost predicate AllBlocked(c: Cache, t: Tenant, s: Subnet)
    requires t in c
  {
    forall r :: r in c[t] ==> Blocked(c, t, r, s)
  }

  lemma BlockedIs(c: Cache, t: Tenant, s: Subnet)
    requires t in c
    ensures Full(c[t], s) <==> AllBlocked(c, t, s)
  {
    forall r | r in c[t]
      ensures Conflicts(c[t][r], s) <==> Blocked(c, t, r, s)
    {
      if Conflicts(c[t][r], s) {
        var n, x :| Lists(c[t][r], n, x) && x.id != s.id && Overlaps(x.cidr, s.cidr);
        assert At(c, t, r, n, x);
      }
    }
  }

  /** Every way in which an assignment can end without a placement, and when: the order in
      which the source looks at its arguments, the cache and the devices. */
  lemma AllocationIsExact(conf: Config, st: State, t: Tenant, network: Network, s: Subnet, order: seq<Rd>,
                          st': State, res: AssignResult)
    requires AssignStep(conf, st, t, network, s, order, st', res)
    ensures var name := NetName(network.networkType, network.segmentationId);
            var valid := network.networkType != "" && network.segmentationId != 0;
            var unknown := !network.common && valid && forall u, r :: !Holds(st.cache, u, r, name);
            var searched := unknown && conf.maxNamespaces != 1 && t in st.cache;
            var another := searched && AllBlocked(st.cache, t, s) && |st.cache[t]| < conf.maxNamespaces;
            && (network.common ==> res == Assigned(0))
            && (res == InvalidNetworkType <==> !network.common && !valid)
            && (!network.common && valid && !unknown ==> res.Assigned? && exists u :: Holds(st.cache, u, res.rd, name))
            && (unknown && conf.maxNamespaces == 1 ==> res == Assigned(conf.tenantRd))
            && (res == UnknownTenant <==> unknown && conf.maxNamespaces != 1 && t !in st.cache)
            && (res == CannotAllocate <==>
                searched && AllBlocked(st.cache, t, s) && conf.maxNamespaces <= |st.cache[t]|)
            && (res == NoDefaultDomain <==> another && forall d :: 0 <= d < |st.devices| ==> 0 !in st.devices[d])
            && (searched && res.Assigned? ==> At(st'.cache, t, res.rd, name, s))
            && (!(searched && res.Assigned?) ==>
                  st'.cache == st.cache && (res != CreationFailed ==> st'.devices == st.devices))
  {
    if t in st.cache {
      BlockedIs(st.cache, t, s);
    }
  }

  /** Removing a network just placed gives back exactly the earlier cache. */
  lemma PlaceThenRemove(conf: Config, st: State, t: Tenant, network: Network, s: Subnet, order: seq<Rd>,
                        st': State, res: AssignResult, after: Cache)
    requires Inv(conf, st) && AssignStep(conf, st, t, network, s, order, st', res) && st'.cache != st.cache
    requires RemoveStep(st'.cache, network, s.id, after)
    ensures after == st.cache
  {
    PlacementEffect(conf, st, t, network, s, order, st', res);
    var n := ShortName(network);
    forall u, r | u in st.cache && r in st.cache[u]
      ensures n !in st.cache[u][r]
    {
      assert !Holds(st.cache, u, r, n);
    }
    RemoveUndoesPlace(st.cache, t, res.rd, n, s);
  }

  lemma RemoveUndoesPlace(c: Cache, t: Tenant, r: Rd, n: NetName, s: Subnet)
    requires t in c && NoEmptyDomain(c)
    requires forall u, q :: u in c && q in c[u] ==> n !in c[u][q]
    ensures Remove(Place(c, t, r, n, s), n, s.id) == c
  {
    var d := Place(c, t, r, n, s);
    forall u | u in c
      ensures RemoveFromTenant(d[u], n, s.id) == c[u]
    {
      if u == t {
        RemoveUndoesRecord(c[t], r, n, s);
      } else {
        NothingToRemove(c[u], n, s.id);
      }
    }
    assert Remove(d, n, s.id).Keys == c.Keys;
  }

  lemma NothingToRemove(te: TenantEntry, n: NetName, id: SubnetId)
    requires forall q :: q in te ==> n !in te[q] && te[q] != map[]
    ensures RemoveFromTenant(te, n, id) == te
  {
  }

  lemma RemoveUndoesRecord(te: TenantEntry, r: Rd, n: NetName, s: Subnet)
    requires forall q :: q in te ==> n !in te[q] && te[q] != map[]
    ensures var e: RdEntry := if r in te then te[r] else map[];
            var subnets: map<SubnetId, Cidr> := map[s.id := s.cidr];
            RemoveFromTenant(te[r := e[n := subnets]], n, s.id) == te
  {
    var e: RdEntry := if r in te then te[r] else map[];
    RemoveLast(e, n, s);
  }

  lemma RemoveLast(e: RdEntry, n: NetName, s: Subnet)
    requires n !in e
    ensures RemoveFromDomain(e[n := map[s.id := s.cidr]], n, s.id) == e
  {
    var subnets: map<SubnetId, Cidr> := map[s.id := s.cidr];
    assert subnets - {s.id} == map[];
    assert e[n := subnets] - {n} == e;
  }

  // ----- Whole runs

  datatype Op =
    | Load(tenant: Tenant, loaded: TenantEntry)
    | Assign(tenant: Tenant, network: Network, subnet: Subnet, order: seq<Rd>)
    | Drop(network: Network, id: SubnetId)

  /** An entry read back from the devices that the cache can take in: no overlaps, every
      network once and unknown to the cache, no empty domain, domains that exist, and no
      more of them than the cap. */
  ghost predicate Loadable(conf: Config, st: State, te: TenantEntry) {
    && (forall r, n, m, x, y :: r in te && Lists(te[r], n, x) && Lists(te[r], m, y) && x.id != y.id ==>
          !Overlaps(x.cidr, y.cidr))
    && (forall r, n :: r in te && n in te[r] ==> !Cached(st.cache, n))
    && (forall r, q, n :: r in te && q in te && n in te[r] && n in te[q] ==> r == q)
    && (forall r :: r in te ==> te[r] != map[] && Used(st.devices, r))
    && (te == map[] || |te| <= conf.maxNamespaces)
  }

  /** One call on the cache. */
  ghost predicate Step(conf: Config, st: State, op: Op, res: AssignResult, st': State) {
    match op
    case Load(t, loaded) =>
      && st' == st.(cache := if t in st.cache then st.cache else st.cache[t := loaded])
      && (t !in st.cache ==> Loadable(conf, st, loaded))
    case Assign(t, network, s, order) =>
      && (t in st.cache ==> IsOrder(order, st.cache[t].Keys))
      && AssignStep(conf, st, t, network, s, order, st', res)
    case Drop(network, id) =>
      st'.devices == st.devices && RemoveStep(st.cache, network, id, st'.cache)
  }

  ghost predicate Run(conf: Config, states: seq<State>, ops: seq<Op>, results: seq<AssignResult>) {
    && |states| == |ops| + 1 && |results| == |ops|
    && forall i {:trigger results[i]} :: 0 <= i < |ops| ==> Step(conf, states[i], ops[i], results[i], states[i + 1])
  }

  lemma LoadKeepsDisjoint(conf: Config, st: State, t: Tenant, te: TenantEntry)
    requires DisjointDomains(st.cache) && t !in st.cache && Loadable(conf, st, te)
    ensures DisjointDomains(st.cache[t := te])
  {
    var c := st.cache[t := te];
    forall u, r, n, m, x, y | At(c, u, r, n, x) && At(c, u, r, m, y) && x.id != y.id
      ensures !Overlaps(x.cidr, y.cidr)
    {
      if u != t {
        assert At(st.cache, u, r, n, x) && At(st.cache, u, r, m, y);
      }
    }
  }

  lemma LoadKeepsOneDomain(conf: Config, st: State, t: Tenant, te: TenantEntry)
    requires OneDomain(st.cache) && t !in st.cache && Loadable(conf, st, te)
    ensures OneDomain(st.cache[t := te])
  {
    var c := st.cache[t := te];
    forall u, v, r, q, n | Holds(c, u, r, n) && Holds(c, v, q, n)
      ensures u == v && r == q
    {
      assert u != t ==> Holds(st.cache, u, r, n) && Cached(st.cache, n);
      assert v != t ==> Holds(st.cache, v, q, n) && Cached(st.cache, n);
    }
  }

  lemma LoadKeepsInv(conf: Config, st: State, t: Tenant, te: TenantEntry)
    requires Inv(conf, st) && t !in st.cache && Loadable(conf, st, te)
    ensures Inv(conf, st.(cache := st.cache[t := te]))
  {
    LoadKeepsDisjoint(conf, st, t, te);
    LoadKeepsOneDomain(conf, st, t, te);
  }

  lemma StepKeepsInv(conf: Config, st: State, op: Op, res: AssignResult, st': State)
    requires Inv(conf, st) && Step(conf, st, op, res, st')
    ensures Inv(conf, st')
  {
    match op
    case Load(t, loaded) =>
      if t !in st.cache {
        LoadKeepsInv(conf, st, t, loaded);
      }
    case Assign(t, network, s, order) =>
      AssignKeepsInv(conf, st, t, network, s, order, st', res);
    case Drop(network, id) =>
      if Named(network) {
        RemoveKeepsInv(conf, st, ShortName(network), id);
      }
  }

  /** The invariant holds in every state of every run that starts in it; the empty cache does. */
  lemma {:induction false} InvariantOverRuns(conf: Config, states: seq<State>, ops: seq<Op>,
                                             results: seq<AssignResult>, k: nat)
    requires Run(conf, states, ops, results) && k < |states|
    requires states[0].cache == map[] || Inv(conf, states[0])
    ensures Inv(conf, states[k])
  {
    if k > 0 {
      InvariantOverRuns(conf, states, ops, results, k - 1);
      StepKeepsInv(conf, states[k - 1], ops[k - 1], results[k - 1], states[k]);
    }
  }

  /** The operation takes subnets out of network `n`. */
  predicate Drops(op: Op, n: NetName) {
    op.Drop? && Named(op.network) && ShortName(op.network) == n
  }

  lemma StepKeepsNetwork(conf: Config, st: State, op: Op, res: AssignResult, st': State,
                         t: Tenant, r: Rd, n: NetName)
    requires Inv(conf, st) && Step(conf, st, op, res, st') && Holds(st.cache, t, r, n) && !Drops(op, n)
    ensures Holds(st'.cache, t, r, n)
  {
    match op
    case Load(_, _) =>
    case Assign(u, network, s, order) =>
      if st'.cache != st.cache {
        PlacementEffect(conf, st, u, network, s, order, st', res);
        PlaceAddsOne(st.cache, u, res.rd, ShortName(network), s);
      }
    case Drop(network, id) =>
      if Named(network) {
        RemoveEffect(st.cache, ShortName(network), id);
      }
  }

  /** A placed network keeps its route domain for every later assignment, by any tenant and
      with any subnet, until something is removed from it. */
  lemma {:induction false} PlacedNetworkIsStable(
      conf: Config, states: seq<State>, ops: seq<Op>, results: seq<AssignResult>,
      i: nat, k: nat, t: Tenant, r: Rd, network: Network)
    requires Run(conf, states, ops, results) && Inv(conf, states[0]) && i <= k < |states|
    requires Named(network) && !network.common && Holds(states[i].cache, t, r, ShortName(network))
    requires forall j :: i <= j < k ==> !Drops(ops[j], ShortName(network))
    ensures Holds(states[k].cache, t, r, ShortName(network))
    ensures k < |ops| && ops[k].Assign? && ops[k].network == network ==>
              results[k] == Assigned(r) && states[k + 1] == states[k]
    decreases k
  {
    if i < k {
      PlacedNetworkIsStable(conf, states, ops, results, i, k - 1, t, r, network);
      InvariantOverRuns(conf, states, ops, results, k - 1);
      StepKeepsNetwork(conf, states[k - 1], ops[k - 1], results[k - 1], states[k], t, r, ShortName(network));
    }
    InvariantOverRuns(conf, states, ops, results, k);
    if k < |ops| && ops[k].Assign? && ops[k].network == network {
      assert Step(conf, states[k], ops[k], results[k], states[k + 1]);
      assert Cached(states[k].cache, ShortName(network));
    }
  }
}
