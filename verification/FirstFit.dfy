/** First-fit placement of CIDR blocks is optimal when route domains are tried in the order
    in which they were opened.

    The argument rests on laminarity.  Whenever a subnet sits in the k-th domain it
    overlapped something in each earlier one; from those neighbours a set of k subnets can
    be chosen that overlap pairwise, and such a set needs k domains however it is placed. */
module FirstFit {
  import opened Cidr
  import opened RouteDomainIds
  import opened RouteDomainCache
  import opened RouteDomainLaws

  /** Some network of the route domain lists the subnet. */
  ghost predicate Member(e: RdEntry, x: Subnet) {
    exists n :: Lists(e, n, x)
  }

  ghost predicate InTenant(te: TenantEntry, x: Subnet) {
    exists r :: r in te && Member(te[r], x)
  }

  /** Every subnet conflicts with each domain opened before its own. */
  ghost predicate Greedy(te: TenantEntry, order: seq<Rd>)
    requires IsOrder(order, te.Keys)
  {
    forall i, j, n, x {:trigger Lists(te[order[j]], n, x), Conflicts(te[order[i]], x)} ::
      0 <= i < j < |order| && Lists(te[order[j]], n, x) ==> Conflicts(te[order[i]], x)
  }

  /** A subnet id is recorded once per tenant. */
  ghost predicate UniqueIds(te: TenantEntry) {
    forall r, q, n, m, x, y ::
      r in te && q in te && Lists(te[r], n, x) && Lists(te[q], m, y) && x.id == y.id ==> r == q && n == m
  }

  /** No domain of the tenant is without a subnet. */
  ghost predicate Populated(te: TenantEntry) {
    forall r :: r in te ==> exists n, x :: Lists(te[r], n, x)
  }

  /** Distinct subnets that overlap pairwise. */
  ghost predicate Clique(q: seq<Subnet>) {
    forall i, j :: 0 <= i < j < |q| ==> q[i].id != q[j].id && Overlaps(q[i].cidr, q[j].cidr)
  }

  /** A clique with one subnet from each of the first `|q|` domains, all overlapping `x`. */
  ghost predicate NeighboursOf(te: TenantEntry, order: seq<Rd>, q: seq<Subnet>, x: Subnet)
    requires IsOrder(order, te.Keys)
  {
    && |q| <= |order| && Clique(q)
    && forall i :: 0 <= i < |q| ==> Member(te[order[i]], q[i]) && Overlaps(q[i].cidr, x.cidr)
  }

  lemma NeighboursGrow(te: TenantEntry, order: seq<Rd>, q: seq<Subnet>, x: Subnet, y: Subnet)
    requires IsOrder(order, te.Keys) && NeighboursOf(te, order, q, x) && Contains(y.cidr, x.cidr)
    ensures NeighboursOf(te, order, q, y)
  {
    forall i | 0 <= i < |q|
      ensures Overlaps(q[i].cidr, y.cidr)
    {
      OverlapGrows(y.cidr, x.cidr, q[i].cidr);
    }
  }

  lemma NeighboursAppend(te: TenantEntry, order: seq<Rd>, q: seq<Subnet>, y: Subnet, x: Subnet)
    requires IsOrder(order, te.Keys) && UniqueIds(te) && |q| < |order| && Member(te[order[|q|]], y)
    requires NeighboursOf(te, order, q, y) && NeighboursOf(te, order, q, x) && Overlaps(y.cidr, x.cidr)
    ensures NeighboursOf(te, order, q + [y], x)
  {
    forall i | 0 <= i < |q|
      ensures q[i].id != y.id
    {
      assert Member(te[order[i]], q[i]);
      var n :| Lists(te[order[i]], n, q[i]);
      var m :| Lists(te[order[|q|]], m, y);
    }
  }

  /** The clique below a subnet that conflicts with each of the first `k` domains. */
  lemma {:induction false} NeighbourClique(te: TenantEntry, order: seq<Rd>, k: nat, x: Subnet)
    returns (q: seq<Subnet>)
    requires IsOrder(order, te.Keys) && Greedy(te, order) && UniqueIds(te) && k <= |order|
    requires forall i :: 0 <= i < k ==> Conflicts(te[order[i]], x)
    ensures |q| == k && NeighboursOf(te, order, q, x)
    decreases k
  {
    if k == 0 {
      q := [];
    } else {
      var n, y :| Lists(te[order[k - 1]], n, y) && y.id != x.id && Overlaps(y.cidr, x.cidr);
      if Contains(x.cidr, y.cidr) {
        q := NeighbourClique(te, order, k - 1, y);
        NeighboursGrow(te, order, q, y, x);
      } else {
        q := NeighbourClique(te, order, k - 1, x);
        NeighboursGrow(te, order, q, x, y);
      }
      NeighboursAppend(te, order, q, y, x);
      q := q + [y];
    }
  }

  lemma PairwiseDistinctFit(rs: seq<Rd>, keys: set<Rd>)
    requires forall i :: 0 <= i < |rs| ==> rs[i] in keys
    requires forall i, j :: 0 <= i < j < |rs| ==> rs[i] != rs[j]
    ensures |rs| <= |keys|
  {
    if rs != [] {
      var last := rs[|rs| - 1];
      PairwiseDistinctFit(rs[..|rs| - 1], keys - {last});
    }
  }

  /** Domains free of overlaps: the only way in which a tenant's subnets may be placed. */
  ghost predicate Admissible(te: TenantEntry) {
    forall r, n, m, x, y ::
      r in te && Lists(te[r], n, x) && Lists(te[r], m, y) && x.id != y.id ==> !Overlaps(x.cidr, y.cidr)
  }

  /** Subnets that overlap pairwise need as many domains as there are subnets. */
  lemma {:induction false} CliqueNeedsDomains(te: TenantEntry, q: seq<Subnet>)
    requires Admissible(te) && Clique(q) && forall i :: 0 <= i < |q| ==> InTenant(te, q[i])
    ensures |q| <= |te|
  {
    var rs: seq<Rd> := [];
    while |rs| < |q|
      invariant |rs| <= |q|
      invariant forall i :: 0 <= i < |rs| ==> rs[i] in te && Member(te[rs[i]], q[i])
      invariant forall i, j :: 0 <= i < j < |rs| ==> rs[i] != rs[j]
    {
      assert InTenant(te, q[|rs|]);
      var r :| r in te && Member(te[r], q[|rs|]);
      forall i | 0 <= i < |rs|
        ensures rs[i] != r
      {
        var n :| Lists(te[rs[i]], n, q[i]);
        var m :| Lists(te[r], m, q[|rs|]);
      }
      rs := rs + [r];
    }
    PairwiseDistinctFit(rs, te.Keys);
    assert |te.Keys| == |te|;
  }

  // ----- Runs of placements without removals

  /** What first-fit keeps about one tenant's domains and their creation order. */
  ghost predicate TenantOk(te: TenantEntry, order: seq<Rd>) {
    IsOrder(order, te.Keys) && Greedy(te, order) && UniqueIds(te) && Populated(te)
  }

  ghost predicate Tracked(st: State, orders: map<Tenant, seq<Rd>>) {
    forall t :: t in st.cache ==> t in orders && TenantOk(st.cache[t], orders[t])
  }

  datatype Request = Request(tenant: Tenant, network: Network, subnet: Subnet)

  /** A call that tries the tenant's domains in creation order. */
  ghost predicate FirstFitStep(conf: Config, st: State, orders: map<Tenant, seq<Rd>>, q: Request,
                               st': State, orders': map<Tenant, seq<Rd>>, res: AssignResult)
  {
    && q.tenant in st.cache && q.tenant in orders
    && AssignStep(conf, st, q.tenant, q.network, q.subnet, orders[q.tenant], st', res)
    && orders' == if st'.cache != st.cache && res.Assigned? && res.rd !in st.cache[q.tenant]
                  then orders[q.tenant := orders[q.tenant] + [res.rd]] else orders
  }

  /** No network of the tenant lists the subnet id yet. */
  ghost predicate FreshId(st: State, q: Request) {
    q.tenant in st.cache ==>
      forall r, n, x :: r in st.cache[q.tenant] && Lists(st.cache[q.tenant][r], n, x) ==> x.id != q.subnet.id
  }

  lemma PlacedEntries(c: Cache, t: Tenant, r: Rd, name: NetName, s: Subnet)
    requires t in c && !Cached(c, name)
    ensures Place(c, t, r, name, s)[t].Keys == c[t].Keys + {r}
    ensures forall q :: q in c[t] && q != r ==> Place(c, t, r, name, s)[t][q] == c[t][q]
    ensures forall n, x :: Lists(Place(c, t, r, name, s)[t][r], n, x) <==>
              (r in c[t] && Lists(c[t][r], n, x)) || (n == name && x == s)
  {
    PlaceAddsOne(c, t, r, name, s);
    var d := Place(c, t, r, name, s);
    forall n, x
      ensures Lists(d[t][r], n, x) <==> (r in c[t] && Lists(c[t][r], n, x)) || (n == name && x == s)
    {
      assert At(d, t, r, n, x) <==> At(c, t, r, n, x) || (n == name && x == s);
    }
  }

  lemma ConflictsPersist(e: RdEntry, e': RdEntry, x: Subnet)
    requires Conflicts(e, x) && forall n, y :: Lists(e, n, y) ==> Lists(e', n, y)
    ensures Conflicts(e', x)
  {
    var m, y :| Lists(e, m, y) && y.id != x.id && Overlaps(y.cidr, x.cidr);
    assert Lists(e', m, y);
  }

  /** Recording `s` in the domain at position `home`, all earlier ones being blocked for it. */
  ghost predicate Recorded(te: TenantEntry, order: seq<Rd>, te': TenantEntry, order': seq<Rd>,
                           home: nat, name: NetName, s: Subnet)
  {
    && IsOrder(order, te.Keys) && IsOrder(order', te'.Keys) && order <= order' && home < |order'|
    && |order'| <= |order| + 1 && (|order'| > |order| ==> home == |order|)
    && (forall i :: 0 <= i < |order| && i != home ==> te'[order'[i]] == te[order[i]])
    && (forall i :: 0 <= i < home ==> Conflicts(te[order[i]], s))
    && (forall n, x :: Lists(te'[order'[home]], n, x) <==>
          (home < |order| && Lists(te[order[home]], n, x)) || (n == name && x == s))
  }

  lemma RecordKeepsGreedy(te: TenantEntry, order: seq<Rd>, te': TenantEntry, order': seq<Rd>,
                          home: nat, name: NetName, s: Subnet)
    requires Recorded(te, order, te', order', home, name, s) && Greedy(te, order)
    ensures Greedy(te', order')
  {
    forall i, j, n, x | 0 <= i < j < |order'| && Lists(te'[order'[j]], n, x)
      ensures Conflicts(te'[order'[i]], x)
    {
      assert j == home || Lists(te[order[j]], n, x);
      assert Conflicts(te[order[i]], x);
      ConflictsPersist(te[order[i]], te'[order'[i]], x);
    }
  }

  lemma RecordKeepsUnique(te: TenantEntry, order: seq<Rd>, te': TenantEntry, order': seq<Rd>,
                          home: nat, name: NetName, s: Subnet)
    requires Recorded(te, order, te', order', home, name, s) && UniqueIds(te)
    requires forall r, n, x :: r in te && Lists(te[r], n, x) ==> x.id != s.id
    ensures UniqueIds(te')
  {
    RecordedEntries(te, order, te', order', home, name, s);
  }

  lemma RecordedEntries(te: TenantEntry, order: seq<Rd>, te': TenantEntry, order': seq<Rd>,
                        home: nat, name: NetName, s: Subnet)
    requires Recorded(te, order, te', order', home, name, s)
    ensures forall r, n, x :: r in te' && Lists(te'[r], n, x) ==>
              (r in te && Lists(te[r], n, x)) || (r == order'[home] && n == name && x == s)
  {
    forall r, n, x | r in te' && Lists(te'[r], n, x)
      ensures (r in te && Lists(te[r], n, x)) || (r == order'[home] && n == name && x == s)
    {
      var i :| 0 <= i < |order'| && order'[i] == r;
    }
  }

  lemma RecordKeepsTenant(te: TenantEntry, order: seq<Rd>, te': TenantEntry, order': seq<Rd>,
                          home: nat, name: NetName, s: Subnet)
    requires Recorded(te, order, te', order', home, name, s) && TenantOk(te, order)
    requires forall r, n, x :: r in te && Lists(te[r], n, x) ==> x.id != s.id
    ensures TenantOk(te', order')
  {
    RecordKeepsGreedy(te, order, te', order', home, name, s);
    RecordKeepsUnique(te, order, te', order', home, name, s);
    forall r | r in te'
      ensures exists n, x :: Lists(te'[r], n, x)
    {
      var i :| 0 <= i < |order'| && order'[i] == r;
      if i == home {
        assert Lists(te'[r], name, s);
      } else {
        assert te'[r] == te[order[i]] && order[i] in te;
      }
    }
  }

  /** The tenant's entry after a placement, seen along its creation order. */
  lemma PlacementRecorded(c: Cache, t: Tenant, r: Rd, name: NetName, s: Subnet, order: seq<Rd>)
    returns (order': seq<Rd>, home: nat)
    requires t in c && !Cached(c, name) && IsOrder(order, c[t].Keys)
    requires if r in c[t] then FirstFree(c[t], order, s, r) else Full(c[t], s)
    ensures order' == if r in c[t] then order else order + [r]
    ensures Recorded(c[t], order, Place(c, t, r, name, s)[t], order', home, name, s)
  {
    PlacedEntries(c, t, r, name, s);
    order' := if r in c[t] then order else order + [r];
    if r in c[t] {
      home :| home < |order| && FreeAt(c[t], order, s, home) && order[home] == r;
    } else {
      home := |order|;
    }
    assert order'[home] == r;
  }

  lemma PlacementKeepsTracked(st: State, orders: map<Tenant, seq<Rd>>, t: Tenant, r: Rd, name: NetName,
                              s: Subnet, st': State, orders': map<Tenant, seq<Rd>>)
    requires Tracked(st, orders) && t in st.cache && t in orders && !Cached(st.cache, name)
    requires if r in st.cache[t] then FirstFree(st.cache[t], orders[t], s, r) else Full(st.cache[t], s)
    requires forall q, n, x :: q in st.cache[t] && Lists(st.cache[t][q], n, x) ==> x.id != s.id
    requires st'.cache == Place(st.cache, t, r, name, s)
    requires orders' == if r in st.cache[t] then orders else orders[t := orders[t] + [r]]
    ensures Tracked(st', orders')
  {
    var order', home := PlacementRecorded(st.cache, t, r, name, s, orders[t]);
    RecordKeepsTenant(st.cache[t], orders[t], st'.cache[t], order', home, name, s);
    PlaceFrame(st.cache, t, r, name, s);
    forall u | u in st'.cache
      ensures u in orders' && TenantOk(st'.cache[u], orders'[u])
    {
      assert u != t ==> st'.cache[u] == st.cache[u] && orders'[u] == orders[u];
    }
  }

  lemma StepKeepsTracked(conf: Config, st: State, orders: map<Tenant, seq<Rd>>, q: Request,
                         st': State, orders': map<Tenant, seq<Rd>>, res: AssignResult)
    requires Inv(conf, st) && Tracked(st, orders) && FirstFitStep(conf, st, orders, q, st', orders', res)
    requires FreshId(st, q)
    ensures Inv(conf, st') && Tracked(st', orders')
  {
    AssignKeepsInv(conf, st, q.tenant, q.network, q.subnet, orders[q.tenant], st', res);
    if st'.cache != st.cache {
      PlacementEffect(conf, st, q.tenant, q.network, q.subnet, orders[q.tenant], st', res);
      PlacementKeepsTracked(st, orders, q.tenant, res.rd, ShortName(q.network), q.subnet, st', orders');
    }
  }

  lemma PlaceFrame(c: Cache, t: Tenant, r: Rd, name: NetName, s: Subnet)
    requires t in c
    ensures Place(c, t, r, name, s).Keys == c.Keys
    ensures forall u :: u in c && u != t ==> Place(c, t, r, name, s)[u] == c[u]
  {
  }

  /** States and creation orders along a run of first-fit placements of fresh subnets. */
  ghost predicate FirstFitRun(conf: Config, states: seq<State>, orders: seq<map<Tenant, seq<Rd>>>,
                              requests: seq<Request>, results: seq<AssignResult>)
  {
    && |states| == |orders| == |requests| + 1 && |results| == |requests|
    && (forall t :: t in states[0].cache ==> states[0].cache[t] == map[] && t in orders[0] && orders[0][t] == [])
    && forall i {:trigger results[i]} :: 0 <= i < |requests| ==>
         && FreshId(states[i], requests[i])
         && FirstFitStep(conf, states[i], orders[i], requests[i], states[i + 1], orders[i + 1], results[i])
  }

  lemma {:induction false} TrackedOverRuns(conf: Config, states: seq<State>, orders: seq<map<Tenant, seq<Rd>>>,
                                           requests: seq<Request>, results: seq<AssignResult>, k: nat)
    requires FirstFitRun(conf, states, orders, requests, results) && k < |states|
    ensures Inv(conf, states[k]) && Tracked(states[k], orders[k])
  {
    if k > 0 {
      TrackedOverRuns(conf, states, orders, requests, results, k - 1);
      StepKeepsTracked(conf, states[k - 1], orders[k - 1], requests[k - 1], states[k], orders[k], results[k - 1]);
    }
  }

  /** A request that opens the k-th domain, or that is refused for want of one, comes with
      k subnets (itself and k - 1 placed earlier) that overlap pairwise.  A refusal
      therefore needs one more nested subnet than the cap allows domains. */
  lemma OpensOnlyWhenNeeded(conf: Config, states: seq<State>, orders: seq<map<Tenant, seq<Rd>>>,
                            requests: seq<Request>, results: seq<AssignResult>, i: nat)
    returns (q: seq<Subnet>)
    requires FirstFitRun(conf, states, orders, requests, results) && i < |requests|
    requires results[i] == CannotAllocate || Opens(states[i], requests[i], states[i + 1])
    ensures requests[i].tenant in states[i].cache && Clique(q)
    ensures |q| == |states[i].cache[requests[i].tenant]| + 1 && q[|q| - 1] == requests[i].subnet
    ensures forall k :: 0 <= k < |q| - 1 ==> InTenant(states[i].cache[requests[i].tenant], q[k])
    ensures results[i] == CannotAllocate ==> |q| > conf.maxNamespaces
  {
    TrackedOverRuns(conf, states, orders, requests, results, i);
    q := StepNeedsClique(conf, states[i], orders[i], requests[i], states[i + 1], orders[i + 1], results[i]);
  }

  /** The request gave its tenant one more route domain. */
  predicate Opens(st: State, q: Request, st': State) {
    && q.tenant in st.cache && q.tenant in st'.cache
    && st'.cache[q.tenant].Keys != st.cache[q.tenant].Keys
  }

  lemma StepNeedsClique(conf: Config, st: State, orders: map<Tenant, seq<Rd>>, r: Request,
                        st': State, orders': map<Tenant, seq<Rd>>, res: AssignResult)
    returns (q: seq<Subnet>)
    requires Inv(conf, st) && Tracked(st, orders) && FirstFitStep(conf, st, orders, r, st', orders', res)
    requires FreshId(st, r) && (res == CannotAllocate || Opens(st, r, st'))
    ensures Clique(q) && |q| == |st.cache[r.tenant]| + 1 && q[|q| - 1] == r.subnet
    ensures forall k :: 0 <= k < |q| - 1 ==> InTenant(st.cache[r.tenant], q[k])
    ensures res == CannotAllocate ==> |q| > conf.maxNamespaces
  {
    if res == CannotAllocate {
      RefusalMeansFull(conf, st, r.tenant, r.network, r.subnet, orders[r.tenant], st');
    } else {
      PlacementEffect(conf, st, r.tenant, r.network, r.subnet, orders[r.tenant], st', res);
      if res.rd in st.cache[r.tenant] {
        SameDomains(st.cache, r.tenant, res.rd, ShortName(r.network), r.subnet);
      }
    }
    q := FullNeedsClique(st.cache[r.tenant], orders[r.tenant], r.subnet);
  }

  lemma RefusalMeansFull(conf: Config, st: State, t: Tenant, network: Network, s: Subnet, order: seq<Rd>, st': State)
    requires t in st.cache && AssignStep(conf, st, t, network, s, order, st', CannotAllocate)
    ensures Full(st.cache[t], s) && |st.cache[t]| >= conf.maxNamespaces
  {
  }

  lemma SameDomains(c: Cache, t: Tenant, r: Rd, name: NetName, s: Subnet)
    requires t in c && r in c[t]
    ensures Place(c, t, r, name, s)[t].Keys == c[t].Keys
  {
  }

  lemma FullNeedsClique(te: TenantEntry, order: seq<Rd>, s: Subnet) returns (q: seq<Subnet>)
    requires TenantOk(te, order) && Full(te, s)
    requires forall r, n, x :: r in te && Lists(te[r], n, x) ==> x.id != s.id
    ensures Clique(q) && |q| == |te| + 1 && q[|q| - 1] == s
    ensures forall k :: 0 <= k < |q| - 1 ==> InTenant(te, q[k])
  {
    OrderLength(order, te.Keys);
    assert |te.Keys| == |te|;
    q := NeighbourClique(te, order, |order|, s);
    CliqueWithNew(te, order, q, s);
    q := q + [s];
  }

  lemma CliqueWithNew(te: TenantEntry, order: seq<Rd>, q: seq<Subnet>, s: Subnet)
    requires IsOrder(order, te.Keys) && NeighboursOf(te, order, q, s)
    requires forall r, n, x :: r in te && Lists(te[r], n, x) ==> x.id != s.id
    ensures Clique(q + [s])
    ensures forall k :: 0 <= k < |q| ==> InTenant(te, q[k])
  {
    forall k | 0 <= k < |q|
      ensures InTenant(te, q[k]) && q[k].id != s.id && Overlaps(q[k].cidr, s.cidr)
    {
      assert order[k] in te && Member(te[order[k]], q[k]);
      var n :| Lists(te[order[k]], n, q[k]);
    }
    CliqueSnoc(q, s);
  }

  lemma CliqueSnoc(q: seq<Subnet>, s: Subnet)
    requires Clique(q) && forall k :: 0 <= k < |q| ==> q[k].id != s.id && Overlaps(q[k].cidr, s.cidr)
    ensures Clique(q + [s])
  {
  }

  lemma OrderLength(order: seq<Rd>, keys: set<Rd>)
    requires IsOrder(order, keys)
    ensures |order| == |keys|
  {
    if order != [] {
      var last, rest := order[|order| - 1], order[..|order| - 1];
      forall r
        ensures r in rest <==> r in keys - {last}
      {
        if r in keys - {last} {
          assert r in order;
        }
      }
      OrderLength(rest, keys - {last});
    } else {
      assert keys == {} by {
        assert forall r :: r in keys ==> r in order;
      }
    }
  }

  /** Optimality: no admissible placement of the same subnets uses fewer route domains than
      first-fit in creation order does, after any run. */
  lemma FirstFitIsOptimal(conf: Config, states: seq<State>, orders: seq<map<Tenant, seq<Rd>>>,
                          requests: seq<Request>, results: seq<AssignResult>,
                          k: nat, t: Tenant, other: TenantEntry)
    requires FirstFitRun(conf, states, orders, requests, results) && k < |states| && t in states[k].cache
    requires Admissible(other)
    requires forall x :: InTenant(states[k].cache[t], x) ==> InTenant(other, x)
    ensures Admissible(states[k].cache[t]) && |states[k].cache[t]| <= |other|
  {
    TrackedOverRuns(conf, states, orders, requests, results, k);
    InvIsAdmissible(conf, states[k], t);
    assert TenantOk(states[k].cache[t], orders[k][t]);
    TenantIsOptimal(states[k].cache[t], orders[k][t], other);
  }

  lemma InvIsAdmissible(conf: Config, st: State, t: Tenant)
    requires Inv(conf, st) && t in st.cache
    ensures Admissible(st.cache[t])
  {
    var te := st.cache[t];
    forall r, n, m, x, y | r in te && Lists(te[r], n, x) && Lists(te[r], m, y) && x.id != y.id
      ensures !Overlaps(x.cidr, y.cidr)
    {
      assert At(st.cache, t, r, n, x) && At(st.cache, t, r, m, y);
    }
  }

  lemma TenantIsOptimal(te: TenantEntry, order: seq<Rd>, other: TenantEntry)
    requires TenantOk(te, order) && Admissible(other)
    requires forall x :: InTenant(te, x) ==> InTenant(other, x)
    ensures |te| <= |other|
  {
    OrderLength(order, te.Keys);
    assert |te.Keys| == |te|;
    if order != [] {
      var last := |order| - 1;
      assert order[last] in te;
      var n, x :| Lists(te[order[last]], n, x);
      assert Member(te[order[last]], x);
      var q := NeighbourClique(te, order, last, x);
      NeighboursGrow(te, order, q, x, x);
      NeighboursAppend(te, order, q, x, x);
      forall i | 0 <= i < |q + [x]|
        ensures InTenant(other, (q + [x])[i])
      {
        assert Member(te[order[i]], (q + [x])[i]);
        assert InTenant(te, (q + [x])[i]);
      }
      CliqueNeedsDomains(other, q + [x]);
    }
  }

  // ----- Another order

  /** Five subnets, each on a network of its own. */
  function Sub(i: nat): Subnet {
    match i
    case 1 => Subnet("a", Block(V4, 0, 31))
    case 2 => Subnet("b", Block(V4, 0, 32))
    case 3 => Subnet("x", Block(V4, 4, 32))
    case 4 => Subnet("y", Block(V4, 5, 32))
    case _ => Subnet("w", Block(V4, 4, 31))
  }

  function Net(i: nat): Network {
    Network("vxlan", i, false)
  }

  predicate Five(ids: set<nat>) {
    forall i :: i in ids ==> 1 <= i <= 5
  }

  /** A domain that holds those networks and subnets. */
  function Entry(ids: set<nat>): RdEntry {
    map n | n in (set i | i in ids :: ShortName(Net(i))) :: map[Sub(n.segmentationId).id := Sub(n.segmentationId).cidr]
  }

  lemma EntryLists(ids: set<nat>, n: NetName, x: Subnet)
    ensures Lists(Entry(ids), n, x) <==> n.segmentationId in ids && n == ShortName(Net(n.segmentationId)) &&
                                         x == Sub(n.segmentationId)
  {
  }

  lemma Clashes(i: nat, j: nat)
    requires 1 <= i < j <= 5
    ensures Overlaps(Sub(i).cidr, Sub(j).cidr) <==> (i, j) in {(1, 2), (3, 5), (4, 5)}
    ensures Sub(i).id != Sub(j).id
  {
    assert Pow2(0) == 1 && Pow2(1) == 2;
  }

  lemma EntryConflicts(ids: set<nat>, j: nat)
    requires Five(ids) && 1 <= j <= 5 && forall i :: i in ids ==> i < j
    ensures Conflicts(Entry(ids), Sub(j)) <==> (j == 2 && 1 in ids) || (j == 5 && (3 in ids || 4 in ids))
  {
    forall n, x
      ensures Lists(Entry(ids), n, x) <==> n.segmentationId in ids && n == ShortName(Net(n.segmentationId)) &&
                                           x == Sub(n.segmentationId)
    {
      EntryLists(ids, n, x);
    }
    forall i | i in ids
      ensures Lists(Entry(ids), ShortName(Net(i)), Sub(i)) && Sub(i).id != Sub(j).id
      ensures Overlaps(Sub(i).cidr, Sub(j).cidr) <==> (i, j) in {(1, 2), (3, 5), (4, 5)}
    {
      Clashes(i, j);
    }
  }

  /** The tenant's domains 1, 2, ... hold these subnets. */
  function DomainsOf(ds: seq<set<nat>>): (te: TenantEntry)
    ensures forall r :: r in te <==> 1 <= r <= |ds|
    ensures forall r :: r in te ==> te[r] == Entry(ds[r - 1])
  {
    map r | r in IdsOf(|ds|) && r != 0 :: Entry(ds[r - 1])
  }

  function StateOf(t: Tenant, ds: seq<set<nat>>): State {
    State(map[t := DomainsOf(ds)], [IdsOf(|ds|)])
  }

  function IdsOf(n: nat): (ids: set<Rd>)
    ensures forall r :: r in ids <==> 0 <= r <= n
  {
    if n == 0 then {0} else IdsOf(n - 1) + {n}
  }

  predicate Clash(ids: set<nat>, j: nat) {
    (j == 2 && 1 in ids) || (j == 5 && (3 in ids || 4 in ids))
  }

  predicate Before(ds: seq<set<nat>>, j: nat) {
    j <= 5 && forall k, i :: 0 <= k < |ds| && i in ds[k] ==> 1 <= i < j
  }

  lemma {:induction false} DomainCount(ds: seq<set<nat>>)
    ensures |DomainsOf(ds)| == |ds|
  {
    if ds == [] {
      assert DomainsOf(ds) == map[];
    } else {
      var n := |ds| - 1;
      DomainCount(ds[..n]);
      assert DomainsOf(ds) == DomainsOf(ds[..n])[n + 1 := Entry(ds[n])];
    }
  }

  lemma NotCachedYet(t: Tenant, ds: seq<set<nat>>, j: nat)
    requires Before(ds, j)
    ensures !Cached(StateOf(t, ds).cache, ShortName(Net(j)))
  {
  }

  lemma FullWhenAllClash(ds: seq<set<nat>>, j: nat)
    requires Before(ds, j) && j >= 1
    ensures Full(DomainsOf(ds), Sub(j)) <==> forall k :: 0 <= k < |ds| ==> Clash(ds[k], j)
  {
    forall k | 0 <= k < |ds|
      ensures k + 1 in DomainsOf(ds) && (Conflicts(DomainsOf(ds)[k + 1], Sub(j)) <==> Clash(ds[k], j))
    {
      EntryConflicts(ds[k], j);
    }
  }

  lemma PlaceInto(t: Tenant, te: TenantEntry, r: Rd, ids: set<nat>, j: nat)
    requires j !in ids && r in te && te[r] == Entry(ids)
    ensures Place(map[t := te], t, r, ShortName(Net(j)), Sub(j)) == map[t := te[r := Entry(ids + {j})]]
  {
    assert Entry(ids)[ShortName(Net(j)) := map[Sub(j).id := Sub(j).cidr]] == Entry(ids + {j});
  }

  lemma OpenAndPlace(t: Tenant, ds: seq<set<nat>>, j: nat)
    ensures var r, c := |ds| + 1, StateOf(t, ds).cache;
            StateOf(t, ds + [{j}]).cache == Place(OpenDomain(c, t, r), t, r, ShortName(Net(j)), Sub(j))
  {
    var r, no: set<nat> := |ds| + 1, {};
    var was: TenantEntry := DomainsOf(ds);
    var te: TenantEntry := was[r := map[]];
    OpenInto(t, was, r);
    EmptyEntry();
    PlaceInto(t, te, r, no, j);
    assert no + {j} == {j};
    EntryAdded(ds, {j});
    Overwritten(was, r, map[], Entry({j}));
  }

  lemma OpenInto(t: Tenant, te: TenantEntry, r: Rd)
    ensures OpenDomain(map[t := te], t, r) == map[t := te[r := map[]]]
  {
  }

  lemma EmptyEntry()
    ensures Entry({}) == map[]
  {
  }

  lemma Overwritten(te: TenantEntry, r: Rd, a: RdEntry, b: RdEntry)
    ensures te[r := a][r := b] == te[r := b]
  {
  }

  lemma NextId(n: nat)
    ensures LeastFree([IdsOf(n)], n + 1) && WithDomain([IdsOf(n)], n + 1) == [IdsOf(n + 1)] && Used([IdsOf(n)], 0)
  {
    assert [IdsOf(n)][0] == IdsOf(n);
  }

  /** All domains are taken and another is opened. */
  lemma StepOpens(conf: Config, t: Tenant, ds: seq<set<nat>>, order: seq<Rd>, j: nat, after: State)
    requires after == StateOf(t, ds + [{j}])
    requires Before(ds, j) && j >= 1 && |ds| < conf.maxNamespaces == 2
    requires forall k :: 0 <= k < |ds| ==> Clash(ds[k], j)
    ensures AssignStep(conf, StateOf(t, ds), t, Net(j), Sub(j), order, after, Assigned(|ds| + 1))
  {
    NotCachedYet(t, ds, j);
    FullWhenAllClash(ds, j);
    DomainCount(ds);
    OpenAndPlace(t, ds, j);
    NextId(|ds|);
    OpenedStep(conf, StateOf(t, ds), t, Net(j), Sub(j), order, after, |ds| + 1);
  }

  lemma OpenedStep(conf: Config, st: State, t: Tenant, network: Network, s: Subnet, order: seq<Rd>, after: State, r: Rd)
    requires !network.common && Named(network) && !Cached(st.cache, ShortName(network))
    requires conf.maxNamespaces != 1 && t in st.cache && Full(st.cache[t], s) && |st.cache[t]| < conf.maxNamespaces
    requires Used(st.devices, 0) && LeastFree(st.devices, r) && after.devices == WithDomain(st.devices, r)
    requires after.cache == Place(OpenDomain(st.cache, t, r), t, r, ShortName(network), s)
    ensures AssignStep(conf, st, t, network, s, order, after, Assigned(r))
  {
  }

  lemma RoomFirst(ds: seq<set<nat>>, order: seq<Rd>, j: nat)
    requires Before(ds, j) && j >= 1 && order != [] && 1 <= order[0] <= |ds| && !Clash(ds[order[0] - 1], j)
    ensures !Full(DomainsOf(ds), Sub(j)) && FirstFree(DomainsOf(ds), order, Sub(j), order[0])
  {
    EntryConflicts(ds[order[0] - 1], j);
    assert order[0] in DomainsOf(ds) && DomainsOf(ds)[order[0]] == Entry(ds[order[0] - 1]);
    assert FreeAt(DomainsOf(ds), order, Sub(j), 0);
  }

  lemma EntryGrows(ds: seq<set<nat>>, k: nat, j: nat)
    requires k < |ds|
    ensures DomainsOf(ds[k := ds[k] + {j}]) == DomainsOf(ds)[k + 1 := Entry(ds[k] + {j})]
  {
    var a, b := DomainsOf(ds[k := ds[k] + {j}]), DomainsOf(ds)[k + 1 := Entry(ds[k] + {j})];
    forall r
      ensures r in a <==> r in b
      ensures r in a ==> a[r] == b[r]
    {
    }
  }

  lemma EntryAdded(ds: seq<set<nat>>, ids: set<nat>)
    ensures DomainsOf(ds + [ids]) == DomainsOf(ds)[|ds| + 1 := Entry(ids)]
  {
    var a, b := DomainsOf(ds + [ids]), DomainsOf(ds)[|ds| + 1 := Entry(ids)];
    forall r
      ensures r in a <==> r in b
      ensures r in a ==> a[r] == b[r]
    {
    }
  }

  /** The domain tried first has room. */
  lemma StepPlaces(conf: Config, t: Tenant, ds: seq<set<nat>>, order: seq<Rd>, j: nat, k: nat, after: State)
    requires Before(ds, j) && conf.maxNamespaces == 2 && j >= 1
    requires order != [] && order[0] == k + 1 <= |ds| && !Clash(ds[k], j)
    requires after == StateOf(t, ds[k := ds[k] + {j}])
    ensures AssignStep(conf, StateOf(t, ds), t, Net(j), Sub(j), order, after, Assigned(k + 1))
  {
    NotCachedYet(t, ds, j);
    RoomFirst(ds, order, j);
    PlaceInto(t, DomainsOf(ds), k + 1, ds[k], j);
    EntryGrows(ds, k, j);
    PlacedStep(conf, StateOf(t, ds), t, Net(j), Sub(j), order, after, k + 1);
  }

  lemma PlacedStep(conf: Config, st: State, t: Tenant, network: Network, s: Subnet, order: seq<Rd>, after: State, r: Rd)
    requires !network.common && Named(network) && !Cached(st.cache, ShortName(network))
    requires conf.maxNamespaces != 1 && t in st.cache && !Full(st.cache[t], s) && FirstFree(st.cache[t], order, s, r)
    requires after == State(Place(st.cache, t, r, ShortName(network), s), st.devices)
    ensures AssignStep(conf, st, t, network, s, order, after, Assigned(r))
  {
  }

  /** All domains are taken and no more are allowed. */
  lemma StepRefuses(conf: Config, t: Tenant, ds: seq<set<nat>>, order: seq<Rd>, j: nat, st: State)
    requires Before(ds, j) && j >= 1 && |ds| == conf.maxNamespaces == 2 && st == StateOf(t, ds)
    requires forall k :: 0 <= k < |ds| ==> Clash(ds[k], j)
    ensures AssignStep(conf, st, t, Net(j), Sub(j), order, st, CannotAllocate)
  {
    NotCachedYet(t, ds, j);
    FullWhenAllClash(ds, j);
    DomainCount(ds);
    RefusedStep(conf, st, t, Net(j), Sub(j), order);
  }

  lemma RefusedStep(conf: Config, st: State, t: Tenant, network: Network, s: Subnet, order: seq<Rd>)
    requires !network.common && Named(network) && !Cached(st.cache, ShortName(network))
    requires conf.maxNamespaces != 1 && t in st.cache && Full(st.cache[t], s) && |st.cache[t]| >= conf.maxNamespaces
    ensures AssignStep(conf, st, t, network, s, order, st, CannotAllocate)
  {
  }

  /** The domains before each assignment; the fourth tries domain 2 first. */
  function Held(i: nat): seq<set<nat>> {
    match i
    case 1 => []
    case 2 => [{1}]
    case 3 => [{1}, {2}]
    case 4 => [{1, 3}, {2}]
    case _ => [{1, 3}, {2, 4}]
  }

  function Tried(i: nat): seq<Rd> {
    match i
    case 1 => []
    case 2 => [1]
    case 4 => [2, 1]
    case _ => [1, 2]
  }

  function Calls(t: Tenant): (ops: seq<Op>)
    ensures |ops| == 6 && ops[0] == Load(t, map[])
    ensures forall i :: 1 <= i < 6 ==> ops[i] == Assign(t, Net(i), Sub(i), Tried(i))
  {
    seq(6, i requires 0 <= i < 6 => if i == 0 then Load(t, map[]) else Assign(t, Net(i), Sub(i), Tried(i)))
  }

  function States(t: Tenant): (states: seq<State>)
    ensures |states| == 7 && states[0] == State(map[], [{0}])
    ensures forall i :: 1 <= i < 7 ==> states[i] == StateOf(t, Held(i))
  {
    seq(7, i requires 0 <= i < 7 => if i == 0 then State(map[], [{0}]) else StateOf(t, Held(i)))
  }

  const Results: seq<AssignResult> := [Assigned(0), Assigned(1), Assigned(2), Assigned(1), Assigned(2), CannotAllocate]

  ghost predicate HeldStep(conf: Config, t: Tenant, i: nat)
    requires i < |Results|
  {
    AssignStep(conf, StateOf(t, Held(i)), t, Net(i), Sub(i), Tried(i), StateOf(t, Held(i + 1)), Results[i])
  }

  lemma FirstStep(conf: Config, t: Tenant)
    requires conf.maxNamespaces == 2
    ensures HeldStep(conf, t, 1)
  {
    assert [] + [{1}] == Held(2);
    StepOpens(conf, t, Held(1), Tried(1), 1, StateOf(t, Held(2)));
  }

  lemma SecondStep(conf: Config, t: Tenant)
    requires conf.maxNamespaces == 2
    ensures HeldStep(conf, t, 2)
  {
    assert Held(2) + [{2}] == Held(3);
    StepOpens(conf, t, Held(2), Tried(2), 2, StateOf(t, Held(3)));
  }

  lemma ThirdStep(conf: Config, t: Tenant)
    requires conf.maxNamespaces == 2
    ensures HeldStep(conf, t, 3)
  {
    assert {1} + {3} == {1, 3} && Held(3)[0 := {1, 3}] == Held(4);
    StepPlaces(conf, t, Held(3), Tried(3), 3, 0, StateOf(t, Held(4)));
  }

  lemma FourthStep(conf: Config, t: Tenant)
    requires conf.maxNamespaces == 2
    ensures HeldStep(conf, t, 4)
  {
    assert {2} + {4} == {2, 4} && Held(4)[1 := {2, 4}] == Held(5);
    StepPlaces(conf, t, Held(4), Tried(4), 4, 1, StateOf(t, Held(5)));
  }

  lemma LastStep(conf: Config, t: Tenant)
    requires conf.maxNamespaces == 2
    ensures HeldStep(conf, t, 5)
  {
    assert Clash(Held(5)[0], 5) && Clash(Held(5)[1], 5);
    StepRefuses(conf, t, Held(5), Tried(5), 5, StateOf(t, Held(6)));
  }

  /** The domains with one member set each do not clash inside. */
  lemma NoClashInside(ids: set<nat>, n: NetName, m: NetName, x: Subnet, y: Subnet)
    requires ids == {1, 3, 4} || ids == {2, 5}
    requires Lists(Entry(ids), n, x) && Lists(Entry(ids), m, y) && x.id != y.id
    ensures !Overlaps(x.cidr, y.cidr)
  {
    var i, j := n.segmentationId, m.segmentationId;
    EntryLists(ids, n, x);
    EntryLists(ids, m, y);
    Clashes(if i < j then i else j, if i < j then j else i);
  }

  const Better: seq<set<nat>> := [{1, 3, 4}, {2, 5}]

  lemma BetterHolds(i: nat)
    requires 1 <= i <= 5
    ensures InTenant(DomainsOf(Better), Sub(i))
  {
    var te := DomainsOf(Better);
    var k := if i in {2, 5} then 1 else 0;
    EntryLists(Better[k], ShortName(Net(i)), Sub(i));
    assert k + 1 in te && te[k + 1] == Entry(Better[k]) && Member(te[k + 1], Sub(i));
  }

  lemma BetterIsAdmissible()
    ensures Admissible(DomainsOf(Better))
  {
    var te := DomainsOf(Better);
    forall r, n, m, x, y | r in te && Lists(te[r], n, x) && Lists(te[r], m, y) && x.id != y.id
      ensures !Overlaps(x.cidr, y.cidr)
    {
      NoClashInside(Better[r - 1], n, m, x, y);
    }
  }

  /** Two domains hold the five subnets without overlaps. */
  lemma TwoDomainsHoldAllFive()
    ensures Admissible(DomainsOf(Better)) && |DomainsOf(Better)| == 2
    ensures forall i :: 1 <= i <= 5 ==> InTenant(DomainsOf(Better), Sub(i))
  {
    forall i | 1 <= i <= 5
      ensures InTenant(DomainsOf(Better), Sub(i))
    {
      BetterHolds(i);
    }
    DomainCount(Better);
    BetterIsAdmissible();
  }

  /** Creation order matters.  From an empty cache and with room for two domains, `a` opens
      domain 1, `b` domain 2, and `x` goes to 1.  Trying 2 before 1 then puts `y` into 2,
      and the wide subnet is refused, though two domains can hold all five. */
  lemma OtherOrdersAreNotOptimal(t: Tenant, conf: Config)
    requires conf.maxNamespaces == 2
    ensures Run(conf, States(t), Calls(t), Results) && States(t)[0].cache == map[]
    ensures Calls(t)[5] == Assign(t, Net(5), Sub(5), [1, 2]) && Results[5] == CannotAllocate
  {
    forall i | 0 <= i < 6
      ensures Step(conf, States(t)[i], Calls(t)[i], Results[i], States(t)[i + 1])
    {
      if i == 0 {
        FirstCall(conf, t);
      } else {
        LaterCall(conf, t, i);
      }
    }
  }

  lemma FirstCall(conf: Config, t: Tenant)
    ensures Step(conf, States(t)[0], Calls(t)[0], Results[0], States(t)[1])
  {
    assert DomainsOf([]) == map[] && IdsOf(0) == {0};
  }

  lemma EveryStep(conf: Config, t: Tenant, i: nat)
    requires conf.maxNamespaces == 2 && 1 <= i < 6
    ensures HeldStep(conf, t, i)
  {
    match i
    case 1 => FirstStep(conf, t);
    case 2 => SecondStep(conf, t);
    case 3 => ThirdStep(conf, t);
    case 4 => FourthStep(conf, t);
    case 5 => LastStep(conf, t);
  }

  lemma LaterCall(conf: Config, t: Tenant, i: nat)
    requires conf.maxNamespaces == 2 && 1 <= i < 6
    ensures Step(conf, States(t)[i], Calls(t)[i], Results[i], States(t)[i + 1])
  {
    TriedIsOrder(i);
    EveryStep(conf, t, i);
  }

  lemma TriedIsOrder(i: nat)
    requires 1 <= i < 6
    ensures IsOrder(Tried(i), DomainsOf(Held(i)).Keys)
  {
    assert |Held(i)| == |Tried(i)|;
  }
}
