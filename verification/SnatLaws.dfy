/** What SNAT pools hold over every run of assurances and deletions by many tenants. */
module SnatLaws {
  import opened SnatPools

  ghost predicate HasBase(members: seq<Path>, base: string) {
    exists i :: 0 <= i < |members| && members[i].base == base
  }

  ghost predicate DistinctBases(members: seq<Path>) {
    forall i, j :: 0 <= i < j < |members| ==> members[i].base != members[j].base
  }

  ghost predicate NoDuplicates(l: seq<SubnetId>) {
    forall i, j :: 0 <= i < j < |l| ==> l[i] != l[j]
  }

  /** The name belongs to one of the subnets assured for the tenant. */
  ghost predicate NameOfAssured(c: Config, d: Device, t: Tenant, base: string) {
    exists s, i :: s in Assured(d, t) && 0 <= i < c.perSubnet && base == SnatName(c, t, s, i)
  }

  ghost predicate TenantInv(c: Config, d: Device, t: Tenant) {
    && (t in d.pools ==> d.pools[t] != [])
    && (forall base :: HasBase(PoolOf(d.pools, t), base) <==> NameOfAssured(c, d, t, base))
    && DistinctBases(PoolOf(d.pools, t)) && NoDuplicates(Assured(d, t))
  }

  ghost predicate Inv(c: Config, d: Device) {
    forall t :: TenantInv(c, d, t)
  }

  // ----- Assuring a subnet

  lemma HasBaseAppend(a: seq<Path>, b: seq<Path>, base: string)
    ensures HasBase(a + b, base) <==> HasBase(a, base) || HasBase(b, base)
  {
    if i :| 0 <= i < |a| && a[i].base == base {
      assert (a + b)[i].base == base;
    }
    if i :| 0 <= i < |b| && b[i].base == base {
      assert (a + b)[|a| + i].base == base;
    }
  }

  lemma MembersBases(c: Config, t: Tenant, s: SubnetId, folder: string, n: nat)
    ensures forall base :: HasBase(Members(c, t, s, folder, n), base) <==>
              exists i :: 0 <= i < n && base == SnatName(c, t, s, i)
    ensures DistinctBases(Members(c, t, s, folder, n))
  {
    var m := Members(c, t, s, folder, n);
    forall base, i | 0 <= i < n && base == SnatName(c, t, s, i)
      ensures HasBase(m, base)
    {
      assert m[i].base == base;
    }
    forall i, j | 0 <= i < j < n
      ensures m[i].base != m[j].base
    {
      if m[i].base == m[j].base {
        SnatNameInjective(c, t, s, i, s, j);
      }
    }
  }

  lemma AppendDistinct(a: seq<Path>, b: seq<Path>)
    requires DistinctBases(a) && DistinctBases(b)
    requires forall base :: !(HasBase(a, base) && HasBase(b, base))
    ensures DistinctBases(a + b)
  {
    forall i, j | 0 <= i < |a| && 0 <= j < |b|
      ensures a[i].base != b[j].base
    {
      assert HasBase(a, a[i].base) && HasBase(b, b[j].base);
    }
  }

  lemma AssureKeepsTenant(c: Config, d: Device, t: Tenant, s: SubnetId, folder: string)
    requires TenantInv(c, d, t)
    ensures TenantInv(c, Assure(c, d, t, s, folder), t)
  {
    var d' := Assure(c, d, t, s, folder);
    if s !in Assured(d, t) {
      var was, added := PoolOf(d.pools, t), Members(c, t, s, folder, c.perSubnet);
      MembersBases(c, t, s, folder, c.perSubnet);
      assert PoolOf(d'.pools, t) == was + added;
      assert Assured(d', t) == Assured(d, t) + [s];
      forall base
        ensures HasBase(was + added, base) <==> NameOfAssured(c, d', t, base)
        ensures !(HasBase(was, base) && HasBase(added, base))
      {
        HasBaseAppend(was, added, base);
        if HasBase(was, base) && HasBase(added, base) {
          var r, i :| r in Assured(d, t) && 0 <= i < c.perSubnet && base == SnatName(c, t, r, i);
          var j :| 0 <= j < c.perSubnet && base == SnatName(c, t, s, j);
          SnatNameInjective(c, t, r, i, s, j);
        }
        assert NameOfAssured(c, d', t, base) <==>
          NameOfAssured(c, d, t, base) || exists i :: 0 <= i < c.perSubnet && base == SnatName(c, t, s, i) by {
          if exists i :: 0 <= i < c.perSubnet && base == SnatName(c, t, s, i) {
            assert s in Assured(d', t);
          }
        }
      }
      AppendDistinct(was, added);
    }
  }

  // ----- Deleting a subnet

  lemma {:induction false} WithoutBaseEffect(members: seq<Path>, base: string)
    ensures forall b :: HasBase(WithoutBase(members, base), b) <==> HasBase(members, b) && b != base
    ensures DistinctBases(members) ==> DistinctBases(WithoutBase(members, base))
  {
    if members != [] {
      var n := |members| - 1;
      var last, before := members[n], WithoutBase(members[..n], base);
      WithoutBaseEffect(members[..n], base);
      forall b
        ensures HasBase(members, b) <==> HasBase(members[..n], b) || last.base == b
      {
        assert members == members[..n] + [last];
        HasBaseAppend(members[..n], [last], b);
        assert HasBase([last], b) <==> [last][0].base == b;
      }
      if last.base != base {
        forall b
          ensures HasBase(before + [last], b) <==> HasBase(before, b) || last.base == b
        {
          HasBaseAppend(before, [last], b);
          assert HasBase([last], b) <==> [last][0].base == b;
        }
        if DistinctBases(members) {
          forall b
            ensures !(HasBase(before, b) && HasBase([last], b))
          {
            assert HasBase(before, b) ==> HasBase(members[..n], b);
          }
          AppendDistinct(before, [last]);
        }
      } else {
        assert before + [] == before;
      }
    }
  }

  lemma {:induction false} RemoveFirstEffect(l: seq<SubnetId>, s: SubnetId)
    requires NoDuplicates(l)
    ensures NoDuplicates(RemoveFirst(l, s))
    ensures forall r :: r in RemoveFirst(l, s) <==> r in l && r != s
  {
    if l != [] {
      assert forall r :: r in l <==> r == l[0] || r in l[1..];
      assert l[0] !in l[1..];
      RemoveFirstEffect(l[1..], s);
      if l[0] != s {
        var rest := RemoveFirst(l[1..], s);
        assert forall j :: 0 <= j < |rest| ==> rest[j] in rest;
      }
    }
  }

  /** Deletion by one tenant leaves every other tenant's pool and list alone. */
  lemma {:induction false} DeleteLeavesOthers(c: Config, d: Device, t: Tenant, s: SubnetId, k: nat, u: Tenant)
    requires u != t
    ensures var e := Delete(c, d, t, s, k);
            PoolOf(e.pools, u) == PoolOf(d.pools, u) && Assured(e, u) == Assured(d, u)
            && (u in e.pools <==> u in d.pools) && (u in e.assured <==> u in d.assured)
  {
    if k > 0 {
      DeleteLeavesOthers(c, d, t, s, k - 1, u);
    }
  }

  /** The tenant's pool and list keep their shape, and the pool lost exactly the first `k` names. */
  ghost predicate OwnAfter(c: Config, d: Device, t: Tenant, s: SubnetId, k: nat, e: Device) {
    && (t in e.pools ==> e.pools[t] != []) && DistinctBases(PoolOf(e.pools, t)) && NoDuplicates(Assured(e, t))
    && (forall b :: HasBase(PoolOf(e.pools, t), b) <==>
          HasBase(PoolOf(d.pools, t), b) && forall i :: 0 <= i < k ==> b != SnatName(c, t, s, i))
    && (forall r :: r in Assured(e, t) <==> r in Assured(d, t) && (k > 0 ==> r != s))
  }

  lemma OwnRound(c: Config, d: Device, t: Tenant, s: SubnetId, k: nat, e: Device, f: Device)
    requires OwnAfter(c, d, t, s, k, e)
    requires f == e.(pools := DropMember(e.pools, t, SnatName(c, t, s, k)), assured := Unassure(e.assured, t, s))
    ensures OwnAfter(c, d, t, s, k + 1, f)
  {
    var name := SnatName(c, t, s, k);
    WithoutBaseEffect(PoolOf(e.pools, t), name);
    assert PoolOf(f.pools, t) == WithoutBase(PoolOf(e.pools, t), name);
    RemoveFirstEffect(Assured(e, t), s);
    assert Assured(f, t) == RemoveFirst(Assured(e, t), s);
    forall b
      ensures HasBase(PoolOf(f.pools, t), b) <==>
              HasBase(PoolOf(d.pools, t), b) && forall i :: 0 <= i < k + 1 ==> b != SnatName(c, t, s, i)
    {
      assert HasBase(PoolOf(f.pools, t), b) <==> HasBase(PoolOf(e.pools, t), b) && b != name;
    }
  }

  lemma {:induction false} DeleteOwn(c: Config, d: Device, t: Tenant, s: SubnetId, k: nat)
    requires TenantInv(c, d, t)
    ensures OwnAfter(c, d, t, s, k, Delete(c, d, t, s, k))
  {
    if k > 0 {
      DeleteOwn(c, d, t, s, k - 1);
      OwnRound(c, d, t, s, k - 1, Delete(c, d, t, s, k - 1), Delete(c, d, t, s, k));
    }
  }

  lemma DeleteKeepsTenant(c: Config, d: Device, t: Tenant, s: SubnetId)
    requires TenantInv(c, d, t)
    ensures TenantInv(c, Delete(c, d, t, s, c.perSubnet), t)
  {
    var n := c.perSubnet;
    var e := Delete(c, d, t, s, n);
    DeleteOwn(c, d, t, s, n);
    forall b
      ensures HasBase(PoolOf(e.pools, t), b) <==> NameOfAssured(c, e, t, b)
    {
      if NameOfAssured(c, e, t, b) {
        var r, i :| r in Assured(e, t) && 0 <= i < n && b == SnatName(c, t, r, i);
        forall j | 0 <= j < n
          ensures b != SnatName(c, t, s, j)
        {
          if b == SnatName(c, t, s, j) {
            SnatNameInjective(c, t, r, i, s, j);
          }
        }
        assert NameOfAssured(c, d, t, b);
      }
      if HasBase(PoolOf(e.pools, t), b) {
        var r, i :| r in Assured(d, t) && 0 <= i < n && b == SnatName(c, t, r, i);
        assert r in Assured(e, t);
      }
    }
  }

  // ----- Runs

  datatype Op =
    | AssureSnats(tenant: Tenant, subnet: SubnetId, folder: string)
    | DeleteSnats(tenant: Tenant, subnet: SubnetId)

  function Step(c: Config, d: Device, op: Op): Device {
    match op
    case AssureSnats(t, s, folder) => Assure(c, d, t, s, folder)
    case DeleteSnats(t, s) => Delete(c, d, t, s, c.perSubnet)
  }

  function RunOps(c: Config, ops: seq<Op>): Device {
    if ops == [] then EmptyDevice else Step(c, RunOps(c, ops[..|ops| - 1]), ops[|ops| - 1])
  }

  lemma OthersKeepInv(c: Config, d: Device, e: Device, u: Tenant)
    requires TenantInv(c, d, u)
    requires PoolOf(e.pools, u) == PoolOf(d.pools, u) && Assured(e, u) == Assured(d, u)
    requires u in e.pools <==> u in d.pools
    ensures TenantInv(c, e, u)
  {
    assert forall b :: NameOfAssured(c, e, u, b) <==> NameOfAssured(c, d, u, b);
  }

  lemma StepKeepsInv(c: Config, d: Device, op: Op)
    requires Inv(c, d)
    ensures Inv(c, Step(c, d, op))
  {
    var e := Step(c, d, op);
    forall u
      ensures TenantInv(c, e, u)
    {
      assert TenantInv(c, d, u);
      if u == op.tenant {
        match op
        case AssureSnats(t, s, folder) => AssureKeepsTenant(c, d, t, s, folder);
        case DeleteSnats(t, s) => DeleteKeepsTenant(c, d, t, s);
      } else {
        if op.DeleteSnats? {
          DeleteLeavesOthers(c, d, op.tenant, op.subnet, c.perSubnet, u);
        }
        OthersKeepInv(c, d, e, u);
      }
    }
  }

  lemma {:induction false} InvOverRuns(c: Config, ops: seq<Op>)
    ensures Inv(c, RunOps(c, ops))
  {
    if ops == [] {
      forall t
        ensures TenantInv(c, EmptyDevice, t)
      {
        assert forall b :: !HasBase(PoolOf(EmptyDevice.pools, t), b) && !NameOfAssured(c, EmptyDevice, t, b);
      }
    } else {
      InvOverRuns(c, ops[..|ops| - 1]);
      StepKeepsInv(c, RunOps(c, ops[..|ops| - 1]), ops[|ops| - 1]);
    }
  }

  /** After every run, each tenant's pool holds exactly the indexed names of its assured
      subnets, each once, and the pool exists exactly when there is such a name. */
  lemma PoolsAreExact(c: Config, ops: seq<Op>, t: Tenant)
    ensures var d := RunOps(c, ops);
            && (forall base :: HasBase(PoolOf(d.pools, t), base) <==> NameOfAssured(c, d, t, base))
            && DistinctBases(PoolOf(d.pools, t))
            && (t in d.pools <==> Assured(d, t) != [] && c.perSubnet > 0)
  {
    InvOverRuns(c, ops);
    var d := RunOps(c, ops);
    assert TenantInv(c, d, t);
    if t in d.pools {
      assert HasBase(PoolOf(d.pools, t), d.pools[t][0].base);
    }
    if Assured(d, t) != [] && c.perSubnet > 0 {
      assert NameOfAssured(c, d, t, SnatName(c, t, Assured(d, t)[0], 0));
    }
  }

  // ----- What a deletion releases and reports

  lemma ListedSplit(pools: map<Tenant, seq<Path>>, t: Tenant, base: string)
    ensures Listed(pools, base) <==>
            HasBase(PoolOf(pools, t), base) || exists u :: u != t && HasBase(PoolOf(pools, u), base)
  {
    if Listed(pools, base) {
      var u, i :| u in pools && 0 <= i < |pools[u]| && pools[u][i].base == base;
      assert HasBase(PoolOf(pools, u), base);
    }
    forall u | HasBase(PoolOf(pools, u), base)
      ensures Listed(pools, base)
    {
      var i :| 0 <= i < |PoolOf(pools, u)| && PoolOf(pools, u)[i].base == base;
      assert pools[u][i].base == base;
    }
  }

  /** After round `i` the name of that round is listed exactly by the other tenants' pools
      that listed it before. */
  lemma ListedAfterRounds(c: Config, d: Device, t: Tenant, s: SubnetId, i: nat, k: nat)
    requires TenantInv(c, d, t) && i < k
    ensures Listed(Delete(c, d, t, s, k).pools, SnatName(c, t, s, i)) <==>
            exists u :: u != t && HasBase(PoolOf(d.pools, u), SnatName(c, t, s, i))
  {
    var e, name := Delete(c, d, t, s, k), SnatName(c, t, s, i);
    DeleteOwn(c, d, t, s, k);
    ListedSplit(e.pools, t, name);
    forall u | u != t
      ensures HasBase(PoolOf(e.pools, u), name) <==> HasBase(PoolOf(d.pools, u), name)
    {
      DeleteLeavesOthers(c, d, t, s, k, u);
    }
  }

  lemma {:induction false} ReleasedNames(c: Config, d: Device, t: Tenant, s: SubnetId, k: nat, base: string)
    ensures base in Released(c, d, t, s, k) <==>
            exists i: nat :: i < k && base == SnatName(c, t, s, i) && Freed(c, d, t, s, i)
  {
    if k > 0 {
      ReleasedNames(c, d, t, s, k - 1, base);
    }
  }

  /** The ports released are exactly those of the subnet's names that no pool of the device
      lists once the deletion is complete. */
  lemma ReleasedOnlyWhenUnlisted(c: Config, d: Device, t: Tenant, s: SubnetId, base: string)
    requires Inv(c, d)
    ensures base in Released(c, d, t, s, c.perSubnet) <==>
            && !Listed(Delete(c, d, t, s, c.perSubnet).pools, base)
            && exists i: nat :: i < c.perSubnet && base == SnatName(c, t, s, i)
  {
    assert TenantInv(c, d, t);
    ReleasedNames(c, d, t, s, c.perSubnet, base);
    forall i: nat | i < c.perSubnet && base == SnatName(c, t, s, i)
      ensures Freed(c, d, t, s, i) <==> !Listed(Delete(c, d, t, s, c.perSubnet).pools, base)
    {
      ListedAfterRounds(c, d, t, s, i, i + 1);
      ListedAfterRounds(c, d, t, s, i, c.perSubnet);
    }
  }

  /** When all tenants are in one traffic group the names are shared too: the ports of a subnet
      are released exactly when no other tenant has the subnet assured. */
  lemma SharedNamesReleased(c: Config, d: Device, t: Tenant, s: SubnetId, i: nat)
    requires Inv(c, d) && i < c.perSubnet && forall u :: Group(c, u) == Group(c, t)
    ensures Freed(c, d, t, s, i) <==> forall u :: u != t ==> s !in Assured(d, u)
  {
    assert TenantInv(c, d, t);
    ListedAfterRounds(c, d, t, s, i, i + 1);
    var name := SnatName(c, t, s, i);
    forall u | u != t
      ensures HasBase(PoolOf(d.pools, u), name) <==> s in Assured(d, u)
    {
      assert TenantInv(c, d, u);
      assert SnatName(c, u, s, i) == name;
      if NameOfAssured(c, d, u, name) {
        var r, j :| r in Assured(d, u) && 0 <= j < c.perSubnet && name == SnatName(c, u, r, j);
        SnatNameInjective(c, u, s, i, r, j);
      }
    }
  }

  /** The second in-use test looks for a member named after the bare subnet id.  No member
      ever is, so it never fires for ids without an underscore. */
  lemma BareSubnetNeverListed(c: Config, d: Device, s: SubnetId)
    requires Inv(c, d) && '_' !in s
    ensures !Listed(d.pools, s)
  {
    forall t, i | t in d.pools && 0 <= i < |d.pools[t]|
      ensures d.pools[t][i].base != s
    {
      assert HasBase(PoolOf(d.pools, t), d.pools[t][i].base) && TenantInv(c, d, t);
      var r, j :| r in Assured(d, t) && 0 <= j < c.perSubnet && d.pools[t][i].base == SnatName(c, t, r, j);
      assert d.pools[t][i].base[|"snat-" + Group(c, t) + "-" + r|] == '_';
    }
  }

  /** A deletion reports the subnet as in use exactly when another tenant has it assured. */
  lemma {:induction false} ReportedInUse(c: Config, d: Device, t: Tenant, s: SubnetId, k: nat)
    requires Inv(c, d) && '_' !in s
    ensures InUse(c, d, t, s, k) <==> k > 0 && exists u :: u != t && s in Assured(d, u)
  {
    if k > 0 {
      ReportedInUse(c, d, t, s, k - 1);
      OccupiedByOthers(c, d, t, s, k - 1);
    }
  }

  lemma OccupiedByOthers(c: Config, d: Device, t: Tenant, s: SubnetId, i: nat)
    requires Inv(c, d) && '_' !in s
    ensures OccupiedAfter(c, d, t, s, i) <==> exists u :: u != t && s in Assured(d, u)
  {
    var e := Delete(c, d, t, s, i + 1);
    assert TenantInv(c, d, t);
    DeleteOwn(c, d, t, s, i + 1);
    forall u | u != t
      ensures Assured(e, u) == Assured(d, u) && PoolOf(e.pools, u) == PoolOf(d.pools, u)
    {
      DeleteLeavesOthers(c, d, t, s, i + 1, u);
    }
    BareSubnetNeverListed(c, d, s);
    ListedSplit(d.pools, t, s);
    ListedSplit(e.pools, t, s);
    if u :| u != t && s in Assured(d, u) {
      assert u in e.assured && s in e.assured[u];
    }
    if AssuredByAny(e.assured, s) {
      var u :| u in e.assured && s in e.assured[u];
      assert s in Assured(e, u);
    }
  }

  // ----- Deletion under failing pool calls

  lemma {:induction false} WithoutBaseKeeps(members: seq<Path>, base: string, other: string)
    requires base != other
    ensures HasBase(WithoutBase(members, base), other) <==> HasBase(members, other)
  {
    if members != [] {
      var n := |members| - 1;
      WithoutBaseKeeps(members[..n], base, other);
      HasBaseAppend(members[..n], [members[n]], other);
      HasBaseAppend(WithoutBase(members[..n], base), if members[n].base != base then [members[n]] else [], other);
      assert members[..n] + [members[n]] == members;
    }
  }

  lemma ListedMeans(pools: map<Tenant, seq<Path>>, base: string)
    ensures Listed(pools, base) <==> exists u :: u in pools && HasBase(pools[u], base)
  {
  }

  /** Dropping one name does not change what else is listed. */
  lemma DropKeepsOthers(pools: map<Tenant, seq<Path>>, t: Tenant, base: string, other: string)
    requires base != other
    ensures Listed(DropMember(pools, t, base), other) <==> Listed(pools, other)
  {
    ListedMeans(pools, other);
    ListedMeans(DropMember(pools, t, base), other);
    var dropped := DropMember(pools, t, base);
    forall u
      ensures u in dropped && HasBase(dropped[u], other) <==> u in pools && HasBase(pools[u], other)
    {
      if u == t && t in pools {
        WithoutBaseKeeps(pools[t], base, other);
        assert WithoutBase(pools[t], base) == [] ==> !HasBase(pools[t], other);
      }
    }
  }

  lemma {:induction false} NamesReleasedUnder(c: Config, d: Device, t: Tenant, s: SubnetId, failed: seq<bool>,
                                              base: string)
    ensures base in ReleasedUnder(c, d, t, s, failed) <==>
            && !Listed(DeleteUnder(c, d, t, s, failed).pools, base)
            && exists i: nat :: i < |failed| && base == SnatName(c, t, s, i)
  {
    if failed != [] {
      var k := |failed| - 1;
      NamesReleasedUnder(c, d, t, s, failed[..k], base);
      if base == SnatName(c, t, s, k) {
        EarlierNames(c, t, s, k);
      } else {
        RoundKeepsOthers(c, d, t, s, failed, base);
      }
    }
  }

  lemma EarlierNames(c: Config, t: Tenant, s: SubnetId, k: nat)
    ensures forall i: nat :: i < k ==> SnatName(c, t, s, i) != SnatName(c, t, s, k)
  {
    forall i: nat | i < k
      ensures SnatName(c, t, s, i) != SnatName(c, t, s, k)
    {
      if SnatName(c, t, s, i) == SnatName(c, t, s, k) {
        SnatNameInjective(c, t, s, i, s, k);
      }
    }
  }

  lemma RoundKeepsOthers(c: Config, d: Device, t: Tenant, s: SubnetId, failed: seq<bool>, base: string)
    requires failed != [] && base != SnatName(c, t, s, |failed| - 1)
    ensures Listed(DeleteUnder(c, d, t, s, failed).pools, base) <==>
            Listed(DeleteUnder(c, d, t, s, failed[..|failed| - 1]).pools, base)
  {
    var k := |failed| - 1;
    DropKeepsOthers(DeleteUnder(c, d, t, s, failed[..k]).pools, t, SnatName(c, t, s, k), base);
  }

  /** Whatever pool calls fail, from any device, the ports released are exactly those of the
      subnet's names that no pool lists once the deletion is complete. */
  lemma ReleasedUnderFailures(c: Config, d: Device, t: Tenant, s: SubnetId, failed: seq<bool>, base: string)
    requires |failed| == c.perSubnet
    ensures base in ReleasedUnder(c, d, t, s, failed) <==>
            && !Listed(DeleteUnder(c, d, t, s, failed).pools, base)
            && exists i: nat :: i < c.perSubnet && base == SnatName(c, t, s, i)
  {
    NamesReleasedUnder(c, d, t, s, failed, base);
  }

  /** The name is one of the tenant's on the subnet. */
  ghost predicate NameOf(c: Config, t: Tenant, s: SubnetId, name: string) {
    exists i: nat :: i < c.perSubnet && name == SnatName(c, t, s, i)
  }

  lemma NamesApart(c: Config, t: Tenant, s: SubnetId, r: SubnetId, name: string)
    requires NameOf(c, t, s, name) && NameOf(c, t, r, name)
    ensures s == r
  {
    var i: nat, j: nat :| i < c.perSubnet && j < c.perSubnet && name == SnatName(c, t, s, i) == SnatName(c, t, r, j);
    SnatNameInjective(c, t, s, i, r, j);
  }

  /** A deletion does not change where names of other subnets are listed. */
  lemma {:induction false} OtherNamesStay(c: Config, d: Device, t: Tenant, s: SubnetId, failed: seq<bool>, name: string)
    requires |failed| <= c.perSubnet && !NameOf(c, t, s, name)
    ensures Listed(DeleteUnder(c, d, t, s, failed).pools, name) <==> Listed(d.pools, name)
  {
    if failed != [] {
      OtherNamesStay(c, d, t, s, failed[..|failed| - 1], name);
      RoundKeepsOthers(c, d, t, s, failed, name);
    }
  }

  // ----- Names and lists, spelled out

  /** Value of a decimal numeral. */
  function ValueOf(digits: string): int {
    if digits == [] then 0
    else 10 * ValueOf(digits[..|digits| - 1]) + (digits[|digits| - 1] as int - '0' as int)
  }

  /** The index is written in decimal, without leading zeros. */
  lemma {:induction false} DigitsAreDecimal(i: nat)
    ensures var ds := Digits(i);
            && ds != [] && ValueOf(ds) == i && (forall k :: 0 <= k < |ds| ==> '0' <= ds[k] <= '9')
            && (|ds| > 1 ==> ds[0] != '0')
  {
    if i < 10 {
      assert Digits(i)[..0] == [];
    } else {
      DigitsAreDecimal(i / 10);
      assert Digits(i)[..|Digits(i)| - 1] == Digits(i / 10);
    }
  }

  /** The names of a tenant's addresses on a subnet: only scale-N clusters tell tenants apart. */
  lemma SnatNameIs(c: Config, t: Tenant, s: SubnetId, i: nat)
    ensures SnatName(c, t, s, i) ==
            (match c.haType
             case Standalone => "snat-traffic-group-local-only-" + s
             case Pair => "snat-traffic-group-1-" + s
             case ScaleN => "snat-" + c.trafficGroup(t) + "-" + s) + "_" + Digits(i)
  {
    if c.haType.Standalone? {
      assert "snat-" + "traffic-group-local-only" + "-" + s == "snat-traffic-group-local-only-" + s;
    } else if c.haType.Pair? {
      assert "snat-" + "traffic-group-1" + "-" + s == "snat-traffic-group-1-" + s;
    }
  }

  /** Assuring a subnet appends its names, in the network's folder, to the tenant's pool, makes
      their translations and remembers the subnet; a second time it does nothing.  Other tenants
      keep their pools and subnets. */
  lemma AssureEffect(c: Config, d: Device, t: Tenant, s: SubnetId, folder: string)
    ensures var e, was, now := Assure(c, d, t, s, folder), PoolOf(d.pools, t),
                               PoolOf(Assure(c, d, t, s, folder).pools, t);
            && (s in Assured(d, t) ==> e == d)
            && (s !in Assured(d, t) ==>
                  && Assured(e, t) == Assured(d, t) + [s]
                  && |now| == |was| + c.perSubnet && now[..|was|] == was
                  && (forall i :: 0 <= i < c.perSubnet ==> now[|was| + i] == Path(folder, SnatName(c, t, s, i)))
                  && (forall m :: m in e.translations <==>
                        || m in d.translations
                        || exists i :: 0 <= i < c.perSubnet && m == Path(folder, SnatName(c, t, s, i))))
            && (forall u :: u != t ==> Assured(e, u) == Assured(d, u) && PoolOf(e.pools, u) == PoolOf(d.pools, u))
  {
    if s !in Assured(d, t) {
      var e, added := Assure(c, d, t, s, folder), Members(c, t, s, folder, c.perSubnet);
      assert PoolOf(e.pools, t) == PoolOf(d.pools, t) + added;
    }
  }

  /** Dropping a name keeps the other members in their order. */
  lemma {:induction false} DroppedInOrder(a: seq<Path>, b: seq<Path>, base: string)
    ensures WithoutBase(a + b, base) == WithoutBase(a, base) + WithoutBase(b, base)
  {
    if b == [] {
      assert a + b == a;
    } else {
      DroppedInOrder(a, b[..|b| - 1], base);
      assert (a + b)[..|a + b| - 1] == a + b[..|b| - 1];
    }
  }

  lemma {:induction false} NothingToRemove(l: seq<SubnetId>, s: SubnetId)
    requires s !in l
    ensures RemoveFirst(l, s) == l
  {
    if l != [] {
      NothingToRemove(l[1..], s);
    }
  }

  /** `list.remove`: the first occurrence goes. */
  lemma {:induction false} FirstOccurrenceGoes(l: seq<SubnetId>, s: SubnetId, i: nat)
    requires i < |l| && l[i] == s && forall j :: 0 <= j < i ==> l[j] != s
    ensures RemoveFirst(l, s) == l[..i] + l[i + 1..]
  {
    if i > 0 {
      FirstOccurrenceGoes(l[1..], s, i - 1);
      assert l[..i] == [l[0]] + l[1..][..i - 1] && l[1..][i..] == l[i + 1..];
      assert [l[0]] + (l[1..][..i - 1] + l[i + 1..]) == [l[0]] + l[1..][..i - 1] + l[i + 1..];
    }
  }

  /** Deletions never touch the translations, nor anything of other tenants. */
  lemma {:induction false} DeletionFrame(c: Config, d: Device, t: Tenant, s: SubnetId, failed: seq<bool>)
    ensures var e := DeleteUnder(c, d, t, s, failed);
            && e.translations == d.translations
            && forall u :: u != t ==> PoolOf(e.pools, u) == PoolOf(d.pools, u) && Assured(e, u) == Assured(d, u)
  {
    if failed != [] {
      DeletionFrame(c, d, t, s, failed[..|failed| - 1]);
    }
  }
}
