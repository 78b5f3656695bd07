/** Which subnets are torn down on a device after a service was assured.

    Hints gather the subnets that may have lost their last user; a shared pass deletes their
    SNATs and withdraws those still in use; a second pass tears the remaining ones down. */
module SubnetTeardown {
  import opened Lbaas
  import opened Cidr
  import S = SnatPools
  import SnatLaws

  type SubnetId = string
  type Tenant = string

  datatype HintInfo = HintInfo(networkId: Id, isForMember: bool)

  /** `check_for_delete_subnets` and `do_not_delete_subnets` of one device. */
  datatype Hints = Hints(check: map<SubnetId, HintInfo>, keep: seq<SubnetId>)

  const NoHints: Hints := Hints(map[], [])

  datatype Hint = Hint(status: Status, subnet: SubnetId, info: HintInfo)

  function Update(h: Hints, hint: Hint): Hints {
    if hint.status != PendingDelete then
      Hints(h.check - {hint.subnet}, if hint.subnet in h.keep then h.keep else h.keep + [hint.subnet])
    else if hint.subnet in h.keep then h
    else h.(check := h.check[hint.subnet := hint.info])
  }

  function UpdateAll(h: Hints, hints: seq<Hint>): Hints {
    if hints == [] then h else Update(UpdateAll(h, hints[..|hints| - 1]), hints[|hints| - 1])
  }

  ghost predicate Hinted(hints: seq<Hint>, s: SubnetId) {
    exists i :: 0 <= i < |hints| && hints[i].subnet == s
  }

  /** Some hint says that the subnet is still used. */
  ghost predicate HintedLive(hints: seq<Hint>, s: SubnetId) {
    exists i :: 0 <= i < |hints| && hints[i].subnet == s && hints[i].status != PendingDelete
  }

  /** After any sequence of hints, in any order, the subnets to check are exactly those whose
      hints were all PENDING_DELETE, and the subnets to keep exactly the others. */
  lemma {:induction false} HintsAreExact(hints: seq<Hint>, s: SubnetId)
    ensures var h := UpdateAll(NoHints, hints);
            && (s in h.check <==> Hinted(hints, s) && !HintedLive(hints, s))
            && (s in h.keep <==> HintedLive(hints, s))
  {
    if hints != [] {
      var n := |hints| - 1;
      HintsAreExact(hints[..n], s);
      HintedSnoc(hints[..n], hints[n], s);
      assert hints == hints[..n] + [hints[n]];
    }
  }

  lemma HintedSnoc(hints: seq<Hint>, last: Hint, s: SubnetId)
    ensures Hinted(hints + [last], s) <==> Hinted(hints, s) || last.subnet == s
    ensures HintedLive(hints + [last], s) <==>
            HintedLive(hints, s) || (last.subnet == s && last.status != PendingDelete)
  {
    var all := hints + [last];
    assert all[|hints|] == last;
    assert forall i :: 0 <= i < |hints| ==> all[i] == hints[i];
  }

  /** What is remembered about a subnet to check is what its last hint said. */
  lemma {:induction false} LastHintCounts(hints: seq<Hint>, s: SubnetId)
    requires s in UpdateAll(NoHints, hints).check
    ensures exists i :: 0 <= i < |hints| && hints[i].subnet == s &&
                        UpdateAll(NoHints, hints).check[s] == hints[i].info &&
                        forall j :: i < j < |hints| ==> hints[j].subnet != s
  {
    if hints != [] {
      var n := |hints| - 1;
      if hints[n].subnet != s {
        LastHintCounts(hints[..n], s);
        var i :| 0 <= i < n && hints[..n][i].subnet == s &&
            UpdateAll(NoHints, hints[..n]).check[s] == hints[..n][i].info
                 && forall j :: i < j < n ==> hints[..n][j].subnet != s;
        assert forall j :: 0 <= j < n ==> hints[j] == hints[..n][j];
        assert hints[i].subnet == s;
      } else {
        HintsAreExact(hints, s);
        assert hints[n].subnet == s;
      }
    }
  }

  // ----- Addresses on the device

  /** An address of a virtual server or a node: `value` or `value%rd`. */
  datatype DeviceAddress = DeviceAddress(address: Address, rd: Option<string>)

  /** `str(route_domain)`, where a network without a route domain gives "None". */
  function RdText(rd: Option<string>): string {
    match rd
    case Some(r) => r
    case None => "None"
  }

  /** The route domain after the `%` of an address, "0" without one. */
  function RdOf(a: DeviceAddress): string {
    if a.rd.Some? then a.rd.value else "0"
  }

  predicate On(a: DeviceAddress, cidr: Cidr, rd: Option<string>) {
    && RdOf(a) == RdText(rd)
    && Covers(cidr, a.address)
  }

  /** The address counts as one in the route domain: it carries its id, and none for domain
      "0".  A network without a route domain is looked for under "None". */
  ghost predicate InDomain(a: DeviceAddress, rd: Option<string>) {
    match rd
    case Some(id) => a.rd == Some(id) || (a.rd == None && id == "0")
    case None => a.rd == Some("None")
  }

  /** A virtual or node address of the tenant lies on the subnet in the route domain. */
  ghost predicate AddressOn(virtuals: seq<DeviceAddress>, nodes: seq<DeviceAddress>, cidr: Cidr, rd: Option<string>) {
    exists a :: (a in virtuals || a in nodes) && Covers(cidr, a.address) && InDomain(a, rd)
  }

  lemma OnIs(a: DeviceAddress, cidr: Cidr, rd: Option<string>)
    ensures On(a, cidr, rd) <==> Covers(cidr, a.address) && InDomain(a, rd)
  {
  }

  /** The subnets of the service definition, and the route domain of each subnet's network. */
  datatype SubnetInfo = SubnetInfo(cidr: Cidr, routeDomain: Option<string>)

  /** A tenant other than `t` has the subnet assured on the device. */
  ghost predicate AssuredByOther(d: S.Device, t: Tenant, s: SubnetId) {
    exists u :: u != t && s in S.Assured(d, u)
  }

  /** What teardown must be: hinted for deletion only, no address left, and, while SNATs are
      in use, no other tenant relying on it. */
  ghost predicate ToTearDown(c: S.Config, d: S.Device, t: Tenant, check: set<SubnetId>,
                             subnets: map<SubnetId, SubnetInfo>, virtuals: seq<DeviceAddress>,
                             nodes: seq<DeviceAddress>, s: SubnetId)
  {
    && s in check && s in subnets
    && !AddressOn(virtuals, nodes, subnets[s].cidr, subnets[s].routeDomain)
    && !(c.perSubnet > 0 && AssuredByOther(d, t, s))
  }

  class BigIp {
    const conf: S.Config
    const snats: S.BigipSnatManager
    var hints: Hints
    var virtuals: seq<DeviceAddress>
    var nodes: seq<DeviceAddress>

    constructor (conf: S.Config)
      ensures this.conf == conf && snats.conf == conf && fresh(snats) && snats.device == S.EmptyDevice
      ensures hints == NoHints && virtuals == nodes == []
    {
      this.conf := conf;
      snats := new S.BigipSnatManager(conf);
      hints, virtuals, nodes := NoHints, [], [];
    }

    method UpdateSubnetHints(hint: Hint)
      modifies this`hints
      ensures hints == Update(old(hints), hint)
    {
      if hint.status != PendingDelete {
        if hint.subnet in hints.check {
          hints := hints.(check := hints.check - {hint.subnet});
        } else {
          assert hints.check - {hint.subnet} == hints.check;
        }
        if hint.subnet !in hints.keep {
          hints := hints.(keep := hints.keep + [hint.subnet]);
        }
      } else {
        if hint.subnet !in hints.keep {
          hints := hints.(check := hints.check[hint.subnet := hint.info]);
        }
      }
    }

    method IpsExistOnSubnet(cidr: Cidr, rd: Option<string>) returns (found: bool)
      ensures found <==> AddressOn(virtuals, nodes, cidr, rd)
    {
      for k := 0 to |virtuals|
        invariant forall j :: 0 <= j < k ==> !(Covers(cidr, virtuals[j].address) && InDomain(virtuals[j], rd))
      {
        OnIs(virtuals[k], cidr, rd);
        if On(virtuals[k], cidr, rd) {
          return true;
        }
      }
      for k := 0 to |nodes|
        invariant forall j :: 0 <= j < k ==> !(Covers(cidr, nodes[j].address) && InDomain(nodes[j], rd))
      {
        OnIs(nodes[k], cidr, rd);
        if On(nodes[k], cidr, rd) {
          return true;
        }
      }
      return false;
    }

    method GetSubnetsToDelete(subnets: map<SubnetId, SubnetInfo>) returns (out: set<SubnetId>)
      ensures forall s :: s in out <==>
                && s in hints.check && s in subnets
                && !AddressOn(virtuals, nodes, subnets[s].cidr, subnets[s].routeDomain)
    {
      out := {};
      var todo := hints.check.Keys;
      while todo != {}
        invariant todo <= hints.check.Keys
        invariant forall s :: s in out <==>
                    && s in hints.check && s !in todo && s in subnets
                    && !AddressOn(virtuals, nodes, subnets[s].cidr, subnets[s].routeDomain)
        decreases |todo|
      {
        var s :| s in todo;
        if s in subnets {
          var found := IpsExistOnSubnet(subnets[s].cidr, subnets[s].routeDomain);
          if !found {
            out := out + {s};
          }
        }
        todo := todo - {s};
      }
    }

    /** Deletes the tenant's SNATs of one subnet and tells whether others still use it. */
    method DeleteSnats(t: Tenant, s: SubnetId) returns (deleted: set<string>, inUse: set<SubnetId>)
      requires snats.conf == conf && SnatLaws.Inv(conf, snats.device) && '_' !in s
      modifies snats`device
      ensures SnatLaws.Inv(conf, snats.device)
      ensures forall r :: AssuredByOther(snats.device, t, r) <==> AssuredByOther(old(snats.device), t, r)
      ensures inUse == if conf.perSubnet > 0 && AssuredByOther(old(snats.device), t, s) then {s} else {}
      ensures forall n :: n in deleted <==> SnatLaws.NameOf(conf, t, s, n) && !S.Listed(snats.device.pools, n)
      ensures forall n :: !SnatLaws.NameOf(conf, t, s, n) ==>
                (S.Listed(snats.device.pools, n) <==> S.Listed(old(snats.device).pools, n))
    {
      SnatLaws.ReportedInUse(conf, snats.device, t, s, conf.perSubnet);
      SnatLaws.StepKeepsInv(conf, snats.device, SnatLaws.DeleteSnats(t, s));
      OthersStillAssured(conf, snats.device, t, s);
      S.NoneFails(conf, snats.device, t, s, conf.perSubnet);
      ghost var was := snats.device;
      deleted, inUse := snats.DeleteBigipSnats(t, s, S.Successes(conf.perSubnet));
      forall n {
        SnatLaws.ReleasedUnderFailures(conf, was, t, s, S.Successes(conf.perSubnet), n);
      }
      forall n | !SnatLaws.NameOf(conf, t, s, n)
        ensures S.Listed(snats.device.pools, n) <==> S.Listed(was.pools, n)
      {
        SnatLaws.OtherNamesStay(conf, was, t, s, S.Successes(conf.perSubnet), n);
      }
    }

    /** The shared pass: SNATs of every candidate go, the ports whose names no pool lists any more
        are released, and candidates in use are withdrawn. */
    method AssureDeleteNetsShared(t: Tenant, subnets: map<SubnetId, SubnetInfo>) returns (deleted: set<string>)
      requires snats.conf == conf && SnatLaws.Inv(conf, snats.device)
      requires forall s :: s in subnets ==> '_' !in s
      modifies this`hints, snats`device
      ensures SnatLaws.Inv(conf, snats.device)
      ensures hints.keep == old(hints).keep
      ensures forall s :: s in hints.check <==>
                && s in old(hints).check
                && !(&& s in subnets && !AddressOn(virtuals, nodes, subnets[s].cidr, subnets[s].routeDomain)
                     && conf.perSubnet > 0 && AssuredByOther(old(snats.device), t, s))
      ensures forall n :: n in deleted <==>
                !S.Listed(snats.device.pools, n) &&
                NameOnCandidate(conf, t, old(hints).check.Keys, subnets, virtuals, nodes, n)
    {
      deleted := {};
      var candidates := GetSubnetsToDelete(subnets);
      CandidatesAre(conf, t, hints.check.Keys, subnets, virtuals, nodes, candidates);
      var todo := candidates;
      while todo != {}
        invariant todo <= candidates && snats.conf == conf && SnatLaws.Inv(conf, snats.device)
        invariant forall r :: AssuredByOther(snats.device, t, r) <==> AssuredByOther(old(snats.device), t, r)
        invariant hints.keep == old(hints).keep
        invariant forall n :: n in deleted <==>
                    !S.Listed(snats.device.pools, n) && Processed(conf, t, candidates - todo, n)
        invariant forall s :: s in hints.check <==>
                    && s in old(hints).check
                    && !(s in candidates && s !in todo && conf.perSubnet > 0 && AssuredByOther(old(snats.device), t, s))
        decreases |todo|
      {
        var s :| s in todo;
        ghost var was := snats.device;
        var names, inUse := DeleteSnats(t, s);
        ReleasedSoFar(conf, t, candidates - todo, s, was, snats.device, deleted, names);
        deleted := deleted + names;
        OneFewer(candidates, todo, s);
        hints := hints.(check := hints.check - inUse);
        todo := todo - {s};
      }
      assert candidates - todo == candidates;
    }

    /** The second pass: what is still a candidate is torn down and must not be again. */
    method AssureDeleteNetsNonshared(subnets: map<SubnetId, SubnetInfo>) returns (torn: set<SubnetId>)
      modifies this`hints
      ensures forall s :: s in torn <==>
                && s in old(hints).check && s in subnets
                && !AddressOn(virtuals, nodes, subnets[s].cidr, subnets[s].routeDomain)
      ensures hints.check == old(hints).check
      ensures forall s :: s in hints.keep <==> s in old(hints).keep || s in torn
    {
      torn := GetSubnetsToDelete(subnets);
      var todo := torn;
      while todo != {}
        invariant todo <= torn && hints.check == old(hints).check
        invariant forall s :: s in hints.keep <==> s in old(hints).keep || (s in torn && s !in todo)
        decreases |todo|
      {
        var s :| s in todo;
        if s !in hints.keep {
          hints := hints.(keep := hints.keep + [s]);
        }
        todo := todo - {s};
      }
    }

    /** Both passes of `post_service_networking` on this device, when the shared one raises
        nothing: exactly the subnets that `ToTearDown` allows are torn down. */
    method PostServiceNetworking(t: Tenant, subnets: map<SubnetId, SubnetInfo>) returns (torn: set<SubnetId>)
      requires snats.conf == conf && SnatLaws.Inv(conf, snats.device)
      requires forall s :: s in subnets ==> '_' !in s
      modifies this`hints, snats`device
      ensures forall s :: s in torn <==>
                ToTearDown(conf, old(snats.device), t, old(hints).check.Keys, subnets, virtuals, nodes, s)
    {
      var deleted := AssureDeleteNetsShared(t, subnets);
      torn := AssureDeleteNetsNonshared(subnets);
    }

    /** A whole service on this device: its hints in turn, from none, and then both passes. */
    method HintAndTearDown(t: Tenant, all: seq<Hint>, subnets: map<SubnetId, SubnetInfo>) returns (torn: set<SubnetId>)
      requires snats.conf == conf && SnatLaws.Inv(conf, snats.device)
      requires forall s :: s in subnets ==> '_' !in s
      modifies this`hints, snats`device
      ensures forall s :: s in torn <==>
                && s in subnets && Hinted(all, s) && !HintedLive(all, s)
                && !AddressOn(virtuals, nodes, subnets[s].cidr, subnets[s].routeDomain)
                && (conf.perSubnet > 0 ==> forall u :: u != t ==> s !in S.Assured(old(snats.device), u))
    {
      hints := NoHints;
      for k := 0 to |all|
        invariant snats.conf == conf && SnatLaws.Inv(conf, snats.device) && snats.device == old(snats.device)
        invariant hints == UpdateAll(NoHints, all[..k])
      {
        assert all[..k + 1][..k] == all[..k];
        UpdateSubnetHints(all[k]);
      }
      assert all[..|all|] == all;
      forall s | s in subnets {
        TeardownIsExact(conf, snats.device, t, all, subnets, virtuals, nodes, s);
      }
      torn := PostServiceNetworking(t, subnets);
    }
  }

  /** The name is one of the tenant's on a subnet to check without an address. */
  ghost predicate NameOnCandidate(c: S.Config, t: Tenant, check: set<SubnetId>, subnets: map<SubnetId, SubnetInfo>,
                                  virtuals: seq<DeviceAddress>, nodes: seq<DeviceAddress>, name: string)
  {
    exists s :: && s in check && s in subnets && SnatLaws.NameOf(c, t, s, name)
                && !AddressOn(virtuals, nodes, subnets[s].cidr, subnets[s].routeDomain)
  }

  lemma CandidatesAre(c: S.Config, t: Tenant, check: set<SubnetId>, subnets: map<SubnetId, SubnetInfo>,
                      virtuals: seq<DeviceAddress>, nodes: seq<DeviceAddress>, candidates: set<SubnetId>)
    requires forall s :: s in candidates <==>
               s in check && s in subnets && !AddressOn(virtuals, nodes, subnets[s].cidr, subnets[s].routeDomain)
    ensures forall n :: Processed(c, t, candidates, n) <==> NameOnCandidate(c, t, check, subnets, virtuals, nodes, n)
  {
  }

  lemma OneFewer(candidates: set<SubnetId>, todo: set<SubnetId>, s: SubnetId)
    requires s in todo && todo <= candidates
    ensures candidates - (todo - {s}) == candidates - todo + {s}
  {
  }

  /** The name is one of the tenant's on one of these subnets. */
  ghost predicate Processed(c: S.Config, t: Tenant, subnets: set<SubnetId>, name: string) {
    exists s :: s in subnets && SnatLaws.NameOf(c, t, s, name)
  }

  /** One more subnet whose names were released where no pool lists them. */
  lemma ReleasedSoFar(c: S.Config, t: Tenant, done: set<SubnetId>, s: SubnetId, was: S.Device, now: S.Device,
                      deleted: set<string>, names: set<string>)
    requires s !in done
    requires forall n :: n in deleted <==> !S.Listed(was.pools, n) && Processed(c, t, done, n)
    requires forall n :: n in names <==> SnatLaws.NameOf(c, t, s, n) && !S.Listed(now.pools, n)
    requires forall n :: !SnatLaws.NameOf(c, t, s, n) ==> (S.Listed(now.pools, n) <==> S.Listed(was.pools, n))
    ensures forall n :: n in deleted + names <==> !S.Listed(now.pools, n) && Processed(c, t, done + {s}, n)
  {
    forall n
      ensures Processed(c, t, done + {s}, n) <==> Processed(c, t, done, n) || SnatLaws.NameOf(c, t, s, n)
      ensures !(Processed(c, t, done, n) && SnatLaws.NameOf(c, t, s, n))
    {
      if r :| r in done && SnatLaws.NameOf(c, t, r, n) {
        assert r in done + {s};
        if SnatLaws.NameOf(c, t, s, n) {
          SnatLaws.NamesApart(c, t, r, s, n);
        }
      }
      if SnatLaws.NameOf(c, t, s, n) {
        assert s in done + {s};
      }
    }
  }

  lemma OthersStillAssured(c: S.Config, d: S.Device, t: Tenant, s: SubnetId)
    ensures var e := S.Delete(c, d, t, s, c.perSubnet);
            forall r :: AssuredByOther(e, t, r) <==> AssuredByOther(d, t, r)
  {
    forall u | u != t {
      SnatLaws.DeleteLeavesOthers(c, d, t, s, c.perSubnet, u);
    }
  }

  /** What is torn down after the hints of a whole service: what no hint still used, where no
      address in the block carries the network's route domain, and no other tenant relies
      on it. */
  lemma TeardownIsExact(c: S.Config, d: S.Device, t: Tenant, hints: seq<Hint>, subnets: map<SubnetId, SubnetInfo>,
                        virtuals: seq<DeviceAddress>, nodes: seq<DeviceAddress>, s: SubnetId)
    requires s in subnets
    ensures ToTearDown(c, d, t, UpdateAll(NoHints, hints).check.Keys, subnets, virtuals, nodes, s) <==>
            && Hinted(hints, s) && !HintedLive(hints, s)
            && !AddressOn(virtuals, nodes, subnets[s].cidr, subnets[s].routeDomain)
            && (c.perSubnet > 0 ==> forall u :: u != t ==> s !in S.Assured(d, u))
  {
    HintsAreExact(hints, s);
  }

  /** The address test is only as good as the route domain: a subnet to check that no other
      tenant relies on is torn down exactly when no address in its block is in the network's
      route domain, one without `%rd` being in "0".  Without a route domain on the network
      that shuts out no address at all (none carries "None"): it is torn down under all of
      them. */
  lemma TornDownUnderAnAddress(c: S.Config, d: S.Device, t: Tenant, check: set<SubnetId>,
                               subnets: map<SubnetId, SubnetInfo>, virtuals: seq<DeviceAddress>,
                               nodes: seq<DeviceAddress>, s: SubnetId)
    requires s in check && s in subnets && !(c.perSubnet > 0 && AssuredByOther(d, t, s))
    ensures var info := subnets[s];
            ToTearDown(c, d, t, check, subnets, virtuals, nodes, s) <==>
            forall a :: (a in virtuals || a in nodes) && Covers(info.cidr, a.address) ==>
              match info.routeDomain
              case Some(id) => a.rd != Some(id) && !(a.rd == None && id == "0")
              case None => a.rd != Some("None")
    ensures subnets[s].routeDomain == None && (forall a :: a in virtuals || a in nodes ==> a.rd != Some("None")) ==>
              ToTearDown(c, d, t, check, subnets, virtuals, nodes, s)
  {
    forall a
      ensures InDomain(a, subnets[s].routeDomain) <==>
              !(match subnets[s].routeDomain
                case Some(id) => a.rd != Some(id) && !(a.rd == None && id == "0")
                case None => a.rd != Some("None"))
    {
    }
  }

  /** At an input: the virtual 10 in route domain 1 lies on the block 8/29, whose network has
      no route domain, and the subnet is torn down. */
  lemma TornDownUnderAVirtual(c: S.Config, t: Tenant, s: SubnetId)
    ensures var info := SubnetInfo(Block(V4, 8, 29), None);
            var virtual := DeviceAddress(Address(V4, 10), Some("1"));
            && Covers(info.cidr, virtual.address)
            && ToTearDown(c, S.EmptyDevice, t, UpdateAll(NoHints,
                                                         [Hint(PendingDelete, s, HintInfo("net", false))]).check.Keys,
                          map[s := info], [virtual], [], s)
  {
    var hints := [Hint(PendingDelete, s, HintInfo("net", false))];
    HintsAreExact(hints, s);
    assert hints[0].subnet == s;
    assert Pow2(3) == 8 by {
      assert Pow2(0) == 1 && Pow2(1) == 2 && Pow2(2) == 4;
    }
  }
}
