/** SNAT pools of many tenants that share subnets, on one device. */
module SnatPools {

  type Tenant = string
  type SubnetId = string

  datatype HaType = Standalone | Pair | ScaleN

  /** `f5_snat_addresses_per_subnet`, the HA type, and the traffic group that a tenant is
      hashed to under `scalen`. */
  datatype Config = Config(perSubnet: nat, haType: HaType, trafficGroup: Tenant -> string)

  /** A pool member `/folder/base`; names contain no slash. */
  datatype Path = Path(folder: string, base: string)

  datatype Device = Device(
    assured: map<Tenant, seq<SubnetId>>,
    pools: map<Tenant, seq<Path>>,
    translations: set<Path>)

  const EmptyDevice: Device := Device(map[], map[], {})

  // ----- Names

  function Digits(i: nat): string {
    if i < 10 then [('0' as int + i) as char] else Digits(i / 10) + [('0' as int + i % 10) as char]
  }

  function Group(c: Config, t: Tenant): string {
    match c.haType
    case Standalone => "traffic-group-local-only"
    case Pair => "traffic-group-1"
    case ScaleN => c.trafficGroup(t)
  }

  /** `_get_snat_name(subnet, tenant) + "_" + str(i)` */
  function SnatName(c: Config, t: Tenant, s: SubnetId, i: nat): string {
    "snat-" + Group(c, t) + "-" + s + "_" + Digits(i)
  }

  lemma {:induction false} DigitsAreDigits(i: nat)
    ensures |Digits(i)| >= 1 && '_' !in Digits(i)
  {
    if i >= 10 {
      DigitsAreDigits(i / 10);
    }
  }

  lemma {:induction false} DigitsInjective(i: nat, j: nat)
    requires Digits(i) == Digits(j)
    ensures i == j
  {
    DigitsAreDigits(i);
    DigitsAreDigits(j);
    var n := |Digits(i)| - 1;
    if i >= 10 && j >= 10 {
      assert Digits(i)[..n] == Digits(i / 10) && Digits(j)[..n] == Digits(j / 10);
      DigitsInjective(i / 10, j / 10);
      assert Digits(i)[n] == Digits(j)[n];
    } else if i >= 10 {
      DigitsAreDigits(i / 10);
    } else if j >= 10 {
      DigitsAreDigits(j / 10);
    } else {
      assert Digits(i)[0] == Digits(j)[0];
    }
  }

  lemma LastUnderscore(a: string, d: string, b: string, e: string)
    requires a + "_" + d == b + "_" + e && '_' !in d && '_' !in e
    ensures a == b && d == e
  {
    var x := a + "_" + d;
    assert x[|a|] == '_' && x[|b|] == '_';
    assert forall k :: |a| < k < |x| ==> x[k] == d[k - |a| - 1];
    assert forall k :: |b| < k < |x| ==> x[k] == e[k - |b| - 1];
    assert x[..|a|] == a && x[..|b|] == b && x[|a| + 1..] == d && x[|b| + 1..] == e;
  }

  /** Within one tenant an indexed name tells its subnet and its index. */
  lemma SnatNameInjective(c: Config, t: Tenant, s: SubnetId, i: nat, r: SubnetId, j: nat)
    requires SnatName(c, t, s, i) == SnatName(c, t, r, j)
    ensures s == r && i == j
  {
    DigitsAreDigits(i);
    DigitsAreDigits(j);
    var p := "snat-" + Group(c, t) + "-";
    assert SnatName(c, t, s, i) == (p + s) + "_" + Digits(i) && SnatName(c, t, r, j) == (p + r) + "_" + Digits(j);
    LastUnderscore(p + s, Digits(i), p + r, Digits(j));
    assert (p + s)[|p|..] == s && (p + r)[|p|..] == r;
    DigitsInjective(i, j);
  }

  // ----- What the two operations do

  function Assured(d: Device, t: Tenant): seq<SubnetId> {
    if t in d.assured then d.assured[t] else []
  }

  function PoolOf(pools: map<Tenant, seq<Path>>, t: Tenant): seq<Path> {
    if t in pools then pools[t] else []
  }

  function Members(c: Config, t: Tenant, s: SubnetId, folder: string, n: nat): (m: seq<Path>)
    ensures |m| == n
  {
    seq(n, i requires 0 <= i < n => Path(folder, SnatName(c, t, s, i)))
  }

  /** `_assure_bigip_snats` with one address per name. */
  function Assure(c: Config, d: Device, t: Tenant, s: SubnetId, folder: string): Device {
    var listed := Assured(d, t);
    if s in listed then d
    else
      var added := Members(c, t, s, folder, c.perSubnet);
      Device(d.assured[t := listed + [s]],
             if added == [] then d.pools else d.pools[t := PoolOf(d.pools, t) + added],
             d.translations + set m | m in added)
  }

  function WithoutBase(members: seq<Path>, base: string): seq<Path> {
    if members == [] then []
    else WithoutBase(members[..|members| - 1], base) +
         if members[|members| - 1].base != base then [members[|members| - 1]] else []
  }

  /** The tenant's pool without the named member, deleted when that leaves it empty. */
  function DropMember(pools: map<Tenant, seq<Path>>, t: Tenant, base: string): map<Tenant, seq<Path>> {
    if t !in pools then pools
    else
      var left := WithoutBase(pools[t], base);
      if left == [] then pools - {t} else pools[t := left]
  }

  /** `list.remove`: the first occurrence goes. */
  function RemoveFirst(l: seq<SubnetId>, s: SubnetId): seq<SubnetId> {
    if l == [] then [] else if l[0] == s then l[1..] else [l[0]] + RemoveFirst(l[1..], s)
  }

  function Unassure(assured: map<Tenant, seq<SubnetId>>, t: Tenant, s: SubnetId): map<Tenant, seq<SubnetId>> {
    if t in assured then assured[t := RemoveFirst(assured[t], s)] else assured
  }

  /** The device after the first `k` rounds of `_delete_bigip_snats`. */
  function Delete(c: Config, d: Device, t: Tenant, s: SubnetId, k: nat): Device {
    if k == 0 then d
    else
      var e := Delete(c, d, t, s, k - 1);
      e.(pools := DropMember(e.pools, t, SnatName(c, t, s, k - 1)), assured := Unassure(e.assured, t, s))
  }

  /** The device after the rounds of `_delete_bigip_snats`, where `failed` says of each round
      whether loading, updating or deleting the pool failed, which is logged and ignored. */
  function DeleteUnder(c: Config, d: Device, t: Tenant, s: SubnetId, failed: seq<bool>): Device {
    if failed == [] then d
    else
      var k := |failed| - 1;
      var e := DeleteUnder(c, d, t, s, failed[..k]);
      e.(pools := if failed[k] then e.pools else DropMember(e.pools, t, SnatName(c, t, s, k)),
         assured := Unassure(e.assured, t, s))
  }

  /** Some pool on the device lists a member with the name. */
  ghost predicate Listed(pools: map<Tenant, seq<Path>>, base: string) {
    exists t, i :: t in pools && 0 <= i < |pools[t]| && pools[t][i].base == base
  }

  ghost predicate AssuredByAny(assured: map<Tenant, seq<SubnetId>>, s: SubnetId) {
    exists t :: t in assured && s in assured[t]
  }

  /** The code's test for a subnet in use: assured by a tenant, or a pool member whose base
      name is the bare subnet id. */
  ghost predicate Occupied(d: Device, s: SubnetId) {
    AssuredByAny(d.assured, s) || Listed(d.pools, s)
  }

  /** After round `i` of the deletion no pool lists the name of that round. */
  ghost predicate Freed(c: Config, d: Device, t: Tenant, s: SubnetId, i: nat) {
    !Listed(Delete(c, d, t, s, i + 1).pools, SnatName(c, t, s, i))
  }

  ghost predicate OccupiedAfter(c: Config, d: Device, t: Tenant, s: SubnetId, i: nat) {
    Occupied(Delete(c, d, t, s, i + 1), s)
  }

  /** The names released, and whether the subnet was reported in use, in the first `k` rounds. */
  ghost function Released(c: Config, d: Device, t: Tenant, s: SubnetId, k: nat): set<string> {
    if k == 0 then {}
    else Released(c, d, t, s, k - 1) + if Freed(c, d, t, s, k - 1) then {SnatName(c, t, s, k - 1)} else {}
  }

  ghost predicate InUse(c: Config, d: Device, t: Tenant, s: SubnetId, k: nat) {
    k > 0 && (InUse(c, d, t, s, k - 1) || OccupiedAfter(c, d, t, s, k - 1))
  }

  /** The same under failing pool calls. */
  ghost function ReleasedUnder(c: Config, d: Device, t: Tenant, s: SubnetId, failed: seq<bool>): set<string> {
    if failed == [] then {}
    else
      var k := |failed| - 1;
      ReleasedUnder(c, d, t, s, failed[..k]) +
      if Listed(DeleteUnder(c, d, t, s, failed).pools, SnatName(c, t, s, k)) then {} else {SnatName(c, t, s, k)}
  }

  ghost predicate InUseUnder(c: Config, d: Device, t: Tenant, s: SubnetId, failed: seq<bool>) {
    failed != [] &&
    (InUseUnder(c, d, t, s, failed[..|failed| - 1]) || Occupied(DeleteUnder(c, d, t, s, failed), s))
  }

  function Successes(k: nat): (r: seq<bool>)
    ensures |r| == k && forall i :: 0 <= i < k ==> !r[i]
  {
    seq(k, i => false)
  }

  /** Without failures the two are the same. */
  lemma {:induction false} NoneFails(c: Config, d: Device, t: Tenant, s: SubnetId, k: nat)
    ensures DeleteUnder(c, d, t, s, Successes(k)) == Delete(c, d, t, s, k)
    ensures ReleasedUnder(c, d, t, s, Successes(k)) == Released(c, d, t, s, k)
    ensures InUseUnder(c, d, t, s, Successes(k)) <==> InUse(c, d, t, s, k)
  {
    if k > 0 {
      assert Successes(k)[..k - 1] == Successes(k - 1);
      NoneFails(c, d, t, s, k - 1);
    }
  }

  datatype AssureOutcome = Done | SnatCreationException

  class BigipSnatManager {
    const conf: Config
    var device: Device

    constructor (conf: Config)
      ensures this.conf == conf && device == EmptyDevice
    {
      this.conf := conf;
      device := EmptyDevice;
    }

    /** Adds one name to the tenant's pool, creating the pool with its first member. */
    method AddMember(t: Tenant, member: Path)
      modifies this`device
      ensures device == old(device).(
                translations := old(device).translations + {member},
                pools := old(device).pools[t := PoolOf(old(device).pools, t) + [member]])
    {
      if member !in device.translations {
        device := device.(translations := device.translations + {member});
      } else {
        assert device.translations + {member} == device.translations;
      }
      if t !in device.pools {
        assert PoolOf(device.pools, t) + [member] == [member];
        device := device.(pools := device.pools[t := [member]]);
      } else {
        device := device.(pools := device.pools[t := device.pools[t] + [member]]);
      }
    }

    /** `_assure_subnet_snats` for one device, given the addresses Neutron allocated. */
    method AssureSubnetSnats(t: Tenant, s: SubnetId, folder: string, addresses: seq<string>)
      returns (outcome: AssureOutcome)
      modifies this`device
      ensures outcome == Done <==> s in Assured(old(device), t) || |addresses| == conf.perSubnet
      ensures device == if outcome == Done then Assure(conf, old(device), t, s, folder) else old(device)
    {
      if s in Assured(device, t) {
        return Done;
      }
      if |addresses| != conf.perSubnet {
        return SnatCreationException;
      }
      ghost var before := device;
      ghost var added := Members(conf, t, s, folder, |addresses|);
      for i := 0 to |addresses|
        invariant device.assured == before.assured
        invariant device.pools == if i == 0 then before.pools else before.pools[t := PoolOf(before.pools, t) +
                  added[..i]]
        invariant device.translations == before.translations + set m | m in added[..i]
      {
        assert added[..i + 1] == added[..i] + [added[i]];
        assert PoolOf(before.pools, t) + added[..i + 1] == PoolOf(before.pools, t) + added[..i] + [added[i]];
        assert i == 0 ==> PoolOf(before.pools, t) + added[..i] == PoolOf(before.pools, t);
        AddMember(t, Path(folder, SnatName(conf, t, s, i)));
      }
      assert added[..|addresses|] == added;
      device := device.(assured := device.assured[t := Assured(device, t) + [s]]);
      return Done;
    }

    /** How many members of all pools carry the name. */
    method MemberUseCount(name: string) returns (count: nat)
      ensures count > 0 <==> Listed(device.pools, name)
    {
      count := 0;
      var pools := device.pools.Keys;
      while pools != {}
        invariant pools <= device.pools.Keys
        invariant count > 0 <==> exists t, i :: t in device.pools && t !in pools &&
                                   0 <= i < |device.pools[t]| && device.pools[t][i].base == name
        decreases |pools|
      {
        var t :| t in pools;
        ghost var before := count;
        for k := 0 to |device.pools[t]|
          invariant count >= before
          invariant count > before <==> exists i :: 0 <= i < k && device.pools[t][i].base == name
        {
          if device.pools[t][k].base == name {
            count := count + 1;
          }
        }
        pools := pools - {t};
      }
    }

    method InUseByTenants(s: SubnetId) returns (count: nat)
      ensures count > 0 <==> AssuredByAny(device.assured, s)
    {
      count := 0;
      var tenants := device.assured.Keys;
      while tenants != {}
        invariant tenants <= device.assured.Keys
        invariant count > 0 <==> exists t :: t in device.assured && t !in tenants && s in device.assured[t]
        decreases |tenants|
      {
        var t :| t in tenants;
        if s in device.assured[t] {
          count := count + 1;
        }
        tenants := tenants - {t};
      }
    }

    /** One round: the member leaves the pool, unless a pool call fails, and the subnet leaves
        the tenant's list. */
    method DeleteRound(t: Tenant, s: SubnetId, name: string, fails: bool) returns (occupied: bool, listed: bool)
      modifies this`device
      ensures device == old(device).(
                pools := if fails then old(device).pools else DropMember(old(device).pools, t, name),
                assured := Unassure(old(device).assured, t, s))
      ensures occupied <==> Occupied(device, s)
      ensures listed <==> Listed(device.pools, name)
    {
      if !fails && t in device.pools {
        var left := WithoutBase(device.pools[t], name);
        if left == [] {
          device := device.(pools := device.pools - {t});
        } else {
          device := device.(pools := device.pools[t := left]);
        }
      }
      device := device.(assured := Unassure(device.assured, t, s));
      var tenants := InUseByTenants(s);
      occupied := tenants > 0;
      if !occupied {
        var memberUse := MemberUseCount(s);
        occupied := memberUse > 0;
      }
      var uses := MemberUseCount(name);
      listed := uses > 0;
    }

    /** Releases the port names that no pool on the device lists any more, and reports the
        subnet as in use while some tenant still has it assured.  `failed` says in which rounds
        a pool call fails. */
    method DeleteBigipSnats(t: Tenant, s: SubnetId, failed: seq<bool>) returns (deleted: set<string>,
        inUse: set<SubnetId>)
      requires |failed| == conf.perSubnet
      modifies this`device
      ensures device == DeleteUnder(conf, old(device), t, s, failed)
      ensures deleted == ReleasedUnder(conf, old(device), t, s, failed)
      ensures inUse == if InUseUnder(conf, old(device), t, s, failed) then {s} else {}
    {
      deleted, inUse := {}, {};
      ghost var before := device;
      for i := 0 to conf.perSubnet
        invariant device == DeleteUnder(conf, before, t, s, failed[..i])
        invariant deleted == ReleasedUnder(conf, before, t, s, failed[..i])
        invariant inUse == if InUseUnder(conf, before, t, s, failed[..i]) then {s} else {}
      {
        assert failed[..i + 1][..i] == failed[..i];
        var name := SnatName(conf, t, s, i);
        var occupied, listed := DeleteRound(t, s, name, failed[i]);
        assert device == DeleteUnder(conf, before, t, s, failed[..i + 1]);
        if occupied {
          inUse := inUse + {s};
        }
        if !listed {
          deleted := deleted + {name};
        }
      }
      assert failed[..|failed|] == failed;
    }
  }
}
