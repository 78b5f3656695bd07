/** Purging the nodes that no pool member of their tenant refers to any more. */
module NodePurge {
  import opened Lbaas

  type Tenant = string
  type Address = string
  type NodeName = string

  datatype Pool = Pool(id: Id, tenant: Tenant)

  /** Node names by partition, on one device. */
  type Nodes = map<Tenant, set<NodeName>>

  /** `"{}%{}".format(address, rd)` */
  function MemberNode(address: Address, rd: string): NodeName {
    address + "%" + rd
  }

  /** Some member of a pool of the tenant has the address. */
  ghost predicate InPools(pools: seq<Pool>, members: map<Id, seq<Address>>, t: Tenant, a: Address) {
    exists i :: 0 <= i < |pools| && pools[i].tenant == t && pools[i].id in members && a in members[pools[i].id]
  }

  ghost predicate OwnsPool(pools: seq<Pool>, t: Tenant) {
    exists i :: 0 <= i < |pools| && pools[i].tenant == t
  }

  /** The node is that of an address listed for the tenant. */
  ghost predicate Referenced(addresses: seq<Address>, rd: string, n: NodeName) {
    exists i :: 0 <= i < |addresses| && n == addresses[i] + "%" + rd
  }

  /** Gathers the members of each tenant's deployed pools. */
  method TenantMembers(pools: seq<Pool>, members: map<Id, seq<Address>>) returns (out: map<Tenant, seq<Address>>)
    ensures forall t :: t in out <==> OwnsPool(pools, t)
    ensures forall t, a :: t in out ==> (a in out[t] <==> InPools(pools, members, t, a))
  {
    out := map[];
    for k := 0 to |pools|
      invariant forall t :: t in out <==> exists i :: 0 <= i < k && pools[i].tenant == t
      invariant forall t, a :: t in out ==>
                  (a in out[t] <==>
                  exists i :: 0 <= i < k && pools[i].tenant == t && pools[i].id in members && a in members[pools[i].id])
    {
      var t := pools[k].tenant;
      var found := if pools[k].id in members then members[pools[k].id] else [];
      if t !in out {
        out := out[t := found];
      } else {
        out := out[t := out[t] + found];
      }
    }
  }

  class Driver {
    var devices: seq<Nodes>
    /** The device answers the delete with an error, as it does for a node in use. */
    const refuses: (nat, Tenant, NodeName) -> bool
    /** Id of the tenant's route domain, "0" when the device has none. */
    const routeDomain: Tenant -> string

    constructor (devices: seq<Nodes>, refuses: (nat, Tenant, NodeName) -> bool, routeDomain: Tenant -> string)
      ensures this.devices == devices && this.refuses == refuses && this.routeDomain == routeDomain
    {
      this.devices, this.refuses, this.routeDomain := devices, refuses, routeDomain;
    }

    /** What must remain of a tenant's nodes on device `d`. */
    ghost function Kept(d: nat, t: Tenant, nodes: set<NodeName>, addresses: seq<Address>): set<NodeName> {
      set n | n in nodes && (Referenced(addresses, routeDomain(t), n) || refuses(d, t, n))
    }

    /** The resource helper's delete: only a node that exists in the partition can go. */
    method DeleteNode(d: nat, t: Tenant, n: NodeName)
      requires d < |devices|
      modifies this`devices
      ensures |devices| == |old(devices)|
      ensures forall k :: 0 <= k < |devices| && k != d ==> devices[k] == old(devices)[k]
      ensures devices[d] == if t in old(devices)[d] && !refuses(d, t, n)
                            then old(devices)[d][t := old(devices)[d][t] - {n}] else old(devices)[d]
    {
      if t in devices[d] && n in devices[d][t] && !refuses(d, t, n) {
        devices := devices[d := devices[d][t := devices[d][t] - {n}]];
      } else if t in devices[d] && !refuses(d, t, n) {
        assert devices[d][t] - {n} == devices[d][t];
        assert devices[d][t := devices[d][t] - {n}] == devices[d];
      }
    }

    /** Drops the nodes of the members from the dictionary. */
    method DropMembers(listed: set<NodeName>, t: Tenant, addresses: seq<Address>) returns (nodeDict: set<NodeName>)
      ensures forall n :: n in nodeDict <==> n in listed && !Referenced(addresses, routeDomain(t), n)
    {
      nodeDict := listed;
      for k := 0 to |addresses|
        invariant forall n :: n in nodeDict <==>
                    n in listed && forall i :: 0 <= i < k ==> n != addresses[i] + "%" + routeDomain(t)
      {
        nodeDict := nodeDict - {MemberNode(addresses[k], routeDomain(t))};
      }
    }

    method DeleteNodes(d: nat, t: Tenant, names: set<NodeName>)
      requires d < |devices|
      modifies this`devices
      ensures |devices| == |old(devices)|
      ensures forall k :: 0 <= k < |devices| && k != d ==> devices[k] == old(devices)[k]
      ensures devices[d] == if t in old(devices)[d]
                            then old(devices)[d][t := Left(d, t, old(devices)[d][t], names)] else old(devices)[d]
    {
      ghost var was := devices[d];
      var todo := names;
      assert t in was ==> Left(d, t, was[t], names - todo) == was[t] && was[t := was[t]] == was;
      while todo != {}
        invariant todo <= names && |devices| == |old(devices)|
        invariant forall k :: 0 <= k < |devices| && k != d ==> devices[k] == old(devices)[k]
        invariant devices[d] == if t in was then was[t := Left(d, t, was[t], names - todo)] else was
        decreases |todo|
      {
        var n :| n in todo;
        DeleteNode(d, t, n);
        if t in was {
          LeftNext(d, t, was[t], names - todo, n);
          assert names - (todo - {n}) == names - todo + {n};
        }
        todo := todo - {n};
      }
      assert names - todo == names;
    }

    /** The nodes left when those names have been deleted. */
    ghost function Left(d: nat, t: Tenant, nodes: set<NodeName>, names: set<NodeName>): set<NodeName> {
      set n | n in nodes && (n !in names || refuses(d, t, n))
    }

    lemma LeftNext(d: nat, t: Tenant, nodes: set<NodeName>, names: set<NodeName>, n: NodeName)
      ensures Left(d, t, nodes, names + {n}) ==
              if refuses(d, t, n) then Left(d, t, nodes, names) else Left(d, t, nodes, names) - {n}
    {
    }

    /** One tenant on one device.  `carried` holds names left over from the tenants and
        devices handled before; they cannot hit anything that must be kept. */
    method PurgeTenant(d: nat, t: Tenant, addresses: seq<Address>, carried: set<NodeName>)
      returns (nodeDict: set<NodeName>)
      requires d < |devices|
      modifies this`devices
      ensures |devices| == |old(devices)|
      ensures forall k :: 0 <= k < |devices| && k != d ==> devices[k] == old(devices)[k]
      ensures devices[d] == if t in old(devices)[d]
                            then old(devices)[d][t := Kept(d, t, old(devices)[d][t], addresses)] else old(devices)[d]
    {
      var listed := carried + if t in devices[d] then devices[d][t] else {};
      nodeDict := DropMembers(listed, t, addresses);
      DeleteNodes(d, t, nodeDict);
      if t in old(devices)[d] {
        assert Left(d, t, old(devices)[d][t], nodeDict) == Kept(d, t, old(devices)[d][t], addresses);
      }
    }

    /** What one device must hold after the purge. */
    ghost function Purged(d: nat, nodes: Nodes, tenantMembers: map<Tenant, seq<Address>>): Nodes {
      map t | t in nodes :: if t in tenantMembers then Kept(d, t, nodes[t], tenantMembers[t]) else nodes[t]
    }

    method PurgeDevice(d: nat, tenantMembers: map<Tenant, seq<Address>>, carried: set<NodeName>)
      returns (nodeDict: set<NodeName>)
      requires d < |devices|
      modifies this`devices
      ensures devices == old(devices)[d := Purged(d, old(devices)[d], tenantMembers)]
    {
      nodeDict := carried;
      ghost var was := devices[d];
      var tenants := tenantMembers.Keys;
      while tenants != {}
        invariant tenants <= tenantMembers.Keys && |devices| == |old(devices)|
        invariant forall k :: 0 <= k < |devices| && k != d ==> devices[k] == old(devices)[k]
        invariant devices[d].Keys == was.Keys
        invariant forall t :: t in was ==>
                    devices[d][t] == if t in tenantMembers && t !in tenants
                                     then Kept(d, t, was[t], tenantMembers[t]) else was[t]
        decreases |tenants|
      {
        var t :| t in tenants;
        nodeDict := PurgeTenant(d, t, tenantMembers[t], nodeDict);
        tenants := tenants - {t};
      }
      assert devices[d] == Purged(d, was, tenantMembers);
    }

    /** Although one dictionary of names is carried across tenants and devices, each
        partition loses exactly its own unreferenced nodes, except those the device refuses
        to delete. */
    method PurgeOrphanedNodes(tenantMembers: map<Tenant, seq<Address>>)
      modifies this`devices
      ensures |devices| == |old(devices)|
      ensures forall d :: 0 <= d < |devices| ==> devices[d] == Purged(d, old(devices)[d], tenantMembers)
    {
      var nodeDict: set<NodeName> := {};
      for d := 0 to |devices|
        invariant |devices| == |old(devices)|
        invariant forall k :: d <= k < |devices| ==> devices[k] == old(devices)[k]
        invariant forall k :: 0 <= k < d ==> devices[k] == Purged(k, old(devices)[k], tenantMembers)
      {
        nodeDict := PurgeDevice(d, tenantMembers, nodeDict);
      }
    }

    /** The agent's purge: a node goes exactly when its tenant has a deployed pool, no pool of
        the tenant has a member at `address%rd`, and the device does not refuse. */
    method PurgeForPools(pools: seq<Pool>, members: map<Id, seq<Address>>)
      modifies this`devices
      ensures |devices| == |old(devices)|
      ensures forall d :: 0 <= d < |devices| ==> devices[d].Keys == old(devices)[d].Keys
      ensures forall d, t, n :: 0 <= d < |devices| && t in devices[d] ==>
                (n in devices[d][t] <==>
                 && n in old(devices)[d][t]
                 && (|| !OwnsPool(pools, t) || refuses(d, t, n)
                     || exists a :: InPools(pools, members, t, a) && n == a + "%" + routeDomain(t)))
    {
      var tenantMembers := TenantMembers(pools, members);
      PurgeOrphanedNodes(tenantMembers);
      forall t, n | t in tenantMembers
        ensures Referenced(tenantMembers[t], routeDomain(t), n) <==>
                exists a :: InPools(pools, members, t, a) && n == a + "%" + routeDomain(t)
      {
        if a :| InPools(pools, members, t, a) && n == a + "%" + routeDomain(t) {
          assert a in tenantMembers[t];
          var i :| 0 <= i < |tenantMembers[t]| && tenantMembers[t][i] == a;
        }
        if i :| 0 <= i < |tenantMembers[t]| && n == tenantMembers[t][i] + "%" + routeDomain(t) {
          assert tenantMembers[t][i] in tenantMembers[t];
        }
      }
      forall d, t, n | 0 <= d < |devices| && t in devices[d]
        ensures n in devices[d][t] <==>
                && n in old(devices)[d][t]
                && (|| !OwnsPool(pools, t) || refuses(d, t, n)
                    || exists a :: InPools(pools, members, t, a) && n == a + "%" + routeDomain(t))
      {
        if t in tenantMembers {
          assert n in devices[d][t] <==>
            n in old(devices)[d][t] && (Referenced(tenantMembers[t], routeDomain(t), n) || refuses(d, t, n));
        }
      }
    }
  }
}
