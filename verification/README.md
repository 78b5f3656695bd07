# F5 OpenStack agent: a verified model of its LBaaSv2 driver

The agent keeps BIG-IP devices in step with Neutron LBaaS definitions. This project models
the parts of it that are state machines, allocators and translators, and proves what they
promise. Code that updates objects in place is modelled by classes whose methods are proved
against specification functions or step relations; the laws are lemmas about those.

| module | models |
|---|---|
| `Cidr`, `RouteDomainIds`, `RouteDomainCache`, `RouteDomainLaws`, `FirstFit` | placing tenant subnets into route domains, first-fit over a three-level cache, with its invariant, exactness, stability and optimality |
| `AssurePlan`, `PlanResult`, `PlanSafety` | the calls that assuring a service makes on a device: where they end, and referential integrity at every step |
| `BuilderStages`, `LbaasBuilder`, `PassLaws`, `PolicyStatuses` | the builder's stages over all devices, as one relation between a pass's failures, the statuses and the devices, and where it leaves every object and every L7 policy's status |
| `IcontrolDriver`, `DriverLaws`, `ReportLaws`, `DriverInputs` | the handler around the builder, the statuses reported to Neutron, message by message, against what is on the devices, and inputs at which the two differ |
| `Lbaas`, `L7Policy`, `L7PolicyLaws`, `ListenerPolicies`, `EsdComposite` | L7 policies compiled into a first-match policy, with a meaning for both sides over HTTP requests, from the service definition to the device; the order of ESD overrides |
| `RequestQueue` | the queue behind serialized driver methods, as a step system over all interleavings |
| `SnatPools`, `SnatLaws`, `SubnetTeardown` | SNAT pools of tenants sharing subnets, subnet hints, teardown guards |
| `NodePurge`, `FdbTables`, `PendingServices`, `PemBlocks` | purge of orphaned nodes, FDB records, pending services over periodic passes, certificate bundles |

Modelling choices. A Python dictionary's iteration order is a parameter (`order`, or an
arbitrary choice inside a loop). A device is a map from objects to the references they hold,
or to its text for a virtual address.
A device call may fail at any time and then changes nothing; a failing pattern is recorded as
one row of flags per call, and every stage says what it did for every pattern. What the
network, the configuration or another service answers is a parameter. Where Python raises,
a result says so.

## What the proofs say about the code

- Trying route domains in the order in which they were opened, first-fit uses the fewest
  possible. A dictionary does not promise that order, and with another one a subnet can be
  refused that would fit (`FirstFit.OtherOrdersAreNotOptimal`, a run from an empty cache).
- A synchronisation is safe at every step exactly when the redirects of live policies resolve
  to pools that are there and stay, and every object that refers to one being deleted is put or
  deleted by the service itself (`PlanSafety.SafeExactlyWhenClosed`).
- What an event acts on and does not put in ERROR is on every device, and so is what a
  synchronisation leaves ACTIVE, whatever failed (`DriverLaws.MonitorIsDeployed`,
  `DriverLaws.ActiveMonitorIsDeployed` and their siblings), with these exceptions.
  - An HTTP error while a virtual address is created is swallowed. The load balancer is
    reported ACTIVE and lacks its address on exactly the devices where that happened: they did
    not hold the object with this address. One that held another address is left without any,
    or with the old one if its deletion failed too (`DriverLaws.ActiveWithoutAddress`; inputs
    `DriverInputs.SwallowedCreate`, `DriverInputs.SwallowedReplacement`,
    `DriverInputs.StaleReplacement`). Errors are noticed for certain exactly when every device
    already holds the object with this address (`BuilderStages.AddressFailuresShow`).
  - When an L7 policy cannot be translated, the pass ends before any listener is handled, and
    pending listeners are left ACTIVE (`DriverLaws.ActiveUntouchedListener`). That happens
    exactly when a policy's listener is missing, or a listener has policies with some rule of
    the service and a live one with a missing rule or a live regular expression
    (`DriverLaws.TranslatableWhen`).
  - When the tenant folder or the network cannot be prepared the builder is not reached, and
    the statuses of monitors, pools and listeners are settled all the same, unless the network
    is not ready or the load balancer is being deleted (`DriverLaws.StatusMachine`).
- An exception escapes the handler exactly when the load balancer is being deleted and either
  the builder was not reached (the final cleanup is handed subnet hints that were never
  assigned) or that cleanup raises. A synchronisation then reports nothing
  (`DriverLaws.NothingIsReported`, `DriverInputs.EscapedDeletion`), and `to_sync` stays set: the
  next ordinary event puts objects again that it would have left alone
  (`IcontrolDriver.IControlDriver.ListenerEvent`, `DriverLaws.OrdinaryEventLeavesActive`,
  `DriverLaws.StaleStatusesPutActive`).
- A failing delete of the virtual address changes no status, and the load balancer is reported
  destroyed (`DriverLaws.DestroyedWithAddress`, `DriverInputs.FailedDelete`).
- An error of `create_l7policy` is forgotten when a later device creates the policy. It can
  happen exactly when some device after the first lacks the policy (`BuilderStages.FailuresShow`).
- An L7 create error for one listener marks every L7 policy of the service. A policy that was
  being deleted is then live in the delete stage, and its listener's wrapper policy is kept
  (`DriverLaws.ErrorKeepsWrapper` has the exact condition, `DriverInputs.ErrorKeepsAnother` an
  input).
- A live policy without live rules matches everything in LBaaS terms, but when no live policy
  has a live rule the device gets no policy (`L7PolicyLaws.TranslationPreservesMeaning`, and end
  to end `ListenerPolicies.VirtualDecides`, have the exact condition).
- A serialized method called from inside a serialized method waits for ever.
- The age of a pending service is compared by its seconds within a day, so whole days are
  ignored (`PendingServices.OverstayIsReached`); a pending service that the plugin no longer
  lists is never dropped; and the resync flag, once raised, makes every later service of the
  pass count as pending.
- The in-use test for a bare subnet id among SNAT pool members never fires.
- Without a route domain on the network, the address test before a subnet's teardown finds
  nothing, and the subnet is torn down under its addresses
  (`SubnetTeardown.TornDownUnderAnAddress`, `SubnetTeardown.TornDownUnderAVirtual`).
- Names carried over in `node_dict` from other tenants and devices never delete a node that
  must stay.

## Model

| member | source | states |
|---|---|---|
| `Cidr.OverlapIsSharedAddress` | f5_openstack_agent/lbaasv2/drivers/bigip/network_service.py:327 | two CIDR blocks share an address exactly when one contains the other, so the containment test at placement is an exact overlap test (blocks nest or are disjoint, section 3.1 of RFC 4632) |
| `Cidr.OverlapGrows` | f5_openstack_agent/lbaasv2/drivers/bigip/network_service.py:327 | whatever overlaps the inner of two nested blocks overlaps the outer one |
| `Cidr.PrefixDecides` | f5_openstack_agent/lbaasv2/drivers/bigip/network_service.py:327 | a block covers exactly the addresses of its version that agree with it in the leading prefix bits, of 32 or 128 |
| `Cidr.ContainsIsInclusion` | f5_openstack_agent/lbaasv2/drivers/bigip/network_service.py:327 | for prefixes in this order, one block contains the other exactly when all addresses of the other are its own |
| `RouteDomainIds.GetNextDomainId` | f5_openstack_agent/lbaasv2/drivers/bigip/network_helper.py:281-299 | the result is the least positive id that no device uses; it fails exactly when no device has id 0, and the out-of-order LookupError is unreachable |
| `RouteDomainIds.Sorted` | f5_openstack_agent/lbaasv2/drivers/bigip/network_helper.py:281-299 | the sorted list of ids: increasing, the same ids |
| `RouteDomainCache.NetworkServiceBuilder.UpdateRdsCache` | f5_openstack_agent/lbaasv2/drivers/bigip/network_service.py:400-407 | a tenant is loaded once and never reloaded |
| `RouteDomainCache.NetworkServiceBuilder.GetRouteDomainFromCache` | f5_openstack_agent/lbaasv2/drivers/bigip/network_service.py:501-512 | a hit exactly when some tenant and route domain hold the network, with the id of one that does |
| `RouteDomainCache.NetworkServiceBuilder.FindOverlap` | f5_openstack_agent/lbaasv2/drivers/bigip/network_service.py:319-334 | the nested scan answers whether another subnet of the route domain shares an address |
| `RouteDomainCache.NetworkServiceBuilder.CreateAuxRd` | f5_openstack_agent/lbaasv2/drivers/bigip/network_service.py:359-381 | the least unused id is added to every device and to nothing else, or, when a device fails, to the devices before it |
| `RouteDomainCache.NetworkServiceBuilder.AssignRouteDomain` | f5_openstack_agent/lbaasv2/drivers/bigip/network_service.py:284-357 | one assignment refines the step relation: common, cached, single-namespace, first free domain in the given order, new domain under the cap, or refusal; only the placed entry changes |
| `RouteDomainCache.NetworkServiceBuilder.RemoveFromRdsCache` | f5_openstack_agent/lbaasv2/drivers/bigip/network_service.py:514-536 | removal applies `Remove` to every tenant, whose exact effect is `RouteDomainLaws.RemoveEffect` |
| `RouteDomainCache.NetworkServiceBuilder.RemoveNetwork` | f5_openstack_agent/lbaasv2/drivers/bigip/network_service.py:519-536 | one tenant's round of the removal: the subnet out of every domain, then the domains left empty |
| `RouteDomainLaws.NoSharedAddress` | f5_openstack_agent/lbaasv2/drivers/bigip/network_service.py:312-337 | under the invariant no address lies in two different subnets of one route domain |
| `RouteDomainLaws.PlacementEffect` | f5_openstack_agent/lbaasv2/drivers/bigip/network_service.py:312-357 | what a placement adds: exactly one entry, in a domain that had no overlap, or in a fresh domain |
| `RouteDomainLaws.FreshDomain` | f5_openstack_agent/lbaasv2/drivers/bigip/network_service.py:359-381 | a new id is in no entry of the cache, so opening a domain overwrites nothing |
| `RouteDomainLaws.AssignKeepsInv` | f5_openstack_agent/lbaasv2/drivers/bigip/network_service.py:284-357 | every assignment, whatever the order tried, keeps the invariant: disjoint subnets in a domain, one domain per network, no empty domain, cached ids on the devices, cap respected |
| `RouteDomainLaws.RemoveKeepsInv` | f5_openstack_agent/lbaasv2/drivers/bigip/network_service.py:514-536 | every removal keeps it too |
| `RouteDomainLaws.RemoveEffect` | f5_openstack_agent/lbaasv2/drivers/bigip/network_service.py:514-536 | a removal takes exactly one record out of every route domain; a network stays unless that was its only subnet, and a route domain stays exactly when a network is left in it |
| `RouteDomainLaws.InvariantOverRuns` | f5_openstack_agent/lbaasv2/drivers/bigip/network_service.py:284-357 | the invariant holds in every state of every run of loads, assignments and removals from an empty cache; a tenant is loaded with any overlap-free entry of new networks on existing domains |
| `RouteDomainLaws.PlacedNetworkIsStable` | f5_openstack_agent/lbaasv2/drivers/bigip/network_service.py:290-296 | a placed network keeps its route domain in every later state, and later assignments return it, until it is removed |
| `RouteDomainLaws.AllocationIsExact` | f5_openstack_agent/lbaasv2/drivers/bigip/network_service.py:284-357 | when each result of an assignment comes about, in terms of the arguments, the cached records and the devices: an invalid network, a cached one, an unloaded tenant, a refusal exactly when every domain of the tenant holds an overlapping other subnet and the tenant is at its cap, no domain 0; otherwise the subnet is recorded, and nothing changes without a placement |
| `RouteDomainLaws.PlaceThenRemove` | f5_openstack_agent/lbaasv2/drivers/bigip/network_service.py:514-536 | removing a network just placed restores exactly the earlier cache, a domain opened for it included |
| `FirstFit.NeighbourClique` | f5_openstack_agent/lbaasv2/drivers/bigip/network_service.py:312-337 | a subnet in the k-th domain has, in each earlier domain, a subnet so that all of them pairwise overlap (this is where nesting is used) |
| `FirstFit.CliqueNeedsDomains` | f5_openstack_agent/lbaasv2/drivers/bigip/network_service.py:312-337 | pairwise overlapping subnets need as many domains as there are of them, in any admissible placement |
| `FirstFit.TrackedOverRuns` | f5_openstack_agent/lbaasv2/drivers/bigip/network_service.py:312-357 | in every run in creation order, each placed subnet conflicts with every earlier domain |
| `FirstFit.OpensOnlyWhenNeeded` | f5_openstack_agent/lbaasv2/drivers/bigip/network_service.py:339-347 | a placement opens the k-th domain, or is refused, only if k placed subnets, the new one included, pairwise overlap; a refusal means more than the cap |
| `FirstFit.FirstFitIsOptimal` | f5_openstack_agent/lbaasv2/drivers/bigip/network_service.py:312-357 | after any such run no admissible placement of the same subnets uses fewer domains |
| `FirstFit.OtherOrdersAreNotOptimal` | f5_openstack_agent/lbaasv2/drivers/bigip/network_service.py:315 | a run from an empty cache with a cap of two domains that tries domains in another order once and ends in a refusal |
| `FirstFit.TwoDomainsHoldAllFive` | f5_openstack_agent/lbaasv2/drivers/bigip/network_service.py:312-347 | the five subnets of that run, the refused one included, fit into two domains without overlaps |
| `RequestQueue.GetRequestIndex` | f5_openstack_agent/lbaasv2/drivers/bigip/utils.py:113-121 | the index of the first entry with the id, or the queue's length when there is none |
| `RequestQueue.InvariantOverRuns` | f5_openstack_agent/lbaasv2/drivers/bigip/utils.py:49-110 | the protocol invariant holds in every state of every interleaving of append, poll, run, finish and nested calls |
| `RequestQueue.MutualExclusion` | f5_openstack_agent/lbaasv2/drivers/bigip/utils.py:49-110 | two requests never run together |
| `RequestQueue.RunnerIsHead` | f5_openstack_agent/lbaasv2/drivers/bigip/utils.py:75-106 | a request that finishes, even by an exception, is the head, and the pop removes its own entry and no other |
| `RequestQueue.Fifo` | f5_openstack_agent/lbaasv2/drivers/bigip/utils.py:49-110 | the order of finishes is a prefix of the order of starts, and that of the order of appends |
| `RequestQueue.IndexOnlyDecreases` | f5_openstack_agent/lbaasv2/drivers/bigip/utils.py:49-121 | a waiter's index falls by one for each finished request and never rises |
| `RequestQueue.HeadCanMove` | f5_openstack_agent/lbaasv2/drivers/bigip/utils.py:75-106 | without nested calls some step of the head request is always enabled |
| `RequestQueue.CanDrain` | f5_openstack_agent/lbaasv2/drivers/bigip/utils.py:49-110 | without nested calls every reachable queue can be run empty |
| `RequestQueue.NestedCallDeadlocks` | f5_openstack_agent/lbaasv2/drivers/bigip/utils.py:49-110 | a serialized call made inside a running request never starts and its caller never finishes, in every continuation |
| `L7Policy.AdaptConditions` | f5_openstack_agent/lbaasv2/drivers/bigip/l7policy_adapter.py:91-99 | the loop over the rules of a policy computes its conditions, or raises where the specification says |
| `L7Policy.AdaptPolicies` | f5_openstack_agent/lbaasv2/drivers/bigip/l7policy_adapter.py:138-145 | the loop over the policies computes the rules of the live ones |
| `L7Policy.TranslateService` | f5_openstack_agent/lbaasv2/drivers/bigip/l7policy_adapter.py:164-195 | the whole translation with its caught exceptions |
| `L7PolicyLaws.ConditionMeaning` | f5_openstack_agent/lbaasv2/drivers/bigip/l7policy_adapter.py:52-77 | the flags of one condition mean the rule it was made from, for every request; it raises exactly for regular expressions |
| `L7PolicyLaws.ConditionsAreLiveRules` | f5_openstack_agent/lbaasv2/drivers/bigip/l7policy_adapter.py:91-99 | one condition per reference to a rule that is neither being deleted nor administratively down, in the order of the references and named by their index, and no other |
| `L7PolicyLaws.RulesMeaning` | f5_openstack_agent/lbaasv2/drivers/bigip/l7policy_adapter.py:138-150 | rules and live policies correspond in both directions, also with repeated ids, and NoActionFoundForPolicy is unreachable |
| `L7PolicyLaws.TranslationCrashes` | f5_openstack_agent/lbaasv2/drivers/bigip/l7policy_adapter.py:91-99 | the adapter raises exactly when there is some rule at all and a live policy refers to a missing rule or has a live regular-expression rule |
| `L7PolicyLaws.TranslationEmpty` | f5_openstack_agent/lbaasv2/drivers/bigip/l7policy_adapter.py:152-162 | the translation is empty exactly when no live policy has a live rule |
| `L7PolicyLaws.TranslationPreservesMeaning` | f5_openstack_agent/lbaasv2/drivers/bigip/l7policy_adapter.py:164-195 | first match over the translated rules decides every request as the live policies by position do, exactly when some live policy has a live rule or no policy is live |
| `L7PolicyLaws.VerdictIsUnique` | f5_openstack_agent/lbaasv2/drivers/bigip/l7policy_adapter.py:85 | with distinct positions no request has two verdicts |
| `ListenerPolicies.BuildingRaises` | f5_openstack_agent/lbaasv2/drivers/bigip/l7policy_service.py:95-122 | building a listener's wrapper policy raises exactly when the listener is missing, or its policies have some rule of the service and a live one refers to a missing rule or to a live regular expression |
| `ListenerPolicies.RulesWhenLive` | f5_openstack_agent/lbaasv2/drivers/bigip/l7policy_service.py:95-122 | the wrapper policy has rules exactly when a live policy of the listener has a live rule |
| `ListenerPolicies.SameRule` | f5_openstack_agent/lbaasv2/drivers/bigip/l7policy_service.py:107-116 | among the gathered rules a policy's references find what they find in the service |
| `ListenerPolicies.WrapperDecides` | f5_openstack_agent/lbaasv2/drivers/bigip/l7policy_service.py:95-122 | the rules built for a listener pick what its live policies decide, exactly when one of them has a live rule or none is live |
| `ListenerPolicies.VirtualDecides` | f5_openstack_agent/lbaasv2/drivers/bigip/lbaas_builder.py:451-491 | end to end: after a clean synchronisation a listener's virtual does with every request what the live policies that the listener refers to decide, exactly under that condition |
| `EsdComposite.SortDescending` | f5_openstack_agent/lbaasv2/drivers/bigip/service_adapter.py:494-496 | the stable descending sort: a permutation, positions never rising |
| `EsdComposite.Compose` | f5_openstack_agent/lbaasv2/drivers/bigip/service_adapter.py:494-503 | a tag has the value of the live policy that wins it, and is absent exactly when none defines it |
| `EsdComposite.LowestPositionWins` | f5_openstack_agent/lbaasv2/drivers/bigip/service_adapter.py:494-503 | with distinct positions the winner of a defined tag exists and is the lowest-position live policy that defines it |
| `PlanResult.MonitorsConverge` | f5_openstack_agent/lbaasv2/drivers/bigip/lbaas_builder.py:263-287 | after a clean event a monitor is on the device as its status says, in both modes: there if pending, gone if being deleted, and if active or in error there after a synchronisation and otherwise as it was |
| `PlanResult.PoolsConverge` | f5_openstack_agent/lbaasv2/drivers/bigip/lbaas_builder.py:227-253 | the same for pools; one that was written has the monitor of the service with its monitor id, unless that is being deleted or there is none |
| `PlanResult.ListenersConverge` | f5_openstack_agent/lbaasv2/drivers/bigip/lbaas_builder.py:191-225 | the same for listeners; one that was written has the pool of the service with its default pool id, unless that is being deleted or there is none, and its wrapper policy exactly where that has rules |
| `PlanResult.AddressConverges` | f5_openstack_agent/lbaasv2/drivers/bigip/lbaas_builder.py:153-177 | the same for the virtual address, with the address that the service gives it |
| `PlanResult.VirtualValueIs` | f5_openstack_agent/lbaasv2/drivers/bigip/service_adapter.py:200-212 | which pool and wrapper policy a listener's virtual refers to, over the lists of the service, with distinct pool ids |
| `PlanResult.PoolValueIs` | f5_openstack_agent/lbaasv2/drivers/bigip/service_adapter.py:54-73 | which monitor a pool refers to, over the list of the service |
| `PlanResult.PoliciesConverge` | f5_openstack_agent/lbaasv2/drivers/bigip/lbaas_builder.py:451-536 | a wrapper policy ends holding the translation, and is gone when the translation is empty; it is left alone when the listener refers to none of the service's policies; the legacy policy is gone |
| `PlanResult.EntryConverges` | f5_openstack_agent/lbaasv2/drivers/bigip/lbaas_builder.py:69-126 | every object of the service ends present with its value, gone, or as it was, in both modes |
| `PlanResult.Idempotence` | f5_openstack_agent/lbaasv2/drivers/bigip/lbaas_builder.py:69-126 | a second pass changes nothing on any device, in both modes |
| `PlanResult.Frame` | f5_openstack_agent/lbaasv2/drivers/bigip/lbaas_builder.py:69-126 | objects that the service does not name are as before |
| `PlanResult.PlanOnEnds` | f5_openstack_agent/lbaasv2/drivers/bigip/virtual_address.py:102-118 | deleting and creating again an address that has changed ends where one put would |
| `PlanSafety.SafeExactlyWhenClosed` | f5_openstack_agent/lbaasv2/drivers/bigip/lbaas_builder.py:69-126 | every put of a synchronisation finds what it refers to and every delete an object that nothing refers to, throughout, exactly when each live redirect target is put in the pass or stays from before, and every object that refers to one being deleted is put or deleted by the service itself |
| `PlanSafety.IntegrityAtEveryStep` | f5_openstack_agent/lbaasv2/drivers/bigip/lbaas_builder.py:69-126 | after every single call, references of virtuals, policies and pools resolve, the deletion of a stale address included |
| `PlanSafety.IntegrityMeans` | f5_openstack_agent/lbaasv2/drivers/bigip/lbaas_builder.py:69-126 | integrity is that pools and wrapper policies of virtuals, redirect pools of policies and monitors of pools exist, all but the legacy policy |
| `PlanSafety.CreateStagesAreSafe` | f5_openstack_agent/lbaasv2/drivers/bigip/lbaas_builder.py:85-106 | the create order puts every object after the objects it refers to |
| `PlanSafety.DeleteStagesAreSafe` | f5_openstack_agent/lbaasv2/drivers/bigip/lbaas_builder.py:108-120 | the delete order deletes every object after those that refer to it |
| `PlanSafety.VirtualRefsAreLive` | f5_openstack_agent/lbaasv2/drivers/bigip/service_adapter.py:200-212 | what a virtual refers to is a pool or wrapper policy that the same pass puts |
| `PlanSafety.PoolRefsAreLive` | f5_openstack_agent/lbaasv2/drivers/bigip/service_adapter.py:54-73 | what a pool refers to is a monitor that the same pass puts |
| `LbaasBuilder.LBaaSBuilder.CreateOnAll` | f5_openstack_agent/lbaasv2/drivers/bigip/pool_service.py:51-84 | create, or update on a conflict, on every device: an error exactly when some device missed the call |
| `LbaasBuilder.LBaaSBuilder.DeleteOnAll` | f5_openstack_agent/lbaasv2/drivers/bigip/pool_service.py:86-117 | delete on every device: an error exactly when some device missed the call |
| `LbaasBuilder.LBaaSBuilder.CreateL7Policy` | f5_openstack_agent/lbaasv2/drivers/bigip/l7policy_service.py:39-64 | an error exactly when a device missed the call and no later device created the policy |
| `BuilderStages.FailuresShow` | f5_openstack_agent/lbaasv2/drivers/bigip/l7policy_service.py:39-64 | no failure of the create is hidden exactly when every device but the first already has the policy |
| `LbaasBuilder.LBaaSBuilder.AssureAddress` | f5_openstack_agent/lbaasv2/drivers/bigip/virtual_address.py:120-128 | update if present, else create: the calls the device executed, and whether the address is assured, an HTTP error was swallowed, or an exception was raised, each only where the device's state allows it |
| `LbaasBuilder.LBaaSBuilder.CreateAddress` | f5_openstack_agent/lbaasv2/drivers/bigip/virtual_address.py:66-82 | an HTTP error is swallowed; a conflict keeps the object that is there |
| `LbaasBuilder.LBaaSBuilder.UpdateAddress` | f5_openstack_agent/lbaasv2/drivers/bigip/virtual_address.py:102-118 | an object with another address is deleted, a failure of which is ignored, and created again; one with this address is updated |
| `BuilderStages.AddressFailuresShow` | f5_openstack_agent/lbaasv2/drivers/bigip/virtual_address.py:66-118 | every pattern of failures is noticed exactly when every device already holds the object with this very address |
| `LbaasBuilder.LBaaSBuilder.AssureLoadbalancerCreated` | f5_openstack_agent/lbaasv2/drivers/bigip/lbaas_builder.py:153-177 | the calls each device executed; ERROR exactly when an exception was raised on some device |
| `LbaasBuilder.LBaaSBuilder.AssureLoadbalancerDeleted` | f5_openstack_agent/lbaasv2/drivers/bigip/lbaas_builder.py:347-365 | the first failing delete stops the loop, and no status is set |
| `LbaasBuilder.LBaaSBuilder.AssureMonitorsCreated` | f5_openstack_agent/lbaasv2/drivers/bigip/lbaas_builder.py:263-274 | for any failures: the calls each device executed, and ERROR on exactly the monitors with a missed call |
| `LbaasBuilder.LBaaSBuilder.AssureMonitorsDeleted` | f5_openstack_agent/lbaasv2/drivers/bigip/lbaas_builder.py:276-287 | the same for the delete stage |
| `LbaasBuilder.LBaaSBuilder.AssurePoolsCreated` | f5_openstack_agent/lbaasv2/drivers/bigip/lbaas_builder.py:227-253 | the same for pools; a missed call also puts the load balancer in ERROR |
| `LbaasBuilder.LBaaSBuilder.AssurePoolsDeleted` | f5_openstack_agent/lbaasv2/drivers/bigip/lbaas_builder.py:367-388 | the same for the delete stage, which leaves the load balancer alone |
| `LbaasBuilder.LBaaSBuilder.AssureListenersCreated` | f5_openstack_agent/lbaasv2/drivers/bigip/lbaas_builder.py:191-225 | the same for listeners, with the pool and wrapper policy each virtual gets |
| `LbaasBuilder.LBaaSBuilder.AssureListenersDeleted` | f5_openstack_agent/lbaasv2/drivers/bigip/lbaas_builder.py:390-405 | the same for the delete stage |
| `LbaasBuilder.LBaaSBuilder.BuildPolicyOf` | f5_openstack_agent/lbaasv2/drivers/bigip/l7policy_service.py:95-122 | gathers the policies and rules that the listener refers to and translates them; an empty dictionary when there are no policies |
| `LbaasBuilder.LBaaSBuilder.BuildPolicies` | f5_openstack_agent/lbaasv2/drivers/bigip/lbaas_builder.py:455-470 | one translation per listener with policies; fails exactly when one of them raises |
| `LbaasBuilder.LBaaSBuilder.AssureL7PoliciesCreated` | f5_openstack_agent/lbaasv2/drivers/bigip/lbaas_builder.py:451-491 | wrapper policies with rules are created; a noticed error marks every L7 policy and the load balancer; rules are attached exactly where no error was noticed |
| `LbaasBuilder.LBaaSBuilder.AssureL7PoliciesDeleted` | f5_openstack_agent/lbaasv2/drivers/bigip/lbaas_builder.py:493-536 | the legacy policy and the wrapper policies without rules are deleted, an empty dictionary deletes nothing; an error marks the policies of that listener, one for the legacy policy nothing |
| `LbaasBuilder.LBaaSBuilder.AssureService` | f5_openstack_agent/lbaasv2/drivers/bigip/lbaas_builder.py:69-126 | for any failures: what each device executed, call by call, the statuses at the end, and when an exception ends the pass |
| `PassLaws.PassIsPlan` | f5_openstack_agent/lbaasv2/drivers/bigip/lbaas_builder.py:69-126 | a pass without missed calls changes no status, and every device executes exactly the plan with the replacement of a stale address, or the calls before an untranslatable policy |
| `PassLaws.MonitorEnds` | f5_openstack_agent/lbaasv2/drivers/bigip/lbaas_builder.py:263-287 | where a monitor ends on a device, for any pattern of failures |
| `PassLaws.PoolEnds` | f5_openstack_agent/lbaasv2/drivers/bigip/lbaas_builder.py:227-253 | the same for a pool, with the monitor that the service definition gives it |
| `PassLaws.ListenerEnds` | f5_openstack_agent/lbaasv2/drivers/bigip/lbaas_builder.py:191-225 | the same for a listener, with its default pool and the wrapper policy that was attached |
| `PassLaws.AddressEnds` | f5_openstack_agent/lbaasv2/drivers/bigip/lbaas_builder.py:153-177 | the same for the virtual address: put where assured, lost where a changed address was deleted and not created again, deleted only if no error was charged to the load balancer |
| `PassLaws.EmptyWrapperEnds` | f5_openstack_agent/lbaasv2/drivers/bigip/lbaas_builder.py:493-536 | a wrapper policy without rules is deleted only if it is still without rules when the delete stage builds it again |
| `PassLaws.UnnamedUntouched` | f5_openstack_agent/lbaasv2/drivers/bigip/lbaas_builder.py:69-126 | whatever fails, objects that the service does not name are untouched |
| `PolicyStatuses.PoliciesEnd` | f5_openstack_agent/lbaasv2/drivers/bigip/lbaas_builder.py:476-536 | after a pass an L7 policy is in ERROR exactly when it was, or an L7 create error was noticed, or the delete of a wrapper policy was missed whose listener refers to it; nothing else about it changes |
| `IcontrolDriver.IControlDriver.PrepareService` | f5_openstack_agent/lbaasv2/drivers/bigip/icontrol_driver.py:2062-2120 | how tenant and network failures set the load balancer's status and skip the builder |
| `IcontrolDriver.IControlDriver.CommonServiceHandler` | f5_openstack_agent/lbaasv2/drivers/bigip/icontrol_driver.py:2062-2167 | the statuses and the pass over the devices of one handled service, for every outcome of the steps around the builder; an exception escapes exactly when the load balancer is being deleted and the builder was not reached or the cleanup raises |
| `IcontrolDriver.IControlDriver.Sync` | f5_openstack_agent/lbaasv2/drivers/bigip/icontrol_driver.py:1819-1846 | relates the devices before and after by one pass under any failures; the statuses are settled and reported unless the network is not ready or an exception escapes, and to_sync stays set exactly in the latter case |
| `IcontrolDriver.IControlDriver.ListenerEvent` | f5_openstack_agent/lbaasv2/drivers/bigip/icontrol_driver.py:1520-1547 | an ordinary event runs the same pass on the statuses that to_sync selects, and reports listeners and load balancer |
| `IcontrolDriver.IControlDriver.UpdateHealthMonitorStatus` | f5_openstack_agent/lbaasv2/drivers/bigip/icontrol_driver.py:2232-2250 | messages in list order; pending monitors become ACTIVE, others stay |
| `IcontrolDriver.IControlDriver.UpdatePoolStatus` | f5_openstack_agent/lbaasv2/drivers/bigip/icontrol_driver.py:2253-2269 | the same for pools |
| `IcontrolDriver.IControlDriver.UpdateListenerStatus` | f5_openstack_agent/lbaasv2/drivers/bigip/icontrol_driver.py:2272-2293 | the same for listeners |
| `IcontrolDriver.IControlDriver.ReportOnly` | f5_openstack_agent/lbaasv2/drivers/bigip/icontrol_driver.py:2296-2333 | L7 rules and policies are reported without being rewritten |
| `IcontrolDriver.IControlDriver.UpdateLoadbalancerStatus` | f5_openstack_agent/lbaasv2/drivers/bigip/icontrol_driver.py:2336-2373 | the load balancer, with the time-out cases |
| `IcontrolDriver.IControlDriver.UpdateServiceStatus` | f5_openstack_agent/lbaasv2/drivers/bigip/icontrol_driver.py:2169-2199 | all of the above in the order of the source |
| `DriverLaws.StatusMachine` | f5_openstack_agent/lbaasv2/drivers/bigip/icontrol_driver.py:2232-2373 | after one synchronisation under any failures a monitor, pool, listener or load balancer is in ERROR exactly when it was or an error was noticed; else, where statuses are reported, PENDING_CREATE and PENDING_UPDATE have become ACTIVE, and everything else is as before; L7 policies only ever change to ERROR |
| `DriverLaws.SetupCases` | f5_openstack_agent/lbaasv2/drivers/bigip/icontrol_driver.py:2062-2167 | when the builder is reached, when the steps around it put the load balancer in ERROR, and when statuses are reported |
| `DriverLaws.LoadBalancerSettles` | f5_openstack_agent/lbaasv2/drivers/bigip/icontrol_driver.py:2336-2373 | the load balancer's new status and message for every status, before and after the time is over: then PENDING_CREATE alone becomes ERROR |
| `ReportLaws.ObjectsReported` | f5_openstack_agent/lbaasv2/drivers/bigip/icontrol_driver.py:2232-2333 | exactly which messages about monitors, pools, listeners, L7 rules and L7 policies are sent, from their earlier statuses and the errors noticed |
| `ReportLaws.KindsAreInOrder` | f5_openstack_agent/lbaasv2/drivers/bigip/icontrol_driver.py:2169-2199 | monitors are reported first, then pools, listeners, rules and policies, and the load balancer last |
| `ReportLaws.MessagesInOrder` | f5_openstack_agent/lbaasv2/drivers/bigip/icontrol_driver.py:2232-2250 | objects of a list are reported in its order |
| `DriverLaws.ReportedActive` | f5_openstack_agent/lbaasv2/drivers/bigip/icontrol_driver.py:2336-2373 | the message that the load balancer is ACTIVE is sent exactly when the builder was reached, it was pending and no virtual-address, pool, listener, L7 create or setup error was noticed |
| `DriverLaws.ReportedDestroyed` | f5_openstack_agent/lbaasv2/drivers/bigip/icontrol_driver.py:2361-2363 | the message that it is destroyed is sent exactly when the builder was reached, it was to be deleted, no create error was charged to it and the cleanup raised nothing, whatever became of the deletion |
| `DriverLaws.NothingIsReported` | f5_openstack_agent/lbaasv2/drivers/bigip/icontrol_driver.py:2124-2167 | a synchronisation of a load balancer being deleted sends nothing exactly when the builder was not reached or the cleanup raises; in the former case no status changes either |
| `DriverLaws.OrdinaryEventLeavesActive` | f5_openstack_agent/lbaasv2/drivers/bigip/lbaas_builder.py:36-43 | an event without to_sync leaves an active monitor as it is on every device, whatever fails |
| `DriverLaws.StaleStatusesPutActive` | f5_openstack_agent/lbaasv2/drivers/bigip/icontrol_driver.py:1827-1829 | an event that finds to_sync still set puts it on every device that does not miss the call |
| `DriverLaws.ActiveWithoutAddress` | f5_openstack_agent/lbaasv2/drivers/bigip/virtual_address.py:66-118 | a load balancer reported ACTIVE has its address on exactly the devices where it was assured; the others swallowed an HTTP error, did not hold this address before, and now have no address or what they had |
| `DriverLaws.DestroyedWithAddress` | f5_openstack_agent/lbaasv2/drivers/bigip/lbaas_builder.py:347-365 | a load balancer reported destroyed keeps its address on exactly the devices that had it and missed the delete, or on all that had it when an exception ended the pass before |
| `DriverInputs.SwallowedCreate` | f5_openstack_agent/lbaasv2/drivers/bigip/virtual_address.py:66-82 | at an input: one HTTP error, reported ACTIVE, no address on the device |
| `DriverInputs.SwallowedReplacement` | f5_openstack_agent/lbaasv2/drivers/bigip/virtual_address.py:102-118 | at an input: a changed address is deleted, its create gets an HTTP error, reported ACTIVE, no address on the device |
| `DriverInputs.StaleReplacement` | f5_openstack_agent/lbaasv2/drivers/bigip/virtual_address.py:102-118 | at an input: the deletion of a changed address fails and the create meets a conflict, reported ACTIVE, the old address on the device |
| `DriverInputs.FailedDelete` | f5_openstack_agent/lbaasv2/drivers/bigip/lbaas_builder.py:347-365 | at an input: one failed delete, reported destroyed, the address still on the device |
| `DriverInputs.EscapedDeletion` | f5_openstack_agent/lbaasv2/drivers/bigip/icontrol_driver.py:2124-2167 | at an input: the tenant folder fails for a load balancer being deleted, nothing is sent and nothing changes, and an exception escapes |
| `DriverLaws.MonitorIsDeployed` | f5_openstack_agent/lbaasv2/drivers/bigip/lbaas_builder.py:263-274 | in any event, whatever failed, a monitor that the create stage acts on and does not put in ERROR is on every device |
| `DriverLaws.PoolIsDeployed` | f5_openstack_agent/lbaasv2/drivers/bigip/lbaas_builder.py:227-253 | so is a pool, with the monitor that the service definition gives it |
| `DriverLaws.ListenerIsDeployed` | f5_openstack_agent/lbaasv2/drivers/bigip/lbaas_builder.py:191-225 | so is a listener, with the default pool that the service definition gives it, and its wrapper policy exactly where that has rules and no create error was noticed, when the L7 policies can be translated |
| `DriverLaws.ActiveMonitorIsDeployed` | f5_openstack_agent/lbaasv2/drivers/bigip/icontrol_driver.py:2232-2250 | whatever failed, a monitor that a synchronisation leaves ACTIVE is on every device |
| `DriverLaws.ActivePoolIsDeployed` | f5_openstack_agent/lbaasv2/drivers/bigip/icontrol_driver.py:2253-2269 | so is a pool, with the monitor that the service definition gives it |
| `DriverLaws.ActiveListenerIsDeployed` | f5_openstack_agent/lbaasv2/drivers/bigip/icontrol_driver.py:2272-2293 | so is a listener, with its default pool and attached wrapper policy, when the L7 policies can be translated |
| `DriverLaws.ActiveLoadBalancerHasPool` | f5_openstack_agent/lbaasv2/drivers/bigip/icontrol_driver.py:2336-2355 | when the load balancer is reported ACTIVE every pool of the service that is not being deleted is on every device, as the service defines it |
| `DriverLaws.ActiveLoadBalancerHasListener` | f5_openstack_agent/lbaasv2/drivers/bigip/icontrol_driver.py:2336-2355 | and so is every listener, when the L7 policies can be translated |
| `DriverLaws.ActiveUntouchedListener` | f5_openstack_agent/lbaasv2/drivers/bigip/icontrol_driver.py:2272-2293 | when they cannot, no virtual is touched, and pending listeners are left ACTIVE |
| `DriverLaws.TranslatableWhen` | f5_openstack_agent/lbaasv2/drivers/bigip/lbaas_builder.py:455-470 | no exception escapes from building exactly under a condition on the listeners, policies and rules of the service |
| `DriverLaws.ErrorKeepsWrapper` | f5_openstack_agent/lbaasv2/drivers/bigip/lbaas_builder.py:476-491 | a wrapper policy that a pass without errors deletes is kept exactly when another listener's L7 create error revives a policy that was being deleted, or makes the policies untranslatable |
| `DriverInputs.ErrorKeepsAnother` | f5_openstack_agent/lbaasv2/drivers/bigip/lbaas_builder.py:476-491 | at an input: the create for one listener fails, and the other listener's wrapper policy stays |
| `DriverLaws.SyncIsPlan` | f5_openstack_agent/lbaasv2/drivers/bigip/icontrol_driver.py:1819-1846 | a synchronisation without missed calls refines the plan and settles the statuses |
| `DriverLaws.NextPassSamePlan` | f5_openstack_agent/lbaasv2/drivers/bigip/lbaas_builder.py:36-43 | settling the statuses does not change what a synchronisation calls |
| `DriverLaws.SecondPassChangesNothing` | f5_openstack_agent/lbaasv2/drivers/bigip/lbaas_builder.py:69-126 | synchronising a settled service again changes nothing |
| `SnatPools.SnatNameInjective` | f5_openstack_agent/lbaasv2/drivers/bigip/snats.py:42-53 | two indexed names of one tenant agree only for the same subnet and index |
| `SnatLaws.SnatNameIs` | f5_openstack_agent/lbaasv2/drivers/bigip/snats.py:42-53 | the names of a tenant's addresses on a subnet; only scale-N clusters tell tenants apart |
| `SnatLaws.DigitsAreDecimal` | f5_openstack_agent/lbaasv2/drivers/bigip/snats.py:147 | the index in a name is its decimal numeral without leading zeros |
| `SnatPools.BigipSnatManager.AssureSubnetSnats` | f5_openstack_agent/lbaasv2/drivers/bigip/snats.py:133-209 | the loop over the addresses refines one functional step on pools and assured subnets |
| `SnatLaws.AssureEffect` | f5_openstack_agent/lbaasv2/drivers/bigip/snats.py:133-209 | assuring a subnet appends its names, in the network's folder, to the tenant's pool, makes their translations and remembers the subnet; a second time it does nothing, and other tenants keep theirs |
| `SnatPools.BigipSnatManager.MemberUseCount` | f5_openstack_agent/lbaasv2/drivers/bigip/snats.py:359-366 | zero exactly when no pool of the device lists the name |
| `SnatPools.BigipSnatManager.DeleteBigipSnats` | f5_openstack_agent/lbaasv2/drivers/bigip/snats.py:242-357 | for every pattern of failing pool calls, the deletion loop refines the functional step, releases the specified names, and reports the specified in-use subnets |
| `SnatLaws.DroppedInOrder` | f5_openstack_agent/lbaasv2/drivers/bigip/snats.py:288-291 | dropping a name keeps the other members in their order |
| `SnatLaws.DeletionFrame` | f5_openstack_agent/lbaasv2/drivers/bigip/snats.py:242-357 | whatever fails, a deletion touches no translation and nothing of other tenants |
| `SnatLaws.InvOverRuns` | f5_openstack_agent/lbaasv2/drivers/bigip/snats.py:133-357 | the invariant of pools and assured subnets over every run of many tenants sharing subnets |
| `SnatLaws.PoolsAreExact` | f5_openstack_agent/lbaasv2/drivers/bigip/snats.py:133-357 | after every run a tenant's members are exactly the indexed names of its assured subnets, each once, and its pool exists exactly when there is one |
| `SnatLaws.ReleasedOnlyWhenUnlisted` | f5_openstack_agent/lbaasv2/drivers/bigip/snats.py:345-357 | a port is released exactly when it is a name of the subnet and no pool lists it any more |
| `SnatLaws.ReleasedUnderFailures` | f5_openstack_agent/lbaasv2/drivers/bigip/snats.py:345-357 | whatever pool calls fail, from any device state, the ports released are exactly the subnet's names that no pool lists after the deletion |
| `SnatLaws.SharedNamesReleased` | f5_openstack_agent/lbaasv2/drivers/bigip/snats.py:345-357 | when all tenants are in one traffic group the ports of a subnet are released exactly when no other tenant has it assured |
| `SnatLaws.BareSubnetNeverListed` | f5_openstack_agent/lbaasv2/drivers/bigip/snats.py:336-341 | no pool ever lists the bare subnet id, so the second in-use test never fires |
| `SnatLaws.ReportedInUse` | f5_openstack_agent/lbaasv2/drivers/bigip/snats.py:318-343 | a deletion reports the subnet in use exactly when another tenant has it assured |
| `SubnetTeardown.HintsAreExact` | f5_openstack_agent/lbaasv2/drivers/bigip/lbaas_builder.py:420-437 | after any hints in any order the subnets to check are exactly those hinted with nothing but pending deletions |
| `SubnetTeardown.LastHintCounts` | f5_openstack_agent/lbaasv2/drivers/bigip/lbaas_builder.py:420-437 | what is remembered about a subnet to check is what its last hint said |
| `SubnetTeardown.BigIp.UpdateSubnetHints` | f5_openstack_agent/lbaasv2/drivers/bigip/lbaas_builder.py:420-437 | one hint |
| `SubnetTeardown.BigIp.IpsExistOnSubnet` | f5_openstack_agent/lbaasv2/drivers/bigip/network_service.py:864-917 | whether a virtual or node lies in the block and in the route domain: one with its id, or without any id for domain 0 |
| `SubnetTeardown.BigIp.GetSubnetsToDelete` | f5_openstack_agent/lbaasv2/drivers/bigip/network_service.py:841-862 | the checked subnets on which no address is left |
| `SubnetTeardown.BigIp.AssureDeleteNetsShared` | f5_openstack_agent/lbaasv2/drivers/bigip/network_service.py:736-763 | the SNATs of every such subnet are deleted, exactly those of their port names are released that no pool lists afterwards, and those in use are taken off the list |
| `SubnetTeardown.BigIp.PostServiceNetworking` | f5_openstack_agent/lbaasv2/drivers/bigip/network_service.py:649-680 | what is torn down on a device is exactly the specified set |
| `SubnetTeardown.BigIp.HintAndTearDown` | f5_openstack_agent/lbaasv2/drivers/bigip/network_service.py:649-680 | the hints of a whole service and both passes: torn down is exactly what no hint still used, where no address in the block is in the network's route domain, and no other tenant has assured while SNATs are in use |
| `SubnetTeardown.TeardownIsExact` | f5_openstack_agent/lbaasv2/drivers/bigip/network_service.py:649-680 | the same of the specification, for any hints in any order |
| `SubnetTeardown.TornDownUnderAnAddress` | f5_openstack_agent/lbaasv2/drivers/bigip/network_service.py:864-917 | a checked subnet that no other tenant relies on is torn down exactly when no address in its block carries the id of the network's route domain, or carries none while that is domain 0; without a route domain it is torn down under all its addresses |
| `SubnetTeardown.TornDownUnderAVirtual` | f5_openstack_agent/lbaasv2/drivers/bigip/network_service.py:864-917 | at an input: a subnet hinted for deletion whose network has no route domain is torn down with a virtual on it |
| `NodePurge.TenantMembers` | f5_openstack_agent/lbaasv2/drivers/bigip/agent_manager.py:928-943 | the addresses gathered per tenant are those of the members of its pools |
| `NodePurge.Driver.PurgeTenant` | f5_openstack_agent/lbaasv2/drivers/bigip/icontrol_driver.py:1182-1199 | whatever names are carried over, the tenant keeps exactly its referenced nodes and those the device refuses to delete |
| `NodePurge.Driver.PurgeOrphanedNodes` | f5_openstack_agent/lbaasv2/drivers/bigip/icontrol_driver.py:1173-1199 | the same for all tenants on all devices, other tenants untouched |
| `NodePurge.Driver.PurgeForPools` | f5_openstack_agent/lbaasv2/drivers/bigip/agent_manager.py:928-943 | purging for a list of pools deletes exactly the nodes that no member of the tenant's pools needs |
| `FdbTables.L2ServiceBuilder.GetBigipNetworkFdbs` | f5_openstack_agent/lbaasv2/drivers/bigip/l2_service.py:629-674 | the merged records of a network |
| `FdbTables.RecordsAreDescribed` | f5_openstack_agent/lbaasv2/drivers/bigip/l2_service.py:629-674 | a record exists exactly for the MACs that a port of another VTEP describes, never for flooding entries or the device's own VTEP, with the endpoint of the last port that does |
| `FdbTables.L2ServiceBuilder.AddBigipFdb` | f5_openstack_agent/lbaasv2/drivers/bigip/l2_service.py:578-588 | the tables after an add |
| `FdbTables.L2ServiceBuilder.RemoveBigipFdb` | f5_openstack_agent/lbaasv2/drivers/bigip/l2_service.py:680-689 | the tables after a remove |
| `FdbTables.AddEffect` | f5_openstack_agent/lbaasv2/drivers/bigip/network_helper.py:791-836 | the tables after adding networks in turn: every MAC that one of them describes and whose tunnel is the first listed under the network's name has a record; one that was there before keeps its endpoint, a new one has that of the first such network |
| `FdbTables.DeleteEffect` | f5_openstack_agent/lbaasv2/drivers/bigip/network_helper.py:791-836 | exactly the named (tunnel, MAC) pairs are gone |
| `FdbTables.MessageEffect` | f5_openstack_agent/lbaasv2/drivers/bigip/l2_service.py:578-689 | what a whole message adds to or deletes from a table: only its vxlan and gre networks count |
| `FdbTables.HandledHas` | f5_openstack_agent/lbaasv2/drivers/bigip/l2_service.py:578-588 | networks of these two types are handled, and no others |
| `FdbTables.AddIsIdempotent` | f5_openstack_agent/lbaasv2/drivers/bigip/l2_service.py:578-588 | adding a message twice is adding it once |
| `FdbTables.RemoveUndoesAdd` | f5_openstack_agent/lbaasv2/drivers/bigip/l2_service.py:680-689 | removing after adding restores the tables exactly when none of the named MACs were there before |
| `FdbTables.OthersUntouched` | f5_openstack_agent/lbaasv2/drivers/bigip/l2_service.py:590-627 | nothing outside the message changes |
| `PendingServices.LbaasAgentManager.RefreshService` | f5_openstack_agent/lbaasv2/drivers/bigip/agent_manager.py:738-752 | the flag returned stays set once raised |
| `PendingServices.LbaasAgentManager.RefreshPendingServices` | f5_openstack_agent/lbaasv2/drivers/bigip/agent_manager.py:628-664 | the loop refines the pass; resync is returned exactly when something remains recorded, and the expired ones are told |
| `PendingServices.PassEffect` | f5_openstack_agent/lbaasv2/drivers/bigip/agent_manager.py:640-659 | what one pass does to each polled load balancer |
| `PendingServices.RecordedSinceFirstFound` | f5_openstack_agent/lbaasv2/drivers/bigip/agent_manager.py:628-664 | over all passes the recorded time is that of the pass that first found the load balancer pending since it was last dropped |
| `PendingServices.NoneOverstays` | f5_openstack_agent/lbaasv2/drivers/bigip/agent_manager.py:647-659 | after a pass no polled load balancer is recorded past the timeout, if it is younger than a day |
| `PendingServices.OverstaysByWholeDays` | f5_openstack_agent/lbaasv2/drivers/bigip/agent_manager.py:647-648 | it stays past the timeout exactly when found pending with an age whose part below a day is within it |
| `PendingServices.OverstayIsReached` | f5_openstack_agent/lbaasv2/drivers/bigip/agent_manager.py:647-648 | two passes a day apart reach a load balancer recorded past its timeout |
| `PendingServices.UnlistedIsNeverDropped` | f5_openstack_agent/lbaasv2/drivers/bigip/agent_manager.py:633-664 | a recorded load balancer no longer listed is never dropped, so every later pass asks for a resync |
| `PemBlocks.SplitX509s` | f5_openstack_agent/utils/cert_parser.py:63-86 | the line loop computes the blocks of a text |
| `PemBlocks.BundleYieldsItsBlocks` | f5_openstack_agent/utils/cert_parser.py:63-86 | for blocks among other lines the outputs are exactly the blocks in order; an unterminated last block yields nothing |
| `PemBlocks.ReturnsDoNotMatter` | f5_openstack_agent/utils/cert_parser.py:76 | a bundle yields the same blocks whichever of its lines end with a carriage return |
| `PemBlocks.ReturnsGo` | f5_openstack_agent/utils/cert_parser.py:76 | carriage returns go and every other character stays in its place |
| `PemBlocks.SplitJoinRoundTrip` | f5_openstack_agent/lbaasv2/drivers/bigip/listener_service.py:186 | splitting the newline-join of the outputs gives the same outputs, for every text |
| `PemBlocks.LinesOfJoin` | f5_openstack_agent/utils/cert_parser.py:76 | splitting into lines undoes joining them |

## Left out

- REST and SDK objects, Neutron RPC transport, configuration, logging, timing and green-thread scheduling: replaced by device maps, parameters and interleaving steps.
- Partial effects of a failing call, such as an update that changed some attributes: a failing call changes nothing.
- Attributes other than references, L7 rules and the text of a virtual address (descriptions, profiles, load-balancing methods, rule names): a create that meets an existing object is followed by an update of all attributes, and the model keeps only these.
- Pool members and their nodes in the assure pipeline, and their statuses: they refer to nothing that the pipeline orders.
- LbaasBuilder.LBaaSBuilder.AssureService: leaves out the members stage, for that reason.
- IcontrolDriver.IControlDriver.UpdateServiceStatus: leaves out the statuses of members.
- IcontrolDriver.IControlDriver.CommonServiceHandler: leaves out what the tenant cleanup after a deleted load balancer removes, which is no object of the model; whether the cleanup raises is a parameter.
- IcontrolDriver.IControlDriver.ListenerEvent: stands for the other ordinary events too, which differ in the statuses they report.
- The separate monitor collections by type: one kind stands for all.
- ESD policies inside the assure pipeline: the model's services hold no policy named after an ESD; composition is in `EsdComposite`.
- A listener that lists an L7 policy of another listener: the name of its wrapper policy would come from the first policy listed.
- L7 policies without a listener id, and listeners, pools or policies whose dictionary keys are absent: every list is present, possibly empty.
- SSL profiles, cookie persistence rules and VLAN lookups during listener creation: they touch no object of the model.
- The legacy `wrapper_policy` as a target of references: it is exempt from the integrity claims, as an old virtual may still list it.
- Unexpected exceptions other than untranslatable policies and a failing address delete: they end a pass as those do.
- IcontrolDriver.IControlDriver.UpdateListenerStatus: does not state operating statuses, because they depend on nothing modelled here.
- PlanResult.ListenersConverge: needs distinct ids, as Neutron's are, like the other results about single objects.
- L7PolicyLaws.ConditionsAreLiveRules: leaves out the constant `request` attribute of conditions and actions, and their and the rules' display names other than a condition's index.
- L7PolicyLaws.TranslationPreservesMeaning: treats the regular-expression operator as an arbitrary relation, because rules with it are never translated.
- FirstFit.FirstFitIsOptimal: covers runs of placements of fresh subnets without removals, because a removal leaves gaps in earlier domains that later placements need not fill.
- RouteDomainCache.NetworkServiceBuilder.UpdateRdsCache: takes the entry read back from the devices as a parameter; the parsing of VLANs and self addresses that builds it is not modelled.
- RouteDomainCache.NetworkServiceBuilder.AssignRouteDomain: with one namespace per tenant the tenant's domain is a configuration value instead of a device lookup.
- RouteDomainLaws.PlaceThenRemove: is about a network not cached before; the cache-hit path neither checks nor records the subnet, so there is nothing to undo.
- Network short names stay a pair of type and segmentation id instead of the joined string.
- SnatLaws.PoolsAreExact: assumes that no pool call fails and the cache of assured subnets is not flushed; a failing call leaves pools and cache different from each other. `SnatLaws.ReleasedUnderFailures` covers failing calls.
- SubnetTeardown.BigIp.AssureDeleteNetsShared: its SNAT deletions do not fail.
- SNAT pools and subnet teardown are modelled for one device at a time, as the source loops over devices independently.
- An invalid high-availability type, on which the SNAT code raises.
- NodePurge.Driver.PurgeTenant: takes the device's refusals as a fixed function and the listing of a partition as complete.
- FdbTables.L2ServiceBuilder.AddBigipFdb: does not model static ARP entries or failing calls.
- FdbTables.L2ServiceBuilder.RemoveBigipFdb: does not model static ARP entries or failing calls.
- PendingServices.LbaasAgentManager.RefreshPendingServices: a service that cannot be refreshed is one of the polled outcomes; what refreshing does to the device is not repeated here.
- PKCS7 block reading, DER, base64 and X.509 parsing: library code, and a line loop of the same shape as the splitter.
- md5 hashing of traffic groups: an arbitrary function of the tenant.
- vCMP, VLAN and L3 binding, gateway mode, opflex ports, statistics, capacity scores, connection bring-up, packaging and debug tools.
