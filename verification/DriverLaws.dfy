/** What statuses and devices come to when a service has been handled and reported, whatever
    calls fail. */
module DriverLaws {
  import opened Lbaas
  import opened AssurePlan
  import opened BuilderStages
  import opened PassLaws
  import opened PolicyStatuses
  import opened IcontrolDriver
  import PlanResult
  import L7 = L7Policy
  import LP = ListenerPolicies
  import Laws = L7PolicyLaws

  // ----- The status machine

  /** Where an object ends: `Error` exactly when it was there or an error was noticed; else,
      when statuses are reported, a pending creation or update becomes `Active`. */
  function Final(before: Status, error: bool, reports: bool): Status {
    if error then Error
    else
      match before
      case PendingCreate => if reports then Active else PendingCreate
      case PendingUpdate => if reports then Active else PendingUpdate
      case _ => before
  }

  ghost predicate MonitorsEnd(svc: Service, end: Service, rep: Report, reports: bool) {
    && |end.monitors| == |svc.monitors|
    && forall i :: 0 <= i < |svc.monitors| ==>
         end.monitors[i].status ==
         Final(svc.monitors[i].status, Reported(rep.creates.monitors, i) || Reported(rep.deletes.monitors, i), reports)
  }

  ghost predicate PoolsEnd(svc: Service, end: Service, rep: Report, reports: bool) {
    && |end.pools| == |svc.pools|
    && forall i :: 0 <= i < |svc.pools| ==>
         end.pools[i].status ==
         Final(svc.pools[i].status, Reported(rep.creates.pools, i) || Reported(rep.deletes.pools, i), reports)
  }

  ghost predicate ListenersEnd(svc: Service, end: Service, rep: Report, reports: bool) {
    && |end.listeners| == |svc.listeners|
    && forall i :: 0 <= i < |svc.listeners| ==>
         end.listeners[i].status ==
         Final(svc.listeners[i].status, Reported(rep.creates.listeners, i) || Reported(rep.deletes.listeners, i),
               reports)
  }

  /** L7 policies are only ever put in error: by a noticed create error of any of them, or by a
      missed delete of a wrapper policy whose listener refers to them. */
  ghost predicate PoliciesEndAs(svc: Service, end: Service, order: seq<Id>, rep: Report) {
    && |end.policies| == |svc.policies|
    && forall j: nat {:trigger end.policies[j]} :: j < |svc.policies| ==>
         end.policies[j] == svc.policies[j].(status :=
           if true in rep.creates.policyErrors || DeleteMissed(svc, order, rep.deletes.policies, j) then Error
           else svc.policies[j].status)
  }

  /** Marked statuses of monitors, pools and listeners at the end of a pass. */
  lemma OutcomeMarks(svc: Service, order: seq<Id>, rep: Report)
    requires |rep.deletes.policies| <= |order|
    ensures var o, c, r := Outcome(svc, order, rep), rep.creates, rep.deletes;
            && o.monitors == Marked(Marked(svc.monitors, c.monitors, MonitorInError), r.monitors, MonitorInError)
            && o.pools == Marked(Marked(svc.pools, c.pools, PoolInError), r.pools, PoolInError)
            && o.listeners == Marked(Marked(svc.listeners, c.listeners, ListenerInError), r.listeners, ListenerInError)
  {
    MarkDeletedKeeps(AfterVirtualsGone(AfterCreates(svc, rep.creates), rep.deletes), order, rep.deletes.policies);
  }

  lemma ReportedNothing(svc: Service)
    ensures Marked(Marked(svc.monitors, [], MonitorInError), [], MonitorInError) == svc.monitors
    ensures Marked(Marked(svc.pools, [], PoolInError), [], PoolInError) == svc.pools
    ensures Marked(Marked(svc.listeners, [], ListenerInError), [], ListenerInError) == svc.listeners
  {
  }

  lemma HandledMarks(svc: Service, order: seq<Id>, setup: Setup, deleteEvent: bool, rep: Report, raised: bool)
    requires |rep.deletes.policies| <= |order| && (!Reached(setup, deleteEvent) ==> rep == NoReport)
    ensures var h, c, r := Handled(svc, order, setup, deleteEvent, rep, raised), rep.creates, rep.deletes;
            && h.monitors == Marked(Marked(svc.monitors, c.monitors, MonitorInError), r.monitors, MonitorInError)
            && h.pools == Marked(Marked(svc.pools, c.pools, PoolInError), r.pools, PoolInError)
            && h.listeners == Marked(Marked(svc.listeners, c.listeners, ListenerInError), r.listeners, ListenerInError)
  {
    OutcomeMarks(Prepared(svc, setup), order, rep);
    ReportedNothing(svc);
  }

  lemma HandledLb(svc: Service, order: seq<Id>, setup: Setup, deleteEvent: bool, rep: Report, raised: bool)
    requires |rep.deletes.policies| <= |order| && (!Reached(setup, deleteEvent) ==> rep == NoReport && !raised)
    ensures var h := Handled(svc, order, setup, deleteEvent, rep, raised);
            && h.lbId == svc.lbId
            && h.lbStatus == if LoadBalancerError(rep.creates) ||
                                (SetupError(setup, deleteEvent, raised) && svc.lbStatus != PendingDelete)
                             then Error else svc.lbStatus
  {
    LbStatusLater(Prepared(svc, setup), order, rep);
    assert !AnyReported([]);
  }

  lemma HandledPolicies(svc: Service, order: seq<Id>, setup: Setup, deleteEvent: bool, rep: Report, raised: bool)
    requires |rep.deletes.policies| <= |order| && (!Reached(setup, deleteEvent) ==> rep == NoReport)
    ensures PoliciesEndAs(svc, Handled(svc, order, setup, deleteEvent, rep, raised), order, rep)
  {
    PoliciesEnd(Prepared(svc, setup), order, rep);
    forall j: nat
      ensures DeleteMissed(Prepared(svc, setup), order, rep.deletes.policies, j) <==>
              DeleteMissed(svc, order, rep.deletes.policies, j)
    {
      SameDeleteMissed(svc, Prepared(svc, setup), order, rep.deletes.policies, j);
    }
  }

  /** What the report of a handled service looks like. */
  ghost predicate Shaped(order: seq<Id>, setup: Setup, deleteEvent: bool, rep: Report, raised: bool) {
    |rep.deletes.policies| <= |order| && (!Reached(setup, deleteEvent) ==> rep == NoReport && !raised)
  }

  lemma MonitorsEndAre(svc: Service, order: seq<Id>, setup: Setup, rep: Report, raised: bool)
    requires Shaped(order, setup, false, rep, raised)
    ensures MonitorsEnd(svc, SyncEnd(svc, order, setup, rep, raised), rep, Reports(svc, setup, false))
  {
    HandledMarks(svc, order, setup, false, rep, raised);
  }

  lemma PoolsEndAre(svc: Service, order: seq<Id>, setup: Setup, rep: Report, raised: bool)
    requires Shaped(order, setup, false, rep, raised)
    ensures PoolsEnd(svc, SyncEnd(svc, order, setup, rep, raised), rep, Reports(svc, setup, false))
  {
    HandledMarks(svc, order, setup, false, rep, raised);
  }

  lemma ListenersEndAre(svc: Service, order: seq<Id>, setup: Setup, rep: Report, raised: bool)
    requires Shaped(order, setup, false, rep, raised)
    ensures ListenersEnd(svc, SyncEnd(svc, order, setup, rep, raised), rep, Reports(svc, setup, false))
  {
    HandledMarks(svc, order, setup, false, rep, raised);
  }

  lemma ObjectsEnd(svc: Service, order: seq<Id>, setup: Setup, rep: Report, raised: bool)
    requires Shaped(order, setup, false, rep, raised)
    ensures var end, reports := SyncEnd(svc, order, setup, rep, raised), Reports(svc, setup, false);
            MonitorsEnd(svc, end, rep, reports) && PoolsEnd(svc, end, rep, reports) &&
                ListenersEnd(svc, end, rep, reports)
  {
    MonitorsEndAre(svc, order, setup, rep, raised);
    PoolsEndAre(svc, order, setup, rep, raised);
    ListenersEndAre(svc, order, setup, rep, raised);
  }

  lemma LoadBalancerEnds(svc: Service, order: seq<Id>, setup: Setup, rep: Report, raised: bool)
    requires Shaped(order, setup, false, rep, raised)
    ensures SyncEnd(svc, order, setup, rep, raised).lbStatus ==
            Final(svc.lbStatus,
                  LoadBalancerError(rep.creates) || (SetupError(setup, false, raised) && svc.lbStatus != PendingDelete),
                  Reports(svc, setup, false))
  {
    HandledLb(svc, order, setup, false, rep, raised);
  }

  /** The fate of every status in one synchronisation, under any failures. */
  lemma StatusMachine(svc: Service, order: seq<Id>, setup: Setup, rep: Report, raised: bool)
    requires Shaped(order, setup, false, rep, raised)
    ensures var end, reports := SyncEnd(svc, order, setup, rep, raised), Reports(svc, setup, false);
            && end.lbStatus == Final(svc.lbStatus,
                                     LoadBalancerError(rep.creates) ||
                                     (SetupError(setup, false, raised) && svc.lbStatus != PendingDelete), reports)
            && MonitorsEnd(svc, end, rep, reports) && PoolsEnd(svc, end, rep, reports)
            && ListenersEnd(svc, end, rep, reports) && PoliciesEndAs(svc, end, order, rep)
  {
    LoadBalancerEnds(svc, order, setup, rep, raised);
    ObjectsEnd(svc, order, setup, rep, raised);
    HandledPolicies(svc, order, setup, false, rep, raised);
  }

  /** The steps around the builder: when it is reached, when they put the load balancer in
      error, and when the statuses are reported. */
  lemma SetupCases(svc: Service, setup: Setup, deleteEvent: bool, raised: bool)
    ensures Reached(setup, deleteEvent) <==> !setup.tenantFails && (setup.prep.Ready? || deleteEvent)
    ensures SetupError(setup, deleteEvent, raised) <==>
            || setup.tenantFails || setup.prep.Failed?
            || (setup.postFails && !raised && (setup.prep.Ready? || deleteEvent))
    ensures Reports(svc, setup, deleteEvent) <==>
            if svc.lbStatus == PendingDelete
            then !setup.tenantFails && (setup.prep.Ready? || deleteEvent) && !setup.cleanupFails
            else setup.tenantFails || !setup.prep.NotReady? || deleteEvent
  {
  }

  /** A load balancer settles, when the time is over as well: then one still being created, and
      no other, is put in error, and Neutron is told the status that it gets. */
  lemma LoadBalancerSettles(svc: Service, timedOut: bool)
    ensures SettledLb(svc.lbStatus, timedOut) ==
            match svc.lbStatus
            case PendingCreate => if timedOut then Error else Active
            case PendingUpdate => Active
            case _ => svc.lbStatus
    ensures LbMessage(svc, timedOut) ==
            match svc.lbStatus
            case PendingCreate => [Updated(LoadBalancer, svc.lbId, if timedOut then Error else Active)]
            case PendingUpdate => [Updated(LoadBalancer, svc.lbId, Active)]
            case PendingDelete => [Destroyed(LoadBalancer, svc.lbId)]
            case Error => [Updated(LoadBalancer, svc.lbId, Error)]
            case Active => []
  {
  }

  // ----- What is reported about the load balancer

  lemma {:induction false} MessagesAbout(what: What, xs: seq<Item>)
    ensures forall m :: m in Messages(what, xs) ==> m.what == what
  {
    if xs != [] {
      MessagesAbout(what, xs[..|xs| - 1]);
    }
  }

  lemma LbMessages(h: Service, m: Rpc)
    requires m.what == LoadBalancer
    ensures m in AllMessages(h, false) <==> m in LbMessage(h, false)
  {
    MessagesAbout(Monitors, ItemsOf(h.monitors, MonitorItem));
    MessagesAbout(Pools, ItemsOf(h.pools, PoolItem));
    MessagesAbout(Listeners, ItemsOf(h.listeners, ListenerItem));
    MessagesAbout(Rules, ItemsOf(h.rules, RuleItem));
    MessagesAbout(Policies, ItemsOf(h.policies, PolicyItem));
  }

  /** A synchronisation reports the load balancer active exactly when the builder was reached,
      the load balancer was pending, and no error was charged to it. */
  lemma ReportedActive(svc: Service, order: seq<Id>, setup: Setup, rep: Report, raised: bool)
    requires Shaped(order, setup, false, rep, raised)
    ensures Updated(LoadBalancer, svc.lbId, Active) in SyncSent(svc, order, setup, rep, raised) <==>
            && Reached(setup, false) && Pending(svc.lbStatus)
            && !LoadBalancerError(rep.creates) && !SetupError(setup, false, raised)
  {
    HandledLb(svc, order, setup, false, rep, raised);
    LbMessages(Handled(svc, order, setup, false, rep, raised), Updated(LoadBalancer, svc.lbId, Active));
  }

  /** It reports it destroyed exactly when the builder was reached, the load balancer was to be
      deleted, no create error was charged to it, and the cleanup of the tenant raised nothing,
      whatever became of the deletion. */
  lemma ReportedDestroyed(svc: Service, order: seq<Id>, setup: Setup, rep: Report, raised: bool)
    requires Shaped(order, setup, false, rep, raised)
    ensures Destroyed(LoadBalancer, svc.lbId) in SyncSent(svc, order, setup, rep, raised) <==>
            && Reached(setup, false) && !setup.cleanupFails && svc.lbStatus == PendingDelete
            && !LoadBalancerError(rep.creates)
  {
    HandledLb(svc, order, setup, false, rep, raised);
    LbMessages(Handled(svc, order, setup, false, rep, raised), Destroyed(LoadBalancer, svc.lbId));
  }

  // ----- Deletions that are not reported

  /** A synchronisation of a load balancer being deleted reports nothing, and settles nothing,
      exactly when the builder is not reached or the final cleanup raises: an exception
      escapes, and the builder keeps the statuses of a synchronisation. */
  lemma NothingIsReported(svc: Service, order: seq<Id>, setup: Setup, rep: Report, raised: bool)
    requires Shaped(order, setup, false, rep, raised) && svc.lbStatus == PendingDelete
    ensures SyncSent(svc, order, setup, rep, raised) == [] <==> !Reached(setup, false) || setup.cleanupFails
    ensures !Reached(setup, false) ==> SyncEnd(svc, order, setup, rep, raised) == svc
  {
    HandledLb(svc, order, setup, false, rep, raised);
    if Reports(svc, setup, false) {
      var h := Handled(svc, order, setup, false, rep, raised);
      assert LbMessage(h, false) != [];
      var m := LbMessage(h, false)[0];
      LbMessages(h, m);
    }
  }

  /** An ordinary event leaves an active monitor as it is on every device. */
  lemma OrdinaryEventLeavesActive(svc: Service, order: seq<Id>, before: seq<Device>, rep: Report, raised: bool,
                                  after: seq<Device>, d: nat, i: nat)
    requires Pass(svc, false, order, before, rep, raised, after) && PlanResult.DistinctIds(svc, order)
    requires i < |svc.monitors| && d < |after| && svc.monitors[i].status == Active
    ensures Agree(MonitorObj(svc, i), before[d], after[d])
  {
    MonitorEnds(svc, false, order, before, rep, raised, after, d, i);
  }

  /** An event that runs with the statuses of a synchronisation, as one does after an escape,
      puts it again. */
  lemma StaleStatusesPutActive(svc: Service, order: seq<Id>, before: seq<Device>, rep: Report, raised: bool,
                               after: seq<Device>, d: nat, i: nat)
    requires Pass(svc, true, order, before, rep, raised, after) && PlanResult.DistinctIds(svc, order)
    requires i < |svc.monitors| && d < |after| && svc.monitors[i].status == Active
    ensures EndsAs(MonitorObj(svc, i), !Missed(rep.creates.monitors[i], d), MonitorValue, false, before[d], after[d])
  {
    MonitorEnds(svc, true, order, before, rep, raised, after, d, i);
  }

  // ----- Virtual addresses that are reported wrongly

  predicate HoldsAddress(svc: Service, d: Device) {
    AddressObj(svc) in d && d[AddressObj(svc)] == AddressValue(svc.vip)
  }

  /** A load balancer that a synchronisation reports active has its address on exactly the
      devices where it was assured.  The others swallowed an HTTP error: they did not hold the
      address before, and now hold nothing, or the old address if its deletion failed. */
  lemma ActiveWithoutAddress(svc: Service, order: seq<Id>, setup: Setup, before: seq<Device>, rep: Report, raised: bool,
                             after: seq<Device>, d: nat)
    requires Pass(svc, true, order, before, rep, raised, after) && d < |after|
    requires Reached(setup, false) && |rep.deletes.policies| <= |order|
    requires Updated(LoadBalancer, svc.lbId, Active) in SyncSent(svc, order, setup, rep, raised)
    ensures |rep.creates.address| == |after|
    ensures var o, x := AddressObj(svc), rep.creates.address[d];
            && (HoldsAddress(svc, after[d]) <==> x.end.Assured?)
            && (!x.end.Assured? ==>
                  && x.end.Swallowed? && !HoldsAddress(svc, before[d])
                  && if x.deleted then o in before[d] && o !in after[d] else Agree(o, before[d], after[d]))
  {
    ReportedActive(svc, order, setup, rep, raised);
    AddressEnds(svc, true, order, before, rep, raised, after, d);
    assert OutcomeFits(AddressObj(svc), AddressValue(svc.vip), before[d], rep.creates.address[d]);
  }

  /** A load balancer reported destroyed keeps its address on exactly the devices that had it
      and missed the delete, or on all that had it when an exception ended the pass before. */
  lemma DestroyedWithAddress(svc: Service, order: seq<Id>, setup: Setup, before: seq<Device>, rep: Report, raised: bool,
                             after: seq<Device>, d: nat)
    requires Pass(svc, true, order, before, rep, raised, after) && d < |after|
    requires Reached(setup, false) && |rep.deletes.policies| <= |order|
    requires Destroyed(LoadBalancer, svc.lbId) in SyncSent(svc, order, setup, rep, raised)
    ensures AddressObj(svc) in after[d] <==>
            AddressObj(svc) in before[d] && (rep.deletes.address == [] || Missed(rep.deletes.address[0], d))
  {
    ReportedDestroyed(svc, order, setup, rep, raised);
    AddressEnds(svc, true, order, before, rep, raised, after, d);
  }

  // ----- Active means deployed

  /** In any event, a monitor that the event writes and that does not end in error is on every
      device. */
  lemma MonitorIsDeployed(svc: Service, sync: bool, order: seq<Id>, before: seq<Device>, rep: Report, raised: bool,
                          after: seq<Device>, d: nat, i: nat)
    requires Pass(svc, sync, order, before, rep, raised, after) && PlanResult.DistinctIds(svc, order)
    requires i < |svc.monitors| && d < |after| && PlanResult.Written(sync, svc.monitors[i].status)
    requires !Reported(rep.creates.monitors, i)
    ensures MonitorObj(svc, i) in after[d] && after[d][MonitorObj(svc, i)] == MonitorValue
  {
    MonitorEnds(svc, sync, order, before, rep, raised, after, d, i);
    NotMissed(rep.creates.monitors[i], d);
  }

  /** So is a pool, with the monitor that the service definition gives it. */
  lemma PoolIsDeployed(svc: Service, sync: bool, order: seq<Id>, before: seq<Device>, rep: Report, raised: bool,
                       after: seq<Device>, d: nat, i: nat)
    requires Pass(svc, sync, order, before, rep, raised, after) && PlanResult.DistinctIds(svc, order)
    requires i < |svc.pools| && d < |after| && PlanResult.Written(sync, svc.pools[i].status)
    requires !Reported(rep.creates.pools, i)
    ensures PoolObj(svc, i) in after[d] && PlanResult.PoolAsDefined(svc, svc.pools[i], after[d][PoolObj(svc, i)])
  {
    PoolEnds(svc, sync, order, before, rep, raised, after, d, i);
    NotMissed(rep.creates.pools[i], d);
    PlanResult.PoolValueIs(svc, svc.pools[i]);
  }

  /** The listener's wrapper policy has rules, and no error was noticed when it was created. */
  ghost predicate WasAttached(svc: Service, order: seq<Id>, errors: seq<bool>, id: Id) {
    WrapperRules(svc, id) != [] && exists k :: 0 <= k < |errors| && k < |order| && order[k] == id && !errors[k]
  }

  lemma {:induction false} AttachedButHas(svc: Service, order: seq<Id>, errors: seq<bool>, id: Id)
    requires |errors| <= |order|
    ensures var f5 := AttachedBut(svc, order, errors);
            && (id in f5 <==> exists k :: 0 <= k < |errors| && order[k] == id && !errors[k])
            && (id in f5 ==> f5[id] == PolicyFor(svc, id))
  {
    if errors != [] {
      var n := |errors| - 1;
      AttachedButHas(svc, order, errors[..n], id);
      assert forall k :: 0 <= k < n ==> errors[..n][k] == errors[k];
    }
  }

  /** So is a listener, with its default pool, and with its wrapper policy where that was
      attached, when the L7 policies can be translated. */
  lemma ListenerIsDeployed(svc: Service, sync: bool, order: seq<Id>, before: seq<Device>, rep: Report, raised: bool,
                           after: seq<Device>, d: nat, i: nat)
    requires Pass(svc, sync, order, before, rep, raised, after) && PlanResult.DistinctIds(svc, order)
    requires Translatable(svc) && i < |svc.listeners| && d < |after|
    requires PlanResult.Written(sync, svc.listeners[i].status) && !Reported(rep.creates.listeners, i)
    ensures VirtualObj(svc, i) in after[d]
    ensures PlanResult.VirtualAsDefined(svc, svc.listeners[i],
                                        WasAttached(svc, order, rep.creates.policyErrors, svc.listeners[i].id),
                                        after[d][VirtualObj(svc, i)])
  {
    ListenerEnds(svc, sync, order, before, rep, raised, after, d, i);
    StoppedEarlyIs(svc, rep);
    NotMissed(rep.creates.listeners[i], d);
    VirtualIs(svc, order, rep.creates.policyErrors, svc.listeners[i]);
  }

  lemma VirtualIs(svc: Service, order: seq<Id>, errors: seq<bool>, l: Listener)
    requires PlanResult.DistinctIds(svc, order) && |errors| <= |order|
    ensures PlanResult.VirtualAsDefined(svc, l, WasAttached(svc, order, errors, l.id),
                                        VirtualOf(svc, l, AttachedBut(svc, order, errors)))
  {
    PlanResult.VirtualValueIs(svc, l, AttachedBut(svc, order, errors));
    AttachedButHas(svc, order, errors, l.id);
  }

  lemma ActiveIsUnreported(svc: Service, order: seq<Id>, setup: Setup, rep: Report, raised: bool)
    requires Shaped(order, setup, false, rep, raised)
    ensures var end, c := SyncEnd(svc, order, setup, rep, raised), rep.creates;
            && |end.monitors| == |svc.monitors| && |end.pools| == |svc.pools| && |end.listeners| == |svc.listeners|
            && (forall i :: 0 <= i < |svc.monitors| && end.monitors[i].status == Active ==>
                  !Reported(c.monitors, i) && svc.monitors[i].status != PendingDelete)
            && (forall i :: 0 <= i < |svc.pools| && end.pools[i].status == Active ==>
                  !Reported(c.pools, i) && svc.pools[i].status != PendingDelete)
            && (forall i :: 0 <= i < |svc.listeners| && end.listeners[i].status == Active ==>
                  !Reported(c.listeners, i) && svc.listeners[i].status != PendingDelete)
  {
    ObjectsEnd(svc, order, setup, rep, raised);
  }

  /** A monitor that a synchronisation leaves active is on every device, whatever failed. */
  lemma ActiveMonitorIsDeployed(svc: Service, order: seq<Id>, setup: Setup, before: seq<Device>, rep: Report,
                                raised: bool, after: seq<Device>, d: nat, i: nat)
    requires Reached(setup, false) && |rep.deletes.policies| <= |order|
    requires Pass(svc, true, order, before, rep, raised, after)
    requires PlanResult.DistinctIds(svc, order) && i < |svc.monitors| && d < |after|
    requires i < |SyncEnd(svc, order, setup, rep, raised).monitors|
    requires SyncEnd(svc, order, setup, rep, raised).monitors[i].status == Active
    ensures MonitorObj(svc, i) in after[d] && after[d][MonitorObj(svc, i)] == MonitorValue
  {
    ActiveIsUnreported(svc, order, setup, rep, raised);
    MonitorIsDeployed(svc, true, order, before, rep, raised, after, d, i);
  }

  lemma ActivePoolIsDeployed(svc: Service, order: seq<Id>, setup: Setup, before: seq<Device>, rep: Report, raised: bool,
                             after: seq<Device>, d: nat, i: nat)
    requires Reached(setup, false) && |rep.deletes.policies| <= |order|
    requires Pass(svc, true, order, before, rep, raised, after)
    requires PlanResult.DistinctIds(svc, order) && i < |svc.pools| && d < |after|
    requires i < |SyncEnd(svc, order, setup, rep, raised).pools|
    requires SyncEnd(svc, order, setup, rep, raised).pools[i].status == Active
    ensures PoolObj(svc, i) in after[d] && PlanResult.PoolAsDefined(svc, svc.pools[i], after[d][PoolObj(svc, i)])
  {
    ActiveIsUnreported(svc, order, setup, rep, raised);
    PoolIsDeployed(svc, true, order, before, rep, raised, after, d, i);
  }

  lemma ActiveListenerIsDeployed(svc: Service, order: seq<Id>, setup: Setup, before: seq<Device>, rep: Report,
                                 raised: bool, after: seq<Device>, d: nat, i: nat)
    requires Reached(setup, false) && |rep.deletes.policies| <= |order|
    requires Pass(svc, true, order, before, rep, raised, after)
    requires PlanResult.DistinctIds(svc, order) && i < |svc.listeners| && d < |after| && Translatable(svc)
    requires i < |SyncEnd(svc, order, setup, rep, raised).listeners|
    requires SyncEnd(svc, order, setup, rep, raised).listeners[i].status == Active
    ensures VirtualObj(svc, i) in after[d]
    ensures PlanResult.VirtualAsDefined(svc, svc.listeners[i],
                                        WasAttached(svc, order, rep.creates.policyErrors, svc.listeners[i].id),
                                        after[d][VirtualObj(svc, i)])
  {
    ActiveIsUnreported(svc, order, setup, rep, raised);
    ListenerIsDeployed(svc, true, order, before, rep, raised, after, d, i);
  }

  /** When the load balancer is reported active, every pool of the service that is not being
      deleted is on every device. */
  lemma ActiveLoadBalancerHasPool(svc: Service, order: seq<Id>, setup: Setup, before: seq<Device>, rep: Report,
                                  raised: bool, after: seq<Device>, d: nat, i: nat)
    requires Reached(setup, false) && |rep.deletes.policies| <= |order|
    requires Pass(svc, true, order, before, rep, raised, after) && d < |after| && PlanResult.DistinctIds(svc, order)
    requires Updated(LoadBalancer, svc.lbId, Active) in SyncSent(svc, order, setup, rep, raised)
    requires i < |svc.pools| && svc.pools[i].status != PendingDelete
    ensures PoolObj(svc, i) in after[d] && PlanResult.PoolAsDefined(svc, svc.pools[i], after[d][PoolObj(svc, i)])
  {
    ReportedActive(svc, order, setup, rep, raised);
    PoolIsDeployed(svc, true, order, before, rep, raised, after, d, i);
  }

  /** And so is every listener, with its default pool and its wrapper policy, when the L7
      policies can be translated. */
  lemma ActiveLoadBalancerHasListener(svc: Service, order: seq<Id>, setup: Setup, before: seq<Device>, rep: Report,
                                      raised: bool, after: seq<Device>, d: nat, i: nat)
    requires Reached(setup, false) && |rep.deletes.policies| <= |order|
    requires Pass(svc, true, order, before, rep, raised, after) && d < |after| && PlanResult.DistinctIds(svc, order)
    requires Updated(LoadBalancer, svc.lbId, Active) in SyncSent(svc, order, setup, rep, raised)
    requires i < |svc.listeners| && svc.listeners[i].status != PendingDelete && Translatable(svc)
    ensures VirtualObj(svc, i) in after[d]
    ensures PlanResult.VirtualAsDefined(svc, svc.listeners[i],
                                        svc.listeners[i].id in order && WrapperRules(svc, svc.listeners[i].id) != [],
                                        after[d][VirtualObj(svc, i)])
  {
    ReportedActive(svc, order, setup, rep, raised);
    StoppedEarlyIs(svc, rep);
    ListenerIsDeployed(svc, true, order, before, rep, raised, after, d, i);
    AllAttached(svc, order, rep.creates.policyErrors, svc.listeners[i].id);
  }

  lemma AllAttached(svc: Service, order: seq<Id>, errors: seq<bool>, id: Id)
    requires |errors| == |order| && true !in errors
    ensures WasAttached(svc, order, errors, id) <==> id in order && WrapperRules(svc, id) != []
  {
    assert forall k :: 0 <= k < |errors| ==> !errors[k];
  }

  /** When the L7 policies cannot be translated, no virtual is touched, and a pending listener
      is left active all the same when the statuses are reported. */
  lemma ActiveUntouchedListener(svc: Service, order: seq<Id>, setup: Setup, before: seq<Device>, rep: Report,
                                raised: bool, after: seq<Device>, d: nat, i: nat)
    requires Reached(setup, false) && |rep.deletes.policies| <= |order|
    requires Pass(svc, true, order, before, rep, raised, after)
    requires PlanResult.DistinctIds(svc, order) && i < |svc.listeners| && d < |after| && !Translatable(svc)
    ensures Agree(VirtualObj(svc, i), before[d], after[d])
    ensures ListenersEnd(svc, SyncEnd(svc, order, setup, rep, raised), NoReport, Reports(svc, setup, false))
  {
    ObjectsEnd(svc, order, setup, rep, raised);
    ListenerEnds(svc, true, order, before, rep, raised, after, d, i);
    StoppedEarlyIs(svc, rep);
  }

  // ----- When the L7 policies can be translated

  /** No exception escapes from building the wrapper policies exactly when every policy's
      listener exists, and none of these listeners has both a policy with a rule of the
      service and a live policy with a missing rule or a live regular expression. */
  lemma TranslatableWhen(svc: Service)
    ensures Translatable(svc) <==>
            forall p :: p in svc.policies ==>
              match FindListener(svc.listeners, p.listenerId)
              case None => false
              case Some(l) => !(LP.AnyRule(svc, l) && LP.BadPolicy(svc, l))
  {
    forall id
      ensures BuildPolicy(svc, id).Ok? <==>
              match FindListener(svc.listeners, id)
              case None => false
              case Some(l) => !(LP.AnyRule(svc, l) && LP.BadPolicy(svc, l))
    {
      LP.BuildingRaises(svc, id);
    }
  }

  // ----- An error for one listener keeps another's wrapper policy

  /** The service when an L7 create error has marked all its policies. */
  function PoliciesMarked(svc: Service): Service {
    svc.(policies := AllPoliciesInError(svc.policies))
  }

  lemma MarkedRefers(svc: Service, l: Listener, p: L7.L7Policy)
    ensures LP.RefersTo(svc, l, p) ==> LP.RefersTo(PoliciesMarked(svc), l, p.(status := Error))
    ensures LP.RefersTo(PoliciesMarked(svc), l, p) ==>
              p.status == Error && exists o :: LP.RefersTo(svc, l, o) && p == o.(status := Error)
  {
    var ps, qs := svc.policies, PoliciesMarked(svc).policies;
    forall i, k: nat | 0 <= i < |l.l7Policies|
      ensures L7.PolicyAt(ps, l.l7Policies[i], k) <==> L7.PolicyAt(qs, l.l7Policies[i], k)
      ensures k < |ps| ==> qs[k] == ps[k].(status := Error)
    {
      SamePolicyAt(ps, qs, l.l7Policies[i], k);
    }
    if LP.RefersTo(svc, l, p) {
      var i, k: nat :| 0 <= i < |l.l7Policies| && L7.PolicyAt(ps, l.l7Policies[i], k) && p == ps[k];
      assert L7.PolicyAt(qs, l.l7Policies[i], k);
    }
    if LP.RefersTo(PoliciesMarked(svc), l, p) {
      var i, k: nat :| 0 <= i < |l.l7Policies| && L7.PolicyAt(qs, l.l7Policies[i], k) && p == qs[k];
      assert LP.RefersTo(svc, l, ps[k]);
    }
  }

  /** A policy of the listener that is being deleted, but up and with a live rule. */
  ghost predicate Revivable(svc: Service, l: Listener) {
    exists p :: LP.RefersTo(svc, l, p) && p.status == PendingDelete && p.adminStateUp && Laws.HasLiveRule(p, svc.rules)
  }

  lemma SameRulesLive(p: L7.L7Policy, q: L7.L7Policy, rules: seq<L7.L7Rule>)
    requires p.rules == q.rules && Laws.HasLiveRule(p, rules)
    ensures Laws.HasLiveRule(q, rules)
  {
  }

  lemma LiveStaysLive(svc: Service, l: Listener)
    requires LP.LiveIn(svc, l) || Revivable(svc, l)
    ensures LP.LiveIn(PoliciesMarked(svc), l)
  {
    var p :| LP.RefersTo(svc, l, p) && p.adminStateUp && Laws.HasLiveRule(p, svc.rules);
    MarkedRefers(svc, l, p);
    var q := p.(status := Error);
    SameRulesLive(p, q, svc.rules);
    assert L7.LivePolicy(q);
  }

  lemma LiveWasLive(svc: Service, l: Listener)
    requires LP.LiveIn(PoliciesMarked(svc), l)
    ensures LP.LiveIn(svc, l) || Revivable(svc, l)
  {
    var q :| LP.RefersTo(PoliciesMarked(svc), l, q) && q.adminStateUp && Laws.HasLiveRule(q, svc.rules);
    MarkedRefers(svc, l, q);
    var p :| LP.RefersTo(svc, l, p) && q == p.(status := Error);
    assert p.adminStateUp == q.adminStateUp && p.rules == q.rules;
    SameRulesLive(q, p, svc.rules);
  }

  lemma LiveWhenMarked(svc: Service, l: Listener)
    ensures LP.LiveIn(PoliciesMarked(svc), l) <==> LP.LiveIn(svc, l) || Revivable(svc, l)
  {
    if LP.LiveIn(svc, l) || Revivable(svc, l) {
      LiveStaysLive(svc, l);
    }
    if LP.LiveIn(PoliciesMarked(svc), l) {
      LiveWasLive(svc, l);
    }
  }

  /** The policies that the create stages leave are all marked, or all as they were. */
  lemma CreatesMarkPolicies(svc: Service, c: CreateReport, id: Id)
    ensures BuildPolicy(AfterCreates(svc, c), id) ==
            BuildPolicy(if true in c.policyErrors then PoliciesMarked(svc) else svc, id)
  {
    LP.SamePolicyBuilt(AfterCreates(svc, c), if true in c.policyErrors then PoliciesMarked(svc) else svc, id);
  }

  lemma NothingReferredMarked(svc: Service, l: Listener)
    ensures PoliciesOf(PoliciesMarked(svc), l) == [] <==> PoliciesOf(svc, l) == []
  {
    var ps, qs := PoliciesOf(svc, l), PoliciesOf(PoliciesMarked(svc), l);
    if ps != [] {
      LP.GatheredAre(svc, l, ps[0]);
      MarkedRefers(svc, l, ps[0]);
      LP.GatheredAre(PoliciesMarked(svc), l, ps[0].(status := Error));
    }
    if qs != [] {
      LP.GatheredAre(PoliciesMarked(svc), l, qs[0]);
      MarkedRefers(svc, l, qs[0]);
      var o :| LP.RefersTo(svc, l, o) && qs[0] == o.(status := Error);
      LP.GatheredAre(svc, l, o);
    }
  }

  /** A wrapper policy without rules is still without rules in the delete stage, unless an
      L7 create error has revived a policy of its listener. */
  lemma BuiltLateIs(svc: Service, id: Id, rep: Report)
    requires PolicyFor(svc, id) == Wrapper([]) && BuildPolicy(AfterCreates(svc, rep.creates), id).Ok?
    ensures FindListener(svc.listeners, id).Some?
    ensures BuiltLate(svc, id, rep) != Wrapper([]) <==>
            true in rep.creates.policyErrors && Revivable(svc, FindListener(svc.listeners, id).value)
  {
    CreatesMarkPolicies(svc, rep.creates, id);
    if true in rep.creates.policyErrors {
      var l, m := FindListener(svc.listeners, id).value, PoliciesMarked(svc);
      LP.RulesWhenLive(svc, id);
      LP.RulesWhenLive(m, id);
      LiveWhenMarked(svc, l);
      NothingReferredMarked(svc, l);
    }
  }

  /** A wrapper policy that a pass without errors deletes is left alone, on every device,
      exactly when the pass noticed an L7 create error (which is another listener's) and the
      listener has a policy that is being deleted, but up and with a live rule, or when the
      marked policies cannot be translated any more.  Otherwise it is gone from every device
      that the delete reached. */
  lemma ErrorKeepsWrapper(svc: Service, sync: bool, order: seq<Id>, before: seq<Device>, rep: Report, raised: bool,
                          after: seq<Device>, d: nat, k: nat)
    requires Pass(svc, sync, order, before, rep, raised, after) && PlanResult.DistinctIds(svc, order)
    requires k < |order| && d < |after| && PolicyFor(svc, order[k]) == Wrapper([])
    requires Translatable(svc) && IterationOrder(svc, order)
    ensures FindListener(svc.listeners, order[k]).Some?
    ensures k < |rep.creates.policyErrors| && !rep.creates.policyErrors[k]
    ensures var kept := || !Translatable(AfterCreates(svc, rep.creates))
                        || (true in rep.creates.policyErrors &&
                            Revivable(svc, FindListener(svc.listeners, order[k]).value));
            if kept then Agree(WrapperObj(svc, order[k]), before[d], after[d])
            else |rep.deletes.policies| == |order| &&
                 (!Missed(rep.deletes.policies[k], d) ==> WrapperObj(svc, order[k]) !in after[d])
  {
    var id := order[k];
    StoppedEarlyIs(svc, rep);
    EmptyWrapperEnds(svc, sync, order, before, rep, raised, after, d, k);
    OwnErrorNot(svc, sync, order, before, rep, raised, k);
    if Translatable(AfterCreates(svc, rep.creates)) {
      CreatesKeepOrder(svc, order, rep.creates);
      assert id in ListenersOf(AfterCreates(svc, rep.creates).policies);
      BuiltLateIs(svc, id, rep);
    }
  }

  lemma OwnErrorNot(svc: Service, sync: bool, order: seq<Id>, before: seq<Device>, rep: Report, raised: bool, k: nat)
    requires PassReport(svc, sync, order, before, rep, raised) && Translatable(svc)
    requires k < |order| && WrapperRules(svc, order[k]) == []
    ensures k < |rep.creates.policyErrors| && !rep.creates.policyErrors[k]
  {
    var c := rep.creates;
    StoppedEarlyIs(svc, rep);
    FirstKeepsBuilt(svc, c);
    var es := PolicyEntries(AfterPools(svc, c), order);
    assert RowFits(es[k], CreateStage, c.policies[k], |before|);
    assert c.policyErrors[k] <==> Unmasked(es[k].obj, c.policies[k], before);
  }

  // ----- Clean passes in a row

  /** A synchronisation in which no call fails refines the plan. */
  lemma SyncIsPlan(svc: Service, order: seq<Id>, setup: Setup, before: seq<Device>, rep: Report, raised: bool,
                   after: seq<Device>)
    requires Handling(svc, true, order, setup, false, before, rep, raised, after) && Reached(setup, false) && Clean(rep)
    ensures CleanPass(svc, true, order, before, raised, after)
    ensures (!setup.postFails || raised) && Reports(svc, setup, false) ==>
              SyncEnd(svc, order, setup, rep, raised) == SettledService(svc, false)
  {
    assert Prepared(svc, setup) == svc;
    PassIsPlan(svc, true, order, before, rep, raised, after);
  }

  lemma SettledKeepsReferences(svc: Service)
    ensures var s := SettledService(svc, false);
            && (forall p: Pool :: MonitorRef(s, p) == MonitorRef(svc, p))
            && (forall l: Listener :: PoolRef(s, l) == PoolRef(svc, l))
            && (forall id :: PolicyFor(s, id) == PolicyFor(svc, id))
  {
    var s := SettledService(svc, false);
    SameReferences(s, svc);
    forall id
      ensures PolicyFor(s, id) == PolicyFor(svc, id)
    {
      LP.SamePolicyBuilt(s, svc, id);
    }
  }

  lemma SettledEntries(svc: Service, order: seq<Id>)
    ensures var s := SettledService(svc, false);
            && Attached(s, order) == Attached(svc, order)
            && MonitorEntries(s, true) == MonitorEntries(svc, true) && PoolEntries(s, true) == PoolEntries(svc, true)
            && PolicyEntries(s, order) == PolicyEntries(svc, order)
  {
    var s := SettledService(svc, false);
    SettledKeepsReferences(svc);
    assert Attached(s, order) == Attached(svc, order);
    assert MonitorEntries(s, true) == MonitorEntries(svc, true);
    forall i | 0 <= i < |svc.pools|
      ensures PoolEntry(s, true, s.pools[i]) == PoolEntry(svc, true, svc.pools[i])
    {
      assert MonitorRef(s, svc.pools[i]) == MonitorRef(svc, svc.pools[i]);
    }
    assert PoolEntries(s, true) == PoolEntries(svc, true);
    assert PolicyEntries(s, order) == PolicyEntries(svc, order);
  }

  lemma SettledVirtuals(svc: Service, f5: F5Policies)
    ensures VirtualEntries(SettledService(svc, false), true, f5) == VirtualEntries(svc, true, f5)
  {
    var s := SettledService(svc, false);
    SettledKeepsReferences(svc);
    forall i | 0 <= i < |svc.listeners|
      ensures VirtualEntry(s, true, f5, s.listeners[i]) == VirtualEntry(svc, true, f5, svc.listeners[i])
    {
      assert PoolRef(s, svc.listeners[i]) == PoolRef(svc, svc.listeners[i]);
    }
  }

  /** Settling the statuses does not change the calls. */
  lemma NextPassSamePlan(svc: Service, order: seq<Id>)
    ensures Plan(SettledService(svc, false), true, order) == Plan(svc, true, order)
  {
    SettledEntries(svc, order);
    SettledVirtuals(svc, Attached(svc, order));
  }

  /** Once a service is synchronised and its statuses are settled, synchronising it again
      changes nothing. */
  lemma SecondPassChangesNothing(svc: Service, order: seq<Id>, d: Device)
    ensures var s, once := SettledService(svc, false), ExecAll(PlanOn(svc, true, order, d), d);
            ExecAll(PlanOn(s, true, order, once), once) == once
  {
    var s, once := SettledService(svc, false), ExecAll(PlanOn(svc, true, order, d), d);
    PlanResult.PlanOnEnds(svc, true, order, d);
    PlanResult.PlanOnEnds(s, true, order, once);
    NextPassSamePlan(svc, order);
    PlanResult.Idempotence(svc, true, order, d);
  }
}
