/** Handling one service and reporting its statuses: what statuses may do under failures. */
module IcontrolDriver {
  import opened Lbaas
  import opened AssurePlan
  import opened BuilderStages
  import opened LbaasBuilder
  import L7 = L7Policy

  // ----- Around the builder

  datatype Preparation = Ready | NotReady | Failed

  /** How the steps around the builder end: tenant folder, network preparation, network
      teardown, and the cleanup of the tenant of a load balancer being deleted. */
  datatype Setup = Setup(tenantFails: bool, prep: Preparation, postFails: bool, cleanupFails: bool)

  /** The builder is reached. */
  predicate Reached(setup: Setup, deleteEvent: bool) {
    !setup.tenantFails && (setup.prep.Ready? || deleteEvent)
  }

  /** A step around the builder puts the load balancer in error, unless it is being deleted. */
  predicate SetupError(setup: Setup, deleteEvent: bool, raised: bool) {
    setup.tenantFails || setup.prep.Failed? || (Reached(setup, deleteEvent) && !raised && setup.postFails)
  }

  /** An exception escapes the handler of a load balancer being deleted: the final cleanup is
      handed the subnet hints, which exist only if the builder is reached, and may raise. */
  predicate Escapes(svc: Service, setup: Setup, deleteEvent: bool) {
    svc.lbStatus == PendingDelete && (!Reached(setup, deleteEvent) || setup.cleanupFails)
  }

  /** The handler leaves the statuses to be reported: networks that are not ready defer it. */
  predicate UpdatesStatus(setup: Setup, deleteEvent: bool) {
    setup.tenantFails || !setup.prep.NotReady? || deleteEvent
  }

  /** The statuses are reported to Neutron. */
  predicate Reports(svc: Service, setup: Setup, deleteEvent: bool) {
    UpdatesStatus(setup, deleteEvent) && !Escapes(svc, setup, deleteEvent)
  }

  /** The service that the builder is given. */
  function Prepared(svc: Service, setup: Setup): Service {
    MarkLoadBalancer(svc, (setup.tenantFails || setup.prep.Failed?) && svc.lbStatus != PendingDelete)
  }

  /** The service when `_common_service_handler` is over. */
  function Handled(svc: Service, order: seq<Id>, setup: Setup, deleteEvent: bool, rep: Report, raised: bool): Service
    requires |rep.deletes.policies| <= |order|
  {
    if Reached(setup, deleteEvent)
    then MarkLoadBalancer(Outcome(Prepared(svc, setup), order, rep),
                          setup.postFails && !raised && svc.lbStatus != PendingDelete)
    else Prepared(svc, setup)
  }

  /** One handled service: what the builder did, if it was reached. */
  ghost predicate Handling(svc: Service, sync: bool, order: seq<Id>, setup: Setup, deleteEvent: bool,
                           before: seq<Device>, rep: Report, raised: bool, after: seq<Device>)
  {
    && |rep.deletes.policies| <= |order|
    && if Reached(setup, deleteEvent) then Pass(Prepared(svc, setup), sync, order, before, rep, raised, after)
       else rep == NoReport && !raised && after == before
  }

  // ----- Reports to Neutron

  datatype What = LoadBalancer | Listeners | Pools | Monitors | Rules | Policies

  datatype Rpc = Updated(what: What, id: Id, status: Status) | Destroyed(what: What, id: Id)

  datatype Item = Item(id: Id, status: Status)

  predicate Pending(s: Status) {
    s == PendingCreate || s == PendingUpdate
  }

  function Settled(s: Status): Status {
    if Pending(s) then Active else s
  }

  function Message(what: What, x: Item): seq<Rpc> {
    match x.status
    case PendingCreate => [Updated(what, x.id, Active)]
    case PendingUpdate => [Updated(what, x.id, Active)]
    case PendingDelete => [Destroyed(what, x.id)]
    case Error => [Updated(what, x.id, Error)]
    case Active => []
  }

  function Messages(what: What, xs: seq<Item>): seq<Rpc> {
    if xs == [] then [] else Messages(what, xs[..|xs| - 1]) + Message(what, xs[|xs| - 1])
  }

  function ItemsOf<T>(xs: seq<T>, item: T -> Item): (r: seq<Item>)
    ensures |r| == |xs| && forall i :: 0 <= i < |xs| ==> r[i] == item(xs[i])
  {
    seq(|xs|, i requires 0 <= i < |xs| => item(xs[i]))
  }

  function MonitorItem(m: Monitor): Item {
    Item(m.id, m.status)
  }

  function PoolItem(p: Pool): Item {
    Item(p.id, p.status)
  }

  function ListenerItem(l: Listener): Item {
    Item(l.id, l.status)
  }

  function RuleItem(r: L7.L7Rule): Item {
    Item(r.id, r.status)
  }

  function PolicyItem(p: L7.L7Policy): Item {
    Item(p.id, p.status)
  }

  lemma MessagesNext(what: What, xs: seq<Item>, i: nat)
    requires i < |xs|
    ensures Messages(what, xs[..i + 1]) == Messages(what, xs[..i]) + Message(what, xs[i])
  {
    assert xs[..i + 1][..i] == xs[..i];
  }

  /** The first `k` objects with their statuses settled. */
  function SettledTo<T>(xs: seq<T>, k: nat, settle: T -> T): (r: seq<T>)
    ensures |r| == |xs| && forall i :: 0 <= i < |xs| ==> r[i] == if i < k then settle(xs[i]) else xs[i]
  {
    seq(|xs|, i requires 0 <= i < |xs| => if i < k then settle(xs[i]) else xs[i])
  }

  lemma SettledNext<T>(xs: seq<T>, i: nat, settle: T -> T)
    requires i < |xs|
    ensures var was := SettledTo(xs, i, settle);
            was[i] == xs[i] && SettledTo(xs, 0, settle) == xs && SettledTo(xs, i + 1, settle) == was[i := settle(xs[i])]
  {
  }

  function MonitorSettled(m: Monitor): Monitor {
    m.(status := Settled(m.status))
  }

  function PoolSettled(p: Pool): Pool {
    p.(status := Settled(p.status))
  }

  function ListenerSettled(l: Listener): Listener {
    l.(status := Settled(l.status))
  }

  /** A load balancer still being created when the time is over is put in error. */
  function SettledLb(s: Status, timedOut: bool): Status {
    if timedOut && s == PendingCreate then Error else Settled(s)
  }

  function SettledTree(svc: Service): Service {
    svc.(monitors := SettledTo(svc.monitors, |svc.monitors|, MonitorSettled),
         pools := SettledTo(svc.pools, |svc.pools|, PoolSettled),
         listeners := SettledTo(svc.listeners, |svc.listeners|, ListenerSettled))
  }

  function TreeMessages(svc: Service): seq<Rpc> {
    Messages(Monitors, ItemsOf(svc.monitors, MonitorItem)) + Messages(Pools, ItemsOf(svc.pools, PoolItem)) +
    Messages(Listeners, ItemsOf(svc.listeners, ListenerItem))
  }

  /** L7 policies and rules are reported but not rewritten. */
  function SettledService(svc: Service, timedOut: bool): Service {
    SettledTree(svc).(lbStatus := SettledLb(svc.lbStatus, timedOut))
  }

  function LbMessage(svc: Service, timedOut: bool): seq<Rpc> {
    Message(LoadBalancer, Item(svc.lbId, if timedOut && svc.lbStatus == PendingCreate then Error else svc.lbStatus))
  }

  function AllMessages(svc: Service, timedOut: bool): seq<Rpc> {
    TreeMessages(svc) + Messages(Rules, ItemsOf(svc.rules, RuleItem)) +
    Messages(Policies, ItemsOf(svc.policies, PolicyItem)) + LbMessage(svc, timedOut)
  }

  lemma SentInTurn(sent: seq<Rpc>, a: seq<Rpc>, b: seq<Rpc>, c: seq<Rpc>)
    ensures sent + a + b + c == sent + (a + b + c)
  {
  }

  lemma SentLast(sent: seq<Rpc>, a: seq<Rpc>, b: seq<Rpc>)
    ensures sent + a + b == sent + (a + b)
  {
  }

  lemma LbApart(svc: Service, timedOut: bool)
    ensures LbMessage(SettledTree(svc), timedOut) == LbMessage(svc, timedOut)
  {
  }

  // ----- What a synchronisation leaves and sends

  function SyncEnd(svc: Service, order: seq<Id>, setup: Setup, rep: Report, raised: bool): Service
    requires |rep.deletes.policies| <= |order|
  {
    var handled := Handled(svc, order, setup, false, rep, raised);
    if Reports(svc, setup, false) then SettledService(handled, false) else handled
  }

  function SyncSent(svc: Service, order: seq<Id>, setup: Setup, rep: Report, raised: bool): seq<Rpc>
    requires |rep.deletes.policies| <= |order|
  {
    if Reports(svc, setup, false) then AllMessages(Handled(svc, order, setup, false, rep, raised), false) else []
  }

  /** The load balancer is still pending exactly when the networks were not ready. */
  lemma StillPending(svc: Service, order: seq<Id>, setup: Setup, rep: Report, raised: bool)
    requires |rep.deletes.policies| <= |order| && !Escapes(svc, setup, false)
    ensures Pending(SyncEnd(svc, order, setup, rep, raised).lbStatus) <==>
            !UpdatesStatus(setup, false) && Pending(svc.lbStatus)
  {
  }

  // ----- The driver

  class IControlDriver {
    const builder: LBaaSBuilder
    var doServiceUpdate: bool
    /** Messages cast to Neutron. */
    var sent: seq<Rpc>

    constructor (builder: LBaaSBuilder)
      ensures this.builder == builder && sent == []
    {
      this.builder := builder;
      doServiceUpdate := true;
      sent := [];
    }

    /** The message for one object, by its status. */
    method Cast(what: What, x: Item)
      modifies this`sent
      ensures sent == old(sent) + Message(what, x)
    {
      if Pending(x.status) {
        sent := sent + [Updated(what, x.id, Active)];
      } else if x.status == PendingDelete {
        sent := sent + [Destroyed(what, x.id)];
      } else if x.status == Error {
        sent := sent + [Updated(what, x.id, Error)];
      }
    }

    method SettleMonitor(i: nat)
      requires i < |builder.service.monitors|
      modifies this`sent, builder`service
      ensures sent == old(sent) + Message(Monitors, MonitorItem(old(builder.service).monitors[i]))
      ensures var s := old(builder.service);
              builder.service == s.(monitors := s.monitors[i := MonitorSettled(s.monitors[i])])
    {
      var m := builder.service.monitors[i];
      Cast(Monitors, MonitorItem(m));
      if Pending(m.status) {
        builder.service := builder.service.(monitors := builder.service.monitors[i := m.(status := Active)]);
      } else {
        assert builder.service.monitors[i := m] == builder.service.monitors;
      }
    }

    method UpdateHealthMonitorStatus()
      modifies this`sent, builder`service
      ensures sent == old(sent) + Messages(Monitors, ItemsOf(old(builder.service).monitors, MonitorItem))
      ensures var s := old(builder.service);
              builder.service == s.(monitors := SettledTo(s.monitors, |s.monitors|, MonitorSettled))
    {
      ghost var s, xs := builder.service, ItemsOf(builder.service.monitors, MonitorItem);
      assert SettledTo(s.monitors, 0, MonitorSettled) == s.monitors;
      for i := 0 to |builder.service.monitors|
        invariant builder.service == s.(monitors := SettledTo(s.monitors, i, MonitorSettled))
        invariant sent == old(sent) + Messages(Monitors, xs[..i])
      {
        MessagesNext(Monitors, xs, i);
        SettledNext(s.monitors, i, MonitorSettled);
        SettleMonitor(i);
        SentLast(old(sent), Messages(Monitors, xs[..i]), Message(Monitors, xs[i]));
      }
      assert xs[..|xs|] == xs;
    }

    method SettlePool(i: nat)
      requires i < |builder.service.pools|
      modifies this`sent, builder`service
      ensures sent == old(sent) + Message(Pools, PoolItem(old(builder.service).pools[i]))
      ensures var s := old(builder.service);
              builder.service == s.(pools := s.pools[i := PoolSettled(s.pools[i])])
    {
      var p := builder.service.pools[i];
      Cast(Pools, PoolItem(p));
      if Pending(p.status) {
        builder.service := builder.service.(pools := builder.service.pools[i := p.(status := Active)]);
      } else {
        assert builder.service.pools[i := p] == builder.service.pools;
      }
    }

    method UpdatePoolStatus()
      modifies this`sent, builder`service
      ensures sent == old(sent) + Messages(Pools, ItemsOf(old(builder.service).pools, PoolItem))
      ensures var s := old(builder.service);
              builder.service == s.(pools := SettledTo(s.pools, |s.pools|, PoolSettled))
    {
      ghost var s, xs := builder.service, ItemsOf(builder.service.pools, PoolItem);
      assert SettledTo(s.pools, 0, PoolSettled) == s.pools;
      for i := 0 to |builder.service.pools|
        invariant builder.service == s.(pools := SettledTo(s.pools, i, PoolSettled))
        invariant sent == old(sent) + Messages(Pools, xs[..i])
      {
        MessagesNext(Pools, xs, i);
        SettledNext(s.pools, i, PoolSettled);
        SettlePool(i);
        SentLast(old(sent), Messages(Pools, xs[..i]), Message(Pools, xs[i]));
      }
      assert xs[..|xs|] == xs;
    }

    method SettleListener(i: nat)
      requires i < |builder.service.listeners|
      modifies this`sent, builder`service
      ensures sent == old(sent) + Message(Listeners, ListenerItem(old(builder.service).listeners[i]))
      ensures var s := old(builder.service);
              builder.service == s.(listeners := s.listeners[i := ListenerSettled(s.listeners[i])])
    {
      var l := builder.service.listeners[i];
      Cast(Listeners, ListenerItem(l));
      if Pending(l.status) {
        builder.service := builder.service.(listeners := builder.service.listeners[i := l.(status := Active)]);
      } else {
        assert builder.service.listeners[i := l] == builder.service.listeners;
      }
    }

    method UpdateListenerStatus()
      modifies this`sent, builder`service
      ensures sent == old(sent) + Messages(Listeners, ItemsOf(old(builder.service).listeners, ListenerItem))
      ensures var s := old(builder.service);
              builder.service == s.(listeners := SettledTo(s.listeners, |s.listeners|, ListenerSettled))
    {
      ghost var s, xs := builder.service, ItemsOf(builder.service.listeners, ListenerItem);
      assert SettledTo(s.listeners, 0, ListenerSettled) == s.listeners;
      for i := 0 to |builder.service.listeners|
        invariant builder.service == s.(listeners := SettledTo(s.listeners, i, ListenerSettled))
        invariant sent == old(sent) + Messages(Listeners, xs[..i])
      {
        MessagesNext(Listeners, xs, i);
        SettledNext(s.listeners, i, ListenerSettled);
        SettleListener(i);
        SentLast(old(sent), Messages(Listeners, xs[..i]), Message(Listeners, xs[i]));
      }
      assert xs[..|xs|] == xs;
    }

    /** `_update_l7rule_status` and `_update_l7policy_status`: messages only. */
    method ReportOnly(what: What, xs: seq<Item>)
      modifies this`sent
      ensures sent == old(sent) + Messages(what, xs)
    {
      for i := 0 to |xs|
        invariant sent == old(sent) + Messages(what, xs[..i])
      {
        MessagesNext(what, xs, i);
        Cast(what, xs[i]);
        SentLast(old(sent), Messages(what, xs[..i]), Message(what, xs[i]));
      }
      assert xs[..|xs|] == xs;
    }

    method UpdateLoadbalancerStatus(timedOut: bool)
      modifies this`sent, builder`service
      ensures sent == old(sent) + LbMessage(old(builder.service), timedOut)
      ensures var s := old(builder.service);
              builder.service == s.(lbStatus := SettledLb(s.lbStatus, timedOut))
    {
      var s := builder.service;
      if Pending(s.lbStatus) {
        var status := if timedOut && s.lbStatus == PendingCreate then Error else Active;
        builder.service := s.(lbStatus := status);
        sent := sent + [Updated(LoadBalancer, s.lbId, status)];
      } else if s.lbStatus == PendingDelete {
        sent := sent + [Destroyed(LoadBalancer, s.lbId)];
      } else if s.lbStatus == Error {
        sent := sent + [Updated(LoadBalancer, s.lbId, Error)];
      }
    }

    method UpdateTreeStatus()
      modifies this`sent, builder`service
      ensures builder.service == SettledTree(old(builder.service))
      ensures sent == old(sent) + TreeMessages(old(builder.service))
    {
      ghost var s := builder.service;
      UpdateHealthMonitorStatus();
      UpdatePoolStatus();
      UpdateListenerStatus();
      SentInTurn(old(sent), Messages(Monitors, ItemsOf(s.monitors, MonitorItem)),
                 Messages(Pools, ItemsOf(s.pools, PoolItem)),
                 Messages(Listeners, ItemsOf(s.listeners, ListenerItem)));
    }

    method UpdateServiceStatus(timedOut: bool)
      modifies this`sent, builder`service
      ensures builder.service == SettledService(old(builder.service), timedOut)
      ensures sent == old(sent) + AllMessages(old(builder.service), timedOut)
    {
      ghost var s, first := builder.service, sent;
      UpdateTreeStatus();
      ReportOnly(Rules, ItemsOf(builder.service.rules, RuleItem));
      ReportOnly(Policies, ItemsOf(builder.service.policies, PolicyItem));
      SentInTurn(first, TreeMessages(s), Messages(Rules, ItemsOf(s.rules, RuleItem)),
                 Messages(Policies, ItemsOf(s.policies, PolicyItem)));
      UpdateLoadbalancerStatus(timedOut);
      LbApart(s, timedOut);
      SentLast(first, TreeMessages(s) + Messages(Rules, ItemsOf(s.rules, RuleItem)) +
               Messages(Policies, ItemsOf(s.policies, PolicyItem)),
               LbMessage(s, timedOut));
    }

    /** Tenant folder and networks of the service; false when the builder is not reached. */
    method PrepareService(setup: Setup, deleteEvent: bool) returns (reached: bool)
      modifies this`doServiceUpdate, builder`service
      ensures reached <==> Reached(setup, deleteEvent)
      ensures doServiceUpdate <==> UpdatesStatus(setup, deleteEvent)
      ensures builder.service == Prepared(old(builder.service), setup)
    {
      doServiceUpdate := true;
      var deleting := builder.service.lbStatus == PendingDelete;
      if setup.tenantFails {
        if !deleting {
          builder.service := builder.service.(lbStatus := Error);
        }
        return false;
      }
      if setup.prep.NotReady? {
        if !deleteEvent {
          doServiceUpdate := false;
          return false;
        }
      } else if setup.prep.Failed? {
        if !deleting {
          builder.service := builder.service.(lbStatus := Error);
        }
        if !deleteEvent {
          return false;
        }
      }
      return true;
    }

    /** `_common_service_handler`; exceptions end here, except those of its final cleanup. */
    method CommonServiceHandler(svc: Service, order: seq<Id>, setup: Setup, deleteEvent: bool)
      returns (rep: Report, raised: bool, escaped: bool)
      requires builder.Valid() && IterationOrder(svc, order)
      modifies this`doServiceUpdate, builder`service, builder`f5, builder`devices, builder`log
      ensures builder.Valid()
      ensures doServiceUpdate <==> UpdatesStatus(setup, deleteEvent)
      ensures escaped <==> Escapes(svc, setup, deleteEvent)
      ensures Handling(svc, builder.toSync, order, setup, deleteEvent, old(builder.devices), rep, raised,
                       builder.devices)
      ensures builder.service == Handled(svc, order, setup, deleteEvent, rep, raised)
    {
      builder.service := svc;
      builder.f5 := map[];
      var deleting := builder.service.lbStatus == PendingDelete;
      var hints := PrepareService(setup, deleteEvent);
      if hints {
        rep, raised := builder.AssureService(order);
        if !raised && setup.postFails && !deleting {
          builder.service := builder.service.(lbStatus := Error);
        }
      } else {
        rep, raised := NoReport, false;
      }
      escaped := deleting && (!hints || setup.cleanupFails);
    }

    /** `sync`, once it has the latest definition of the service.  When an exception escapes the
        handler nothing is reported, and `toSync` stays set. */
    method Sync(latest: Service, order: seq<Id>, setup: Setup)
      returns (pending: bool, rep: Report, raised: bool, escaped: bool)
      requires builder.Valid() && IterationOrder(latest, order)
      modifies this, builder
      ensures builder.Valid() && builder.toSync == escaped == Escapes(latest, setup, false)
      ensures Handling(latest, true, order, setup, false, old(builder.devices), rep, raised, builder.devices)
      ensures builder.service == SyncEnd(latest, order, setup, rep, raised)
      ensures sent == old(sent) + SyncSent(latest, order, setup, rep, raised)
      ensures pending <==> !UpdatesStatus(setup, false) && Pending(latest.lbStatus)
    {
      builder.toSync := true;
      rep, raised, escaped := CommonServiceHandler(latest, order, setup, false);
      if escaped {
        return false, rep, raised, escaped;
      }
      builder.toSync := false;
      if doServiceUpdate {
        UpdateServiceStatus(false);
      }
      StillPending(latest, order, setup, rep, raised);
      pending := Pending(builder.service.lbStatus);
    }

    /** `create_listener`, `update_listener` and `delete_listener` with `_update_target`: the
        builder acts on whatever statuses `toSync` selects, which is not set here. */
    method ListenerEvent(svc: Service, order: seq<Id>, setup: Setup)
      returns (pending: bool, rep: Report, raised: bool, escaped: bool)
      requires builder.Valid() && IterationOrder(svc, order)
      modifies this, builder`service, builder`f5, builder`devices, builder`log
      ensures builder.Valid() && (escaped <==> Escapes(svc, setup, false))
      ensures Handling(svc, builder.toSync, order, setup, false, old(builder.devices), rep, raised, builder.devices)
      ensures var h := Handled(svc, order, setup, false, rep, raised);
              if Reports(svc, setup, false)
              then && builder.service == h.(listeners := SettledTo(h.listeners, |h.listeners|, ListenerSettled),
                                            lbStatus := SettledLb(h.lbStatus, false))
                   && sent == old(sent) + Messages(Listeners, ItemsOf(h.listeners, ListenerItem)) + LbMessage(h, false)
              else builder.service == h && sent == old(sent)
    {
      rep, raised, escaped := CommonServiceHandler(svc, order, setup, false);
      if escaped {
        return false, rep, raised, escaped;
      }
      if doServiceUpdate {
        UpdateListenerStatus();
        UpdateLoadbalancerStatus(false);
      }
      pending := Pending(builder.service.lbStatus);
    }
  }
}
