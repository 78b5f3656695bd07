/** The builder that assures a service on all devices, stage by stage, under failing calls.

    Every stage states, for any pattern of failures, which calls each device executed and how
    the statuses of the service were rewritten. */
module LbaasBuilder {
  import opened Lbaas
  import opened AssurePlan
  import opened BuilderStages
  import PlanResult
  import L7 = L7Policy

  /** Answer of a device to one request; `Conflict` is HTTP 409. */
  datatype Reply = Done | Conflict | HttpError | OtherError

  class LBaaSBuilder {
    var service: Service
    /** `f5_policy` of the listeners. */
    var f5: F5Policies
    var toSync: bool
    /** Configuration of the devices. */
    var devices: seq<Device>
    /** The calls that each device executed, from its configuration `start`. */
    ghost var log: seq<seq<Op>>
    ghost var start: seq<Device>

    ghost predicate Valid()
      reads this
    {
      && |log| == |devices| == |start|
      && forall d :: 0 <= d < |devices| ==> devices[d] == ExecAll(log[d], start[d])
    }

    constructor (service: Service, devices: seq<Device>)
      ensures Valid() && this.service == service && this.devices == devices && !toSync && f5 == map[]
      ensures |log| == |devices| && forall d :: 0 <= d < |devices| ==> log[d] == []
    {
      this.service := service;
      this.devices := devices;
      start := devices;
      log := seq(|devices|, _ => []);
      toSync := false;
      f5 := map[];
    }

    // ----- Requests to one device; any of them may fail and then changes nothing

    method Apply(d: nat, op: Op)
      requires Valid() && d < |devices|
      modifies this`devices, this`log
      ensures Valid()
      ensures devices == old(devices)[d := Exec(op, old(devices)[d])]
      ensures log == old(log)[d := old(log)[d] + [op]]
    {
      PlanResult.OneCall(log[d], op, start[d]);
      devices := devices[d := Exec(op, devices[d])];
      log := log[d := log[d] + [op]];
    }

    method Create(d: nat, o: Obj, v: Value) returns (reply: Reply)
      requires Valid() && d < |devices|
      modifies this`devices, this`log
      ensures Valid()
      ensures reply.Conflict? ==> o in old(devices)[d]
      ensures reply.Done? ==> o !in old(devices)[d]
      ensures devices == old(devices)[d := if reply.Done? then Exec(Put(o, v), old(devices)[d]) else old(devices)[d]]
      ensures log == old(log)[d := if reply.Done? then old(log)[d] + [Put(o, v)] else old(log)[d]]
    {
      var answer: Reply := *;
      if o in devices[d] {
        reply := if answer.Done? then Conflict else answer;
      } else {
        reply := if answer.Conflict? then HttpError else answer;
      }
      if reply.Done? {
        Apply(d, Put(o, v));
      }
    }

    method Update(d: nat, o: Obj, v: Value) returns (reply: Reply)
      requires Valid() && d < |devices|
      modifies this`devices, this`log
      ensures Valid() && !reply.Conflict?
      ensures reply.Done? ==> o in old(devices)[d]
      ensures devices == old(devices)[d := if reply.Done? then Exec(Put(o, v), old(devices)[d]) else old(devices)[d]]
      ensures log == old(log)[d := if reply.Done? then old(log)[d] + [Put(o, v)] else old(log)[d]]
    {
      var answer: Reply := *;
      reply := if o !in devices[d] || answer.Conflict? then HttpError else answer;
      if reply.Done? {
        Apply(d, Put(o, v));
      }
    }

    /** Deleting an object that is not there succeeds. */
    method Remove(d: nat, o: Obj) returns (reply: Reply)
      requires Valid() && d < |devices|
      modifies this`devices, this`log
      ensures Valid()
      ensures devices == old(devices)[d := if reply.Done? then Exec(Delete(o), old(devices)[d]) else old(devices)[d]]
      ensures log == old(log)[d := if reply.Done? then old(log)[d] + [Delete(o)] else old(log)[d]]
    {
      reply := *;
      if reply.Done? {
        Apply(d, Delete(o));
      }
    }

    // ----- One call to all devices

    /** The loop of `create_pool`, `create_healthmonitor` and `create_listener`. */
    method CreateOnAll(o: Obj, v: Value) returns (row: Row, error: bool)
      requires Valid()
      modifies this`devices, this`log
      ensures Valid() && Called(Put(o, v), row, old(log), log)
      ensures error <==> true in row
    {
      row, error := [], false;
      for d := 0 to |devices|
        invariant Valid() && |devices| == |old(devices)| && |row| == d
        invariant CalledTo(d, Put(o, v), row, old(log), log)
        invariant error <==> true in row
      {
        ghost var mid := log;
        var failed := false;
        var reply := Create(d, o, v);
        if reply.Conflict? {
          var updated := Update(d, o, v);
          failed := !updated.Done?;
        } else {
          failed := !reply.Done?;
        }
        error := error || failed;
        CalledNext(d, Put(o, v), row, failed, old(log), mid, log);
        row := row + [failed];
      }
    }

    /** The loop of `delete_pool`, `delete_healthmonitor`, `delete_listener` and
        `delete_l7policy`. */
    method DeleteOnAll(o: Obj) returns (row: Row, error: bool)
      requires Valid()
      modifies this`devices, this`log
      ensures Valid() && Called(Delete(o), row, old(log), log)
      ensures error <==> true in row
    {
      row, error := [], false;
      for d := 0 to |devices|
        invariant Valid() && |devices| == |old(devices)| && |row| == d
        invariant CalledTo(d, Delete(o), row, old(log), log)
        invariant error <==> true in row
      {
        ghost var mid := log;
        var reply := Remove(d, o);
        error := error || !reply.Done?;
        CalledNext(d, Delete(o), row, !reply.Done?, old(log), mid, log);
        row := row + [!reply.Done?];
      }
    }

    /** `create_l7policy` on one device, given the error so far. */
    method AssureL7Policy(d: nat, o: Obj, v: Value, before: bool) returns (failed: bool, error: bool)
      requires Valid() && d < |devices|
      modifies this`devices, this`log
      ensures Valid()
      ensures devices == old(devices)[d := if failed then old(devices)[d] else Exec(Put(o, v), old(devices)[d])]
      ensures log == old(log)[d := if failed then old(log)[d] else old(log)[d] + [Put(o, v)]]
      ensures error <==> failed || (before && o in old(devices)[d])
    {
      failed, error := false, before;
      var reply := Create(d, o, v);
      if reply.Done? {
        error := false;
      } else if reply.Conflict? {
        var updated := Update(d, o, v);
        failed := !updated.Done?;
        error := error || failed;
      } else {
        failed, error := true, true;
      }
    }

    /** `create_l7policy` forgets an error when a later device creates the policy. */
    method CreateL7Policy(o: Obj, v: Value) returns (row: Row, error: bool)
      requires Valid()
      modifies this`devices, this`log
      ensures Valid() && Called(Put(o, v), row, old(log), log)
      ensures error <==> Unmasked(o, row, old(devices))
      ensures OnlyAt(o, old(devices), devices)
    {
      row, error := [], false;
      for d := 0 to |devices|
        invariant Valid() && |devices| == |old(devices)| && |row| == d
        invariant CalledTo(d, Put(o, v), row, old(log), log)
        invariant SameFrom(d, old(devices), devices)
        invariant error <==> Unmasked(o, row, old(devices))
        invariant forall k, x :: 0 <= k < d && x != o ==> (x in devices[k] <==> x in old(devices)[k])
      {
        assert devices[d] == old(devices)[d];
        ghost var was, mid := row, log;
        var failed;
        failed, error := AssureL7Policy(d, o, v, error);
        CalledNext(d, Put(o, v), row, failed, old(log), mid, log);
        row := row + [failed];
        UnmaskedNext(o, was, failed, old(devices), d);
      }
    }

    // ----- Load balancer

    /** A request that only reads may fail too. */
    method Answers() returns (ok: bool)
    {
      ok := *;
    }

    /** `VirtualAddress.create`: an HTTP error is swallowed; after a conflict the object that is
        there is loaded and kept. */
    method CreateAddress(d: nat, o: Obj, v: Value) returns (reply: Reply, end: AddressEnd)
      requires Valid() && d < |devices|
      modifies this`devices, this`log
      ensures Valid()
      ensures end.Assured? <==> reply.Done?
      ensures (reply.HttpError? ==> end.Swallowed?) && (reply.OtherError? ==> end.Failed?)
      ensures (reply.Conflict? ==> o in old(devices)[d]) && (reply.Done? ==> o !in old(devices)[d])
      ensures devices == old(devices)[d := if reply.Done? then Exec(Put(o, v), old(devices)[d]) else old(devices)[d]]
      ensures log == old(log)[d := if reply.Done? then old(log)[d] + [Put(o, v)] else old(log)[d]]
    {
      reply := Create(d, o, v);
      match reply {
        case Done => end := Assured;
        case Conflict =>
          var loaded := Answers();
          end := if loaded then Swallowed else Failed;
        case HttpError => end := Swallowed;
        case OtherError => end := Failed;
      }
    }

    /** `VirtualAddress.update`: an object with another address is deleted, the outcome of which
        is ignored, and created again. */
    method UpdateAddress(d: nat, o: Obj, v: Value) returns (x: AddressOutcome)
      requires Valid() && d < |devices| && o in devices[d]
      modifies this`devices, this`log
      ensures Valid() && OutcomeFits(o, v, old(devices)[d], x)
      ensures devices == old(devices)[d := ExecAll(OutcomeCalls(o, v, x), old(devices)[d])]
      ensures log == old(log)[d := old(log)[d] + OutcomeCalls(o, v, x)]
    {
      var was := devices[d];
      TwoCalls(Delete(o), Put(o, v), was);
      TwoAdded(log[d], Delete(o), Put(o, v));
      NoCalls(log[d]);
      var loaded := Answers();
      if !loaded {
        return AddressOutcome(false, Failed);
      }
      if devices[d][o] == v {
        var reply := Update(d, o, v);
        return AddressOutcome(false, if reply.Done? then Assured else Failed);
      }
      var deleted := Remove(d, o);
      var reply, end := CreateAddress(d, o, v);
      x := AddressOutcome(deleted.Done?, end);
    }

    /** `VirtualAddress.assure` on one device. */
    method AssureAddress(d: nat, o: Obj, v: Value) returns (x: AddressOutcome)
      requires Valid() && d < |devices|
      modifies this`devices, this`log
      ensures Valid() && OutcomeFits(o, v, old(devices)[d], x)
      ensures devices == old(devices)[d := ExecAll(OutcomeCalls(o, v, x), old(devices)[d])]
      ensures log == old(log)[d := old(log)[d] + OutcomeCalls(o, v, x)]
    {
      TwoCalls(Delete(o), Put(o, v), devices[d]);
      NoCalls(log[d]);
      var answered := Answers();
      if !answered {
        return AddressOutcome(false, Failed);
      }
      if o in devices[d] {
        x := UpdateAddress(d, o, v);
      } else {
        var reply, end := CreateAddress(d, o, v);
        x := AddressOutcome(false, end);
      }
    }

    /** The loop over the devices; an exception puts the load balancer in error. */
    method AssureAddresses(o: Obj, v: Value) returns (outs: seq<AddressOutcome>, error: bool)
      requires Valid()
      modifies this`service, this`devices, this`log
      ensures Valid() && |log| == |old(log)| && OutcomesFit(o, v, old(devices), outs)
      ensures service == MarkLoadBalancer(old(service), error) && (error <==> AnyFailed(outs))
      ensures forall d: nat {:trigger log[d]} :: d < |log| ==> log[d] == old(log)[d] + AddressIssued(o, v, outs, d)
    {
      outs, error := [], false;
      for d := 0 to |devices|
        invariant Valid() && |devices| == |old(devices)| && |outs| == d
        invariant SameFrom(d, old(devices), devices)
        invariant AddressedTo(d, o, v, outs, old(devices), old(log), log)
        invariant service == MarkLoadBalancer(old(service), error) && (error <==> AnyFailed(outs))
      {
        assert devices[d] == old(devices)[d];
        ghost var mid := log;
        var x := AssureAddress(d, o, v);
        AddressedNext(d, o, v, outs, x, old(devices), old(log), mid, log);
        AnyFailedNext(outs, x);
        outs := outs + [x];
        if x.end.Failed? {
          service := service.(lbStatus := Error);
          error := true;
        }
      }
    }

    method AssureLoadbalancerCreated() returns (outs: seq<AddressOutcome>, error: bool)
      requires Valid()
      modifies this`service, this`devices, this`log
      ensures Valid() && |log| == |old(log)|
      ensures service == MarkLoadBalancer(old(service), error) && (error <==> AnyFailed(outs))
      ensures if Acts(toSync, old(service).lbStatus)
              then OutcomesFit(AddressEntry(old(service), toSync).obj, AddressValue(old(service).vip), old(devices),
                               outs)
              else outs == []
      ensures forall d: nat {:trigger log[d]} :: d < |log| ==>
                log[d] == old(log)[d] +
                          AddressIssued(AddressEntry(old(service), toSync).obj, AddressValue(old(service).vip), outs, d)
    {
      outs, error := [], false;
      if Acts(toSync, service.lbStatus) {
        outs, error := AssureAddresses(AddressEntry(service, toSync).obj, AddressValue(service.vip));
      }
    }

    /** A failing delete raises: later devices are not called, and no status is set. */
    method AssureLoadbalancerDeleted() returns (row: Row, raised: bool)
      requires Valid()
      modifies this`devices, this`log
      ensures Valid()
      ensures OneRan(AddressEntry(service, toSync), DeleteStage, row, old(log), log)
      ensures raised <==> true in row
      ensures forall i, j :: 0 <= i < j < |row| && row[i] ==> row[j]
    {
      var e := AddressEntry(service, toSync);
      row, raised := [], false;
      if service.lbStatus == PendingDelete {
        for d := 0 to |devices|
          invariant Valid() && |devices| == |old(devices)| && |row| == d
          invariant CalledTo(d, Delete(e.obj), row, old(log), log)
          invariant raised <==> true in row
          invariant forall i, j :: 0 <= i < j < |row| && row[i] ==> row[j]
          invariant raised ==> d > 0 && row[d - 1]
        {
          ghost var mid := log;
          if !raised {
            var reply := Remove(d, e.obj);
            raised := !reply.Done?;
          }
          CalledNext(d, Delete(e.obj), row, raised, old(log), mid, log);
          row := row + [raised];
        }
        CalledIsRan(e, DeleteStage, row, Delete(e.obj), old(log), log);
      }
    }

    // ----- Monitors

    method AssureMonitorCreated(i: nat) returns (row: Row)
      requires Valid() && i < |service.monitors|
      modifies this`service, this`devices, this`log
      ensures Valid()
      ensures var s := old(service);
              service == if true in row then s.(monitors := s.monitors[i := MonitorInError(s.monitors[i])]) else s
      ensures OneRan(MonitorEntry(old(service), toSync, old(service).monitors[i]), CreateStage, row, old(log), log)
    {
      ghost var e := MonitorEntry(service, toSync, service.monitors[i]);
      var m := service.monitors[i];
      row := [];
      if Acts(toSync, m.status) {
        var error;
        row, error := CreateOnAll(Obj(MonitorKind, Name(service.folder, m.id)), MonitorValue);
        CalledIsRan(e, CreateStage, row, Put(e.obj, e.value), old(log), log);
        if error {
          service := service.(monitors := service.monitors[i := m.(status := Error)]);
        }
      }
    }

    method AssureMonitorsCreated() returns (rows: seq<Row>)
      requires Valid()
      modifies this`service, this`devices, this`log
      ensures Valid()
      ensures |rows| == |old(service).monitors|
      ensures service == MarkMonitors(old(service), rows)
      ensures Ran(MonitorEntries(old(service), toSync), CreateStage, rows, old(log), log)
    {
      rows := [];
      ghost var es := MonitorEntries(service, toSync);
      MarkedClean(service.monitors, rows, MonitorInError);
      for i := 0 to |service.monitors|
        invariant Valid() && |rows| == i
        invariant service == MarkMonitors(old(service), rows)
        invariant Ran(es, CreateStage, rows, old(log), log)
      {
        ghost var mid := log;
        MarkedNext(old(service).monitors, rows, [], MonitorInError);
        var row := AssureMonitorCreated(i);
        RanNext(es, CreateStage, rows, row, old(log), mid, log);
        MarkedNext(old(service).monitors, rows, row, MonitorInError);
        rows := rows + [row];
      }
    }

    method AssureMonitorDeleted(i: nat) returns (row: Row)
      requires Valid() && i < |service.monitors|
      modifies this`service, this`devices, this`log
      ensures Valid()
      ensures var s := old(service);
              service == if true in row then s.(monitors := s.monitors[i := MonitorInError(s.monitors[i])]) else s
      ensures OneRan(MonitorEntry(old(service), toSync, old(service).monitors[i]), DeleteStage, row, old(log), log)
    {
      ghost var e := MonitorEntry(service, toSync, service.monitors[i]);
      var m := service.monitors[i];
      row := [];
      if m.status == PendingDelete {
        var error;
        row, error := DeleteOnAll(Obj(MonitorKind, Name(service.folder, m.id)));
        CalledIsRan(e, DeleteStage, row, Delete(e.obj), old(log), log);
        if error {
          service := service.(monitors := service.monitors[i := m.(status := Error)]);
        }
      }
    }

    method AssureMonitorsDeleted() returns (rows: seq<Row>)
      requires Valid()
      modifies this`service, this`devices, this`log
      ensures Valid()
      ensures |rows| == |old(service).monitors|
      ensures service == MarkMonitors(old(service), rows)
      ensures Ran(MonitorEntries(old(service), toSync), DeleteStage, rows, old(log), log)
    {
      rows := [];
      ghost var es := MonitorEntries(service, toSync);
      MarkedClean(service.monitors, rows, MonitorInError);
      for i := 0 to |service.monitors|
        invariant Valid() && |rows| == i
        invariant service == MarkMonitors(old(service), rows)
        invariant Ran(es, DeleteStage, rows, old(log), log)
      {
        ghost var mid := log;
        MarkedNext(old(service).monitors, rows, [], MonitorInError);
        var row := AssureMonitorDeleted(i);
        RanNext(es, DeleteStage, rows, row, old(log), mid, log);
        MarkedNext(old(service).monitors, rows, row, MonitorInError);
        rows := rows + [row];
      }
    }

    // ----- Pools

    method AssurePoolCreated(i: nat) returns (row: Row)
      requires Valid() && i < |service.pools|
      modifies this`service, this`devices, this`log
      ensures Valid()
      ensures var s := old(service);
              service == if true in row then s.(pools := s.pools[i := PoolInError(s.pools[i])],
                                                lbStatus := Error) else s
      ensures OneRan(PoolEntry(old(service), toSync, old(service).pools[i]), CreateStage, row, old(log), log)
    {
      ghost var e := PoolEntry(service, toSync, service.pools[i]);
      var p := service.pools[i];
      row := [];
      if Acts(toSync, p.status) {
        var error;
        row, error := CreateOnAll(Obj(PoolKind, Name(service.folder, p.id)), PoolValue(MonitorRef(service, p)));
        CalledIsRan(e, CreateStage, row, Put(e.obj, e.value), old(log), log);
        if error {
          service := service.(pools := service.pools[i := p.(status := Error)], lbStatus := Error);
        }
      }
    }

    method AssurePoolsCreated() returns (rows: seq<Row>)
      requires Valid()
      modifies this`service, this`devices, this`log
      ensures Valid()
      ensures |rows| == |old(service).pools|
      ensures service == MarkLoadBalancer(MarkPools(old(service), rows), AnyReported(rows))
      ensures Ran(PoolEntries(old(service), toSync), CreateStage, rows, old(log), log)
    {
      rows := [];
      ghost var es := PoolEntries(service, toSync);
      MarkedClean(service.pools, rows, PoolInError);
      for i := 0 to |service.pools|
        invariant Valid() && |rows| == i
        invariant service == MarkLoadBalancer(MarkPools(old(service), rows), AnyReported(rows))
        invariant Ran(es, CreateStage, rows, old(log), log)
      {
        ghost var mid := log;
        MarkedNext(old(service).pools, rows, [], PoolInError);
        var row := AssurePoolCreated(i);
        RanNext(es, CreateStage, rows, row, old(log), mid, log);
        MarkedNext(old(service).pools, rows, row, PoolInError);
        AnyReportedNext(rows, row);
        rows := rows + [row];
      }
    }

    method AssurePoolDeleted(i: nat) returns (row: Row)
      requires Valid() && i < |service.pools|
      modifies this`service, this`devices, this`log
      ensures Valid()
      ensures var s := old(service);
              service == if true in row then s.(pools := s.pools[i := PoolInError(s.pools[i])]) else s
      ensures OneRan(PoolEntry(old(service), toSync, old(service).pools[i]), DeleteStage, row, old(log), log)
    {
      ghost var e := PoolEntry(service, toSync, service.pools[i]);
      var p := service.pools[i];
      row := [];
      if p.status == PendingDelete {
        var error;
        row, error := DeleteOnAll(Obj(PoolKind, Name(service.folder, p.id)));
        CalledIsRan(e, DeleteStage, row, Delete(e.obj), old(log), log);
        if error {
          service := service.(pools := service.pools[i := p.(status := Error)]);
        }
      }
    }

    method AssurePoolsDeleted() returns (rows: seq<Row>)
      requires Valid()
      modifies this`service, this`devices, this`log
      ensures Valid()
      ensures |rows| == |old(service).pools|
      ensures service == MarkPools(old(service), rows)
      ensures Ran(PoolEntries(old(service), toSync), DeleteStage, rows, old(log), log)
    {
      rows := [];
      ghost var es := PoolEntries(service, toSync);
      MarkedClean(service.pools, rows, PoolInError);
      for i := 0 to |service.pools|
        invariant Valid() && |rows| == i
        invariant service == MarkPools(old(service), rows)
        invariant Ran(es, DeleteStage, rows, old(log), log)
      {
        ghost var mid := log;
        MarkedNext(old(service).pools, rows, [], PoolInError);
        var row := AssurePoolDeleted(i);
        RanNext(es, DeleteStage, rows, row, old(log), mid, log);
        MarkedNext(old(service).pools, rows, row, PoolInError);
        rows := rows + [row];
      }
    }

    // ----- Listeners

    method AssureListenerCreated(i: nat) returns (row: Row)
      requires Valid() && i < |service.listeners|
      modifies this`service, this`devices, this`log
      ensures Valid()
      ensures var s := old(service);
              service == if true in row then s.(listeners := s.listeners[i := ListenerInError(s.listeners[i])],
                                                lbStatus := Error) else s
      ensures OneRan(VirtualEntry(old(service), toSync, f5, old(service).listeners[i]), CreateStage, row, old(log), log)
    {
      ghost var e := VirtualEntry(service, toSync, f5, service.listeners[i]);
      var l := service.listeners[i];
      row := [];
      if Acts(toSync, l.status) {
        var error;
        row, error := CreateOnAll(Obj(VirtualKind, Name(service.folder, l.id)), VirtualOf(service, l, f5));
        CalledIsRan(e, CreateStage, row, Put(e.obj, e.value), old(log), log);
        if error {
          service := service.(listeners := service.listeners[i := l.(status := Error)], lbStatus := Error);
        }
      }
    }

    method AssureListenersCreated() returns (rows: seq<Row>)
      requires Valid()
      modifies this`service, this`devices, this`log
      ensures Valid()
      ensures |rows| == |old(service).listeners|
      ensures service == MarkLoadBalancer(MarkListeners(old(service), rows), AnyReported(rows))
      ensures Ran(VirtualEntries(old(service), toSync, f5), CreateStage, rows, old(log), log)
    {
      rows := [];
      ghost var es := VirtualEntries(service, toSync, f5);
      MarkedClean(service.listeners, rows, ListenerInError);
      for i := 0 to |service.listeners|
        invariant Valid() && |rows| == i
        invariant service == MarkLoadBalancer(MarkListeners(old(service), rows), AnyReported(rows))
        invariant Ran(es, CreateStage, rows, old(log), log)
      {
        ghost var mid := log;
        MarkedNext(old(service).listeners, rows, [], ListenerInError);
        var row := AssureListenerCreated(i);
        RanNext(es, CreateStage, rows, row, old(log), mid, log);
        MarkedNext(old(service).listeners, rows, row, ListenerInError);
        AnyReportedNext(rows, row);
        rows := rows + [row];
      }
    }

    method AssureListenerDeleted(i: nat) returns (row: Row)
      requires Valid() && i < |service.listeners|
      modifies this`service, this`devices, this`log
      ensures Valid()
      ensures var s := old(service);
              service == if true in row then s.(listeners := s.listeners[i := ListenerInError(s.listeners[i])]) else s
      ensures OneRan(VirtualEntry(old(service), toSync, f5, old(service).listeners[i]), DeleteStage, row, old(log), log)
    {
      ghost var e := VirtualEntry(service, toSync, f5, service.listeners[i]);
      var l := service.listeners[i];
      row := [];
      if l.status == PendingDelete {
        var error;
        row, error := DeleteOnAll(Obj(VirtualKind, Name(service.folder, l.id)));
        CalledIsRan(e, DeleteStage, row, Delete(e.obj), old(log), log);
        if error {
          service := service.(listeners := service.listeners[i := l.(status := Error)]);
        }
      }
    }

    method AssureListenersDeleted() returns (rows: seq<Row>)
      requires Valid()
      modifies this`service, this`devices, this`log
      ensures Valid()
      ensures |rows| == |old(service).listeners|
      ensures service == MarkListeners(old(service), rows)
      ensures Ran(VirtualEntries(old(service), toSync, f5), DeleteStage, rows, old(log), log)
    {
      rows := [];
      ghost var es := VirtualEntries(service, toSync, f5);
      MarkedClean(service.listeners, rows, ListenerInError);
      for i := 0 to |service.listeners|
        invariant Valid() && |rows| == i
        invariant service == MarkListeners(old(service), rows)
        invariant Ran(es, DeleteStage, rows, old(log), log)
      {
        ghost var mid := log;
        MarkedNext(old(service).listeners, rows, [], ListenerInError);
        var row := AssureListenerDeleted(i);
        RanNext(es, DeleteStage, rows, row, old(log), mid, log);
        MarkedNext(old(service).listeners, rows, row, ListenerInError);
        rows := rows + [row];
      }
    }

    // ----- L7 policies

    /** `build_policy`. */
    method BuildPolicyOf(listener: Id) returns (out: L7.Outcome<F5Policy>)
      ensures out == BuildPolicy(service, listener)
    {
      var found := FindListener(service.listeners, listener);
      if found.None? {
        return L7.Crash;
      }
      var refs := found.value.l7Policies;
      var policies: seq<L7.L7Policy> := [];
      var rules: seq<L7.L7Rule> := [];
      for i := 0 to |refs|
        invariant policies == Referenced(refs[..i], service.policies)
        invariant rules == RulesOf(policies, service.rules)
      {
        PrefixOfReferenced(refs, service.policies, i);
        var policy := L7.FindPolicy(service.policies, refs[i]);
        if policy.Some? {
          var ids := policy.value.rules;
          var mine: seq<L7.L7Rule> := [];
          for j := 0 to |ids|
            invariant mine == ReferencedRules(ids[..j], service.rules)
          {
            assert ids[..j + 1][..j] == ids[..j];
            var rule := L7.FindRule(service.rules, ids[j]);
            if rule.Some? {
              mine := mine + [rule.value];
            }
          }
          assert ids[..|ids|] == ids;
          assert (policies + [policy.value])[..|policies|] == policies;
          policies := policies + [policy.value];
          rules := rules + mine;
        }
      }
      assert refs[..|refs|] == refs;
      if policies == [] {
        return L7.Ok(NoPolicy);
      }
      var translated := L7.TranslateService(policies, rules, service.folder);
      match translated {
        case Ok(rs) => return L7.Ok(Wrapper(rs));
        case Crash => return L7.Crash;
        case NoActionFound => return L7.NoActionFound;
      }
    }

    /** The dictionary of wrapper policies; `None` when an exception escapes. */
    method BuildPolicies(ghost order: seq<Id>) returns (built: Option<F5Policies>)
      requires IterationOrder(service, order)
      ensures built.Some? <==> Translatable(service)
      ensures built.Some? ==> BuiltFrom(service, order, built.value)
    {
      var done: F5Policies := map[];
      for i := 0 to |service.policies|
        invariant done.Keys == ListenersOf(service.policies[..i])
        invariant forall id :: id in done ==> done[id] == PolicyFor(service, id)
        invariant forall p :: p in service.policies[..i] ==> BuildPolicy(service, p.listenerId).Ok?
      {
        var id := service.policies[i].listenerId;
        assert service.policies[..i + 1] == service.policies[..i] + [service.policies[i]];
        if id in done {
          assert exists p :: p in service.policies[..i] && p.listenerId == id;
          continue;
        }
        var policy := BuildPolicyOf(id);
        if !policy.Ok? {
          assert service.policies[i] in service.policies;
          return None;
        }
        done := done[id := policy.value];
      }
      assert service.policies[..|service.policies|] == service.policies;
      return Some(done);
    }

    /** One listener of the create stage. */
    method AssureWrapperPolicy(id: Id, policy: F5Policy) returns (row: Row, error: bool)
      requires Valid()
      modifies this`service, this`f5, this`devices, this`log
      ensures Valid()
      ensures service == MarkPolicies(old(service), error)
      ensures f5 == if error then old(f5) else old(f5)[id := policy]
      ensures var e := PolicyEntryOf(old(service).folder, id, policy);
              && OneRan(e, CreateStage, row, old(log), log)
              && (error <==> Unmasked(e.obj, row, old(devices)))
              && OnlyAt(e.obj, old(devices), devices)
    {
      ghost var e := PolicyEntryOf(service.folder, id, policy);
      row, error := [], false;
      if RulesIn(policy) != [] {
        row, error := CreateL7Policy(Obj(PolicyKind, WrapperName(service.folder, id)), PolicyValue(RulesIn(policy)));
        CalledIsRan(e, CreateStage, row, Put(e.obj, e.value), old(log), log);
      }
      if error {
        service := service.(policies := AllPoliciesInError(service.policies), lbStatus := Error);
      } else {
        f5 := f5[id := policy];
      }
    }

    /** The loop of the create stage over the dictionary of wrapper policies. */
    method AssureWrapperPolicies(order: seq<Id>, built: F5Policies) returns (rows: seq<Row>, errors: seq<bool>)
      requires Valid() && IterationOrder(service, order) && f5 == map[] && BuiltFrom(service, order, built)
      modifies this`service, this`f5, this`devices, this`log
      ensures Valid()
      ensures |rows| == |errors| == |order| && service == MarkPolicies(old(service), true in errors)
      ensures f5 == AttachedBut(old(service), order, errors)
      ensures Ran(PolicyEntries(old(service), order), CreateStage, rows, old(log), log)
      ensures NoticedExactly(PolicyEntries(old(service), order), rows, errors, old(devices))
    {
      rows, errors := [], [];
      ghost var es := PolicyEntries(service, order);
      for i := 0 to |order|
        invariant Valid() && |rows| == |errors| == i && |devices| == |old(devices)|
        invariant service == MarkPolicies(old(service), true in errors)
        invariant f5 == AttachedBut(old(service), order, errors)
        invariant Ran(es, CreateStage, rows, old(log), log)
        invariant PresenceFrom(es, i, old(devices), devices)
        invariant NoticedExactly(es, rows, errors, old(devices))
      {
        ghost var mid, was := log, devices;
        var row, error := AssureWrapperPolicy(order[i], built[order[i]]);
        RanNext(es, CreateStage, rows, row, old(log), mid, log);
        NoticedNext(es, rows, row, errors, error, old(devices), was);
        OthersKeepPresence(old(service), order, i, old(devices), was, devices);
        MarkPoliciesTwice(old(service), true in errors, error);
        AttachedButNext(old(service), order, errors, error);
        rows, errors := rows + [row], errors + [error];
      }
    }

    method AssureL7PoliciesCreated(order: seq<Id>) returns (rows: seq<Row>, errors: seq<bool>, raised: bool)
      requires Valid() && IterationOrder(service, order) && f5 == map[]
      modifies this`service, this`f5, this`devices, this`log
      ensures Valid()
      ensures raised <==> !Translatable(old(service))
      ensures raised ==> rows == [] && errors == []
      ensures |errors| <= |order| && service == MarkPolicies(old(service), true in errors)
      ensures f5 == AttachedBut(old(service), order, errors)
      ensures Ran(PolicyEntries(old(service), order), CreateStage, rows, old(log), log)
      ensures !raised ==> |rows| == |order|
      ensures NoticedExactly(PolicyEntries(old(service), order), rows, errors, old(devices))
    {
      var built := BuildPolicies(order);
      if built.None? {
        return [], [], true;
      }
      rows, errors := AssureWrapperPolicies(order, built.value);
      raised := false;
    }

    /** One listener of the delete stage; an empty `f5_policy` has no name to delete by. */
    method CleanWrapperPolicy(id: Id, policy: F5Policy) returns (row: Row)
      requires Valid()
      modifies this`service, this`devices, this`log
      ensures Valid()
      ensures service == if true in row
                         then old(service).(policies := MarkReferenced(old(service).policies,
                                                                       PolicyRefs(old(service), id)))
                         else old(service)
      ensures OneRan(PolicyEntryOf(old(service).folder, id, policy), DeleteStage, row, old(log), log)
    {
      ghost var e := PolicyEntryOf(service.folder, id, policy);
      row := [];
      if policy == Wrapper([]) {
        var error;
        row, error := DeleteOnAll(Obj(PolicyKind, WrapperName(service.folder, id)));
        CalledIsRan(e, DeleteStage, row, Delete(e.obj), old(log), log);
        if error {
          service := service.(policies := MarkReferenced(service.policies, PolicyRefs(service, id)));
        }
      }
    }

    /** The loop of the delete stage over the dictionary of wrapper policies. */
    method CleanWrapperPolicies(order: seq<Id>, built: F5Policies) returns (rows: seq<Row>)
      requires Valid() && BuiltFrom(service, order, built)
      modifies this`service, this`devices, this`log
      ensures Valid()
      ensures |rows| == |order| && service == MarkDeleted(old(service), order, rows)
      ensures Ran(PolicyEntries(old(service), order), DeleteStage, rows, old(log), log)
    {
      rows := [];
      ghost var es := PolicyEntries(service, order);
      for i := 0 to |order|
        invariant Valid() && |rows| == i
        invariant service == MarkDeleted(old(service), order, rows)
        invariant service.folder == old(service).folder && service.listeners == old(service).listeners
        invariant Ran(es, DeleteStage, rows, old(log), log)
      {
        ghost var mid := log;
        var row := CleanWrapperPolicy(order[i], built[order[i]]);
        RanNext(es, DeleteStage, rows, row, old(log), mid, log);
        assert (rows + [row])[..i] == rows;
        rows := rows + [row];
      }
    }

    /** The delete stage: first the legacy policy, whose errors are ignored. */
    method AssureL7PoliciesDeleted(order: seq<Id>)
      returns (legacy: seq<Row>, rows: seq<Row>, raised: bool, ghost mid: seq<seq<Op>>)
      requires Valid() && IterationOrder(service, order)
      modifies this`service, this`devices, this`log
      ensures Valid()
      ensures raised <==> !Translatable(old(service))
      ensures raised ==> legacy == [] && rows == []
      ensures !raised ==> |legacy| == 1 && |rows| == |order|
      ensures |rows| <= |order| && service == MarkDeleted(old(service), order, rows)
      ensures Ran([LegacyEntry(old(service))], DeleteStage, legacy, old(log), mid)
      ensures Ran(PolicyEntries(old(service), order), DeleteStage, rows, mid, log)
    {
      var built := BuildPolicies(order);
      if built.None? {
        return [], [], true, log;
      }
      raised := false;
      var e := LegacyEntry(service);
      var row, ignored := DeleteOnAll(e.obj);
      CalledIsRan(e, DeleteStage, row, Delete(e.obj), old(log), log);
      RanNext([e], DeleteStage, [], row, old(log), old(log), log);
      assert [] + [row] == [row];
      legacy, mid := [row], log;
      rows := CleanWrapperPolicies(order, built.value);
    }

    // ----- The whole pass

    /** The load balancer, monitors and pools. */
    method AssureUpToPools() returns (c: CreateReport)
      requires Valid()
      modifies this`service, this`devices, this`log
      ensures Valid() && |log| == |old(log)|
      ensures service == AfterPools(old(service), c) && FirstPass(old(service), toSync, old(devices), c)
      ensures c.policies == [] && c.policyErrors == [] && c.listeners == []
      ensures forall d: nat {:trigger log[d]} :: d < |log| ==>
                log[d] == old(log)[d] + FirstIssued(old(service), toSync, c, d)
    {
      ghost var s0, l0 := service, log;
      var outs, error := AssureLoadbalancerCreated();
      ghost var s1, l1 := service, log;
      var monitors := AssureMonitorsCreated();
      ghost var s2, l2 := service, log;
      var pools := AssurePoolsCreated();
      c := CreateReport(error, outs, monitors, pools, [], [], []);
      AddressAndTwo(AddressEntry(s0, toSync).obj, AddressValue(s0.vip), outs, MonitorEntries(s1, toSync), monitors,
                    PoolEntries(s2, toSync), pools, CreateStage, l0, l1, l2, log);
    }

    /** The L7 policies and listeners, given what the first stages report. */
    method AssureFromPolicies(order: seq<Id>, ghost svc: Service, first: CreateReport)
      returns (c: CreateReport, raised: bool)
      requires Valid() && service == AfterPools(svc, first) && IterationOrder(service, order) && f5 == map[]
      requires |svc.listeners| == |service.listeners|
      modifies this`service, this`f5, this`devices, this`log
      ensures Valid() && |log| == |old(log)|
      ensures c == first.(policies := c.policies, policyErrors := c.policyErrors, listeners := c.listeners)
      ensures LaterRows(svc, order, c) && LaterPass(svc, toSync, order, old(devices), c, raised)
      ensures service == AfterCreates(svc, c) && f5 == F5Of(svc, order, c)
      ensures forall d: nat {:trigger log[d]} :: d < |log| ==>
                log[d] == old(log)[d] + LaterIssued(svc, toSync, order, c, d)
    {
      ghost var s0, l0 := service, log;
      var policies, errors, stopped := AssureL7PoliciesCreated(order);
      ghost var s1, l1 := service, log;
      var listeners: seq<Row> := [];
      raised := stopped;
      if !stopped {
        listeners := AssureListenersCreated();
      } else {
        MarkedClean(service.listeners, listeners, ListenerInError);
      }
      c := first.(policies := policies, policyErrors := errors, listeners := listeners);
      TwoStages(PolicyEntries(s0, order), policies, VirtualEntries(s1, toSync, f5), listeners, CreateStage, l0, l1,
                log);
    }

    /** The virtual servers and L7 policies to delete. */
    method AssureFrontDeleted(order: seq<Id>) returns (r: DeleteReport, raised: bool)
      requires Valid() && IterationOrder(service, order)
      modifies this`service, this`devices, this`log
      ensures Valid() && |log| == |old(log)| && r.pools == r.monitors == r.address == []
      ensures |r.policies| <= |order| && service == AfterPoliciesGone(old(service), order, r)
      ensures FrontPass(old(service), toSync, order, f5, |log|, r, raised)
      ensures forall d: nat {:trigger log[d]} :: d < |log| ==>
                log[d] == old(log)[d] + FrontDeleted(old(service), toSync, order, f5, r, d)
    {
      ghost var s0, l0 := service, log;
      var listeners := AssureListenersDeleted();
      ghost var s1, l1 := service, log;
      var legacy, policies;
      ghost var mid;
      legacy, policies, raised, mid := AssureL7PoliciesDeleted(order);
      r := DeleteReport(listeners, legacy, policies, [], [], []);
      ThreeStages(VirtualEntries(s0, toSync, f5), listeners, [LegacyEntry(s1)], legacy, PolicyEntries(s1, order),
                  policies,
                  DeleteStage, l0, l1, mid, log);
    }

    /** The pools, monitors and the load balancer to delete. */
    method AssureBackDeleted(front: DeleteReport) returns (r: DeleteReport, raised: bool)
      requires Valid()
      modifies this`service, this`devices, this`log
      ensures Valid() && |log| == |old(log)|
      ensures r == front.(pools := r.pools, monitors := r.monitors, address := r.address)
      ensures service == MarkMonitors(MarkPools(old(service), r.pools), r.monitors)
      ensures BackPass(old(service), toSync, |log|, r, raised)
      ensures forall d: nat {:trigger log[d]} :: d < |log| ==>
                log[d] == old(log)[d] + BackDeleted(old(service), toSync, r, d)
    {
      ghost var s0, l0 := service, log;
      var pools := AssurePoolsDeleted();
      ghost var s1, l1 := service, log;
      var monitors := AssureMonitorsDeleted();
      ghost var s2, l2 := service, log;
      var row;
      row, raised := AssureLoadbalancerDeleted();
      ghost var a := [AddressEntry(s2, toSync)];
      RanNext(a, DeleteStage, [], row, l2, l2, log);
      assert [] + [row] == [row];
      r := front.(pools := pools, monitors := monitors, address := [row]);
      ThreeStages(PoolEntries(s0, toSync), pools, MonitorEntries(s1, toSync), monitors, a, [row], DeleteStage, l0, l1,
                  l2, log);
    }

    /** The create stages. */
    method AssureCreated(order: seq<Id>) returns (c: CreateReport, raised: bool)
      requires Valid() && IterationOrder(service, order) && f5 == map[]
      modifies this`service, this`f5, this`devices, this`log
      ensures Valid() && |log| == |old(log)|
      ensures FirstPass(old(service), toSync, old(devices), c) && LaterRows(old(service), order, c)
      ensures LaterPass(old(service), toSync, order, old(devices), c, raised)
      ensures service == AfterCreates(old(service), c) && f5 == F5Of(old(service), order, c)
      ensures forall d: nat {:trigger log[d]} :: d < |log| ==>
                log[d] == old(log)[d] + (FirstIssued(old(service), toSync, c, d) +
                                         LaterIssued(old(service), toSync, order, c, d))
    {
      ghost var s0, l0, d0 := service, log, devices;
      var first := AssureUpToPools();
      ghost var l1, d1 := log, devices;
      FirstKeepsOrder(s0, order, first);
      FirstRuns(s0, toSync, first, l0, l1, start, d0, d1);
      c, raised := AssureFromPolicies(order, s0, first);
      SameFirst(s0, toSync, first, c, d0);
      FirstKeepsPolicies(s0, toSync, c, order, d0, d1);
      CreatesJoined(s0, toSync, order, first, c, l0, l1, log);
    }

    /** The delete stages. */
    method AssureDeleted(order: seq<Id>) returns (r: DeleteReport, raised: bool)
      requires Valid() && IterationOrder(service, order)
      modifies this`service, this`devices, this`log
      ensures Valid() && |log| == |old(log)| && DeleteRows(old(service), order, r)
      ensures DeletePass(old(service), toSync, order, f5, |log|, r, raised)
      ensures service == AfterDeletes(old(service), order, r)
      ensures forall d: nat {:trigger log[d]} :: d < |log| ==>
                log[d] == old(log)[d] + DeleteIssued(old(service), toSync, order, f5, r, d)
    {
      ghost var s0, l0 := service, log;
      var front, stopped := AssureFrontDeleted(order);
      ghost var q, l1 := service, log;
      r, raised := front, true;
      if stopped {
        NothingBack(q, toSync, r);
      } else {
        r, raised := AssureBackDeleted(front);
      }
      SameCounts(s0, order, r);
      DeletesJoined(s0, toSync, order, f5, front, r, l0, l1, log);
    }

    /** The stages of `assure_service`, in terms of the calls that devices executed. */
    method AssureStages(order: seq<Id>) returns (rep: Report, raised: bool)
      requires Valid() && IterationOrder(service, order) && f5 == map[]
      modifies this`service, this`f5, this`devices, this`log
      ensures Valid() && |log| == |old(log)|
      ensures PassReport(old(service), toSync, order, old(devices), rep, raised)
      ensures service == Outcome(old(service), order, rep)
      ensures forall d: nat {:trigger log[d]} :: d < |log| ==>
                log[d] == old(log)[d] + PassIssued(old(service), toSync, order, rep, d)
    {
      ghost var s0, l0, d0 := service, log, devices;
      var creates, stopped := AssureCreated(order);
      ghost var l1 := log;
      CreatesKeepOrder(s0, order, creates);
      if stopped {
        rep, raised := Report(creates, NoDeletes), true;
        ReportWhenStopped(s0, toSync, order, d0, creates);
        StoppedLogs(s0, toSync, order, creates, log);
      } else {
        var deletes;
        deletes, raised := AssureDeleted(order);
        rep := Report(creates, deletes);
        ReportWhenNotStopped(s0, toSync, order, d0, creates, deletes, raised);
      }
      AllIssued(s0, toSync, order, rep, l0, l1, log);
    }

    /** `assure_service` without the members: one pass under any failures. */
    method AssureService(order: seq<Id>) returns (rep: Report, raised: bool)
      requires Valid() && IterationOrder(service, order) && f5 == map[]
      modifies this`service, this`f5, this`devices, this`log
      ensures Valid()
      ensures Pass(old(service), toSync, order, old(devices), rep, raised, devices)
      ensures service == Outcome(old(service), order, rep)
    {
      ghost var s0, l0, d0 := service, log, devices;
      rep, raised := AssureStages(order);
      PassRuns(s0, toSync, order, d0, rep, raised, l0, log, start, devices);
    }
  }
}
