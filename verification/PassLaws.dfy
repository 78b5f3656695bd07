/** Where a pass leaves every object of the service on every device, whatever calls fail. */
module PassLaws {
  import opened Lbaas
  import opened AssurePlan
  import opened PlanResult
  import opened BuilderStages
  import LP = ListenerPolicies

  // ----- Calls as members of stages

  /** The stage made the call on device `d`. */
  ghost predicate InStage(es: seq<Entry>, stage: Stage, rows: seq<Row>, d: nat, op: Op) {
    exists i :: 0 <= i < |rows| && i < |es| && !Missed(rows[i], d) && op in Calls(es[i], stage)
  }

  lemma {:induction false} IssuedHas(es: seq<Entry>, stage: Stage, rows: seq<Row>, d: nat, op: Op)
    requires |rows| <= |es|
    ensures op in Issued(es, stage, rows, d) <==> InStage(es, stage, rows, d, op)
  {
    if rows != [] {
      var n := |rows| - 1;
      IssuedHas(es, stage, rows[..n], d, op);
      assert InStage(es, stage, rows, d, op) <==>
             InStage(es, stage, rows[..n], d, op) || (!Missed(rows[n], d) && op in Calls(es[n], stage));
    }
  }

  ghost predicate Created(svc: Service, sync: bool, order: seq<Id>, c: CreateReport, d: nat, op: Op)
    requires FirstRows(svc, c) && LaterRows(svc, order, c)
  {
    || op in AddressIssued(AddressEntry(svc, sync).obj, AddressValue(svc.vip), c.address, d)
    || InStage(MonitorEntries(AfterAddress(svc, c), sync), CreateStage, c.monitors, d, op)
    || InStage(PoolEntries(AfterMonitors(svc, c), sync), CreateStage, c.pools, d, op)
    || InStage(PolicyEntries(AfterPools(svc, c), order), CreateStage, c.policies, d, op)
    || InStage(VirtualEntries(AfterPolicies(svc, c), sync, F5Of(svc, order, c)), CreateStage, c.listeners, d, op)
  }

  ghost predicate Deleted(s: Service, sync: bool, order: seq<Id>, f5: F5Policies, r: DeleteReport, d: nat, op: Op)
    requires DeleteRows(s, order, r)
  {
    var v, q := AfterVirtualsGone(s, r), AfterPoliciesGone(s, order, r);
    || InStage(VirtualEntries(s, sync, f5), DeleteStage, r.listeners, d, op)
    || InStage([LegacyEntry(v)], DeleteStage, r.legacy, d, op)
    || InStage(PolicyEntries(v, order), DeleteStage, r.policies, d, op)
    || InStage(PoolEntries(q, sync), DeleteStage, r.pools, d, op)
    || InStage(MonitorEntries(MarkPools(q, r.pools), sync), DeleteStage, r.monitors, d, op)
    || InStage([AddressEntry(MarkMonitors(MarkPools(q, r.pools), r.monitors), sync)], DeleteStage, r.address, d, op)
  }

  lemma CreatedCalls(svc: Service, sync: bool, order: seq<Id>, c: CreateReport, d: nat, op: Op)
    requires FirstRows(svc, c) && LaterRows(svc, order, c)
    ensures op in FirstIssued(svc, sync, c, d) + LaterIssued(svc, sync, order, c, d) <==>
            Created(svc, sync, order, c, d, op)
  {
    IssuedHas(MonitorEntries(AfterAddress(svc, c), sync), CreateStage, c.monitors, d, op);
    IssuedHas(PoolEntries(AfterMonitors(svc, c), sync), CreateStage, c.pools, d, op);
    IssuedHas(PolicyEntries(AfterPools(svc, c), order), CreateStage, c.policies, d, op);
    IssuedHas(VirtualEntries(AfterPolicies(svc, c), sync, F5Of(svc, order, c)), CreateStage, c.listeners, d, op);
  }

  lemma DeletedCalls(s: Service, sync: bool, order: seq<Id>, f5: F5Policies, r: DeleteReport, d: nat, op: Op)
    requires DeleteRows(s, order, r)
    ensures op in DeleteIssued(s, sync, order, f5, r, d) <==> Deleted(s, sync, order, f5, r, d, op)
  {
    SameCounts(s, order, r);
    var v, q := AfterVirtualsGone(s, r), AfterPoliciesGone(s, order, r);
    IssuedHas(VirtualEntries(s, sync, f5), DeleteStage, r.listeners, d, op);
    IssuedHas([LegacyEntry(v)], DeleteStage, r.legacy, d, op);
    IssuedHas(PolicyEntries(v, order), DeleteStage, r.policies, d, op);
    IssuedHas(PoolEntries(q, sync), DeleteStage, r.pools, d, op);
    IssuedHas(MonitorEntries(MarkPools(q, r.pools), sync), DeleteStage, r.monitors, d, op);
    IssuedHas([AddressEntry(MarkMonitors(MarkPools(q, r.pools), r.monitors), sync)], DeleteStage, r.address, d, op);
  }

  lemma PassCalls(svc: Service, sync: bool, order: seq<Id>, rep: Report, d: nat, op: Op)
    requires FirstRows(svc, rep.creates) && LaterRows(svc, order, rep.creates)
    requires DeleteRows(AfterCreates(svc, rep.creates), order, rep.deletes)
    ensures op in PassIssued(svc, sync, order, rep, d) <==>
            || Created(svc, sync, order, rep.creates, d, op)
            || Deleted(AfterCreates(svc, rep.creates), sync, order, F5Of(svc, order, rep.creates), rep.deletes, d, op)
  {
    CreatedCalls(svc, sync, order, rep.creates, d, op);
    DeletedCalls(AfterCreates(svc, rep.creates), sync, order, F5Of(svc, order, rep.creates), rep.deletes, d, op);
  }

  // ----- Where an object ends, given the calls on it

  /** The calls on `o` are at most one kind of put and deletes. */
  ghost predicate History(ops: seq<Op>, o: Obj, put: bool, v: Value, del: bool) {
    forall op :: op in ops && op.obj == o <==> (put && op == Put(o, v)) || (del && op == Delete(o))
  }

  ghost predicate Agree(o: Obj, a: Device, b: Device) {
    (o in a <==> o in b) && (o in a && o in b ==> a[o] == b[o])
  }

  /** Present with the value, gone, or as before. */
  ghost predicate EndsAs(o: Obj, put: bool, v: Value, del: bool, before: Device, after: Device) {
    if put then o in after && after[o] == v
    else if del then o !in after
    else Agree(o, before, after)
  }

  lemma {:induction false} OnlyPuts(ops: seq<Op>, o: Obj, v: Value, d: Device)
    requires forall op :: op in ops && op.obj == o ==> op == Put(o, v)
    ensures if Put(o, v) in ops then o in ExecAll(ops, d) && ExecAll(ops, d)[o] == v else Agree(o, d, ExecAll(ops, d))
  {
    if ops != [] {
      var n := |ops| - 1;
      OnlyPuts(ops[..n], o, v, d);
      assert forall op :: op in ops <==> op in ops[..n] || op == ops[n];
    }
  }

  lemma {:induction false} OnlyDeletes(ops: seq<Op>, o: Obj, d: Device)
    requires forall op :: op in ops && op.obj == o ==> op == Delete(o)
    ensures if Delete(o) in ops then o !in ExecAll(ops, d) else Agree(o, d, ExecAll(ops, d))
  {
    if ops != [] {
      var n := |ops| - 1;
      OnlyDeletes(ops[..n], o, d);
      assert forall op :: op in ops <==> op in ops[..n] || op == ops[n];
    }
  }

  lemma HistoryDecides(ops: seq<Op>, o: Obj, put: bool, v: Value, del: bool, d: Device)
    requires History(ops, o, put, v, del) && !(put && del)
    ensures EndsAs(o, put, v, del, d, ExecAll(ops, d))
  {
    assert Put(o, v) in ops && Put(o, v).obj == o <==> put;
    assert Delete(o) in ops && Delete(o).obj == o <==> del;
    if del {
      OnlyDeletes(ops, o, d);
    } else {
      OnlyPuts(ops, o, v, d);
    }
  }

  // ----- References do not depend on the errors marked before

  /** Same ids, and the same objects being deleted. */
  ghost predicate SameLive(a: Service, b: Service) {
    && a.folder == b.folder && |a.monitors| == |b.monitors| && |a.pools| == |b.pools|
    && (forall i :: 0 <= i < |a.monitors| ==>
          a.monitors[i].id == b.monitors[i].id && (a.monitors[i].status == PendingDelete <==>
                                                   b.monitors[i].status == PendingDelete))
    && (forall i :: 0 <= i < |a.pools| ==>
          a.pools[i].id == b.pools[i].id && (a.pools[i].status == PendingDelete <==>
                                             b.pools[i].status == PendingDelete))
  }

  lemma {:induction false} SameMonitorFound(a: seq<Monitor>, b: seq<Monitor>, id: Id)
    requires |a| == |b|
    requires forall i :: 0 <= i < |a| ==>
               a[i].id == b[i].id && (a[i].status == PendingDelete <==> b[i].status == PendingDelete)
    ensures FindMonitor(a, id).Some? <==> FindMonitor(b, id).Some?
  {
    if a != [] {
      SameMonitorFound(a[1..], b[1..], id);
    }
  }

  lemma {:induction false} SamePoolFound(a: seq<Pool>, b: seq<Pool>, id: Id)
    requires |a| == |b|
    requires forall i :: 0 <= i < |a| ==>
               a[i].id == b[i].id && (a[i].status == PendingDelete <==> b[i].status == PendingDelete)
    ensures FindPool(a, id).Some? <==> FindPool(b, id).Some?
    ensures FindPool(a, id).Some? && FindPool(b, id).Some? ==>
              var x, y := FindPool(a, id).value, FindPool(b, id).value;
              x.id == y.id && (x.status == PendingDelete <==> y.status == PendingDelete)
  {
    if a != [] {
      SamePoolFound(a[1..], b[1..], id);
    }
  }

  lemma SameReferences(a: Service, b: Service)
    requires SameLive(a, b)
    ensures forall p: Pool :: MonitorRef(a, p) == MonitorRef(b, p)
    ensures forall l: Listener :: PoolRef(a, l) == PoolRef(b, l)
  {
    forall p: Pool
      ensures MonitorRef(a, p) == MonitorRef(b, p)
    {
      if p.monitorId.Some? {
        SameMonitorFound(a.monitors, b.monitors, p.monitorId.value);
      }
    }
    forall l: Listener
      ensures PoolRef(a, l) == PoolRef(b, l)
    {
      if l.defaultPoolId.Some? {
        SamePoolFound(a.pools, b.pools, l.defaultPoolId.value);
      }
    }
  }

  // ----- Rows belong to objects that the stage acts on

  lemma ReportedActs(es: seq<Entry>, stage: Stage, rows: seq<Row>, n: nat, i: nat)
    requires RowsFit(es, stage, rows, n) && Reported(rows, i)
    ensures i < |es| && Calls(es[i], stage) != []
  {
    assert RowFits(es[i], stage, rows[i], n);
  }

  /** Marking keeps what is being deleted. */
  lemma FirstKeepsLive(svc: Service, sync: bool, before: seq<Device>, c: CreateReport)
    requires FirstPass(svc, sync, before, c)
    ensures SameLive(svc, AfterMonitors(svc, c)) && SameLive(svc, AfterPools(svc, c))
    ensures forall i: nat :: Reported(c.monitors, i) ==> i < |svc.monitors| && Acts(sync, svc.monitors[i].status)
    ensures forall i: nat :: Reported(c.pools, i) ==> i < |svc.pools| && Acts(sync, svc.pools[i].status)
    ensures c.addressError ==> Acts(sync, svc.lbStatus)
  {
    var ms, ps := MonitorEntries(AfterAddress(svc, c), sync), PoolEntries(AfterMonitors(svc, c), sync);
    forall i: nat | Reported(c.monitors, i)
      ensures i < |svc.monitors| && Acts(sync, svc.monitors[i].status)
    {
      ReportedActs(ms, CreateStage, c.monitors, |before|, i);
    }
    forall i: nat | Reported(c.pools, i)
      ensures i < |svc.pools| && Acts(sync, svc.pools[i].status)
    {
      ReportedActs(ps, CreateStage, c.pools, |before|, i);
    }
  }

  lemma LaterActs(svc: Service, sync: bool, order: seq<Id>, before: seq<Device>, c: CreateReport, stopped: bool)
    requires LaterRows(svc, order, c) && LaterPass(svc, sync, order, before, c, stopped)
    ensures forall i: nat :: Reported(c.listeners, i) ==> i < |svc.listeners| && Acts(sync, svc.listeners[i].status)
  {
    var es := VirtualEntries(AfterPolicies(svc, c), sync, F5Of(svc, order, c));
    forall i: nat | Reported(c.listeners, i)
      ensures i < |svc.listeners| && Acts(sync, svc.listeners[i].status)
    {
      ReportedActs(es, CreateStage, c.listeners, |before|, i);
    }
  }

  /** The stages before do not change what is built for the listeners. */
  lemma FirstKeepsBuilt(svc: Service, c: CreateReport)
    ensures forall id :: BuildPolicy(AfterPools(svc, c), id) == BuildPolicy(svc, id)
    ensures Translatable(AfterPools(svc, c)) <==> Translatable(svc)
  {
    forall id
      ensures BuildPolicy(AfterPools(svc, c), id) == BuildPolicy(svc, id)
    {
      LP.SamePolicyBuilt(AfterPools(svc, c), svc, id);
    }
  }

  lemma VirtualsGoneKeepsBuilt(s: Service, r: DeleteReport)
    ensures forall id :: BuildPolicy(AfterVirtualsGone(s, r), id) == BuildPolicy(s, id)
    ensures Translatable(AfterVirtualsGone(s, r)) <==> Translatable(s)
  {
    forall id
      ensures BuildPolicy(AfterVirtualsGone(s, r), id) == BuildPolicy(s, id)
    {
      LP.SamePolicyBuilt(AfterVirtualsGone(s, r), s, id);
    }
  }

  /** Whether the create stages are left early is up to the service alone. */
  lemma StoppedEarlyIs(svc: Service, rep: Report)
    ensures StoppedEarly(svc, rep) <==> !Translatable(svc)
    ensures StoppedLate(svc, rep) <==> !Translatable(AfterCreates(svc, rep.creates))
  {
    FirstKeepsBuilt(svc, rep.creates);
    VirtualsGoneKeepsBuilt(AfterCreates(svc, rep.creates), rep.deletes);
  }

  // ----- Monitors

  function MonitorObj(svc: Service, i: nat): Obj
    requires i < |svc.monitors|
  {
    Obj(MonitorKind, Name(svc.folder, svc.monitors[i].id))
  }

  /** The put or delete of entry `i` is the only call of the stage on its object. */
  lemma OnlyItsEntry(es: seq<Entry>, stage: Stage, rows: seq<Row>, d: nat, op: Op, i: nat)
    requires i < |es| && DistinctObjects(es)
    ensures InStage(es, stage, rows, d, op) && op.obj == es[i].obj <==>
            i < |rows| && !Missed(rows[i], d) && op in Calls(es[i], stage)
  {
    if InStage(es, stage, rows, d, op) && op.obj == es[i].obj {
      var k :| 0 <= k < |rows| && k < |es| && !Missed(rows[k], d) && op in Calls(es[k], stage);
      assert es[k].obj == es[i].obj;
    }
  }

  lemma StageKind(es: seq<Entry>, stage: Stage, rows: seq<Row>, d: nat, op: Op, k: Kind)
    requires forall i :: 0 <= i < |es| ==> es[i].obj.kind == k
    ensures InStage(es, stage, rows, d, op) ==> op.obj.kind == k
  {
  }

  lemma CreatedByKind(svc: Service, sync: bool, order: seq<Id>, c: CreateReport, d: nat, op: Op)
    requires FirstRows(svc, c) && LaterRows(svc, order, c)
    ensures Created(svc, sync, order, c, d, op) <==>
            match op.obj.kind
            case AddressKind => op in AddressIssued(AddressEntry(svc, sync).obj, AddressValue(svc.vip), c.address, d)
            case MonitorKind => InStage(MonitorEntries(AfterAddress(svc, c), sync), CreateStage, c.monitors, d, op)
            case PoolKind => InStage(PoolEntries(AfterMonitors(svc, c), sync), CreateStage, c.pools, d, op)
            case PolicyKind => InStage(PolicyEntries(AfterPools(svc, c), order), CreateStage, c.policies, d, op)
            case VirtualKind =>
              InStage(VirtualEntries(AfterPolicies(svc, c), sync, F5Of(svc, order, c)), CreateStage, c.listeners, d, op)
  {
    StageKind(MonitorEntries(AfterAddress(svc, c), sync), CreateStage, c.monitors, d, op, MonitorKind);
    StageKind(PoolEntries(AfterMonitors(svc, c), sync), CreateStage, c.pools, d, op, PoolKind);
    StageKind(PolicyEntries(AfterPools(svc, c), order), CreateStage, c.policies, d, op, PolicyKind);
    StageKind(VirtualEntries(AfterPolicies(svc, c), sync, F5Of(svc, order, c)), CreateStage, c.listeners, d, op,
              VirtualKind);
  }

  lemma DeletedByKind(s: Service, sync: bool, order: seq<Id>, f5: F5Policies, r: DeleteReport, d: nat, op: Op)
    requires DeleteRows(s, order, r)
    ensures var v, q := AfterVirtualsGone(s, r), AfterPoliciesGone(s, order, r);
            Deleted(s, sync, order, f5, r, d, op) <==>
            match op.obj.kind
            case AddressKind =>
              InStage([AddressEntry(MarkMonitors(MarkPools(q, r.pools), r.monitors), sync)], DeleteStage, r.address, d,
                      op)
            case MonitorKind => InStage(MonitorEntries(MarkPools(q, r.pools), sync), DeleteStage, r.monitors, d, op)
            case PoolKind => InStage(PoolEntries(q, sync), DeleteStage, r.pools, d, op)
            case PolicyKind =>
              InStage([LegacyEntry(v)], DeleteStage, r.legacy, d, op) ||
              InStage(PolicyEntries(v, order), DeleteStage, r.policies, d, op)
            case VirtualKind => InStage(VirtualEntries(s, sync, f5), DeleteStage, r.listeners, d, op)
  {
    var v, q := AfterVirtualsGone(s, r), AfterPoliciesGone(s, order, r);
    StageKind(VirtualEntries(s, sync, f5), DeleteStage, r.listeners, d, op, VirtualKind);
    StageKind([LegacyEntry(v)], DeleteStage, r.legacy, d, op, PolicyKind);
    StageKind(PolicyEntries(v, order), DeleteStage, r.policies, d, op, PolicyKind);
    StageKind(PoolEntries(q, sync), DeleteStage, r.pools, d, op, PoolKind);
    StageKind(MonitorEntries(MarkPools(q, r.pools), sync), DeleteStage, r.monitors, d, op, MonitorKind);
    StageKind([AddressEntry(MarkMonitors(MarkPools(q, r.pools), r.monitors), sync)], DeleteStage, r.address, d, op,
              AddressKind);
  }

  /** The history of an object that has one entry in a create stage and one in a delete stage. */
  lemma EntryHistory(ops: seq<Op>, es: seq<Entry>, rows: seq<Row>, gone: seq<Entry>, goneRows: seq<Row>, d: nat, i: nat)
    requires i < |es| && i < |gone| && DistinctObjects(es) && DistinctObjects(gone) && gone[i].obj == es[i].obj
    requires forall op :: op in ops && op.obj == es[i].obj <==>
               || (InStage(es, CreateStage, rows, d, op) && op.obj == es[i].obj)
               || (InStage(gone, DeleteStage, goneRows, d, op) && op.obj == es[i].obj)
    ensures History(ops, es[i].obj, es[i].put && i < |rows| && !Missed(rows[i], d), es[i].value,
                    gone[i].del && i < |goneRows| && !Missed(goneRows[i], d))
  {
    forall op
      ensures InStage(es, CreateStage, rows, d, op) && op.obj == es[i].obj <==>
              i < |rows| && !Missed(rows[i], d) && op in Calls(es[i], CreateStage)
      ensures InStage(gone, DeleteStage, goneRows, d, op) && op.obj == es[i].obj <==>
              i < |goneRows| && !Missed(goneRows[i], d) && op in Calls(gone[i], DeleteStage)
    {
      OnlyItsEntry(es, CreateStage, rows, d, op, i);
      OnlyItsEntry(gone, DeleteStage, goneRows, d, op, i);
    }
  }

  /** The monitors that the delete stage goes through. */
  function MonitorsToDelete(svc: Service, sync: bool, order: seq<Id>, rep: Report): seq<Entry>
    requires |rep.deletes.policies| <= |order|
  {
    MonitorEntries(AfterPoolsGone(AfterCreates(svc, rep.creates), order, rep.deletes), sync)
  }

  lemma MonitorsToDeleteAre(svc: Service, sync: bool, order: seq<Id>, before: seq<Device>, rep: Report, raised: bool)
    requires PassReport(svc, sync, order, before, rep, raised)
    ensures var gone := MonitorsToDelete(svc, sync, order, rep);
            && |gone| == |svc.monitors|
            && forall i :: 0 <= i < |gone| ==>
                 gone[i].obj == MonitorObj(svc, i) && gone[i].del == (svc.monitors[i].status == PendingDelete)
  {
    CreatesKeepLive(svc, sync, before, rep.creates);
    DeletesKeepEarlier(AfterCreates(svc, rep.creates), order, rep.deletes);
  }

  lemma CreatesKeepLive(svc: Service, sync: bool, before: seq<Device>, c: CreateReport)
    requires FirstPass(svc, sync, before, c)
    ensures SameLive(svc, AfterCreates(svc, c))
  {
    FirstKeepsLive(svc, sync, before, c);
  }

  /** Until their own delete stage, pools and monitors are as the create stages left them. */
  lemma DeletesKeepEarlier(s: Service, order: seq<Id>, r: DeleteReport)
    requires |r.policies| <= |order|
    ensures AfterPoliciesGone(s, order, r).pools == s.pools && AfterPoolsGone(s, order, r).monitors == s.monitors
    ensures AfterPoliciesGone(s, order, r).folder == AfterPoolsGone(s, order, r).folder == s.folder
  {
    MarkDeletedKeeps(AfterVirtualsGone(s, r), order, r.policies);
  }

  /** Where a monitor ends on a device. */
  lemma MonitorEnds(svc: Service, sync: bool, order: seq<Id>, before: seq<Device>, rep: Report, raised: bool,
                    after: seq<Device>, d: nat, i: nat)
    requires Pass(svc, sync, order, before, rep, raised, after) && DistinctIds(svc, order)
    requires i < |svc.monitors| && d < |after|
    ensures var c, r, s := rep.creates, rep.deletes, svc.monitors[i].status;
            EndsAs(MonitorObj(svc, i), Acts(sync, s) && !Missed(c.monitors[i], d), MonitorValue,
                   s == PendingDelete && i < |r.monitors| && !Missed(r.monitors[i], d), before[d], after[d])
  {
    var c, r, s := rep.creates, rep.deletes, svc.monitors[i].status;
    MonitorHistory(svc, sync, order, before, rep, raised, d, i);
    HistoryDecides(PassIssued(svc, sync, order, rep, d), MonitorObj(svc, i),
                   Acts(sync, s) && !Missed(c.monitors[i], d), MonitorValue,
                   s == PendingDelete && i < |r.monitors| && !Missed(r.monitors[i], d), before[d]);
  }

  lemma MonitorHistory(svc: Service, sync: bool, order: seq<Id>, before: seq<Device>, rep: Report, raised: bool,
                       d: nat, i: nat)
    requires PassReport(svc, sync, order, before, rep, raised) && DistinctIds(svc, order) && i < |svc.monitors|
    ensures var c, r, s := rep.creates, rep.deletes, svc.monitors[i].status;
            History(PassIssued(svc, sync, order, rep, d), MonitorObj(svc, i),
                    Acts(sync, s) && !Missed(c.monitors[i], d), MonitorValue,
                    s == PendingDelete && i < |r.monitors| && !Missed(r.monitors[i], d))
  {
    var c, r := rep.creates, rep.deletes;
    var es, gone := MonitorEntries(AfterAddress(svc, c), sync), MonitorsToDelete(svc, sync, order, rep);
    MonitorsToDeleteAre(svc, sync, order, before, rep, raised);
    MonitorCalls(svc, sync, order, rep, d, MonitorObj(svc, i));
    EntryHistory(PassIssued(svc, sync, order, rep, d), es, c.monitors, gone, r.monitors, d, i);
  }

  lemma MonitorCalls(svc: Service, sync: bool, order: seq<Id>, rep: Report, d: nat, o: Obj)
    requires FirstRows(svc, rep.creates) && LaterRows(svc, order, rep.creates)
    requires DeleteRows(AfterCreates(svc, rep.creates), order, rep.deletes) && o.kind == MonitorKind
    ensures var c, r := rep.creates, rep.deletes;
            var es, gone := MonitorEntries(AfterAddress(svc, c), sync), MonitorsToDelete(svc, sync, order, rep);
            forall op :: op in PassIssued(svc, sync, order, rep, d) && op.obj == o <==>
              || (InStage(es, CreateStage, c.monitors, d, op) && op.obj == o)
              || (InStage(gone, DeleteStage, r.monitors, d, op) && op.obj == o)
  {
    var c, r := rep.creates, rep.deletes;
    forall op
      ensures op in PassIssued(svc, sync, order, rep, d) && op.obj == o <==>
              || (InStage(MonitorEntries(AfterAddress(svc, c), sync), CreateStage, c.monitors, d, op) && op.obj == o)
              || (InStage(MonitorsToDelete(svc, sync, order, rep), DeleteStage, r.monitors, d, op) && op.obj == o)
    {
      PassCalls(svc, sync, order, rep, d, op);
      CreatedByKind(svc, sync, order, c, d, op);
      DeletedByKind(AfterCreates(svc, c), sync, order, F5Of(svc, order, c), r, d, op);
    }
  }

  // ----- Pools

  function PoolObj(svc: Service, i: nat): Obj
    requires i < |svc.pools|
  {
    Obj(PoolKind, Name(svc.folder, svc.pools[i].id))
  }

  function PoolsToDelete(svc: Service, sync: bool, order: seq<Id>, rep: Report): seq<Entry>
    requires |rep.deletes.policies| <= |order|
  {
    PoolEntries(AfterPoliciesGone(AfterCreates(svc, rep.creates), order, rep.deletes), sync)
  }

  lemma PoolsToDeleteAre(svc: Service, sync: bool, order: seq<Id>, before: seq<Device>, rep: Report, raised: bool)
    requires PassReport(svc, sync, order, before, rep, raised)
    ensures var gone := PoolsToDelete(svc, sync, order, rep);
            && |gone| == |svc.pools|
            && forall i :: 0 <= i < |gone| ==>
                 gone[i].obj == PoolObj(svc, i) && gone[i].del == (svc.pools[i].status == PendingDelete)
  {
    CreatesKeepLive(svc, sync, before, rep.creates);
    DeletesKeepEarlier(AfterCreates(svc, rep.creates), order, rep.deletes);
  }

  lemma PoolsToCreateAre(svc: Service, sync: bool, before: seq<Device>, c: CreateReport, i: nat)
    requires FirstPass(svc, sync, before, c) && i < |svc.pools|
    ensures PoolEntries(AfterMonitors(svc, c), sync)[i] == PoolEntry(svc, sync, svc.pools[i])
  {
    FirstKeepsLive(svc, sync, before, c);
    SameReferences(AfterMonitors(svc, c), svc);
    assert MonitorRef(AfterMonitors(svc, c), svc.pools[i]) == MonitorRef(svc, svc.pools[i]);
  }

  /** Where a pool ends on a device: with the reference that the service definition gives. */
  lemma PoolEnds(svc: Service, sync: bool, order: seq<Id>, before: seq<Device>, rep: Report, raised: bool,
                 after: seq<Device>, d: nat, i: nat)
    requires Pass(svc, sync, order, before, rep, raised, after) && DistinctIds(svc, order)
    requires i < |svc.pools| && d < |after|
    ensures var c, r, p := rep.creates, rep.deletes, svc.pools[i];
            EndsAs(PoolObj(svc, i), Acts(sync, p.status) && !Missed(c.pools[i], d), PoolValue(MonitorRef(svc, p)),
                   p.status == PendingDelete && i < |r.pools| && !Missed(r.pools[i], d), before[d], after[d])
  {
    var c, r, p := rep.creates, rep.deletes, svc.pools[i];
    PoolHistory(svc, sync, order, before, rep, raised, d, i);
    HistoryDecides(PassIssued(svc, sync, order, rep, d), PoolObj(svc, i),
                   Acts(sync, p.status) && !Missed(c.pools[i], d), PoolValue(MonitorRef(svc, p)),
                   p.status == PendingDelete && i < |r.pools| && !Missed(r.pools[i], d), before[d]);
  }

  lemma PoolHistory(svc: Service, sync: bool, order: seq<Id>, before: seq<Device>, rep: Report, raised: bool,
                    d: nat, i: nat)
    requires PassReport(svc, sync, order, before, rep, raised) && DistinctIds(svc, order) && i < |svc.pools|
    ensures var c, r, p := rep.creates, rep.deletes, svc.pools[i];
            History(PassIssued(svc, sync, order, rep, d), PoolObj(svc, i),
                    Acts(sync, p.status) && !Missed(c.pools[i], d), PoolValue(MonitorRef(svc, p)),
                    p.status == PendingDelete && i < |r.pools| && !Missed(r.pools[i], d))
  {
    var c, r := rep.creates, rep.deletes;
    var es, gone := PoolEntries(AfterMonitors(svc, c), sync), PoolsToDelete(svc, sync, order, rep);
    PoolsToCreateAre(svc, sync, before, c, i);
    PoolsToDeleteAre(svc, sync, order, before, rep, raised);
    PoolCalls(svc, sync, order, rep, d, PoolObj(svc, i));
    EntryHistory(PassIssued(svc, sync, order, rep, d), es, c.pools, gone, r.pools, d, i);
  }

  lemma PoolCalls(svc: Service, sync: bool, order: seq<Id>, rep: Report, d: nat, o: Obj)
    requires FirstRows(svc, rep.creates) && LaterRows(svc, order, rep.creates)
    requires DeleteRows(AfterCreates(svc, rep.creates), order, rep.deletes) && o.kind == PoolKind
    ensures var c, r := rep.creates, rep.deletes;
            var es, gone := PoolEntries(AfterMonitors(svc, c), sync), PoolsToDelete(svc, sync, order, rep);
            forall op :: op in PassIssued(svc, sync, order, rep, d) && op.obj == o <==>
              || (InStage(es, CreateStage, c.pools, d, op) && op.obj == o)
              || (InStage(gone, DeleteStage, r.pools, d, op) && op.obj == o)
  {
    var c, r := rep.creates, rep.deletes;
    forall op
      ensures op in PassIssued(svc, sync, order, rep, d) && op.obj == o <==>
              || (InStage(PoolEntries(AfterMonitors(svc, c), sync), CreateStage, c.pools, d, op) && op.obj == o)
              || (InStage(PoolsToDelete(svc, sync, order, rep), DeleteStage, r.pools, d, op) && op.obj == o)
    {
      PassCalls(svc, sync, order, rep, d, op);
      CreatedByKind(svc, sync, order, c, d, op);
      DeletedByKind(AfterCreates(svc, c), sync, order, F5Of(svc, order, c), r, d, op);
    }
  }

  // ----- Listeners

  function VirtualObj(svc: Service, i: nat): Obj
    requires i < |svc.listeners|
  {
    Obj(VirtualKind, Name(svc.folder, svc.listeners[i].id))
  }

  lemma {:induction false} AttachedFrom(a: Service, b: Service, order: seq<Id>, errors: seq<bool>)
    requires |errors| <= |order| && forall id :: BuildPolicy(a, id) == BuildPolicy(b, id)
    ensures AttachedBut(a, order, errors) == AttachedBut(b, order, errors)
  {
    if errors != [] {
      AttachedFrom(a, b, order, errors[..|errors| - 1]);
    }
  }

  lemma F5Is(svc: Service, order: seq<Id>, c: CreateReport)
    requires |c.policyErrors| <= |order|
    ensures F5Of(svc, order, c) == AttachedBut(svc, order, c.policyErrors)
  {
    FirstKeepsBuilt(svc, c);
    AttachedFrom(AfterPools(svc, c), svc, order, c.policyErrors);
  }

  lemma VirtualsToCreateAre(svc: Service, sync: bool, order: seq<Id>, before: seq<Device>, c: CreateReport, i: nat)
    requires FirstPass(svc, sync, before, c) && LaterRows(svc, order, c) && i < |svc.listeners|
    ensures VirtualEntries(AfterPolicies(svc, c), sync, F5Of(svc, order, c))[i] ==
            VirtualEntry(svc, sync, AttachedBut(svc, order, c.policyErrors), svc.listeners[i])
  {
    FirstKeepsLive(svc, sync, before, c);
    F5Is(svc, order, c);
    SameReferences(AfterPolicies(svc, c), svc);
    assert PoolRef(AfterPolicies(svc, c), svc.listeners[i]) == PoolRef(svc, svc.listeners[i]);
  }

  lemma VirtualsToDeleteAre(svc: Service, sync: bool, order: seq<Id>, before: seq<Device>, rep: Report, raised: bool)
    requires PassReport(svc, sync, order, before, rep, raised)
    ensures var gone := VirtualEntries(AfterCreates(svc, rep.creates), sync, F5Of(svc, order, rep.creates));
            && |gone| == |svc.listeners|
            && forall i :: 0 <= i < |gone| ==>
                 gone[i].obj == VirtualObj(svc, i) && gone[i].del == (svc.listeners[i].status == PendingDelete)
  {
    LaterActs(svc, sync, order, before, rep.creates, StoppedEarly(svc, rep));
  }

  /** Where a listener's virtual ends on a device: with the default pool of the service
      definition, and its wrapper policy where that was attached. */
  lemma ListenerEnds(svc: Service, sync: bool, order: seq<Id>, before: seq<Device>, rep: Report, raised: bool,
                     after: seq<Device>, d: nat, i: nat)
    requires Pass(svc, sync, order, before, rep, raised, after) && DistinctIds(svc, order)
    requires i < |svc.listeners| && d < |after|
    ensures var c, r, l := rep.creates, rep.deletes, svc.listeners[i];
            EndsAs(VirtualObj(svc, i), Acts(sync, l.status) && i < |c.listeners| && !Missed(c.listeners[i], d),
                   VirtualOf(svc, l, AttachedBut(svc, order, c.policyErrors)),
                   l.status == PendingDelete && i < |r.listeners| && !Missed(r.listeners[i], d), before[d], after[d])
  {
    var c, r, l := rep.creates, rep.deletes, svc.listeners[i];
    VirtualHistory(svc, sync, order, before, rep, raised, d, i);
    HistoryDecides(PassIssued(svc, sync, order, rep, d), VirtualObj(svc, i),
                   Acts(sync, l.status) && i < |c.listeners| && !Missed(c.listeners[i], d),
                   VirtualOf(svc, l, AttachedBut(svc, order, c.policyErrors)),
                   l.status == PendingDelete && i < |r.listeners| && !Missed(r.listeners[i], d), before[d]);
  }

  lemma VirtualHistory(svc: Service, sync: bool, order: seq<Id>, before: seq<Device>, rep: Report, raised: bool,
                       d: nat, i: nat)
    requires PassReport(svc, sync, order, before, rep, raised) && DistinctIds(svc, order) && i < |svc.listeners|
    ensures var c, r, l := rep.creates, rep.deletes, svc.listeners[i];
            History(PassIssued(svc, sync, order, rep, d), VirtualObj(svc, i),
                    Acts(sync, l.status) && i < |c.listeners| && !Missed(c.listeners[i], d),
                    VirtualOf(svc, l, AttachedBut(svc, order, c.policyErrors)),
                    l.status == PendingDelete && i < |r.listeners| && !Missed(r.listeners[i], d))
  {
    VirtualsToCreateAre(svc, sync, order, before, rep.creates, i);
    VirtualsToDeleteAre(svc, sync, order, before, rep, raised);
    VirtualHistoryFrom(svc, sync, order, rep, d, i);
  }

  lemma VirtualHistoryFrom(svc: Service, sync: bool, order: seq<Id>, rep: Report, d: nat, i: nat)
    requires FirstRows(svc, rep.creates) && LaterRows(svc, order, rep.creates)
    requires DeleteRows(AfterCreates(svc, rep.creates), order, rep.deletes) && i < |svc.listeners|
    requires forall j, k :: 0 <= j < k < |svc.listeners| ==> svc.listeners[j].id != svc.listeners[k].id
    requires VirtualEntries(AfterPolicies(svc, rep.creates), sync, F5Of(svc, order, rep.creates))[i] ==
             VirtualEntry(svc, sync, AttachedBut(svc, order, rep.creates.policyErrors), svc.listeners[i])
    requires var e := VirtualEntries(AfterCreates(svc, rep.creates), sync, F5Of(svc, order, rep.creates))[i];
             e.obj == VirtualObj(svc, i) && e.del == (svc.listeners[i].status == PendingDelete)
    ensures var c, r, l := rep.creates, rep.deletes, svc.listeners[i];
            History(PassIssued(svc, sync, order, rep, d), VirtualObj(svc, i),
                    Acts(sync, l.status) && i < |c.listeners| && !Missed(c.listeners[i], d),
                    VirtualOf(svc, l, AttachedBut(svc, order, c.policyErrors)),
                    l.status == PendingDelete && i < |r.listeners| && !Missed(r.listeners[i], d))
  {
    var c, r := rep.creates, rep.deletes;
    var es := VirtualEntries(AfterPolicies(svc, c), sync, F5Of(svc, order, c));
    var gone := VirtualEntries(AfterCreates(svc, c), sync, F5Of(svc, order, c));
    VirtualCalls(svc, sync, order, rep, d, VirtualObj(svc, i));
    VirtualsDistinct(AfterPolicies(svc, c), sync, F5Of(svc, order, c));
    VirtualsDistinct(AfterCreates(svc, c), sync, F5Of(svc, order, c));
    EntryHistory(PassIssued(svc, sync, order, rep, d), es, c.listeners, gone, r.listeners, d, i);
  }

  lemma VirtualsDistinct(s: Service, sync: bool, f5: F5Policies)
    requires forall i, j :: 0 <= i < j < |s.listeners| ==> s.listeners[i].id != s.listeners[j].id
    ensures DistinctObjects(VirtualEntries(s, sync, f5))
  {
  }

  lemma VirtualCalls(svc: Service, sync: bool, order: seq<Id>, rep: Report, d: nat, o: Obj)
    requires FirstRows(svc, rep.creates) && LaterRows(svc, order, rep.creates)
    requires DeleteRows(AfterCreates(svc, rep.creates), order, rep.deletes) && o.kind == VirtualKind
    ensures var c, r := rep.creates, rep.deletes;
            var es := VirtualEntries(AfterPolicies(svc, c), sync, F5Of(svc, order, c));
            var gone := VirtualEntries(AfterCreates(svc, c), sync, F5Of(svc, order, c));
            forall op :: op in PassIssued(svc, sync, order, rep, d) && op.obj == o <==>
              || (InStage(es, CreateStage, c.listeners, d, op) && op.obj == o)
              || (InStage(gone, DeleteStage, r.listeners, d, op) && op.obj == o)
  {
    var c, r := rep.creates, rep.deletes;
    forall op
      ensures op in PassIssued(svc, sync, order, rep, d) && op.obj == o <==>
              || (InStage(VirtualEntries(AfterPolicies(svc, c), sync, F5Of(svc, order, c)), CreateStage, c.listeners,
                          d, op)
                  && op.obj == o)
              || (InStage(VirtualEntries(AfterCreates(svc, c), sync, F5Of(svc, order, c)), DeleteStage, r.listeners, d,
                          op)
                  && op.obj == o)
    {
      PassCalls(svc, sync, order, rep, d, op);
      CreatedByKind(svc, sync, order, c, d, op);
      DeletedByKind(AfterCreates(svc, c), sync, order, F5Of(svc, order, c), r, d, op);
    }
  }

  // ----- The virtual address

  function AddressObj(svc: Service): Obj {
    Obj(AddressKind, Name(svc.folder, svc.lbId))
  }

  /** An error was noticed that is charged to the load balancer. */
  predicate LoadBalancerError(c: CreateReport) {
    c.addressError || AnyReported(c.pools) || true in c.policyErrors || AnyReported(c.listeners)
  }

  lemma LbStatusLater(svc: Service, order: seq<Id>, rep: Report)
    requires |rep.deletes.policies| <= |order|
    ensures AfterCreates(svc, rep.creates).lbStatus == if LoadBalancerError(rep.creates) then Error else svc.lbStatus
    ensures Outcome(svc, order, rep).lbStatus == AfterCreates(svc, rep.creates).lbStatus
    ensures Outcome(svc, order, rep).folder == svc.folder && Outcome(svc, order, rep).lbId == svc.lbId
  {
    var s := AfterCreates(svc, rep.creates);
    MarkDeletedKeeps(AfterVirtualsGone(s, rep.deletes), order, rep.deletes.policies);
  }

  /** What device `d` executed after the virtual address was assured. */
  function AfterAddressIssued(svc: Service, sync: bool, order: seq<Id>, rep: Report, d: nat): seq<Op>
    requires FirstRows(svc, rep.creates) && LaterRows(svc, order, rep.creates)
    requires DeleteRows(AfterCreates(svc, rep.creates), order, rep.deletes)
  {
    var c := rep.creates;
    Issued(MonitorEntries(AfterAddress(svc, c), sync), CreateStage, c.monitors, d) +
    Issued(PoolEntries(AfterMonitors(svc, c), sync), CreateStage, c.pools, d) +
    LaterIssued(svc, sync, order, c, d) +
    DeleteIssued(AfterCreates(svc, c), sync, order, F5Of(svc, order, c), rep.deletes, d)
  }

  lemma AddressFirst(svc: Service, sync: bool, order: seq<Id>, rep: Report, d: nat)
    requires FirstRows(svc, rep.creates) && LaterRows(svc, order, rep.creates)
    requires DeleteRows(AfterCreates(svc, rep.creates), order, rep.deletes)
    ensures PassIssued(svc, sync, order, rep, d) ==
            AddressIssued(AddressEntry(svc, sync).obj, AddressValue(svc.vip), rep.creates.address, d) +
            AfterAddressIssued(svc, sync, order, rep, d)
  {
    var c := rep.creates;
    FirstOfFive(AddressIssued(AddressEntry(svc, sync).obj, AddressValue(svc.vip), c.address, d),
                Issued(MonitorEntries(AfterAddress(svc, c), sync), CreateStage, c.monitors, d),
                Issued(PoolEntries(AfterMonitors(svc, c), sync), CreateStage, c.pools, d),
                LaterIssued(svc, sync, order, c, d),
                DeleteIssued(AfterCreates(svc, c), sync, order, F5Of(svc, order, c), rep.deletes, d));
  }

  lemma FirstOfFive(a: seq<Op>, b: seq<Op>, c: seq<Op>, d: seq<Op>, e: seq<Op>)
    ensures a + b + c + d + e == a + (b + c + d + e)
  {
  }

  /** After it was assured, the address is only touched by the delete stage. */
  lemma LaterAddressCalls(svc: Service, sync: bool, order: seq<Id>, rep: Report, d: nat, op: Op)
    requires FirstRows(svc, rep.creates) && LaterRows(svc, order, rep.creates)
    requires DeleteRows(AfterCreates(svc, rep.creates), order, rep.deletes)
    ensures op in AfterAddressIssued(svc, sync, order, rep, d) && op.obj == AddressObj(svc) <==>
            InStage([AddressEntry(Outcome(svc, order, rep), sync)], DeleteStage, rep.deletes.address, d, op) &&
            op.obj == AddressObj(svc)
  {
    var c, r, s := rep.creates, rep.deletes, AfterCreates(svc, rep.creates);
    var f5 := F5Of(svc, order, c);
    if op.obj == AddressObj(svc) {
      LaterCreatesSpareAddress(svc, sync, order, c, d, op);
    }
    DeletedCalls(s, sync, order, f5, r, d, op);
    DeletedByKind(s, sync, order, f5, r, d, op);
  }

  lemma IssuedKind(es: seq<Entry>, stage: Stage, rows: seq<Row>, d: nat, op: Op, k: Kind)
    requires |rows| <= |es|
    requires forall i :: 0 <= i < |es| ==> es[i].obj.kind == k
    ensures op in Issued(es, stage, rows, d) ==> op.obj.kind == k
  {
    IssuedHas(es, stage, rows, d, op);
  }

  lemma LaterCreatesSpareAddress(svc: Service, sync: bool, order: seq<Id>, c: CreateReport, d: nat, op: Op)
    requires FirstRows(svc, c) && LaterRows(svc, order, c)
    requires op.obj.kind == AddressKind
    ensures op !in Issued(MonitorEntries(AfterAddress(svc, c), sync), CreateStage, c.monitors, d) +
                   Issued(PoolEntries(AfterMonitors(svc, c), sync), CreateStage, c.pools, d) +
                   LaterIssued(svc, sync, order, c, d)
  {
    IssuedKind(MonitorEntries(AfterAddress(svc, c), sync), CreateStage, c.monitors, d, op, MonitorKind);
    IssuedKind(PoolEntries(AfterMonitors(svc, c), sync), CreateStage, c.pools, d, op, PoolKind);
    IssuedKind(PolicyEntries(AfterPools(svc, c), order), CreateStage, c.policies, d, op, PolicyKind);
    IssuedKind(VirtualEntries(AfterPolicies(svc, c), sync, F5Of(svc, order, c)), CreateStage, c.listeners, d, op,
               VirtualKind);
  }

  /** The address was put, or taken away for good, when it was assured. */
  predicate AddressPut(c: CreateReport, d: nat) {
    d < |c.address| && c.address[d].end.Assured?
  }

  predicate AddressLost(c: CreateReport, d: nat) {
    d < |c.address| && c.address[d].deleted && !c.address[d].end.Assured?
  }

  /** The load balancer's deletion reached the device. */
  predicate AddressDeleted(svc: Service, rep: Report, d: nat) {
    && svc.lbStatus == PendingDelete && !LoadBalancerError(rep.creates)
    && rep.deletes.address != [] && !Missed(rep.deletes.address[0], d)
  }

  lemma AddressDeleteHistory(svc: Service, sync: bool, order: seq<Id>, rep: Report, d: nat)
    requires FirstRows(svc, rep.creates) && LaterRows(svc, order, rep.creates)
    requires DeleteRows(AfterCreates(svc, rep.creates), order, rep.deletes)
    ensures History(AfterAddressIssued(svc, sync, order, rep, d), AddressObj(svc), false, AddressValue(svc.vip),
                    AddressDeleted(svc, rep, d))
  {
    var gone := [AddressEntry(Outcome(svc, order, rep), sync)];
    LbStatusLater(svc, order, rep);
    forall op
      ensures op in AfterAddressIssued(svc, sync, order, rep, d) && op.obj == AddressObj(svc) <==>
              AddressDeleted(svc, rep, d) && op == Delete(AddressObj(svc))
    {
      LaterAddressCalls(svc, sync, order, rep, d, op);
      OnlyItsEntry(gone, DeleteStage, rep.deletes.address, d, op, 0);
    }
  }

  lemma OutcomeEnds(o: Obj, v: Value, x: AddressOutcome, d: Device)
    ensures EndsAs(o, x.end.Assured?, v, x.deleted, d, ExecAll(OutcomeCalls(o, v, x), d))
  {
    TwoCalls(Delete(o), Put(o, v), d);
  }

  /** Where the virtual address ends on a device: put, gone or as before. */
  lemma AddressEnds(svc: Service, sync: bool, order: seq<Id>, before: seq<Device>, rep: Report, raised: bool,
                    after: seq<Device>, d: nat)
    requires Pass(svc, sync, order, before, rep, raised, after) && d < |after|
    ensures EndsAs(AddressObj(svc), AddressPut(rep.creates, d), AddressValue(svc.vip),
                   AddressLost(rep.creates, d) || AddressDeleted(svc, rep, d), before[d], after[d])
  {
    AddressExclusive(svc, sync, before, rep, d);
    AddressEndsFrom(svc, sync, order, rep, d, before[d]);
  }

  /** A load balancer is not assured and deleted in one pass. */
  lemma AddressExclusive(svc: Service, sync: bool, before: seq<Device>, rep: Report, d: nat)
    requires FirstPass(svc, sync, before, rep.creates)
    ensures AddressPut(rep.creates, d) ==> !AddressDeleted(svc, rep, d)
  {
  }

  lemma AddressEndsFrom(svc: Service, sync: bool, order: seq<Id>, rep: Report, d: nat, before: Device)
    requires FirstRows(svc, rep.creates) && LaterRows(svc, order, rep.creates)
    requires DeleteRows(AfterCreates(svc, rep.creates), order, rep.deletes)
    requires AddressPut(rep.creates, d) ==> !AddressDeleted(svc, rep, d)
    ensures EndsAs(AddressObj(svc), AddressPut(rep.creates, d), AddressValue(svc.vip),
                   AddressLost(rep.creates, d) || AddressDeleted(svc, rep, d), before,
                   ExecAll(PassIssued(svc, sync, order, rep, d), before))
  {
    var o, v, c := AddressObj(svc), AddressValue(svc.vip), rep.creates;
    var first, rest := AddressIssued(o, v, c.address, d), AfterAddressIssued(svc, sync, order, rep, d);
    AddressFirst(svc, sync, order, rep, d);
    ExecAppend(first, rest, before);
    AddressDeleteHistory(svc, sync, order, rep, d);
    HistoryDecides(rest, o, false, v, AddressDeleted(svc, rep, d), ExecAll(first, before));
    if d < |c.address| {
      OutcomeEnds(o, v, c.address[d], before);
    }
  }

  // ----- Wrapper policies

  function WrapperObj(svc: Service, id: Id): Obj {
    Obj(PolicyKind, WrapperName(svc.folder, id))
  }

  lemma PolicyEntriesAreDistinct(svc: Service, order: seq<Id>)
    requires forall i, j :: 0 <= i < j < |order| ==> order[i] != order[j]
    ensures DistinctObjects(PolicyEntries(svc, order))
  {
    forall i, j | 0 <= i < j < |order|
      ensures PolicyEntries(svc, order)[i].obj != PolicyEntries(svc, order)[j].obj
    {
      WrapperNameInjective(svc.folder, order[i], order[j]);
    }
  }

  /** What is built for a listener when the wrapper policies are deleted. */
  function BuiltLate(svc: Service, id: Id, rep: Report): F5Policy {
    PolicyFor(AfterCreates(svc, rep.creates), id)
  }

  /** Where a wrapper policy without rules ends on a device: it is deleted only if it is still
      without rules when the delete stage builds it again. */
  lemma EmptyWrapperEnds(svc: Service, sync: bool, order: seq<Id>, before: seq<Device>, rep: Report, raised: bool,
                         after: seq<Device>, d: nat, k: nat)
    requires Pass(svc, sync, order, before, rep, raised, after) && DistinctIds(svc, order)
    requires k < |order| && d < |after| && WrapperRules(svc, order[k]) == []
    ensures var r := rep.deletes;
            EndsAs(WrapperObj(svc, order[k]), false, PolicyValue([]),
                   BuiltLate(svc, order[k], rep) == Wrapper([]) && k < |r.policies| && !Missed(r.policies[k], d),
                   before[d], after[d])
  {
    var r := rep.deletes;
    FirstKeepsBuilt(svc, rep.creates);
    VirtualsGoneKeepsBuilt(AfterCreates(svc, rep.creates), r);
    EmptyWrapperHistory(svc, sync, order, rep, d, k);
    HistoryDecides(PassIssued(svc, sync, order, rep, d), WrapperObj(svc, order[k]), false, PolicyValue([]),
                   BuiltLate(svc, order[k], rep) == Wrapper([]) && k < |r.policies| && !Missed(r.policies[k], d),
                       before[d]);
  }

  lemma EmptyWrapperHistory(svc: Service, sync: bool, order: seq<Id>, rep: Report, d: nat, k: nat)
    requires FirstRows(svc, rep.creates) && LaterRows(svc, order, rep.creates)
    requires DeleteRows(AfterCreates(svc, rep.creates), order, rep.deletes)
    requires k < |order| && forall i, j :: 0 <= i < j < |order| ==> order[i] != order[j]
    requires WrapperRules(AfterPools(svc, rep.creates), order[k]) == []
    requires PolicyFor(AfterVirtualsGone(AfterCreates(svc, rep.creates), rep.deletes), order[k]) ==
             BuiltLate(svc, order[k], rep)
    ensures var r := rep.deletes;
            History(PassIssued(svc, sync, order, rep, d), WrapperObj(svc, order[k]), false, PolicyValue([]),
                    BuiltLate(svc, order[k], rep) == Wrapper([]) && k < |r.policies| && !Missed(r.policies[k], d))
  {
    var c, r := rep.creates, rep.deletes;
    var v := AfterVirtualsGone(AfterCreates(svc, c), r);
    PolicyEntriesAreDistinct(AfterPools(svc, c), order);
    PolicyEntriesAreDistinct(v, order);
    WrapperCalls(svc, sync, order, rep, d, order[k]);
    EntryHistory(PassIssued(svc, sync, order, rep, d), PolicyEntries(AfterPools(svc, c), order), c.policies,
                 PolicyEntries(v, order), r.policies, d, k);
  }

  lemma WrapperCalls(svc: Service, sync: bool, order: seq<Id>, rep: Report, d: nat, id: Id)
    requires FirstRows(svc, rep.creates) && LaterRows(svc, order, rep.creates)
    requires DeleteRows(AfterCreates(svc, rep.creates), order, rep.deletes)
    ensures var c, r, o := rep.creates, rep.deletes, WrapperObj(svc, id);
            var es := PolicyEntries(AfterPools(svc, c), order);
            var gone := PolicyEntries(AfterVirtualsGone(AfterCreates(svc, c), r), order);
            forall op :: op in PassIssued(svc, sync, order, rep, d) && op.obj == o <==>
              || (InStage(es, CreateStage, c.policies, d, op) && op.obj == o)
              || (InStage(gone, DeleteStage, r.policies, d, op) && op.obj == o)
  {
    var c, r, o := rep.creates, rep.deletes, WrapperObj(svc, id);
    WrapperNameInjective(svc.folder, id, id);
    forall op
      ensures op in PassIssued(svc, sync, order, rep, d) && op.obj == o <==>
              || (InStage(PolicyEntries(AfterPools(svc, c), order), CreateStage, c.policies, d, op) && op.obj == o)
              || (InStage(PolicyEntries(AfterVirtualsGone(AfterCreates(svc, c), r), order), DeleteStage, r.policies, d,
                          op)
                  && op.obj == o)
    {
      PassCalls(svc, sync, order, rep, d, op);
      CreatedByKind(svc, sync, order, c, d, op);
      DeletedByKind(AfterCreates(svc, c), sync, order, F5Of(svc, order, c), r, d, op);
    }
  }

  // ----- What the service does not name

  lemma StageIsNamed(svc: Service, order: seq<Id>, es: seq<Entry>, stage: Stage, rows: seq<Row>, d: nat, op: Op)
    requires forall i :: 0 <= i < |es| ==> Names(svc, order, es[i].obj)
    ensures InStage(es, stage, rows, d, op) ==> Names(svc, order, op.obj)
  {
  }

  /** Same folder and ids, so the same names. */
  ghost predicate SameNames(a: Service, b: Service) {
    && a.folder == b.folder && a.lbId == b.lbId
    && |a.monitors| == |b.monitors| && |a.pools| == |b.pools| && |a.listeners| == |b.listeners|
    && (forall i :: 0 <= i < |a.monitors| ==> a.monitors[i].id == b.monitors[i].id)
    && (forall i :: 0 <= i < |a.pools| ==> a.pools[i].id == b.pools[i].id)
    && (forall i :: 0 <= i < |a.listeners| ==> a.listeners[i].id == b.listeners[i].id)
  }

  lemma EntriesNamed(svc: Service, s: Service, sync: bool, f5: F5Policies, order: seq<Id>)
    requires SameNames(svc, s)
    ensures forall i :: 0 <= i < |s.monitors| ==> Names(svc, order, MonitorEntries(s, sync)[i].obj)
    ensures forall i :: 0 <= i < |s.pools| ==> Names(svc, order, PoolEntries(s, sync)[i].obj)
    ensures forall i :: 0 <= i < |s.listeners| ==> Names(svc, order, VirtualEntries(s, sync, f5)[i].obj)
    ensures Names(svc, order, AddressEntry(s, sync).obj) && Names(svc, order, LegacyEntry(s).obj)
  {
  }

  lemma PoliciesNamed(svc: Service, s: Service, order: seq<Id>)
    requires svc.folder == s.folder
    ensures forall i :: 0 <= i < |order| ==> Names(svc, order, PolicyEntries(s, order)[i].obj)
  {
    forall i | 0 <= i < |order|
      ensures Names(svc, order, PolicyEntries(s, order)[i].obj)
    {
      assert PolicyEntries(s, order)[i].obj == Obj(PolicyKind, WrapperName(svc.folder, order[i]));
    }
  }

  lemma CreatedIsNamed(svc: Service, sync: bool, order: seq<Id>, c: CreateReport, d: nat, op: Op)
    requires FirstRows(svc, c) && LaterRows(svc, order, c) && Created(svc, sync, order, c, d, op)
    ensures Names(svc, order, op.obj)
  {
    var f5 := F5Of(svc, order, c);
    CreatedByKind(svc, sync, order, c, d, op);
    match op.obj.kind
    case AddressKind =>
      EntriesNamed(svc, svc, sync, f5, order);
    case MonitorKind =>
      EntriesNamed(svc, AfterAddress(svc, c), sync, f5, order);
      StageIsNamed(svc, order, MonitorEntries(AfterAddress(svc, c), sync), CreateStage, c.monitors, d, op);
    case PoolKind =>
      EntriesNamed(svc, AfterMonitors(svc, c), sync, f5, order);
      StageIsNamed(svc, order, PoolEntries(AfterMonitors(svc, c), sync), CreateStage, c.pools, d, op);
    case PolicyKind =>
      PoliciesNamed(svc, AfterPools(svc, c), order);
      StageIsNamed(svc, order, PolicyEntries(AfterPools(svc, c), order), CreateStage, c.policies, d, op);
    case VirtualKind =>
      EntriesNamed(svc, AfterPolicies(svc, c), sync, f5, order);
      StageIsNamed(svc, order, VirtualEntries(AfterPolicies(svc, c), sync, f5), CreateStage, c.listeners, d, op);
  }

  lemma SameNamesLater(svc: Service, s: Service, order: seq<Id>, r: DeleteReport)
    requires SameNames(svc, s) && |r.policies| <= |order|
    ensures SameNames(svc, AfterVirtualsGone(s, r)) && SameNames(svc, AfterPoliciesGone(s, order, r))
    ensures SameNames(svc, AfterPoolsGone(s, order, r)) && SameNames(svc, AfterDeletes(s, order, r))
  {
    MarkDeletedKeeps(AfterVirtualsGone(s, r), order, r.policies);
  }

  lemma DeletedIsNamed(svc: Service, s: Service, sync: bool, order: seq<Id>, f5: F5Policies, r: DeleteReport, d: nat,
                       op: Op)
    requires SameNames(svc, s) && DeleteRows(s, order, r) && Deleted(s, sync, order, f5, r, d, op)
    ensures Names(svc, order, op.obj)
  {
    var v, q := AfterVirtualsGone(s, r), AfterPoliciesGone(s, order, r);
    var p, m := AfterPoolsGone(s, order, r), AfterDeletes(s, order, r);
    SameNamesLater(svc, s, order, r);
    DeletedByKind(s, sync, order, f5, r, d, op);
    match op.obj.kind
    case AddressKind =>
      EntriesNamed(svc, m, sync, f5, order);
      StageIsNamed(svc, order, [AddressEntry(m, sync)], DeleteStage, r.address, d, op);
    case MonitorKind =>
      EntriesNamed(svc, p, sync, f5, order);
      StageIsNamed(svc, order, MonitorEntries(p, sync), DeleteStage, r.monitors, d, op);
    case PoolKind =>
      EntriesNamed(svc, q, sync, f5, order);
      StageIsNamed(svc, order, PoolEntries(q, sync), DeleteStage, r.pools, d, op);
    case PolicyKind =>
      EntriesNamed(svc, v, sync, f5, order);
      PoliciesNamed(svc, v, order);
      StageIsNamed(svc, order, [LegacyEntry(v)], DeleteStage, r.legacy, d, op);
      StageIsNamed(svc, order, PolicyEntries(v, order), DeleteStage, r.policies, d, op);
    case VirtualKind =>
      EntriesNamed(svc, s, sync, f5, order);
      StageIsNamed(svc, order, VirtualEntries(s, sync, f5), DeleteStage, r.listeners, d, op);
  }

  lemma CallIsNamed(svc: Service, sync: bool, order: seq<Id>, rep: Report, d: nat, op: Op)
    requires FirstRows(svc, rep.creates) && LaterRows(svc, order, rep.creates)
    requires DeleteRows(AfterCreates(svc, rep.creates), order, rep.deletes) &&
             op in PassIssued(svc, sync, order, rep, d)
    ensures Names(svc, order, op.obj)
  {
    PassCalls(svc, sync, order, rep, d, op);
    if Created(svc, sync, order, rep.creates, d, op) {
      CreatedIsNamed(svc, sync, order, rep.creates, d, op);
    } else {
      DeletedIsNamed(svc, AfterCreates(svc, rep.creates), sync, order, F5Of(svc, order, rep.creates), rep.deletes, d,
                     op);
    }
  }

  /** Whatever fails, objects that the service does not name are untouched. */
  lemma UnnamedUntouched(svc: Service, sync: bool, order: seq<Id>, before: seq<Device>, rep: Report, raised: bool,
                         after: seq<Device>, d: nat, o: Obj)
    requires Pass(svc, sync, order, before, rep, raised, after) && d < |after| && !Names(svc, order, o)
    ensures Agree(o, before[d], after[d])
  {
    var ops := PassIssued(svc, sync, order, rep, d);
    forall j | 0 <= j < |ops|
      ensures ops[j].obj != o
    {
      CallIsNamed(svc, sync, order, rep, d, ops[j]);
    }
    NotCalledStays(ops, before[d], o);
  }

  // ----- A pass without missed calls

  function StageCalls(es: seq<Entry>, stage: Stage): seq<Op> {
    match stage
    case CreateStage => Puts(es)
    case DeleteStage => Deletes(es)
  }

  lemma {:induction false} IssuedAll(es: seq<Entry>, stage: Stage, rows: seq<Row>, d: nat)
    requires |rows| <= |es| && !AnyReported(rows)
    ensures Issued(es, stage, rows, d) == StageCalls(es[..|rows|], stage)
  {
    if rows != [] {
      var n := |rows| - 1;
      AnyReportedNext(rows[..n], rows[n]);
      assert rows[..n] + [rows[n]] == rows;
      IssuedAll(es, stage, rows[..n], d);
      assert es[..n + 1][..n] == es[..n];
      NotMissed(rows[n], d);
    }
  }

  lemma NotMissed(row: Row, d: nat)
    ensures Missed(row, d) ==> true in row
  {
  }

  /** No device missed a call. */
  ghost predicate Clean(rep: Report) {
    var c, r := rep.creates, rep.deletes;
    && AllAssured(c.address) && !AnyReported(c.monitors) && !AnyReported(c.pools) && !AnyReported(c.policies)
    && !AnyReported(c.listeners) && !AnyReported(r.listeners) && !AnyReported(r.legacy) && !AnyReported(r.policies)
    && !AnyReported(r.pools) && !AnyReported(r.monitors) && !AnyReported(r.address)
  }

  /** The calls before an untranslatable L7 policy stops the pass. */
  function FirstCalls(svc: Service, sync: bool): seq<Op> {
    Puts([AddressEntry(svc, sync)]) + Puts(MonitorEntries(svc, sync)) + Puts(PoolEntries(svc, sync))
  }

  /** The same on a device with that configuration: a stale address goes first. */
  function FirstCallsOn(svc: Service, sync: bool, d: Device): seq<Op> {
    (if Acts(sync, svc.lbStatus) && Stale(svc, d) then [Delete(AddressEntry(svc, sync).obj)] else []) +
    FirstCalls(svc, sync)
  }

  lemma CleanAddress(svc: Service, sync: bool, before: seq<Device>, c: CreateReport, d: nat)
    requires FirstPass(svc, sync, before, c) && AllAssured(c.address) && d < |before|
    ensures !c.addressError
    ensures AddressIssued(AddressEntry(svc, sync).obj, AddressValue(svc.vip), c.address, d) ==
            (if Acts(sync, svc.lbStatus) && Stale(svc, before[d]) then [Delete(AddressEntry(svc, sync).obj)] else []) +
            Puts([AddressEntry(svc, sync)])
  {
    var e := AddressEntry(svc, sync);
    assert Puts([e]) == Puts([]) + if e.put then [Put(e.obj, e.value)] else [] by {
      assert [e][..0] == [];
    }
    if Acts(sync, svc.lbStatus) {
      assert OutcomeFits(e.obj, e.value, before[d], c.address[d]);
    }
  }

  lemma CleanFirst(svc: Service, sync: bool, before: seq<Device>, c: CreateReport, d: nat)
    requires FirstPass(svc, sync, before, c) && d < |before|
    requires AllAssured(c.address) && !AnyReported(c.monitors) && !AnyReported(c.pools)
    ensures !c.addressError && AfterAddress(svc, c) == AfterMonitors(svc, c) == AfterPools(svc, c) == svc
    ensures FirstIssued(svc, sync, c, d) == FirstCallsOn(svc, sync, before[d])
  {
    CleanAddress(svc, sync, before, c, d);
    MarkedClean(svc.monitors, c.monitors, MonitorInError);
    MarkedClean(svc.pools, c.pools, PoolInError);
    IssuedAll(MonitorEntries(svc, sync), CreateStage, c.monitors, d);
    IssuedAll(PoolEntries(svc, sync), CreateStage, c.pools, d);
    Whole(MonitorEntries(svc, sync));
    Whole(PoolEntries(svc, sync));
    FirstOfFour(if Acts(sync, svc.lbStatus) && Stale(svc, before[d]) then [Delete(AddressEntry(svc, sync).obj)] else [],
                Puts([AddressEntry(svc, sync)]), Puts(MonitorEntries(svc, sync)), Puts(PoolEntries(svc, sync)));
  }

  lemma FirstOfFour(a: seq<Op>, b: seq<Op>, c: seq<Op>, d: seq<Op>)
    ensures a + b + c + d == a + (b + c + d)
  {
  }

  lemma Whole(es: seq<Entry>)
    ensures es[..|es|] == es
  {
  }

  lemma {:induction false} AttachedAll(svc: Service, order: seq<Id>, errors: seq<bool>)
    requires |errors| <= |order| && true !in errors
    ensures AttachedBut(svc, order, errors) == Attached(svc, order[..|errors|])
  {
    if errors != [] {
      var n := |errors| - 1;
      AttachedAll(svc, order, errors[..n]);
      assert forall id :: id in order[..n + 1] <==> id in order[..n] || id == order[n];
    }
  }

  lemma CleanLater(svc: Service, sync: bool, order: seq<Id>, before: seq<Device>, c: CreateReport, d: nat)
    requires LaterRows(svc, order, c) && AfterPools(svc, c) == svc && LaterPass(svc, sync, order, before, c, false)
    requires !AnyReported(c.policies) && !AnyReported(c.listeners)
    ensures true !in c.policyErrors && AfterPolicies(svc, c) == AfterCreates(svc, c) == svc
    ensures F5Of(svc, order, c) == Attached(svc, order)
    ensures LaterIssued(svc, sync, order, c, d) ==
            Puts(PolicyEntries(svc, order)) + Puts(VirtualEntries(svc, sync, Attached(svc, order)))
  {
    forall k | 0 <= k < |c.policyErrors|
      ensures !c.policyErrors[k]
    {
      assert !Reported(c.policies, k);
    }
    MarkedClean(svc.listeners, c.listeners, ListenerInError);
    AttachedAll(svc, order, c.policyErrors);
    assert order[..|c.policyErrors|] == order;
    IssuedAll(PolicyEntries(svc, order), CreateStage, c.policies, d);
    IssuedAll(VirtualEntries(svc, sync, Attached(svc, order)), CreateStage, c.listeners, d);
    Whole(PolicyEntries(svc, order));
    Whole(VirtualEntries(svc, sync, Attached(svc, order)));
  }

  /** The delete calls of the plan. */
  function DeleteCalls(svc: Service, sync: bool, f5: F5Policies, order: seq<Id>): seq<Op> {
    (Deletes(VirtualEntries(svc, sync, f5)) + Deletes([LegacyEntry(svc)]) + Deletes(PolicyEntries(svc, order))) +
    (Deletes(PoolEntries(svc, sync)) + Deletes(MonitorEntries(svc, sync)) + Deletes([AddressEntry(svc, sync)]))
  }

  lemma CleanDeletes(s: Service, sync: bool, order: seq<Id>, f5: F5Policies, n: nat, r: DeleteReport, raised: bool,
                     d: nat)
    requires DeleteRows(s, order, r) && DeletePass(s, sync, order, f5, n, r, raised) && Translatable(s)
    requires !AnyReported(r.listeners) && !AnyReported(r.legacy) && !AnyReported(r.policies)
    requires !AnyReported(r.pools) && !AnyReported(r.monitors) && !AnyReported(r.address)
    ensures !raised && AfterDeletes(s, order, r) == s
    ensures DeleteIssued(s, sync, order, f5, r, d) == DeleteCalls(s, sync, f5, order)
  {
    MarkedClean(s.listeners, r.listeners, ListenerInError);
    MarkDeletedKeeps(s, order, r.policies);
    MarkedClean(s.pools, r.pools, PoolInError);
    MarkedClean(s.monitors, r.monitors, MonitorInError);
    assert !Reported(r.address, 0);
    CleanFront(s, sync, order, f5, r, d);
    CleanBack(s, sync, r, d);
  }

  lemma CleanFront(s: Service, sync: bool, order: seq<Id>, f5: F5Policies, r: DeleteReport, d: nat)
    requires |r.listeners| == |s.listeners| && |r.legacy| == 1 && |r.policies| == |order| &&
             AfterVirtualsGone(s, r) == s
    requires !AnyReported(r.listeners) && !AnyReported(r.legacy) && !AnyReported(r.policies)
    ensures FrontDeleted(s, sync, order, f5, r, d) ==
            Deletes(VirtualEntries(s, sync, f5)) + Deletes([LegacyEntry(s)]) + Deletes(PolicyEntries(s, order))
  {
    IssuedAll(VirtualEntries(s, sync, f5), DeleteStage, r.listeners, d);
    IssuedAll([LegacyEntry(s)], DeleteStage, r.legacy, d);
    IssuedAll(PolicyEntries(s, order), DeleteStage, r.policies, d);
    Whole(VirtualEntries(s, sync, f5));
    Whole([LegacyEntry(s)]);
    Whole(PolicyEntries(s, order));
  }

  lemma CleanBack(q: Service, sync: bool, r: DeleteReport, d: nat)
    requires |r.pools| == |q.pools| && |r.monitors| == |q.monitors| && |r.address| == 1
    requires !AnyReported(r.pools) && !AnyReported(r.monitors) && !AnyReported(r.address)
    ensures BackDeleted(q, sync, r, d) ==
            Deletes(PoolEntries(q, sync)) + Deletes(MonitorEntries(q, sync)) + Deletes([AddressEntry(q, sync)])
  {
    MarkedClean(q.pools, r.pools, PoolInError);
    MarkedClean(q.monitors, r.monitors, MonitorInError);
    IssuedAll(PoolEntries(q, sync), DeleteStage, r.pools, d);
    IssuedAll(MonitorEntries(q, sync), DeleteStage, r.monitors, d);
    IssuedAll([AddressEntry(q, sync)], DeleteStage, r.address, d);
    Whole(PoolEntries(q, sync));
    Whole(MonitorEntries(q, sync));
    Whole([AddressEntry(q, sync)]);
  }

  lemma PlanGrouped(svc: Service, sync: bool, order: seq<Id>)
    ensures var f5 := Attached(svc, order);
            Plan(svc, sync, order) ==
            FirstCalls(svc, sync) + (Puts(PolicyEntries(svc, order)) + Puts(VirtualEntries(svc, sync, f5))) +
            DeleteCalls(svc, sync, f5, order)
  {
    var f5 := Attached(svc, order);
    GroupedSix(FirstCalls(svc, sync), Puts(PolicyEntries(svc, order)), Puts(VirtualEntries(svc, sync, f5)),
               Deletes(VirtualEntries(svc, sync, f5)), Deletes([LegacyEntry(svc)]), Deletes(PolicyEntries(svc, order)),
               Deletes(PoolEntries(svc, sync)), Deletes(MonitorEntries(svc, sync)), Deletes([AddressEntry(svc, sync)]));
  }

  lemma GroupedSix(x: seq<Op>, y: seq<Op>, z: seq<Op>, a: seq<Op>, b: seq<Op>, c: seq<Op>, d: seq<Op>, e: seq<Op>,
                   f: seq<Op>)
    ensures x + y + z + a + b + c + d + e + f == x + (y + z) + ((a + b + c) + (d + e + f))
  {
  }

  /** The calls of a pass in which none fails, on a device with that configuration: the plan,
      or, when an L7 policy cannot be translated, the calls before it. */
  function CleanCalls(svc: Service, sync: bool, order: seq<Id>, raised: bool, d: Device): seq<Op> {
    if raised then FirstCallsOn(svc, sync, d) else PlanOn(svc, sync, order, d)
  }

  /** No call failed: every device executed exactly those calls. */
  ghost predicate CleanPass(svc: Service, sync: bool, order: seq<Id>, before: seq<Device>, raised: bool,
                            after: seq<Device>)
  {
    && (raised <==> !Translatable(svc)) && |after| == |before|
    && forall d :: 0 <= d < |after| ==> after[d] == ExecAll(CleanCalls(svc, sync, order, raised, before[d]), before[d])
  }

  lemma CleanIssued(svc: Service, sync: bool, order: seq<Id>, before: seq<Device>, rep: Report, raised: bool, d: nat)
    requires PassReport(svc, sync, order, before, rep, raised) && Clean(rep) && d < |before|
    ensures (raised <==> !Translatable(svc)) && Outcome(svc, order, rep) == svc
    ensures PassIssued(svc, sync, order, rep, d) == CleanCalls(svc, sync, order, raised, before[d])
  {
    var c, r := rep.creates, rep.deletes;
    CleanFirst(svc, sync, before, c, d);
    StoppedEarlyIs(svc, rep);
    if StoppedEarly(svc, rep) {
      MarkedClean(svc.listeners, c.listeners, ListenerInError);
      NothingDeleted(svc, sync, order, F5Of(svc, order, c));
    } else {
      CleanLater(svc, sync, order, before, c, d);
      CleanDeletes(svc, sync, order, F5Of(svc, order, c), |before|, r, raised, d);
      PlanOnGrouped(svc, sync, order, before[d]);
    }
  }

  lemma PlanOnGrouped(svc: Service, sync: bool, order: seq<Id>, d: Device)
    ensures var f5 := Attached(svc, order);
            PlanOn(svc, sync, order, d) ==
            FirstCallsOn(svc, sync, d) + (Puts(PolicyEntries(svc, order)) + Puts(VirtualEntries(svc, sync, f5))) +
            DeleteCalls(svc, sync, f5, order)
  {
    var f5 := Attached(svc, order);
    PlanGrouped(svc, sync, order);
    FirstOfFour(if Acts(sync, svc.lbStatus) && Stale(svc, d) then [Delete(AddressEntry(svc, sync).obj)] else [],
                FirstCalls(svc, sync), Puts(PolicyEntries(svc, order)) + Puts(VirtualEntries(svc, sync, f5)),
                DeleteCalls(svc, sync, f5, order));
  }

  /** Without devices nothing tells a clean pass from another but the statuses. */
  lemma CleanStatuses(svc: Service, sync: bool, order: seq<Id>, rep: Report, raised: bool)
    requires PassReport(svc, sync, order, [], rep, raised) && Clean(rep)
    ensures (raised <==> !Translatable(svc)) && Outcome(svc, order, rep) == svc
  {
    var c, r := rep.creates, rep.deletes;
    assert !c.addressError;
    MarkedClean(svc.monitors, c.monitors, MonitorInError);
    MarkedClean(svc.pools, c.pools, PoolInError);
    StoppedEarlyIs(svc, rep);
    if StoppedEarly(svc, rep) {
      MarkedClean(svc.listeners, c.listeners, ListenerInError);
      NothingDeleted(svc, sync, order, F5Of(svc, order, c));
    } else {
      CleanLater(svc, sync, order, [], c, 0);
      CleanDeletes(svc, sync, order, F5Of(svc, order, c), 0, r, raised, 0);
    }
  }

  /** The specification of a pass meets the plan when no call fails. */
  lemma PassIsPlan(svc: Service, sync: bool, order: seq<Id>, before: seq<Device>, rep: Report, raised: bool,
                   after: seq<Device>)
    requires Pass(svc, sync, order, before, rep, raised, after) && Clean(rep)
    ensures CleanPass(svc, sync, order, before, raised, after) && Outcome(svc, order, rep) == svc
  {
    if before == [] {
      CleanStatuses(svc, sync, order, rep, raised);
    } else {
      CleanIssued(svc, sync, order, before, rep, raised, 0);
    }
    forall d: nat | d < |after|
      ensures after[d] == ExecAll(CleanCalls(svc, sync, order, raised, before[d]), before[d])
    {
      CleanIssued(svc, sync, order, before, rep, raised, d);
    }
  }
}
