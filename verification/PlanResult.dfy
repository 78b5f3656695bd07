/** Where a synchronisation ends: convergence, idempotence, and what it leaves alone. */
module PlanResult {
  import opened Lbaas
  import opened AssurePlan

  // ----- Calls over lists of entries

  lemma {:induction false} ExecAppend(a: seq<Op>, b: seq<Op>, d: Device)
    ensures ExecAll(a + b, d) == ExecAll(b, ExecAll(a, d))
  {
    if b == [] {
      assert a + b == a;
    } else {
      ExecAppend(a, b[..|b| - 1], d);
      assert (a + b)[..|a + b| - 1] == a + b[..|b| - 1];
    }
  }

  lemma {:induction false} PutsAppend(a: seq<Entry>, b: seq<Entry>)
    ensures Puts(a + b) == Puts(a) + Puts(b)
  {
    if b == [] {
      assert a + b == a;
    } else {
      PutsAppend(a, b[..|b| - 1]);
      assert (a + b)[..|a + b| - 1] == a + b[..|b| - 1];
    }
  }

  lemma {:induction false} DeletesAppend(a: seq<Entry>, b: seq<Entry>)
    ensures Deletes(a + b) == Deletes(a) + Deletes(b)
  {
    if b == [] {
      assert a + b == a;
    } else {
      DeletesAppend(a, b[..|b| - 1]);
      assert (a + b)[..|a + b| - 1] == a + b[..|b| - 1];
    }
  }

  /** The objects that the create stages leave on the device. */
  function PutMap(es: seq<Entry>): Device {
    if es == [] then map[]
    else
      var e := es[|es| - 1];
      if e.put then PutMap(es[..|es| - 1])[e.obj := e.value] else PutMap(es[..|es| - 1])
  }

  function DeleteSet(es: seq<Entry>): set<Obj> {
    if es == [] then {}
    else DeleteSet(es[..|es| - 1]) + if es[|es| - 1].del then {es[|es| - 1].obj} else {}
  }

  lemma OneCall(ops: seq<Op>, op: Op, d: Device)
    ensures ExecAll(ops + [op], d) == Exec(op, ExecAll(ops, d))
  {
    assert (ops + [op])[..|ops|] == ops;
  }

  lemma {:induction false} PutsResult(es: seq<Entry>, d: Device)
    ensures ExecAll(Puts(es), d) == d + PutMap(es)
  {
    if es != [] {
      var n := |es| - 1;
      PutsResult(es[..n], d);
      if es[n].put {
        OneCall(Puts(es[..n]), Put(es[n].obj, es[n].value), d);
      } else {
        assert Puts(es) == Puts(es[..n]);
      }
    }
  }

  lemma {:induction false} DeletesResult(es: seq<Entry>, d: Device)
    ensures ExecAll(Deletes(es), d) == d - DeleteSet(es)
  {
    if es != [] {
      var n := |es| - 1;
      DeletesResult(es[..n], d);
      if es[n].del {
        OneCall(Deletes(es[..n]), Delete(es[n].obj), d);
        assert d - DeleteSet(es[..n]) - {es[n].obj} == d - (DeleteSet(es[..n]) + {es[n].obj});
      } else {
        assert Deletes(es) == Deletes(es[..n]);
        assert DeleteSet(es) == DeleteSet(es[..n]);
      }
    }
  }

  /** Entries name distinct objects. */
  ghost predicate DistinctObjects(es: seq<Entry>) {
    forall i, j :: 0 <= i < j < |es| ==> es[i].obj != es[j].obj
  }

  lemma {:induction false} PutMapHas(es: seq<Entry>, o: Obj)
    ensures o in PutMap(es) <==> exists e :: e in es && e.put && e.obj == o
    ensures o in PutMap(es) ==> exists e :: e in es && e.put && e.obj == o && PutMap(es)[o] == e.value
  {
    if es != [] {
      PutMapHas(es[..|es| - 1], o);
      assert forall e :: e in es <==> e in es[..|es| - 1] || e == es[|es| - 1];
    }
  }

  lemma {:induction false} DeleteSetHas(es: seq<Entry>, o: Obj)
    ensures o in DeleteSet(es) <==> exists e :: e in es && e.del && e.obj == o
  {
    if es != [] {
      DeleteSetHas(es[..|es| - 1], o);
      assert forall e :: e in es <==> e in es[..|es| - 1] || e == es[|es| - 1];
    }
  }

  lemma SameEntry(es: seq<Entry>, e: Entry, f: Entry)
    requires DistinctObjects(es) && e in es && f in es && e.obj == f.obj
    ensures e == f
  {
  }

  /** Creating the entries `ps` and then deleting from `ds`. */
  lemma PutsThenDeletes(ps: seq<Entry>, ds: seq<Entry>, d: Device)
    ensures ExecAll(Puts(ps) + Deletes(ds), d) == d + PutMap(ps) - DeleteSet(ds)
  {
    ExecAppend(Puts(ps), Deletes(ds), d);
    PutsResult(ps, d);
    DeletesResult(ds, d + PutMap(ps));
  }

  // ----- The whole plan

  function AllEntries(svc: Service, sync: bool, order: seq<Id>): seq<Entry> {
    [AddressEntry(svc, sync)] + MonitorEntries(svc, sync) + PoolEntries(svc, sync) + PolicyEntries(svc, order) +
    VirtualEntries(svc, sync, Attached(svc, order))
  }

  function DeleteOrder(svc: Service, sync: bool, order: seq<Id>): seq<Entry> {
    VirtualEntries(svc, sync, Attached(svc, order)) + [LegacyEntry(svc)] + PolicyEntries(svc, order) +
    PoolEntries(svc, sync) + MonitorEntries(svc, sync) + [AddressEntry(svc, sync)]
  }

  lemma PutsOfFive(a: seq<Entry>, b: seq<Entry>, c: seq<Entry>, d: seq<Entry>, e: seq<Entry>)
    ensures Puts(a + b + c + d + e) == Puts(a) + Puts(b) + Puts(c) + Puts(d) + Puts(e)
  {
    PutsAppend(a, b);
    PutsAppend(a + b, c);
    PutsAppend(a + b + c, d);
    PutsAppend(a + b + c + d, e);
  }

  lemma DeletesOfSix(a: seq<Entry>, b: seq<Entry>, c: seq<Entry>, d: seq<Entry>, e: seq<Entry>, f: seq<Entry>)
    ensures Deletes(a + b + c + d + e + f) == Deletes(a) + Deletes(b) + Deletes(c) + Deletes(d) + Deletes(e) +
            Deletes(f)
  {
    DeletesAppend(a, b);
    DeletesAppend(a + b, c);
    DeletesAppend(a + b + c, d);
    DeletesAppend(a + b + c + d, e);
    DeletesAppend(a + b + c + d + e, f);
  }

  lemma Regroup(x: seq<Op>, a: seq<Op>, b: seq<Op>, c: seq<Op>, d: seq<Op>, e: seq<Op>, f: seq<Op>)
    ensures x + a + b + c + d + e + f == x + (a + b + c + d + e + f)
  {
  }

  lemma PlanShape(svc: Service, sync: bool, order: seq<Id>)
    ensures Plan(svc, sync, order) == Puts(AllEntries(svc, sync, order)) + Deletes(DeleteOrder(svc, sync, order))
  {
    var v, l, q := VirtualEntries(svc, sync, Attached(svc, order)), [LegacyEntry(svc)], PolicyEntries(svc, order);
    var p, m, a := PoolEntries(svc, sync), MonitorEntries(svc, sync), [AddressEntry(svc, sync)];
    PutsOfFive(a, m, p, q, v);
    DeletesOfSix(v, l, q, p, m, a);
    Regroup(Puts(a) + Puts(m) + Puts(p) + Puts(q) + Puts(v),
            Deletes(v), Deletes(l), Deletes(q), Deletes(p), Deletes(m), Deletes(a));
  }

  lemma PlanEnds(svc: Service, sync: bool, order: seq<Id>, d: Device)
    ensures ExecAll(Plan(svc, sync, order), d) ==
            d + PutMap(AllEntries(svc, sync, order)) - DeleteSet(DeleteOrder(svc, sync, order))
  {
    PlanShape(svc, sync, order);
    PutsThenDeletes(AllEntries(svc, sync, order), DeleteOrder(svc, sync, order), d);
  }

  lemma DeleteFirst(op: Op, ops: seq<Op>, d: Device)
    ensures ExecAll([op] + ops, d) == ExecAll(ops, Exec(op, d))
  {
    ExecAppend([op], ops, d);
    assert [op][..0] == [] && ExecAll([], d) == d;
  }

  lemma FirstIsPut(es: seq<Entry>)
    requires es != [] && es[0].put
    ensures es[0].obj in PutMap(es)
  {
    assert es[0] in es;
    PutMapHas(es, es[0].obj);
  }

  lemma PutOver(d: Device, p: Device, q: set<Obj>, o: Obj)
    requires o in p
    ensures d - {o} + p - q == d + p - q
  {
  }

  /** Replacing a stale address does not change where the plan ends. */
  lemma PlanOnEnds(svc: Service, sync: bool, order: seq<Id>, d: Device)
    ensures ExecAll(PlanOn(svc, sync, order, d), d) == ExecAll(Plan(svc, sync, order), d)
  {
    var e, es, ds := AddressEntry(svc, sync), AllEntries(svc, sync, order), DeleteSet(DeleteOrder(svc, sync, order));
    if Acts(sync, svc.lbStatus) && Stale(svc, d) {
      DeleteFirst(Delete(e.obj), Plan(svc, sync, order), d);
      PlanEnds(svc, sync, order, d);
      PlanEnds(svc, sync, order, d - {e.obj});
      assert es[0] == e;
      FirstIsPut(es);
      PutOver(d, PutMap(es), ds, e.obj);
    } else {
      NothingFirst(Plan(svc, sync, order));
    }
  }

  lemma NothingFirst(ops: seq<Op>)
    ensures [] + ops == ops
  {
  }

  ghost predicate DistinctIds(svc: Service, order: seq<Id>) {
    && (forall i, j :: 0 <= i < j < |svc.monitors| ==> svc.monitors[i].id != svc.monitors[j].id)
    && (forall i, j :: 0 <= i < j < |svc.pools| ==> svc.pools[i].id != svc.pools[j].id)
    && (forall i, j :: 0 <= i < j < |svc.listeners| ==> svc.listeners[i].id != svc.listeners[j].id)
    && (forall i, j :: 0 <= i < j < |order| ==> order[i] != order[j])
  }

  lemma WrapperNameInjective(folder: string, a: Id, b: Id)
    ensures WrapperName(folder, a) == WrapperName(folder, b) ==> a == b
    ensures WrapperName(folder, a) != LegacyName(folder)
  {
    assert ("wrapper_policy_" + a)[|"wrapper_policy_"|..] == a;
    assert ("wrapper_policy_" + b)[|"wrapper_policy_"|..] == b;
  }

  ghost predicate OfKind(es: seq<Entry>, k: Kind) {
    forall i :: 0 <= i < |es| ==> es[i].obj.kind == k
  }

  lemma DistinctOfFive(a: seq<Entry>, m: seq<Entry>, p: seq<Entry>, q: seq<Entry>, v: seq<Entry>)
    requires DistinctObjects(a) && DistinctObjects(m) && DistinctObjects(p) && DistinctObjects(q) && DistinctObjects(v)
    requires OfKind(a, AddressKind) && OfKind(m, MonitorKind) && OfKind(p, PoolKind)
    requires OfKind(q, PolicyKind) && OfKind(v, VirtualKind)
    ensures DistinctObjects(a + m + p + q + v)
  {
    var am, amp, ampq := a + m, a + m + p, a + m + p + q;
    assert DistinctObjects(am) && forall i :: 0 <= i < |am| ==> am[i].obj.kind in {AddressKind, MonitorKind};
    assert DistinctObjects(amp) && forall i :: 0 <= i < |amp| ==>
           amp[i].obj.kind in {AddressKind, MonitorKind, PoolKind};
    assert DistinctObjects(ampq) && forall i :: 0 <= i < |ampq| ==> ampq[i].obj.kind != VirtualKind;
  }

  lemma DistinctEntries(svc: Service, sync: bool, order: seq<Id>)
    requires DistinctIds(svc, order)
    ensures DistinctObjects(AllEntries(svc, sync, order))
  {
    var q := PolicyEntries(svc, order);
    forall i, j | 0 <= i < j < |order|
      ensures q[i].obj != q[j].obj
    {
      WrapperNameInjective(svc.folder, order[i], order[j]);
    }
    DistinctOfFive([AddressEntry(svc, sync)], MonitorEntries(svc, sync), PoolEntries(svc, sync), q,
                   VirtualEntries(svc, sync, Attached(svc, order)));
  }

  /** Deletes go through the entries that are put, and the legacy wrapper policy besides. */
  lemma DeleteOrderHas(svc: Service, sync: bool, order: seq<Id>, e: Entry)
    ensures e in DeleteOrder(svc, sync, order) <==> e == LegacyEntry(svc) || e in AllEntries(svc, sync, order)
  {
    SameElements([AddressEntry(svc, sync)], MonitorEntries(svc, sync), PoolEntries(svc, sync),
                 PolicyEntries(svc, order), VirtualEntries(svc, sync, Attached(svc, order)), LegacyEntry(svc), e);
  }

  lemma SameElements(a: seq<Entry>, m: seq<Entry>, p: seq<Entry>, q: seq<Entry>, v: seq<Entry>, l: Entry, e: Entry)
    ensures e in v + [l] + q + p + m + a <==> e == l || e in a + m + p + q + v
  {
  }

  /** The object of an entry is not the legacy wrapper policy. */
  lemma NotLegacy(svc: Service, sync: bool, order: seq<Id>, e: Entry)
    requires e in AllEntries(svc, sync, order)
    ensures e.obj != LegacyEntry(svc).obj
  {
    forall id {
      WrapperNameInjective(svc.folder, id, id);
    }
  }

  // ----- Convergence, idempotence, frame

  /** One entry after the plan: present with its value, gone, or left as it was. */
  lemma EntryConverges(svc: Service, sync: bool, order: seq<Id>, d: Device, e: Entry)
    requires DistinctIds(svc, order) && e in AllEntries(svc, sync, order)
    ensures var after := ExecAll(Plan(svc, sync, order), d);
            && (e.del ==> e.obj !in after)
            && (e.put && !e.del ==> e.obj in after && after[e.obj] == e.value)
            && (!e.put && !e.del ==> (e.obj in after <==> e.obj in d) && (e.obj in d ==> after[e.obj] == d[e.obj]))
  {
    PlanEnds(svc, sync, order, d);
    DistinctEntries(svc, sync, order);
    PutMapHas(AllEntries(svc, sync, order), e.obj);
    DeleteSetHas(DeleteOrder(svc, sync, order), e.obj);
    NotLegacy(svc, sync, order, e);
    forall f: Entry | f.obj == e.obj
      ensures f in AllEntries(svc, sync, order) ==> f == e
      ensures f in DeleteOrder(svc, sync, order) ==> f == e
      ensures e in DeleteOrder(svc, sync, order)
    {
      DeleteOrderHas(svc, sync, order, f);
      DeleteOrderHas(svc, sync, order, e);
      if f in AllEntries(svc, sync, order) {
        SameEntry(AllEntries(svc, sync, order), e, f);
      }
    }
  }

  // ----- What the service definition asks for

  /** The pool's monitor is monitor `j` of the service. */
  ghost predicate HasMonitor(svc: Service, p: Pool, j: nat) {
    && j < |svc.monitors| && p.monitorId == Some(svc.monitors[j].id) && svc.monitors[j].status != PendingDelete
  }

  /** The listener's default pool is pool `j` of the service. */
  ghost predicate HasPool(svc: Service, l: Listener, j: nat) {
    && j < |svc.pools| && l.defaultPoolId == Some(svc.pools[j].id) && svc.pools[j].status != PendingDelete
  }

  /** The pool as the service defines it: with its monitor, unless that is being deleted or no
      monitor of the service. */
  ghost predicate PoolAsDefined(svc: Service, p: Pool, v: Value) {
    && v.PoolValue?
    && (forall j: nat :: HasMonitor(svc, p, j) ==> v.monitor == Some(Name(svc.folder, svc.monitors[j].id)))
    && ((forall j: nat :: !HasMonitor(svc, p, j)) ==> v.monitor == None)
  }

  /** The virtual as the service defines it: with its default pool, unless that is being
      deleted or no pool of the service, and with its wrapper policy where that is attached. */
  ghost predicate VirtualAsDefined(svc: Service, l: Listener, attached: bool, v: Value) {
    && v.VirtualValue?
    && (forall j: nat :: HasPool(svc, l, j) ==> v.pool == Some(Name(svc.folder, svc.pools[j].id)))
    && ((forall j: nat :: !HasPool(svc, l, j)) ==> v.pool == None)
    && v.policies == if attached then [Name(svc.folder, "wrapper_policy_" + l.id)] else []
  }

  lemma {:induction false} FindsLiveMonitor(ms: seq<Monitor>, id: Id)
    ensures FindMonitor(ms, id).Some? <==> exists j :: 0 <= j < |ms| && ms[j].id == id && ms[j].status != PendingDelete
  {
    if ms != [] {
      FindsLiveMonitor(ms[1..], id);
      assert forall j :: 0 < j < |ms| ==> ms[j] == ms[1..][j - 1];
      assert forall j :: 0 <= j < |ms| - 1 ==> ms[1..][j] == ms[j + 1];
    }
  }

  lemma {:induction false} FindsPool(ps: seq<Pool>, j: nat)
    requires j < |ps| && forall i, k :: 0 <= i < k < |ps| ==> ps[i].id != ps[k].id
    ensures FindPool(ps, ps[j].id) == Some(ps[j])
  {
    if j > 0 {
      assert ps[1..][j - 1] == ps[j];
      FindsPool(ps[1..], j - 1);
    }
  }

  lemma {:induction false} FindsNoPool(ps: seq<Pool>, id: Id)
    requires forall k :: 0 <= k < |ps| ==> ps[k].id != id
    ensures FindPool(ps, id) == None
  {
    if ps != [] {
      FindsNoPool(ps[1..], id);
    }
  }

  lemma PoolValueIs(svc: Service, p: Pool)
    ensures PoolAsDefined(svc, p, PoolValue(MonitorRef(svc, p)))
  {
    if p.monitorId.Some? {
      FindsLiveMonitor(svc.monitors, p.monitorId.value);
      if FindMonitor(svc.monitors, p.monitorId.value).Some? {
        var j :| 0 <= j < |svc.monitors| && svc.monitors[j].id == p.monitorId.value &&
                 svc.monitors[j].status != PendingDelete;
        assert HasMonitor(svc, p, j);
      }
    }
  }

  lemma VirtualValueIs(svc: Service, l: Listener, f5: F5Policies)
    requires forall i, k :: 0 <= i < k < |svc.pools| ==> svc.pools[i].id != svc.pools[k].id
    ensures VirtualAsDefined(svc, l, l.id in f5 && RulesIn(f5[l.id]) != [], VirtualOf(svc, l, f5))
  {
    if l.defaultPoolId.Some? {
      if j: nat :| j < |svc.pools| && svc.pools[j].id == l.defaultPoolId.value {
        FindsPool(svc.pools, j);
        if svc.pools[j].status != PendingDelete {
          assert HasPool(svc, l, j);
        }
      } else {
        FindsNoPool(svc.pools, l.defaultPoolId.value);
      }
    }
  }

  /** Where a clean event leaves an object by its status: the event writes it, deletes it, or
      leaves it alone.  Only a synchronisation writes what is active or in error. */
  ghost predicate EndsByStatus(sync: bool, s: Status, o: Obj, before: Device, after: Device) {
    match s
    case PendingCreate => o in after
    case PendingUpdate => o in after
    case PendingDelete => o !in after
    case _ => if sync then o in after else (o in after <==> o in before) && (o in before ==> after[o] == before[o])
  }

  /** The event writes objects with this status. */
  ghost predicate Written(sync: bool, s: Status) {
    s == PendingCreate || s == PendingUpdate || (sync && (s == Active || s == Error))
  }

  /** After an event without failing calls a monitor, pool or listener of the service is on the
      device as its status says, and if it was written as the service defines it, whatever the
      device held before. */
  lemma MonitorsConverge(svc: Service, sync: bool, order: seq<Id>, d: Device, i: nat)
    requires DistinctIds(svc, order) && i < |svc.monitors|
    ensures var after, m := ExecAll(Plan(svc, sync, order), d), svc.monitors[i];
            EndsByStatus(sync, m.status, Obj(MonitorKind, Name(svc.folder, m.id)), d, after)
  {
    var es := MonitorEntries(svc, sync);
    assert es[i] in es;
    EntryConverges(svc, sync, order, d, es[i]);
  }

  lemma PoolsConverge(svc: Service, sync: bool, order: seq<Id>, d: Device, i: nat)
    requires DistinctIds(svc, order) && i < |svc.pools|
    ensures var after, p := ExecAll(Plan(svc, sync, order), d), svc.pools[i];
            var o := Obj(PoolKind, Name(svc.folder, p.id));
            EndsByStatus(sync, p.status, o, d, after) && (Written(sync, p.status) ==> PoolAsDefined(svc, p, after[o]))
  {
    var es := PoolEntries(svc, sync);
    assert es[i] in es;
    EntryConverges(svc, sync, order, d, es[i]);
    PoolValueIs(svc, svc.pools[i]);
  }

  lemma ListenersConverge(svc: Service, sync: bool, order: seq<Id>, d: Device, i: nat)
    requires DistinctIds(svc, order) && i < |svc.listeners|
    ensures var after, l := ExecAll(Plan(svc, sync, order), d), svc.listeners[i];
            var o := Obj(VirtualKind, Name(svc.folder, l.id));
            && EndsByStatus(sync, l.status, o, d, after)
            && (Written(sync, l.status) ==>
                  VirtualAsDefined(svc, l, l.id in order && WrapperRules(svc, l.id) != [], after[o]))
  {
    var es := VirtualEntries(svc, sync, Attached(svc, order));
    assert es[i] in es;
    EntryConverges(svc, sync, order, d, es[i]);
    VirtualValueIs(svc, svc.listeners[i], Attached(svc, order));
  }

  /** So is the virtual address, with the address that the service gives it. */
  lemma AddressConverges(svc: Service, sync: bool, order: seq<Id>, d: Device)
    requires DistinctIds(svc, order)
    ensures var after, o := ExecAll(Plan(svc, sync, order), d), Obj(AddressKind, Name(svc.folder, svc.lbId));
            EndsByStatus(sync, svc.lbStatus, o, d, after) &&
            (Written(sync, svc.lbStatus) ==> after[o] == AddressValue(svc.vip))
  {
    var e := AddressEntry(svc, sync);
    assert AllEntries(svc, sync, order)[0] == e;
    EntryConverges(svc, sync, order, d, e);
  }

  /** A listener with L7 policies ends with its wrapper policy holding the translation, and
      without one when the translation is empty; when it refers to none of the service's
      policies, its wrapper policy is left as it was.  The legacy wrapper policy is gone. */
  lemma PoliciesConverge(svc: Service, sync: bool, order: seq<Id>, d: Device, i: nat)
    requires DistinctIds(svc, order) && i < |order|
    ensures var after := ExecAll(Plan(svc, sync, order), d);
            var o := Obj(PolicyKind, Name(svc.folder, "wrapper_policy_" + order[i]));
            && (match PolicyFor(svc, order[i])
                case Wrapper(rs) => (o in after <==> rs != []) && (o in after ==> after[o] == PolicyValue(rs))
                case NoPolicy => (o in after <==> o in d) && (o in after ==> after[o] == d[o]))
            && Obj(PolicyKind, Name(svc.folder, "wrapper_policy")) !in after
  {
    var es := PolicyEntries(svc, order);
    assert es[i] in es;
    EntryConverges(svc, sync, order, d, es[i]);
    LegacyGone(svc, sync, order, d);
  }

  lemma LegacyGone(svc: Service, sync: bool, order: seq<Id>, d: Device)
    ensures Obj(PolicyKind, Name(svc.folder, "wrapper_policy")) !in ExecAll(Plan(svc, sync, order), d)
  {
    PlanEnds(svc, sync, order, d);
    DeleteOrderHas(svc, sync, order, LegacyEntry(svc));
    DeleteSetHas(DeleteOrder(svc, sync, order), LegacyEntry(svc).obj);
  }

  /** A second pass changes nothing. */
  lemma Idempotence(svc: Service, sync: bool, order: seq<Id>, d: Device)
    ensures var once := ExecAll(Plan(svc, sync, order), d);
            ExecAll(Plan(svc, sync, order), once) == once
  {
    var once := ExecAll(Plan(svc, sync, order), d);
    PlanEnds(svc, sync, order, d);
    PlanEnds(svc, sync, order, once);
    PutDeleteTwice(d, PutMap(AllEntries(svc, sync, order)), DeleteSet(DeleteOrder(svc, sync, order)));
  }

  lemma PutDeleteTwice(d: Device, p: Device, q: set<Obj>)
    ensures d + p - q + p - q == d + p - q
  {
  }

  /** The service names the object. */
  ghost predicate Names(svc: Service, order: seq<Id>, o: Obj) {
    || o == Obj(AddressKind, Name(svc.folder, svc.lbId))
    || (exists i :: 0 <= i < |svc.monitors| && o == Obj(MonitorKind, Name(svc.folder, svc.monitors[i].id)))
    || (exists i :: 0 <= i < |svc.pools| && o == Obj(PoolKind, Name(svc.folder, svc.pools[i].id)))
    || (exists i :: 0 <= i < |svc.listeners| && o == Obj(VirtualKind, Name(svc.folder, svc.listeners[i].id)))
    || (exists i :: 0 <= i < |order| && o == Obj(PolicyKind, Name(svc.folder, "wrapper_policy_" + order[i])))
    || o == Obj(PolicyKind, Name(svc.folder, "wrapper_policy"))
  }

  lemma InOneOf(a: seq<Entry>, m: seq<Entry>, p: seq<Entry>, q: seq<Entry>, v: seq<Entry>, e: Entry)
    ensures e in a + m + p + q + v <==> e in a || e in m || e in p || e in q || e in v
  {
  }

  lemma EntriesAreNamed(svc: Service, sync: bool, order: seq<Id>, e: Entry)
    requires e in AllEntries(svc, sync, order)
    ensures Names(svc, order, e.obj)
  {
    var m, p, q := MonitorEntries(svc, sync), PoolEntries(svc, sync), PolicyEntries(svc, order);
    var v := VirtualEntries(svc, sync, Attached(svc, order));
    InOneOf([AddressEntry(svc, sync)], m, p, q, v, e);
    if e in m {
      var i :| 0 <= i < |m| && m[i] == e;
    } else if e in p {
      var i :| 0 <= i < |p| && p[i] == e;
    } else if e in q {
      var i :| 0 <= i < |q| && q[i] == e;
    } else if e in v {
      var i :| 0 <= i < |v| && v[i] == e;
    }
  }

  /** Objects that the service does not name stay as they were. */
  lemma Frame(svc: Service, sync: bool, order: seq<Id>, d: Device, o: Obj)
    requires !Names(svc, order, o)
    ensures var after := ExecAll(Plan(svc, sync, order), d);
            (o in after <==> o in d) && (o in d ==> after[o] == d[o])
  {
    PlanEnds(svc, sync, order, d);
    PutMapHas(AllEntries(svc, sync, order), o);
    DeleteSetHas(DeleteOrder(svc, sync, order), o);
    forall e
      ensures e in AllEntries(svc, sync, order) ==> e.obj != o
      ensures e in DeleteOrder(svc, sync, order) ==> e.obj != o
    {
      DeleteOrderHas(svc, sync, order, e);
      if e in AllEntries(svc, sync, order) {
        EntriesAreNamed(svc, sync, order, e);
      }
    }
  }
}
