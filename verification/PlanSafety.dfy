/** Referential integrity at every intermediate device state of a synchronisation.

    The stages put an object only after everything it refers to, and delete an object only
    when nothing refers to it any more.  The second half depends on what else the device
    holds, and the exact condition is proved. */
module PlanSafety {
  import opened Lbaas
  import opened AssurePlan
  import opened PlanResult
  import L7 = L7Policy

  /** The objects that a value refers to. */
  function Refs(v: Value): set<Obj> {
    match v
    case AddressValue(_) => {}
    case MonitorValue => {}
    case PoolValue(m) => if m.Some? then {Obj(MonitorKind, m.value)} else {}
    case PolicyValue(rs) => set r | r in rs && r.action.pool.Some? :: Obj(PoolKind, r.action.pool.value)
    case VirtualValue(p, ns) =>
      (if p.Some? then {Obj(PoolKind, p.value)} else {}) + set n | n in ns :: Obj(PolicyKind, n)
  }

  predicate Fits(k: Kind, v: Value) {
    match k
    case AddressKind => v.AddressValue?
    case MonitorKind => v.MonitorValue?
    case PoolKind => v.PoolValue?
    case PolicyKind => v.PolicyValue?
    case VirtualKind => v.VirtualValue?
  }

  ghost predicate Typed(d: Device) {
    forall o :: o in d ==> Fits(o.kind, d[o])
  }

  /** No dangling references; the legacy wrapper policy `legacy` is not considered. */
  ghost predicate Integrity(d: Device, legacy: Obj) {
    forall o, r :: o in d && r in Refs(d[o]) ==> r == legacy || r in d
  }

  /** Integrity is that pools and wrapper policies of virtuals, redirect pools of policies and
      monitors of pools exist, all but the legacy policy. */
  lemma IntegrityMeans(d: Device, legacy: Obj)
    requires legacy.kind == PolicyKind
    ensures Integrity(d, legacy) <==>
            forall o :: o in d ==>
              match d[o]
              case AddressValue(_) => true
              case MonitorValue => true
              case PoolValue(m) => m.Some? ==> Obj(MonitorKind, m.value) in d
              case PolicyValue(rs) =>
                forall r :: r in rs && r.action.pool.Some? ==> Obj(PoolKind, r.action.pool.value) in d
              case VirtualValue(p, ns) =>
                && (p.Some? ==> Obj(PoolKind, p.value) in d)
                && forall n :: n in ns ==> Obj(PolicyKind, n) == legacy || Obj(PolicyKind, n) in d
  {
    forall o | o in d
      ensures (forall r :: r in Refs(d[o]) ==> r == legacy || r in d) <==>
              match d[o]
              case AddressValue(_) => true
              case MonitorValue => true
              case PoolValue(m) => m.Some? ==> Obj(MonitorKind, m.value) in d
              case PolicyValue(rs) =>
                forall r :: r in rs && r.action.pool.Some? ==> Obj(PoolKind, r.action.pool.value) in d
              case VirtualValue(p, ns) =>
                && (p.Some? ==> Obj(PoolKind, p.value) in d)
                && forall n :: n in ns ==> Obj(PolicyKind, n) == legacy || Obj(PolicyKind, n) in d
    {
      RefsResolve(d, legacy, d[o]);
    }
  }

  lemma RefsResolve(d: Device, legacy: Obj, v: Value)
    requires legacy.kind == PolicyKind
    ensures (forall r :: r in Refs(v) ==> r == legacy || r in d) <==>
            match v
            case AddressValue(_) => true
            case MonitorValue => true
            case PoolValue(m) => m.Some? ==> Obj(MonitorKind, m.value) in d
            case PolicyValue(rs) =>
              forall r :: r in rs && r.action.pool.Some? ==> Obj(PoolKind, r.action.pool.value) in d
            case VirtualValue(p, ns) =>
              && (p.Some? ==> Obj(PoolKind, p.value) in d)
              && forall n :: n in ns ==> Obj(PolicyKind, n) == legacy || Obj(PolicyKind, n) in d
  {
    match v
    case PolicyValue(rs) =>
      forall r | r in rs && r.action.pool.Some?
        ensures Obj(PoolKind, r.action.pool.value) in Refs(v)
      {
      }
    case VirtualValue(p, ns) =>
      forall n | n in ns
        ensures Obj(PolicyKind, n) in Refs(v)
      {
      }
    case _ =>
  }

  ghost predicate Referenced(d: Device, o: Obj) {
    exists x :: x in d && o in Refs(d[x])
  }

  /** The device would accept the call: new references resolve, deleted objects are unused. */
  ghost predicate Safe(op: Op, d: Device, legacy: Obj) {
    match op
    case Put(o, v) => forall r :: r in Refs(v) ==> r == legacy || r in d
    case Delete(o) => o == legacy || !Referenced(d, o)
  }

  ghost predicate AllSafe(ops: seq<Op>, d: Device, legacy: Obj) {
    forall k :: 0 <= k < |ops| ==> Safe(ops[k], ExecAll(ops[..k], d), legacy)
  }

  lemma SafeKeepsIntegrity(op: Op, d: Device, legacy: Obj)
    requires Integrity(d, legacy) && Safe(op, d, legacy)
    ensures Integrity(Exec(op, d), legacy)
  {
    var e := Exec(op, d);
    forall o, r | o in e && r in Refs(e[o])
      ensures r == legacy || r in e
    {
      if op.Delete? && r == op.obj {
        assert o in d && r in Refs(d[o]);
        assert Referenced(d, r);
      }
    }
  }

  lemma {:induction false} SafeRunKeepsIntegrity(ops: seq<Op>, d: Device, legacy: Obj, k: nat)
    requires Integrity(d, legacy) && AllSafe(ops, d, legacy) && k <= |ops|
    ensures Integrity(ExecAll(ops[..k], d), legacy)
  {
    if k > 0 {
      SafeRunKeepsIntegrity(ops, d, legacy, k - 1);
      assert ops[..k] == ops[..k - 1] + [ops[k - 1]];
      OneCall(ops[..k - 1], ops[k - 1], d);
      SafeKeepsIntegrity(ops[k - 1], ExecAll(ops[..k - 1], d), legacy);
    }
  }

  lemma AllSafeAppend(a: seq<Op>, b: seq<Op>, d: Device, legacy: Obj)
    requires AllSafe(a, d, legacy) && AllSafe(b, ExecAll(a, d), legacy)
    ensures AllSafe(a + b, d, legacy)
  {
    forall k | 0 <= k < |a + b|
      ensures Safe((a + b)[k], ExecAll((a + b)[..k], d), legacy)
    {
      if k < |a| {
        assert (a + b)[..k] == a[..k];
      } else {
        assert (a + b)[..k] == a + b[..k - |a|];
        ExecAppend(a, b[..k - |a|], d);
      }
    }
  }

  // ----- One stage

  /** Everything a put entry refers to is there already. */
  ghost predicate Resolved(es: seq<Entry>, d: Device, legacy: Obj) {
    forall e, r :: e in es && e.put && r in Refs(e.value) ==> r == legacy || r in d
  }

  lemma {:induction false} PutsAreSafe(es: seq<Entry>, d: Device, legacy: Obj)
    requires Resolved(es, d, legacy)
    ensures AllSafe(Puts(es), d, legacy)
  {
    if es != [] {
      var n := |es| - 1;
      PutsAreSafe(es[..n], d, legacy);
      if es[n].put {
        var op := Put(es[n].obj, es[n].value);
        PutsResult(es[..n], d);
        assert es[n] in es;
        SafeSnoc(Puts(es[..n]), op, d, legacy);
      } else {
        assert Puts(es) == Puts(es[..n]);
      }
    }
  }

  lemma SafeSnoc(ops: seq<Op>, op: Op, d: Device, legacy: Obj)
    requires AllSafe(ops, d, legacy) && Safe(op, ExecAll(ops, d), legacy)
    ensures AllSafe(ops + [op], d, legacy)
  {
    assert forall k :: 0 <= k < |ops| ==> (ops + [op])[..k] == ops[..k];
    assert (ops + [op])[..|ops|] == ops;
  }

  /** No entry to delete is referred to. */
  ghost predicate Unused(es: seq<Entry>, d: Device, legacy: Obj) {
    forall e :: e in es && e.del ==> e.obj == legacy || !Referenced(d, e.obj)
  }

  lemma {:induction false} DeletesAreSafe(es: seq<Entry>, d: Device, legacy: Obj)
    requires Unused(es, d, legacy)
    ensures AllSafe(Deletes(es), d, legacy)
  {
    if es != [] {
      var n := |es| - 1;
      DeletesAreSafe(es[..n], d, legacy);
      if es[n].del {
        DeletesResult(es[..n], d);
        assert es[n] in es;
        assert forall o :: Referenced(d - DeleteSet(es[..n]), o) ==> Referenced(d, o);
        SafeSnoc(Deletes(es[..n]), Delete(es[n].obj), d, legacy);
      } else {
        assert Deletes(es) == Deletes(es[..n]);
      }
    }
  }

  // ----- The delete stages

  ghost predicate Doomed(es: seq<Entry>, o: Obj) {
    exists e :: e in es && e.del && e.obj == o
  }

  /** The service puts or deletes the object. */
  ghost predicate Handled(es: seq<Entry>, o: Obj) {
    exists e :: e in es && e.obj == o && (e.put || e.del)
  }

  /** Every object of the device that refers to one being deleted is handled by the service
      itself (or is the legacy policy). */
  ghost predicate Closed(es: seq<Entry>, d: Device, legacy: Obj) {
    forall x, r :: x in d && r in Refs(d[x]) && Doomed(es, r) && r != legacy ==>
      x == legacy || Handled(es, x)
  }

  /** What a synchronisation's entries satisfy. */
  ghost predicate SyncEntries(es: seq<Entry>, legacy: Obj) {
    && DistinctObjects(es)
    && (forall e :: e in es ==> !(e.put && e.del) && Fits(e.obj.kind, e.value) && e.obj != legacy)
    && (forall e, r :: e in es && e.put && r in Refs(e.value) ==> !Doomed(es, r))
    && legacy.kind == PolicyKind
  }

  /** Position of a kind in the order of deletions; references go from lower to higher. */
  function Rank(k: Kind): nat {
    match k
    case VirtualKind => 0
    case PolicyKind => 1
    case PoolKind => 2
    case MonitorKind => 3
    case AddressKind => 4
  }

  lemma RefsGoUp(k: Kind, v: Value, r: Obj)
    ensures Fits(k, v) && r in Refs(v) ==> Rank(k) < Rank(r.kind)
  {
  }

  /** The device when deletion reaches rank `k`: everything put, lower ranks already deleted. */
  ghost predicate AtRank(es: seq<Entry>, d: Device, s: Device, legacy: Obj, k: nat) {
    && (forall x :: x in s ==>
          || (exists e :: e in es && e.put && e.obj == x && s[x] == e.value)
          || (x in d && s[x] == d[x] && forall e :: e in es && e.put ==> e.obj != x))
    && (forall x :: x in s && Rank(x.kind) < k ==> !Doomed(es, x) && x != legacy)
  }

  lemma NothingRefersToDoomed(es: seq<Entry>, d: Device, s: Device, legacy: Obj, o: Obj)
    requires SyncEntries(es, legacy) && Typed(d) && Closed(es, d, legacy)
    requires AtRank(es, d, s, legacy, Rank(o.kind)) && Doomed(es, o) && o != legacy
    ensures !Referenced(s, o)
  {
    forall x | x in s
      ensures o !in Refs(s[x])
    {
      RefsGoUp(x.kind, s[x], o);
      assert Handled(es, x) && (forall e :: e in es && e.put ==> e.obj != x) ==> Doomed(es, x);
    }
  }

  /** The stage has exactly the entries of its rank. */
  ghost predicate StageOf(es: seq<Entry>, stage: seq<Entry>, k: nat) {
    forall e :: e in stage <==> e in es && Rank(e.obj.kind) == k
  }

  lemma StageIsUnused(es: seq<Entry>, stage: seq<Entry>, d: Device, s: Device, legacy: Obj, k: nat)
    requires SyncEntries(es, legacy) && Typed(d) && Closed(es, d, legacy) && AtRank(es, d, s, legacy, k)
    requires StageOf(es, stage, k)
    ensures Unused(stage, s, legacy)
  {
    forall e | e in stage && e.del
      ensures e.obj == legacy || !Referenced(s, e.obj)
    {
      NothingRefersToDoomed(es, d, s, legacy, e.obj);
    }
  }

  lemma AtRankStart(es: seq<Entry>, d: Device, legacy: Obj)
    ensures AtRank(es, d, d + PutMap(es), legacy, 0)
  {
    var s := d + PutMap(es);
    forall x | x in s
      ensures || (exists e :: e in es && e.put && e.obj == x && s[x] == e.value)
              || (x in d && s[x] == d[x] && forall e :: e in es && e.put ==> e.obj != x)
    {
      PutMapHas(es, x);
    }
  }

  /** A stage removes the doomed objects of its rank. */
  lemma AtRankNext(es: seq<Entry>, stage: seq<Entry>, d: Device, s: Device, legacy: Obj, k: nat)
    requires AtRank(es, d, s, legacy, k) && StageOf(es, stage, k)
    requires Rank(legacy.kind) == k ==> legacy !in s
    ensures AtRank(es, d, s - DeleteSet(stage), legacy, k + 1)
  {
    var t := s - DeleteSet(stage);
    forall x | x in t && Rank(x.kind) < k + 1
      ensures !Doomed(es, x) && x != legacy
    {
      DeleteSetHas(stage, x);
    }
  }

  lemma AtRankLess(es: seq<Entry>, d: Device, s: Device, legacy: Obj, k: nat, l: Entry)
    requires AtRank(es, d, s, legacy, k) && l.del
    ensures DeleteSet([l]) == {l.obj} && AtRank(es, d, s - DeleteSet([l]), legacy, k)
  {
    assert [l][..0] == [];
  }

  /** One delete stage: its objects are unused, and the next rank is reached. */
  lemma DeleteStage(es: seq<Entry>, stage: seq<Entry>, d: Device, s: Device, legacy: Obj, k: nat)
    requires SyncEntries(es, legacy) && Typed(d) && Closed(es, d, legacy) && AtRank(es, d, s, legacy, k)
    requires StageOf(es, stage, k) && (Rank(legacy.kind) == k ==> legacy !in s)
    ensures Unused(stage, s, legacy) && AtRank(es, d, s - DeleteSet(stage), legacy, k + 1)
  {
    StageIsUnused(es, stage, d, s, legacy, k);
    AtRankNext(es, stage, d, s, legacy, k);
  }

  /** The delete stages, in the order of the builder. */
  lemma DeleteStagesAreSafe(v: seq<Entry>, l: Entry, q: seq<Entry>, p: seq<Entry>, m: seq<Entry>, a: seq<Entry>,
                            es: seq<Entry>, d: Device)
    requires SyncEntries(es, l.obj) && Typed(d) && Closed(es, d, l.obj) && l.del
    requires StageOf(es, v, 0) && StageOf(es, q, 1) && StageOf(es, p, 2) && StageOf(es, m, 3) && StageOf(es, a, 4)
    ensures AllSafe(Deletes(v + [l] + q + p + m + a), d + PutMap(es), l.obj)
  {
    var s0 := d + PutMap(es);
    AtRankStart(es, d, l.obj);
    DeleteStage(es, v, d, s0, l.obj, 0);
    var s1 := s0 - DeleteSet(v);
    AtRankLess(es, d, s1, l.obj, 1, l);
    var s2 := s1 - DeleteSet([l]);
    DeleteStage(es, q, d, s2, l.obj, 1);
    var s3 := s2 - DeleteSet(q);
    DeleteStage(es, p, d, s3, l.obj, 2);
    var s4 := s3 - DeleteSet(p);
    DeleteStage(es, m, d, s4, l.obj, 3);
    var s5 := s4 - DeleteSet(m);
    DeleteStage(es, a, d, s5, l.obj, 4);
    SixDeleteStages(v, [l], q, p, m, a, s0, l.obj);
  }

  lemma StagesByKind(a: seq<Entry>, m: seq<Entry>, p: seq<Entry>, q: seq<Entry>, v: seq<Entry>)
    requires OfKind(v, VirtualKind) && OfKind(q, PolicyKind) && OfKind(p, PoolKind) && OfKind(m, MonitorKind)
    requires OfKind(a, AddressKind)
    ensures var es := a + m + p + q + v;
            StageOf(es, v, 0) && StageOf(es, q, 1) && StageOf(es, p, 2) && StageOf(es, m, 3) && StageOf(es, a, 4)
  {
    forall e
      ensures e in a + m + p + q + v <==> e in a || e in m || e in p || e in q || e in v
    {
      InOneOf(a, m, p, q, v, e);
    }
    assert forall e :: e in v ==> e.obj.kind == VirtualKind;
    assert forall e :: e in q ==> e.obj.kind == PolicyKind;
    assert forall e :: e in p ==> e.obj.kind == PoolKind;
    assert forall e :: e in m ==> e.obj.kind == MonitorKind;
    assert forall e :: e in a ==> e.obj.kind == AddressKind;
  }

  lemma SixDeleteStages(a: seq<Entry>, b: seq<Entry>, c: seq<Entry>, e: seq<Entry>, f: seq<Entry>, g: seq<Entry>,
                        d: Device, legacy: Obj)
    requires var d1 := d - DeleteSet(a);
             var d2 := d1 - DeleteSet(b);
             var d3 := d2 - DeleteSet(c);
             var d4 := d3 - DeleteSet(e);
             var d5 := d4 - DeleteSet(f);
             && Unused(a, d, legacy) && Unused(b, d1, legacy) && Unused(c, d2, legacy)
             && Unused(e, d3, legacy) && Unused(f, d4, legacy) && Unused(g, d5, legacy)
    ensures AllSafe(Deletes(a + b + c + e + f + g), d, legacy)
  {
    DeletesAreSafe(a, d, legacy);
    MoreDeletes(a, b, d, legacy);
    MoreDeletes(a + b, c, d, legacy);
    MoreDeletes(a + b + c, e, d, legacy);
    MoreDeletes(a + b + c + e, f, d, legacy);
    MoreDeletes(a + b + c + e + f, g, d, legacy);
  }

  lemma DeleteSetAppend(a: seq<Entry>, b: seq<Entry>)
    ensures DeleteSet(a + b) == DeleteSet(a) + DeleteSet(b)
  {
    forall o
      ensures o in DeleteSet(a + b) <==> o in DeleteSet(a) || o in DeleteSet(b)
    {
      DeleteSetHas(a + b, o);
      DeleteSetHas(a, o);
      DeleteSetHas(b, o);
    }
  }

  lemma MoreDeletes(a: seq<Entry>, b: seq<Entry>, d: Device, legacy: Obj)
    ensures d - DeleteSet(a + b) == d - DeleteSet(a) - DeleteSet(b)
    ensures AllSafe(Deletes(a), d, legacy) && Unused(b, d - DeleteSet(a), legacy) ==> AllSafe(Deletes(a + b), d, legacy)
  {
    DeleteSetAppend(a, b);
    if AllSafe(Deletes(a), d, legacy) && Unused(b, d - DeleteSet(a), legacy) {
      DeletesAppend(a, b);
      DeletesResult(a, d);
      DeletesAreSafe(b, d - DeleteSet(a), legacy);
      AllSafeAppend(Deletes(a), Deletes(b), d, legacy);
    }
  }

  // ----- The create stages

  lemma MorePuts(a: seq<Entry>, b: seq<Entry>, d: Device, legacy: Obj)
    requires AllSafe(Puts(a), d, legacy) && Resolved(b, d + PutMap(a), legacy)
    ensures AllSafe(Puts(a + b), d, legacy)
  {
    PutsAppend(a, b);
    PutsResult(a, d);
    PutsAreSafe(b, d + PutMap(a), legacy);
    AllSafeAppend(Puts(a), Puts(b), d, legacy);
  }

  lemma PutsAreThere(es: seq<Entry>, d: Device, e: Entry)
    requires e in es && e.put
    ensures e.obj in d + PutMap(es)
  {
    PutMapHas(es, e.obj);
  }

  lemma {:induction false} FoundMonitor(ms: seq<Monitor>, id: Id)
    ensures FindMonitor(ms, id).Some? ==>
              exists i :: 0 <= i < |ms| && ms[i].id == id && ms[i].status != PendingDelete
  {
    if ms != [] {
      FoundMonitor(ms[1..], id);
      if i :| 0 <= i < |ms| - 1 && ms[1..][i].id == id && ms[1..][i].status != PendingDelete {
        assert ms[i + 1] == ms[1..][i];
      }
    }
  }

  lemma {:induction false} FoundPool(ps: seq<Pool>, id: Id)
    ensures FindPool(ps, id).Some? ==> exists i :: 0 <= i < |ps| && ps[i] == FindPool(ps, id).value && ps[i].id == id
  {
    if ps != [] {
      FoundPool(ps[1..], id);
      if i :| 0 <= i < |ps| - 1 && FindPool(ps[1..], id).Some? && ps[1..][i] == FindPool(ps[1..], id).value {
        assert ps[i + 1] == ps[1..][i];
      }
    }
  }

  /** What a pool refers to is a monitor that the same synchronisation put. */
  lemma PoolRefsAreLive(svc: Service, p: Pool, r: Obj)
    requires r in Refs(PoolEntry(svc, true, p).value)
    ensures exists e :: e in MonitorEntries(svc, true) && e.put && e.obj == r
  {
    var id := p.monitorId.value;
    FoundMonitor(svc.monitors, id);
    var i :| 0 <= i < |svc.monitors| && svc.monitors[i].id == id && svc.monitors[i].status != PendingDelete;
    assert MonitorEntries(svc, true)[i] == MonitorEntry(svc, true, svc.monitors[i]);
  }

  /** What a virtual refers to is a pool or a wrapper policy that the same synchronisation put. */
  lemma VirtualRefsAreLive(svc: Service, order: seq<Id>, l: Listener, r: Obj)
    requires r in Refs(VirtualEntry(svc, true, Attached(svc, order), l).value)
    ensures exists e :: (e in PoolEntries(svc, true) || e in PolicyEntries(svc, order)) && e.put && e.obj == r
  {
    if r.kind == PoolKind {
      FoundPool(svc.pools, l.defaultPoolId.value);
      var i :| 0 <= i < |svc.pools| && svc.pools[i] == FindPool(svc.pools, l.defaultPoolId.value).value;
      assert PoolEntries(svc, true)[i] == PoolEntry(svc, true, svc.pools[i]);
    } else {
      assert l.id in order;
      var i :| 0 <= i < |order| && order[i] == l.id;
      assert PolicyEntries(svc, order)[i] == PolicyEntry(svc, l.id);
    }
  }

  /** Every live policy redirects to a pool that is not being deleted, and that exists once
      the pools of the service are put. */
  ghost predicate RedirectsResolve(svc: Service, order: seq<Id>, d: Device) {
    forall id, r :: id in order && r in Refs(PolicyValue(WrapperRules(svc, id))) ==>
      && !Doomed(PoolEntries(svc, true), r)
      && (r in d || exists e :: e in PoolEntries(svc, true) && e.put && e.obj == r)
  }

  lemma PoolsResolve(svc: Service, before: seq<Entry>, d: Device, legacy: Obj)
    requires forall f :: f in MonitorEntries(svc, true) ==> f in before
    ensures Resolved(PoolEntries(svc, true), d + PutMap(before), legacy)
  {
    var p := PoolEntries(svc, true);
    forall e, r | e in p && e.put && r in Refs(e.value)
      ensures r in d + PutMap(before)
    {
      var i :| 0 <= i < |p| && p[i] == e;
      PoolRefsAreLive(svc, svc.pools[i], r);
      var f :| f in MonitorEntries(svc, true) && f.put && f.obj == r;
      PutsAreThere(before, d, f);
    }
  }

  lemma PoliciesResolve(svc: Service, order: seq<Id>, before: seq<Entry>, d: Device, legacy: Obj)
    requires RedirectsResolve(svc, order, d) && forall f :: f in PoolEntries(svc, true) ==> f in before
    ensures Resolved(PolicyEntries(svc, order), d + PutMap(before), legacy)
  {
    var q := PolicyEntries(svc, order);
    forall e, r | e in q && e.put && r in Refs(e.value)
      ensures r in d + PutMap(before)
    {
      var i :| 0 <= i < |q| && q[i] == e;
      RedirectIsThere(svc, order, order[i], before, d, r);
    }
  }

  lemma RedirectIsThere(svc: Service, order: seq<Id>, id: Id, before: seq<Entry>, d: Device, r: Obj)
    requires RedirectsResolve(svc, order, d) && forall f :: f in PoolEntries(svc, true) ==> f in before
    requires id in order && r in Refs(PolicyValue(WrapperRules(svc, id)))
    ensures r in d + PutMap(before)
  {
    if r !in d {
      var f :| f in PoolEntries(svc, true) && f.put && f.obj == r;
      PutsAreThere(before, d, f);
    }
  }

  lemma VirtualsResolve(svc: Service, order: seq<Id>, before: seq<Entry>, d: Device, legacy: Obj)
    requires forall f :: f in PoolEntries(svc, true) || f in PolicyEntries(svc, order) ==> f in before
    ensures Resolved(VirtualEntries(svc, true, Attached(svc, order)), d + PutMap(before), legacy)
  {
    var v := VirtualEntries(svc, true, Attached(svc, order));
    forall e, r | e in v && e.put && r in Refs(e.value)
      ensures r in d + PutMap(before)
    {
      var i :| 0 <= i < |v| && v[i] == e;
      VirtualRefsAreLive(svc, order, svc.listeners[i], r);
      var f :| (f in PoolEntries(svc, true) || f in PolicyEntries(svc, order)) && f.put && f.obj == r;
      PutsAreThere(before, d, f);
    }
  }

  lemma CreateStagesAreSafe(svc: Service, order: seq<Id>, d: Device, legacy: Obj)
    requires RedirectsResolve(svc, order, d)
    ensures AllSafe(Puts(AllEntries(svc, true, order)), d, legacy)
  {
    var a, m, p := [AddressEntry(svc, true)], MonitorEntries(svc, true), PoolEntries(svc, true);
    var q, v := PolicyEntries(svc, order), VirtualEntries(svc, true, Attached(svc, order));
    PoolsResolve(svc, a + m, d, legacy);
    PoliciesResolve(svc, order, a + m + p, d, legacy);
    VirtualsResolve(svc, order, a + m + p + q, d, legacy);
    StagesInTurn(a, m, p, q, v, d, legacy);
  }

  lemma StagesInTurn(a: seq<Entry>, m: seq<Entry>, p: seq<Entry>, q: seq<Entry>, v: seq<Entry>, d: Device, legacy: Obj)
    requires Resolved(a, d, legacy) && Resolved(m, d + PutMap(a), legacy) && Resolved(p, d + PutMap(a + m), legacy)
    requires Resolved(q, d + PutMap(a + m + p), legacy) && Resolved(v, d + PutMap(a + m + p + q), legacy)
    ensures AllSafe(Puts(a + m + p + q + v), d, legacy)
  {
    PutsAreSafe(a, d, legacy);
    MorePuts(a, m, d, legacy);
    MorePuts(a + m, p, d, legacy);
    MorePuts(a + m + p, q, d, legacy);
    MorePuts(a + m + p + q, v, d, legacy);
  }

  // ----- The whole plan

  lemma EntryShape(svc: Service, order: seq<Id>, e: Entry)
    requires e in AllEntries(svc, true, order)
    ensures !(e.put && e.del) && Fits(e.obj.kind, e.value) && e.obj != LegacyEntry(svc).obj
  {
    NotLegacy(svc, true, order, e);
    InOneOf([AddressEntry(svc, true)], MonitorEntries(svc, true), PoolEntries(svc, true), PolicyEntries(svc, order),
            VirtualEntries(svc, true, Attached(svc, order)), e);
  }

  lemma PoolRefsAreNotDoomed(svc: Service, order: seq<Id>, e: Entry, r: Obj)
    requires DistinctIds(svc, order) && e in PoolEntries(svc, true) && r in Refs(e.value)
    ensures !Doomed(AllEntries(svc, true, order), r)
  {
    var p := PoolEntries(svc, true);
    var i :| 0 <= i < |p| && p[i] == e;
    PoolRefsAreLive(svc, svc.pools[i], r);
    var f :| f in MonitorEntries(svc, true) && f.put && f.obj == r;
    PutIsNotDoomed(svc, order, f);
  }

  lemma VirtualRefsAreNotDoomed(svc: Service, order: seq<Id>, e: Entry, r: Obj)
    requires DistinctIds(svc, order) && e in VirtualEntries(svc, true, Attached(svc, order)) && r in Refs(e.value)
    ensures !Doomed(AllEntries(svc, true, order), r)
  {
    var v := VirtualEntries(svc, true, Attached(svc, order));
    var i :| 0 <= i < |v| && v[i] == e;
    VirtualRefsAreLive(svc, order, svc.listeners[i], r);
    var f :| (f in PoolEntries(svc, true) || f in PolicyEntries(svc, order)) && f.put && f.obj == r;
    PutIsNotDoomed(svc, order, f);
  }

  lemma PolicyRefsAreNotDoomed(svc: Service, order: seq<Id>, d: Device, e: Entry, r: Obj)
    requires RedirectsResolve(svc, order, d) && e in PolicyEntries(svc, order) && r in Refs(e.value)
    ensures !Doomed(AllEntries(svc, true, order), r)
  {
    var q := PolicyEntries(svc, order);
    var i :| 0 <= i < |q| && q[i] == e;
    assert e.value == PolicyValue(WrapperRules(svc, order[i]));
    RedirectIsNotDoomed(svc, order, d, order[i], r);
  }

  lemma RedirectIsNotDoomed(svc: Service, order: seq<Id>, d: Device, id: Id, r: Obj)
    requires RedirectsResolve(svc, order, d) && id in order && r in Refs(PolicyValue(WrapperRules(svc, id)))
    ensures !Doomed(AllEntries(svc, true, order), r)
  {
    RedirectsArePools(WrapperRules(svc, id), r);
    assert !Doomed(PoolEntries(svc, true), r);
    PoolsAreDoomedAsPools(svc, order, r);
  }

  lemma RedirectsArePools(rs: seq<L7.Rule>, r: Obj)
    requires r in Refs(PolicyValue(rs))
    ensures r.kind == PoolKind
  {
  }

  lemma PutRefsAreNotDoomed(svc: Service, order: seq<Id>, d: Device, e: Entry, r: Obj)
    requires DistinctIds(svc, order) && RedirectsResolve(svc, order, d)
    requires e in AllEntries(svc, true, order) && e.put && r in Refs(e.value)
    ensures !Doomed(AllEntries(svc, true, order), r)
  {
    InOneOf([AddressEntry(svc, true)], MonitorEntries(svc, true), PoolEntries(svc, true), PolicyEntries(svc, order),
            VirtualEntries(svc, true, Attached(svc, order)), e);
    if e in PoolEntries(svc, true) {
      PoolRefsAreNotDoomed(svc, order, e, r);
    } else if e in VirtualEntries(svc, true, Attached(svc, order)) {
      VirtualRefsAreNotDoomed(svc, order, e, r);
    } else if e in PolicyEntries(svc, order) {
      PolicyRefsAreNotDoomed(svc, order, d, e, r);
    }
  }

  lemma PoolsAreDoomedAsPools(svc: Service, order: seq<Id>, r: Obj)
    requires r.kind == PoolKind && !Doomed(PoolEntries(svc, true), r)
    ensures !Doomed(AllEntries(svc, true, order), r)
  {
    forall f | f in AllEntries(svc, true, order) && f.obj == r
      ensures !f.del
    {
      InOneOf([AddressEntry(svc, true)], MonitorEntries(svc, true), PoolEntries(svc, true), PolicyEntries(svc, order),
              VirtualEntries(svc, true, Attached(svc, order)), f);
    }
  }

  lemma EntriesAreSync(svc: Service, order: seq<Id>, d: Device)
    requires DistinctIds(svc, order) && RedirectsResolve(svc, order, d)
    ensures SyncEntries(AllEntries(svc, true, order), LegacyEntry(svc).obj)
  {
    DistinctEntries(svc, true, order);
    forall e | e in AllEntries(svc, true, order) {
      EntryShape(svc, order, e);
    }
    forall e, r | e in AllEntries(svc, true, order) && e.put && r in Refs(e.value) {
      PutRefsAreNotDoomed(svc, order, d, e, r);
    }
  }

  lemma PutIsNotDoomed(svc: Service, order: seq<Id>, f: Entry)
    requires DistinctIds(svc, order) && f.put
    requires f in MonitorEntries(svc, true) || f in PoolEntries(svc, true) || f in PolicyEntries(svc, order)
    ensures !Doomed(AllEntries(svc, true, order), f.obj)
  {
    var es := AllEntries(svc, true, order);
    DistinctEntries(svc, true, order);
    assert f in es && !f.del;
    forall e | e in es && e.obj == f.obj
      ensures !e.del
    {
      SameEntry(es, e, f);
    }
  }

  /** Once redirects resolve, every call of the plan is safe exactly when every object that
      refers to one being deleted is put or deleted by the service itself. */
  lemma SafeWhenResolved(svc: Service, order: seq<Id>, d: Device)
    requires DistinctIds(svc, order) && RedirectsResolve(svc, order, d) && Typed(d)
    ensures AllSafe(Plan(svc, true, order), d, LegacyEntry(svc).obj) <==>
            Closed(AllEntries(svc, true, order), d, LegacyEntry(svc).obj)
  {
    var es, legacy := AllEntries(svc, true, order), LegacyEntry(svc).obj;
    PlanShape(svc, true, order);
    if Closed(es, d, legacy) {
      CreateStagesAreSafe(svc, order, d, legacy);
      EntriesAreSync(svc, order, d);
      StagesByKind([AddressEntry(svc, true)], MonitorEntries(svc, true), PoolEntries(svc, true),
                   PolicyEntries(svc, order), VirtualEntries(svc, true, Attached(svc, order)));
      DeleteStagesAreSafe(VirtualEntries(svc, true, Attached(svc, order)), LegacyEntry(svc), PolicyEntries(svc, order),
                          PoolEntries(svc, true), MonitorEntries(svc, true), [AddressEntry(svc, true)], es, d);
      PutsResult(es, d);
      AllSafeAppend(Puts(es), Deletes(DeleteOrder(svc, true, order)), d, legacy);
    }
    if AllSafe(Plan(svc, true, order), d, legacy) {
      forall x, r | x in d && r in Refs(d[x]) && Doomed(es, r) && r != legacy && x != legacy
        ensures Handled(es, x)
      {
        if !Handled(es, x) {
          OutsiderBlocks(svc, order, d, x, r);
        }
      }
    }
  }

  // ----- Redirects that do not resolve

  /** The put of an entry comes after those of the entries before it. */
  lemma {:induction false} PutIsCalled(es: seq<Entry>, e: Entry) returns (i: nat)
    requires e in es && e.put
    ensures i < |es| && es[i] == e && |Puts(es[..i])| < |Puts(es)|
    ensures Puts(es)[..|Puts(es[..i])|] == Puts(es[..i]) && Puts(es)[|Puts(es[..i])|] == Put(e.obj, e.value)
  {
    var n := |es| - 1;
    if es[n] == e {
      i := n;
    } else {
      i := PutIsCalled(es[..n], e);
      assert es[..n][..i] == es[..i];
    }
  }

  /** A put that refers to something neither there nor put before is not safe. */
  lemma MissingBlocks(es: seq<Entry>, ds: seq<Entry>, d: Device, legacy: Obj, e: Entry, r: Obj)
    requires e in es && e.put && r in Refs(e.value) && r != legacy && r !in d
    requires forall f :: f in es && f.put ==> f.obj != r
    ensures !AllSafe(Puts(es) + Deletes(ds), d, legacy)
  {
    var plan := Puts(es) + Deletes(ds);
    var i := PutIsCalled(es, e);
    var k := |Puts(es[..i])|;
    assert plan[..k] == Puts(es[..i]) && plan[k] == Put(e.obj, e.value);
    PutsResult(es[..i], d);
    PutMapHas(es[..i], r);
    assert !Safe(plan[k], ExecAll(plan[..k], d), legacy);
  }

  lemma DeletesTouchOthers(ds: seq<Entry>, o: Obj)
    requires forall f :: f in ds && f.del ==> f.obj != o
    ensures forall k :: 0 <= k < |Deletes(ds)| ==> Deletes(ds)[k].obj != o
  {
    if ds != [] {
      assert forall f :: f in ds[..|ds| - 1] ==> f in ds;
      DeletesTouchOthers(ds[..|ds| - 1], o);
    }
  }

  /** The delete of something that a put object refers to is not safe. */
  lemma DoomedBlocks(es: seq<Entry>, ds: seq<Entry>, d: Device, legacy: Obj, e: Entry, f: Entry)
    requires DistinctObjects(es) && e in es && e.put && f in ds && f.del && f.obj in Refs(e.value) && f.obj != legacy
    requires forall g :: g in ds && g.del ==> g.obj != e.obj
    ensures !AllSafe(Puts(es) + Deletes(ds), d, legacy)
  {
    var plan, mid := Puts(es) + Deletes(ds), ExecAll(Puts(es), d);
    PutsResult(es, d);
    PutMapHas(es, e.obj);
    forall g | g in es && g.obj == e.obj
      ensures g == e
    {
      SameEntry(es, e, g);
    }
    assert e.obj in mid && mid[e.obj] == e.value;
    var k := DeleteIsCalled(ds, f);
    DeletesTouchOthers(ds, e.obj);
    Untouched(Deletes(ds)[..k], mid, e.obj);
    var n := |Puts(es)| + k;
    assert plan[..n] == Puts(es) + Deletes(ds)[..k] && plan[n] == Delete(f.obj);
    ExecAppend(Puts(es), Deletes(ds)[..k], d);
    assert Referenced(ExecAll(plan[..n], d), f.obj);
  }

  lemma UnresolvedBlocks(svc: Service, order: seq<Id>, d: Device, id: Id, r: Obj)
    requires DistinctIds(svc, order) && id in order && r in Refs(PolicyValue(WrapperRules(svc, id)))
    requires Doomed(PoolEntries(svc, true), r) ||
             (r !in d && forall e :: e in PoolEntries(svc, true) && e.put ==> e.obj != r)
    ensures !AllSafe(Plan(svc, true, order), d, LegacyEntry(svc).obj)
  {
    var es, ds, legacy := AllEntries(svc, true, order), DeleteOrder(svc, true, order), LegacyEntry(svc).obj;
    var e := PolicyEntry(svc, id);
    RedirectsArePools(WrapperRules(svc, id), r);
    PlanShape(svc, true, order);
    PolicyIsEntry(svc, order, id);
    DistinctEntries(svc, true, order);
    NotLegacy(svc, true, order, e);
    if Doomed(PoolEntries(svc, true), r) {
      var f :| f in PoolEntries(svc, true) && f.del && f.obj == r;
      assert f in es;
      DeleteOrderHas(svc, true, order, f);
      forall g | g in ds && g.del
        ensures g.obj != e.obj
      {
        DeleteOrderHas(svc, true, order, g);
        if g in es && g.obj == e.obj {
          SameEntry(es, e, g);
        }
      }
      DoomedBlocks(es, ds, d, legacy, e, f);
    } else {
      forall f | f in es && f.put
        ensures f.obj != r
      {
        PutPoolsAreEntries(svc, order, f);
      }
      MissingBlocks(es, ds, d, legacy, e, r);
    }
  }

  lemma PolicyIsEntry(svc: Service, order: seq<Id>, id: Id)
    requires id in order
    ensures PolicyEntry(svc, id) in AllEntries(svc, true, order)
  {
    var q := PolicyEntries(svc, order);
    var i :| 0 <= i < |order| && order[i] == id;
    assert q[i] in q;
    InOneOf([AddressEntry(svc, true)], MonitorEntries(svc, true), PoolEntries(svc, true), q,
            VirtualEntries(svc, true, Attached(svc, order)), q[i]);
  }

  lemma PutPoolsAreEntries(svc: Service, order: seq<Id>, f: Entry)
    requires f in AllEntries(svc, true, order)
    ensures f.obj.kind == PoolKind ==> f in PoolEntries(svc, true)
  {
    InOneOf([AddressEntry(svc, true)], MonitorEntries(svc, true), PoolEntries(svc, true), PolicyEntries(svc, order),
            VirtualEntries(svc, true, Attached(svc, order)), f);
  }

  /** The plan is safe at every call exactly when every redirect of a live policy ends at a
      pool that is there or put and not being deleted, and every object that refers to one
      being deleted is put or deleted by the service itself. */
  lemma PlanIsSafe(svc: Service, order: seq<Id>, d: Device)
    requires DistinctIds(svc, order) && Typed(d)
    ensures AllSafe(Plan(svc, true, order), d, LegacyEntry(svc).obj) <==>
            RedirectsResolve(svc, order, d) && Closed(AllEntries(svc, true, order), d, LegacyEntry(svc).obj)
  {
    if RedirectsResolve(svc, order, d) {
      SafeWhenResolved(svc, order, d);
    } else {
      var id, r :| id in order && r in Refs(PolicyValue(WrapperRules(svc, id))) &&
                   !(&& !Doomed(PoolEntries(svc, true), r)
                     && (r in d || exists e :: e in PoolEntries(svc, true) && e.put && e.obj == r));
      UnresolvedBlocks(svc, order, d, id, r);
    }
  }

  // ----- Replacing a stale address

  lemma ResolvesWithout(svc: Service, order: seq<Id>, d: Device, e: Device)
    requires forall r: Obj :: r.kind == PoolKind ==> (r in d <==> r in e)
    ensures RedirectsResolve(svc, order, d) ==> RedirectsResolve(svc, order, e)
  {
    if RedirectsResolve(svc, order, d) {
      forall id, r | id in order && r in Refs(PolicyValue(WrapperRules(svc, id)))
        ensures !Doomed(PoolEntries(svc, true), r)
        ensures r in e || exists f :: f in PoolEntries(svc, true) && f.put && f.obj == r
      {
        RedirectsArePools(WrapperRules(svc, id), r);
      }
    }
  }

  /** Taking the address away first changes nothing about safety: nothing refers to it. */
  lemma SafeWithoutAddress(svc: Service, order: seq<Id>, d: Device)
    requires Typed(d)
    ensures var e := d - {AddressEntry(svc, true).obj};
            && Typed(e) && (RedirectsResolve(svc, order, e) <==> RedirectsResolve(svc, order, d))
            && (Closed(AllEntries(svc, true, order), e, LegacyEntry(svc).obj) <==>
                Closed(AllEntries(svc, true, order), d, LegacyEntry(svc).obj))
  {
    var o := AddressEntry(svc, true).obj;
    ResolvesWithout(svc, order, d, d - {o});
    ResolvesWithout(svc, order, d - {o}, d);
    assert o in d ==> Refs(d[o]) == {};
  }

  lemma AddressIsUnreferenced(svc: Service, d: Device)
    requires Typed(d)
    ensures !Referenced(d, AddressEntry(svc, true).obj)
  {
  }

  lemma AllSafeFirst(op: Op, ops: seq<Op>, d: Device, legacy: Obj)
    ensures AllSafe([op] + ops, d, legacy) <==> Safe(op, d, legacy) && AllSafe(ops, Exec(op, d), legacy)
  {
    var all := [op] + ops;
    assert all[..0] == [] && ExecAll(all[..0], d) == d && all[0] == op;
    forall k | 0 <= k < |ops|
      ensures all[k + 1] == ops[k] && ExecAll(all[..k + 1], d) == ExecAll(ops[..k], Exec(op, d))
    {
      assert all[..k + 1] == [op] + ops[..k];
      DeleteFirst(op, ops[..k], d);
    }
    if AllSafe(all, d, legacy) {
      assert Safe(all[0], ExecAll(all[..0], d), legacy);
      forall k | 0 <= k < |ops|
        ensures Safe(ops[k], ExecAll(ops[..k], Exec(op, d)), legacy)
      {
        assert Safe(all[k + 1], ExecAll(all[..k + 1], d), legacy);
      }
    }
    if Safe(op, d, legacy) && AllSafe(ops, Exec(op, d), legacy) {
      forall k | 0 <= k < |all|
        ensures Safe(all[k], ExecAll(all[..k], d), legacy)
      {
        if k > 0 {
          assert Safe(ops[k - 1], ExecAll(ops[..k - 1], Exec(op, d)), legacy);
        }
      }
    }
  }

  /** Every call that a synchronisation makes on a device is one that the device accepts,
      exactly when redirects resolve and every object that refers to one being deleted is put
      or deleted by the service itself. */
  lemma SafeExactlyWhenClosed(svc: Service, order: seq<Id>, d: Device)
    requires DistinctIds(svc, order) && Typed(d)
    ensures AllSafe(PlanOn(svc, true, order, d), d, LegacyEntry(svc).obj) <==>
            RedirectsResolve(svc, order, d) && Closed(AllEntries(svc, true, order), d, LegacyEntry(svc).obj)
  {
    var o, legacy := AddressEntry(svc, true).obj, LegacyEntry(svc).obj;
    if Acts(true, svc.lbStatus) && Stale(svc, d) {
      AllSafeFirst(Delete(o), Plan(svc, true, order), d, legacy);
      AddressIsUnreferenced(svc, d);
      SafeWithoutAddress(svc, order, d);
      PlanIsSafe(svc, order, d - {o});
    } else {
      NothingFirst(Plan(svc, true, order));
      PlanIsSafe(svc, order, d);
    }
  }

  // ----- Objects outside the service

  lemma {:induction false} Untouched(ops: seq<Op>, d: Device, x: Obj)
    requires x in d && forall k :: 0 <= k < |ops| ==> ops[k].obj != x
    ensures x in ExecAll(ops, d) && ExecAll(ops, d)[x] == d[x]
  {
    if ops != [] {
      Untouched(ops[..|ops| - 1], d, x);
    }
  }

  lemma {:induction false} CallsOfEntries(es: seq<Entry>, x: Obj)
    requires !Handled(es, x)
    ensures forall k :: 0 <= k < |Puts(es)| ==> Puts(es)[k].obj != x
    ensures forall k :: 0 <= k < |Deletes(es)| ==> Deletes(es)[k].obj != x
  {
    if es != [] {
      assert es[|es| - 1] in es && forall e :: e in es[..|es| - 1] ==> e in es;
      assert !Handled(es[..|es| - 1], x);
      CallsOfEntries(es[..|es| - 1], x);
    }
  }

  lemma {:induction false} DeleteIsCalled(es: seq<Entry>, e: Entry) returns (k: nat)
    requires e in es && e.del
    ensures k < |Deletes(es)| && Deletes(es)[k] == Delete(e.obj)
  {
    if es[|es| - 1] == e {
      k := |Deletes(es)| - 1;
    } else {
      k := DeleteIsCalled(es[..|es| - 1], e);
    }
  }

  /** An object that no entry names and that refers to one being deleted is still there when
      the delete is called. */
  lemma OutsiderBlocksPlan(ps: seq<Entry>, ds: seq<Entry>, d: Device, legacy: Obj, x: Obj, e: Entry)
    requires x in d && e in ds && e.del && e.obj in Refs(d[x]) && e.obj != legacy
    requires !Handled(ps, x) && !Handled(ds, x)
    ensures !AllSafe(Puts(ps) + Deletes(ds), d, legacy)
  {
    var plan := Puts(ps) + Deletes(ds);
    var k := DeleteIsCalled(ds, e);
    var n := |Puts(ps)| + k;
    assert plan[n] == Delete(e.obj);
    CallsOfEntries(ps, x);
    CallsOfEntries(ds, x);
    Untouched(plan[..n], d, x);
    assert Referenced(ExecAll(plan[..n], d), e.obj);
  }

  lemma OutsiderBlocks(svc: Service, order: seq<Id>, d: Device, x: Obj, r: Obj)
    requires x in d && r in Refs(d[x]) && Doomed(AllEntries(svc, true, order), r) && r != LegacyEntry(svc).obj
    requires x != LegacyEntry(svc).obj && !Handled(AllEntries(svc, true, order), x)
    ensures !AllSafe(Plan(svc, true, order), d, LegacyEntry(svc).obj)
  {
    var e :| e in AllEntries(svc, true, order) && e.del && e.obj == r;
    DeleteOrderHas(svc, true, order, e);
    forall f | f in DeleteOrder(svc, true, order)
      ensures f.obj == x ==> !f.del && !f.put
    {
      DeleteOrderHas(svc, true, order, f);
    }
    PlanShape(svc, true, order);
    OutsiderBlocksPlan(AllEntries(svc, true, order), DeleteOrder(svc, true, order), d, LegacyEntry(svc).obj, x, e);
  }

  /** Referential integrity after every single call: from a device without dangling
      references, every virtual's pool and wrapper policy, every policy's redirect pool and
      every pool's monitor exist throughout. */
  lemma IntegrityAtEveryStep(svc: Service, order: seq<Id>, d: Device, k: nat)
    requires DistinctIds(svc, order) && RedirectsResolve(svc, order, d) && Typed(d)
    requires Integrity(d, LegacyEntry(svc).obj) && Closed(AllEntries(svc, true, order), d, LegacyEntry(svc).obj)
    requires k <= |PlanOn(svc, true, order, d)|
    ensures Integrity(ExecAll(PlanOn(svc, true, order, d)[..k], d), LegacyEntry(svc).obj)
  {
    SafeExactlyWhenClosed(svc, order, d);
    SafeRunKeepsIntegrity(PlanOn(svc, true, order, d), d, LegacyEntry(svc).obj, k);
  }
}
