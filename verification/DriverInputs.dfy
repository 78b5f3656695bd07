/** Inputs at which the driver falls short of what its reports say. */
module DriverInputs {
  import opened Lbaas
  import opened AssurePlan
  import opened BuilderStages
  import opened PassLaws
  import opened IcontrolDriver
  import opened DriverLaws
  import PlanResult
  import L7 = L7Policy
  import LP = ListenerPolicies
  import Laws = L7PolicyLaws

  const Fine: Setup := Setup(false, Ready, false, false)

  lemma OneEntry(e: Entry, stage: Stage, row: Row, d: nat)
    ensures Issued([e], stage, [row], d) == if Missed(row, d) then [] else Calls(e, stage)
  {
    assert [row][..0] == [];
    assert Issued([e], stage, [], d) == [];
  }

  // ----- A load balancer without children, on one device

  function Alone(status: Status): Service {
    Service("f", "lb", "10.0.0.1", status, [], [], [], [], [])
  }

  const Address: Obj := Obj(AddressKind, Name("f", "lb"))
  const Vip: Value := AddressValue("10.0.0.1")
  const OldVip: Value := AddressValue("10.0.0.9")
  const Legacy: Obj := Obj(PolicyKind, LegacyName("f"))

  function AloneCreates(outs: seq<AddressOutcome>): CreateReport {
    CreateReport(false, outs, [], [], [], [], [])
  }

  function AloneDeletes(row: Row): DeleteReport {
    DeleteReport([], [[false]], [], [], [], [row])
  }

  function AloneReport(outs: seq<AddressOutcome>, gone: Row): Report {
    Report(AloneCreates(outs), AloneDeletes(gone))
  }

  lemma AloneStages(status: Status, c: CreateReport, r: DeleteReport)
    requires c.monitors == [] && c.pools == [] && c.policyErrors == [] && c.listeners == [] && !c.addressError
    requires r.listeners == [] && r.policies == [] && r.pools == [] && r.monitors == []
    ensures Translatable(Alone(status)) && AfterPools(Alone(status), c) == Alone(status)
    ensures AfterCreates(Alone(status), c) == Alone(status) && AfterVirtualsGone(Alone(status), r) == Alone(status)
    ensures AfterPoliciesGone(Alone(status), [], r) == Alone(status)
    ensures MarkMonitors(MarkPools(Alone(status), r.pools), r.monitors) == Alone(status)
  {
  }

  /** The create outcomes that a load balancer with that status may have, without exceptions. */
  ghost predicate AloneOutcomes(status: Status, outs: seq<AddressOutcome>, before: seq<Device>) {
    !AnyFailed(outs) && if Acts(true, status) then OutcomesFit(Address, Vip, before, outs) else outs == []
  }

  lemma AloneFirst(status: Status, outs: seq<AddressOutcome>, before: seq<Device>)
    requires AloneOutcomes(status, outs, before)
    ensures FirstPass(Alone(status), true, before, AloneCreates(outs))
    ensures LaterPass(Alone(status), true, [], before, AloneCreates(outs), false)
  {
    AloneStages(status, AloneCreates(outs), AloneDeletes([]));
  }

  lemma AloneBack(status: Status, row: Row, raised: bool)
    requires |row| == (if status == PendingDelete then 1 else 0) && (raised <==> true in row)
    ensures DeletePass(Alone(status), true, [], map[], 1, AloneDeletes(row), raised)
  {
    AloneStages(status, AloneCreates([]), AloneDeletes(row));
  }

  lemma AlonePass(status: Status, outs: seq<AddressOutcome>, gone: Row, raised: bool, d: Device)
    requires AloneOutcomes(status, outs, [d])
    requires |gone| == (if status == PendingDelete then 1 else 0) && (raised <==> true in gone)
    ensures PassReport(Alone(status), true, [], [d], AloneReport(outs, gone), raised)
  {
    AloneFirst(status, outs, [d]);
    AloneBack(status, gone, raised);
    AloneStages(status, AloneCreates(outs), AloneDeletes(gone));
  }

  /** The calls when the deletion of the load balancer, if any, fails. */
  lemma AloneCalls(status: Status, outs: seq<AddressOutcome>, gone: Row)
    requires |gone| <= 1 && (gone != [] ==> gone[0]) && (status == PendingDelete ==> gone != [])
    ensures PassIssued(Alone(status), true, [], AloneReport(outs, gone), 0) ==
            AddressIssued(Address, Vip, outs, 0) + [Delete(Legacy)]
  {
    AloneStages(status, AloneCreates(outs), AloneDeletes(gone));
    OneEntry(LegacyEntry(Alone(status)), DeleteStage, [false], 0);
    OneEntry(AddressEntry(Alone(status), true), DeleteStage, gone, 0);
    SameCounts(Alone(status), [], AloneDeletes(gone));
  }

  lemma AloneExecuted(status: Status, outs: seq<AddressOutcome>, gone: Row, d: Device, after: Device)
    requires |gone| <= 1 && (gone != [] ==> gone[0]) && (status == PendingDelete ==> gone != [])
    requires after == ExecAll(AddressIssued(Address, Vip, outs, 0), d) && Legacy !in after
    ensures Executed(Alone(status), true, [], [d], AloneReport(outs, gone), [after])
  {
    AloneCalls(status, outs, gone);
    LegacyNotThere(AddressIssued(Address, Vip, outs, 0), d, after);
    OnlyDevice(Alone(status), true, [], d, AloneReport(outs, gone), after);
  }

  lemma LegacyNotThere(ops: seq<Op>, d: Device, after: Device)
    requires after == ExecAll(ops, d) && Legacy !in after
    ensures after == ExecAll(ops + [Delete(Legacy)], d)
  {
    PlanResult.OneCall(ops, Delete(Legacy), d);
    assert after - {Legacy} == after;
  }

  lemma OnlyDevice(svc: Service, sync: bool, order: seq<Id>, d: Device, rep: Report, after: Device)
    requires FirstRows(svc, rep.creates) && LaterRows(svc, order, rep.creates)
    requires DeleteRows(AfterCreates(svc, rep.creates), order, rep.deletes)
    requires after == ExecAll(PassIssued(svc, sync, order, rep, 0), d)
    ensures Executed(svc, sync, order, [d], rep, [after])
  {
    assert [d][0] == d && [after][0] == after;
  }

  lemma AloneEnds(status: Status, outs: seq<AddressOutcome>, gone: Row, raised: bool, d: Device, after: Device)
    requires AloneOutcomes(status, outs, [d])
    requires |gone| == (if status == PendingDelete then 1 else 0) && (raised <==> true in gone) &&
             (gone != [] ==> gone[0])
    requires after == ExecAll(AddressIssued(Address, Vip, outs, 0), d) && Legacy !in after
    ensures Pass(Alone(status), true, [], [d], AloneReport(outs, gone), raised, [after])
  {
    AlonePass(status, outs, gone, raised, d);
    AloneExecuted(status, outs, gone, d, after);
  }

  lemma AloneReports(status: Status, rep: Report, raised: bool)
    requires rep.deletes.policies == [] && !LoadBalancerError(rep.creates)
    ensures Updated(LoadBalancer, "lb", Active) in SyncSent(Alone(status), [], Fine, rep, raised) <==> Pending(status)
    ensures Destroyed(LoadBalancer, "lb") in SyncSent(Alone(status), [], Fine, rep, raised) <==> status == PendingDelete
  {
    ReportedActive(Alone(status), [], Fine, rep, raised);
    ReportedDestroyed(Alone(status), [], Fine, rep, raised);
  }

  /** One swallowed HTTP error: reported active all the same. */
  lemma Swallows(d: Device, deleted: bool, after: Device) returns (rep: Report)
    requires Legacy !in d && OutcomeFits(Address, Vip, d, AddressOutcome(deleted, Swallowed))
    requires after == if deleted then d - {Address} else d
    ensures Pass(Alone(PendingUpdate), true, [], [d], rep, false, [after])
    ensures |rep.deletes.policies| == 0
    ensures Updated(LoadBalancer, "lb", Active) in SyncSent(Alone(PendingUpdate), [], Fine, rep, false)
  {
    var x := AddressOutcome(deleted, Swallowed);
    rep := AloneReport([x], []);
    TwoCalls(Delete(Address), Put(Address, Vip), d);
    assert AddressIssued(Address, Vip, [x], 0) == OutcomeCalls(Address, Vip, x);
    AloneEnds(PendingUpdate, [x], [], false, d, after);
    AloneReports(PendingUpdate, rep, false);
  }

  /** A missing address whose create gets an HTTP error: reported active, and still missing. */
  lemma SwallowedCreate() returns (rep: Report)
    ensures Pass(Alone(PendingUpdate), true, [], [map[]], rep, false, [map[]])
    ensures |rep.deletes.policies| == 0 && Updated(LoadBalancer, "lb", Active) in SyncSent(Alone(PendingUpdate), [],
            Fine, rep, false)
  {
    rep := Swallows(map[], false, map[]);
  }

  /** A changed address that was deleted, and whose create gets an HTTP error: reported active,
      and gone. */
  lemma SwallowedReplacement() returns (rep: Report)
    ensures Pass(Alone(PendingUpdate), true, [], [map[Address := OldVip]], rep, false, [map[]])
    ensures |rep.deletes.policies| == 0 && Updated(LoadBalancer, "lb", Active) in SyncSent(Alone(PendingUpdate), [],
            Fine, rep, false)
  {
    var d: Device := map[Address := OldVip];
    assert d - {Address} == map[];
    rep := Swallows(d, true, map[]);
  }

  /** A changed address whose deletion fails, so that the create meets a conflict: reported
      active, and the old address stays. */
  lemma StaleReplacement() returns (rep: Report)
    ensures Pass(Alone(PendingUpdate), true, [], [map[Address := OldVip]], rep, false, [map[Address := OldVip]])
    ensures |rep.deletes.policies| == 0 && Updated(LoadBalancer, "lb", Active) in SyncSent(Alone(PendingUpdate), [],
            Fine, rep, false)
  {
    var d: Device := map[Address := OldVip];
    rep := Swallows(d, false, d);
  }

  /** A failed delete of the address: the load balancer is reported destroyed, and the device
      still has the address. */
  lemma FailedDelete() returns (rep: Report)
    ensures Pass(Alone(PendingDelete), true, [], [map[Address := Vip]], rep, true, [map[Address := Vip]])
    ensures |rep.deletes.policies| == 0 && Destroyed(LoadBalancer, "lb") in SyncSent(Alone(PendingDelete), [], Fine,
            rep, true)
  {
    var d: Device := map[Address := Vip];
    rep := AloneReport([], [true]);
    AloneEnds(PendingDelete, [], [true], true, d, d);
    AloneReports(PendingDelete, rep, true);
  }

  /** The tenant folder fails for a load balancer being deleted: an exception escapes, nothing
      is reported, and nothing is deleted. */
  lemma EscapedDeletion()
    ensures var setup, svc := Setup(true, Ready, false, false), Alone(PendingDelete);
            && Escapes(svc, setup, false) && SyncSent(svc, [], setup, NoReport, false) == []
            && SyncEnd(svc, [], setup, NoReport, false) == svc
            && forall devices :: Handling(svc, true, [], setup, false, devices, NoReport, false, devices)
  {
    NothingIsReported(Alone(PendingDelete), [], Setup(true, Ready, false, false), NoReport, false);
  }

  // ----- Two listeners with L7 policies

  const SomeRule: L7.L7Rule := L7.L7Rule("r", Active, true, L7.Path, L7.EqualTo, "", "/x", false)
  const Kept: L7.L7Policy := L7.L7Policy("pa", "a", 1, L7.Reject, "", "", Active, true, ["r"])
  const Doomed: L7.L7Policy := L7.L7Policy("pb", "b", 2, L7.Reject, "", "", PendingDelete, true, ["r"])

  /** Listener `a` has a live policy, the policy of listener `b` is being deleted. */
  const Pair: Service := Service("f", "lb", "10.0.0.1", Active, [Listener("a", Active, None, ["pa"]),
                                                     Listener("b", Active, None, ["pb"])],
                                 [], [], [Kept, Doomed], [SomeRule])

  lemma PairFinds(svc: Service)
    requires svc == Pair || svc == PoliciesMarked(Pair)
    ensures FindListener(svc.listeners, "a") == Some(svc.listeners[0]) &&
            FindListener(svc.listeners, "b") == Some(svc.listeners[1])
    ensures L7.FindPolicy(svc.policies, "pa") == Some(svc.policies[0]) &&
            L7.FindPolicy(svc.policies, "pb") == Some(svc.policies[1])
    ensures L7.FindRule(svc.rules, "r") == Some(SomeRule)
  {
  }

  lemma PairReferences(svc: Service, l: Listener, p: L7.L7Policy)
    requires svc == Pair || svc == PoliciesMarked(Pair)
    requires l in svc.listeners
    ensures LP.RefersTo(svc, l, p) <==> p == svc.policies[if l.id == "a" then 0 else 1]
  {
    PairFinds(svc);
    assert L7.FindPolicy(svc.policies, l.l7Policies[0]) == Some(svc.policies[if l.id == "a" then 0 else 1]);
    LP.RefersByFinding(svc, l, p);
  }

  lemma PairLive(svc: Service, l: Listener)
    requires (svc == Pair || svc == PoliciesMarked(Pair)) && l in svc.listeners
    ensures !LP.BadPolicy(svc, l) && PoliciesOf(svc, l) != []
    ensures LP.LiveIn(svc, l) <==> l.id == "a" || svc == PoliciesMarked(Pair)
  {
    PairFinds(svc);
    var p := svc.policies[if l.id == "a" then 0 else 1];
    PairReferences(svc, l, p);
    forall o | LP.RefersTo(svc, l, o)
      ensures o == p
    {
      PairReferences(svc, l, o);
    }
    assert p.rules == ["r"] && Laws.LiveRef(p.rules[0], svc.rules) && !Laws.BadRef(p.rules[0], svc.rules);
    LP.ReferencedHas(l.l7Policies, svc.policies, p);
  }

  lemma PairBuilds(svc: Service, id: Id)
    requires (svc == Pair || svc == PoliciesMarked(Pair)) && (id == "a" || id == "b")
    ensures BuildPolicy(svc, id).Ok? && FindListener(svc.listeners, id).Some?
    ensures PolicyFor(svc, id).Wrapper?
    ensures WrapperRules(svc, id) != [] <==> id == "a" || svc == PoliciesMarked(Pair)
  {
    PairFinds(svc);
    PairLive(svc, FindListener(svc.listeners, id).value);
    LP.BuildingRaises(svc, id);
    LP.RulesWhenLive(svc, id);
  }

  const Order: seq<Id> := ["a", "b"]

  /** The create of the wrapper policy of `a` fails, everything else succeeds. */
  const PairCreates: CreateReport :=
    CreateReport(false, [AddressOutcome(false, Assured)], [], [], [[true], []], [true, false], [[false], [false]])
  const PairDeletes: DeleteReport := DeleteReport([[], []], [[false]], [[], []], [], [], [[]])

  /** The device holds the wrapper policy of `b`. */
  const PairDevice: Device := map[Obj(PolicyKind, WrapperName("f", "b")) := PolicyValue([])]

  lemma PairCreatesAre()
    ensures AfterAddress(Pair, PairCreates) == AfterMonitors(Pair, PairCreates) == AfterPools(Pair, PairCreates) == Pair
    ensures AfterPolicies(Pair, PairCreates) == PoliciesMarked(Pair).(lbStatus := Error)
    ensures AfterCreates(Pair, PairCreates) == PoliciesMarked(Pair).(lbStatus := Error)
  {
    MarkedClean(Pair.listeners, PairCreates.listeners, ListenerInError);
    assert AnyReported([]) == false;
  }

  lemma PairTranslates(svc: Service)
    requires svc == Pair || svc == AfterCreates(Pair, PairCreates)
    ensures Translatable(svc)
  {
    PairCreatesAre();
    forall p | p in svc.policies
      ensures BuildPolicy(svc, p.listenerId).Ok?
    {
      CreatesMarkPolicies(Pair, PairCreates, p.listenerId);
      PairBuilds(if svc == Pair then Pair else PoliciesMarked(Pair), p.listenerId);
    }
  }

  lemma PairIsOrdered()
    ensures IterationOrder(Pair, Order) && PlanResult.DistinctIds(Pair, Order)
  {
    assert Kept in Pair.policies && Doomed in Pair.policies;
  }

  lemma PairFirst()
    ensures FirstPass(Pair, true, [PairDevice], PairCreates)
  {
    PairCreatesAre();
  }

  lemma PairNoticed()
    ensures var es := PolicyEntries(Pair, Order);
            && RowsFit(es, CreateStage, PairCreates.policies, 1)
            && NoticedExactly(es, PairCreates.policies, PairCreates.policyErrors, [PairDevice])
  {
    PairBuilds(Pair, "a");
    PairBuilds(Pair, "b");
    var es, rows := PolicyEntries(Pair, Order), PairCreates.policies;
    assert RowFits(es[0], CreateStage, rows[0], 1) && RowFits(es[1], CreateStage, rows[1], 1);
    assert StillSet(es[0].obj, rows[0], [PairDevice], 0) && rows[0][0];
  }

  lemma PairLater()
    ensures LaterRows(Pair, Order, PairCreates)
    ensures LaterPass(Pair, true, Order, [PairDevice], PairCreates, false)
  {
    PairCreatesAre();
    PairTranslates(Pair);
    PairNoticed();
  }

  lemma PairStaysBuilt()
    ensures var s := AfterCreates(Pair, PairCreates);
            && PolicyFor(s, "a").Wrapper? && PolicyFor(s, "b").Wrapper?
            && WrapperRules(s, "a") != [] && WrapperRules(s, "b") != []
  {
    PairCreatesAre();
    CreatesMarkPolicies(Pair, PairCreates, "a");
    CreatesMarkPolicies(Pair, PairCreates, "b");
    PairBuilds(PoliciesMarked(Pair), "a");
    PairBuilds(PoliciesMarked(Pair), "b");
  }

  /** Both wrappers have rules by then: neither is deleted. */
  lemma PairWrappersStay()
    ensures RowsFit(PolicyEntries(AfterCreates(Pair, PairCreates), Order), DeleteStage, PairDeletes.policies, 1)
  {
    PairStaysBuilt();
    var es, rows := PolicyEntries(AfterCreates(Pair, PairCreates), Order), PairDeletes.policies;
    assert RowFits(es[0], DeleteStage, rows[0], 1) && RowFits(es[1], DeleteStage, rows[1], 1);
  }

  lemma PairGone()
    ensures DeleteRows(AfterCreates(Pair, PairCreates), Order, PairDeletes)
    ensures DeletePass(AfterCreates(Pair, PairCreates), true, Order, F5Of(Pair, Order, PairCreates), 1, PairDeletes,
                       false)
  {
    var s := AfterCreates(Pair, PairCreates);
    PairCreatesAre();
    PairTranslates(s);
    MarkedClean(s.listeners, PairDeletes.listeners, ListenerInError);
    MarkDeletedKeeps(s, Order, PairDeletes.policies);
    PairWrappersStay();
  }

  const PairReport: Report := Report(PairCreates, PairDeletes)

  lemma PairPass()
    ensures PassReport(Pair, true, Order, [PairDevice], PairReport, false)
  {
    PairFirst();
    PairLater();
    PairGone();
    PairTranslates(Pair);
    StoppedEarlyIs(Pair, PairReport);
  }

  /** One device after a pass with that report. */
  lemma OneDevice(svc: Service, sync: bool, order: seq<Id>, d: Device, rep: Report) returns (after: Device)
    requires FirstRows(svc, rep.creates) && LaterRows(svc, order, rep.creates)
    requires DeleteRows(AfterCreates(svc, rep.creates), order, rep.deletes)
    ensures Executed(svc, sync, order, [d], rep, [after])
  {
    after := ExecAll(PassIssued(svc, sync, order, rep, 0), d);
    assert [d][0] == d && [after][0] == after;
  }

  /** A create error for listener `a` keeps the wrapper policy of listener `b`, which a pass
      without missed calls deletes. */
  lemma ErrorKeepsAnother() returns (after: Device)
    ensures Pass(Pair, true, Order, [PairDevice], PairReport, false, [after])
    ensures WrapperObj(Pair, "b") in after
    ensures WrapperObj(Pair, "b") !in ExecAll(Plan(Pair, true, Order), PairDevice)
  {
    PairPass();
    after := OneDevice(Pair, true, Order, PairDevice, PairReport);
    PairIsOrdered();
    PairBuilds(Pair, "b");
    PairKeeps(after);
    PlanResult.PoliciesConverge(Pair, true, Order, PairDevice, 1);
  }

  lemma PairKeeps(after: Device)
    requires Pass(Pair, true, Order, [PairDevice], PairReport, false, [after])
    ensures Agree(WrapperObj(Pair, "b"), PairDevice, after)
  {
    PairTranslates(Pair);
    PairTranslates(AfterCreates(Pair, PairCreates));
    PairIsOrdered();
    PairBuilds(Pair, "b");
    PairRevives();
    ErrorKeepsWrapper(Pair, true, Order, [PairDevice], PairReport, false, [after], 0, 1);
    assert PairReport.creates.policyErrors[0];
  }

  lemma PairRevives()
    ensures FindListener(Pair.listeners, "b").Some? && Revivable(Pair, FindListener(Pair.listeners, "b").value)
  {
    PairFinds(Pair);
    PairReferences(Pair, Pair.listeners[1], Doomed);
    assert Laws.LiveRef(Doomed.rules[0], Pair.rules);
  }
}
