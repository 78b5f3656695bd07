/** What the stages of the builder issue and how they rewrite statuses, as functions of which
    devices missed which call, and the relation that a whole pass satisfies.

    A row belongs to one call on all devices; `true` marks a device that missed the call. */
module BuilderStages {
  import opened Lbaas
  import opened AssurePlan
  import PlanResult
  import L7 = L7Policy

  /** For one call, the devices that missed it; empty when no device was called. */
  type Row = seq<bool>

  datatype Stage = CreateStage | DeleteStage

  function Calls(e: Entry, stage: Stage): seq<Op> {
    match stage
    case CreateStage => if e.put then [Put(e.obj, e.value)] else []
    case DeleteStage => if e.del then [Delete(e.obj)] else []
  }

  predicate Missed(row: Row, d: nat) {
    d < |row| && row[d]
  }

  /** The calls that device `d` executed of the first entries, one for each row. */
  function Issued(es: seq<Entry>, stage: Stage, rows: seq<Row>, d: nat): seq<Op>
    requires |rows| <= |es|
  {
    if rows == [] then []
    else
      var n := |rows| - 1;
      Issued(es, stage, rows[..n], d) + if Missed(rows[n], d) then [] else Calls(es[n], stage)
  }

  /** A row for every device where there is a call, none where there is not. */
  ghost predicate RowFits(e: Entry, stage: Stage, row: Row, n: nat) {
    |row| == if Calls(e, stage) == [] then 0 else n
  }

  ghost predicate RowsFit(es: seq<Entry>, stage: Stage, rows: seq<Row>, n: nat) {
    |rows| <= |es| && forall i {:trigger rows[i]} :: 0 <= i < |rows| ==> RowFits(es[i], stage, rows[i], n)
  }

  /** One entry took every device from `before` to `after`. */
  ghost predicate OneRan(e: Entry, stage: Stage, row: Row, before: seq<seq<Op>>, after: seq<seq<Op>>) {
    && RowFits(e, stage, row, |before|) && |after| == |before|
    && forall d :: 0 <= d < |after| ==> after[d] == before[d] + if Missed(row, d) then [] else Calls(e, stage)
  }

  /** The first entries of a stage did, one for each row. */
  ghost predicate Ran(es: seq<Entry>, stage: Stage, rows: seq<Row>, before: seq<seq<Op>>, after: seq<seq<Op>>) {
    && RowsFit(es, stage, rows, |before|) && |after| == |before|
    && forall d: nat {:trigger Issued(es, stage, rows, d)} ::
         d < |after| ==> after[d] == before[d] + Issued(es, stage, rows, d)
  }

  lemma RanNext(es: seq<Entry>, stage: Stage, rows: seq<Row>, row: Row,
                before: seq<seq<Op>>, mid: seq<seq<Op>>, after: seq<seq<Op>>)
    requires |rows| < |es| && Ran(es, stage, rows, before, mid) && OneRan(es[|rows|], stage, row, mid, after)
    ensures Ran(es, stage, rows + [row], before, after)
  {
    var more := rows + [row];
    assert more[..|rows|] == rows;
    forall d: nat | d < |after|
      ensures after[d] == before[d] + Issued(es, stage, more, d)
    {
      assert mid[d] == before[d] + Issued(es, stage, rows, d);
    }
  }

  lemma TwoStages(a: seq<Entry>, x: seq<Row>, b: seq<Entry>, y: seq<Row>, stage: Stage,
                  l0: seq<seq<Op>>, l1: seq<seq<Op>>, l2: seq<seq<Op>>)
    requires Ran(a, stage, x, l0, l1) && Ran(b, stage, y, l1, l2)
    ensures forall d: nat {:trigger l2[d]} ::
              d < |l2| ==> l2[d] == l0[d] + (Issued(a, stage, x, d) + Issued(b, stage, y, d))
  {
    forall d: nat | d < |l2|
      ensures l2[d] == l0[d] + (Issued(a, stage, x, d) + Issued(b, stage, y, d))
    {
      assert l1[d] == l0[d] + Issued(a, stage, x, d);
      assert l2[d] == l1[d] + Issued(b, stage, y, d);
    }
  }

  /** The virtual address before two stages. */
  lemma AddressAndTwo(o: Obj, v: Value, outs: seq<AddressOutcome>, b: seq<Entry>, y: seq<Row>, c: seq<Entry>,
                      z: seq<Row>, stage: Stage, l0: seq<seq<Op>>, l1: seq<seq<Op>>, l2: seq<seq<Op>>, l3: seq<seq<Op>>)
    requires |l1| == |l0| && Ran(b, stage, y, l1, l2) && Ran(c, stage, z, l2, l3)
    requires forall d: nat {:trigger l1[d]} :: d < |l1| ==> l1[d] == l0[d] + AddressIssued(o, v, outs, d)
    ensures forall d: nat {:trigger l3[d]} :: d < |l3| ==>
              l3[d] == l0[d] + (AddressIssued(o, v, outs, d) + Issued(b, stage, y, d) + Issued(c, stage, z, d))
  {
    TwoStages(b, y, c, z, stage, l1, l2, l3);
    forall d: nat | d < |l3|
      ensures l3[d] == l0[d] + (AddressIssued(o, v, outs, d) + Issued(b, stage, y, d) + Issued(c, stage, z, d))
    {
      AddressRegrouped(l0[d], l1[d], l3[d], AddressIssued(o, v, outs, d), Issued(b, stage, y, d),
                       Issued(c, stage, z, d));
    }
  }

  lemma AddressRegrouped(l0: seq<Op>, l1: seq<Op>, l3: seq<Op>, a: seq<Op>, b: seq<Op>, c: seq<Op>)
    requires l1 == l0 + a && l3 == l1 + (b + c)
    ensures l3 == l0 + (a + b + c)
  {
  }

  lemma ThreeStages(a: seq<Entry>, x: seq<Row>, b: seq<Entry>, y: seq<Row>, c: seq<Entry>, z: seq<Row>, stage: Stage,
                    l0: seq<seq<Op>>, l1: seq<seq<Op>>, l2: seq<seq<Op>>, l3: seq<seq<Op>>)
    requires Ran(a, stage, x, l0, l1) && Ran(b, stage, y, l1, l2) && Ran(c, stage, z, l2, l3)
    ensures forall d: nat {:trigger l3[d]} :: d < |l3| ==>
              l3[d] == l0[d] + (Issued(a, stage, x, d) + Issued(b, stage, y, d) + Issued(c, stage, z, d))
  {
    TwoStages(a, x, b, y, stage, l0, l1, l2);
    forall d: nat | d < |l3|
      ensures l3[d] == l0[d] + (Issued(a, stage, x, d) + Issued(b, stage, y, d) + Issued(c, stage, z, d))
    {
      assert l3[d] == l2[d] + Issued(c, stage, z, d);
    }
  }

  // ----- One call on all devices

  ghost predicate Called(op: Op, row: Row, before: seq<seq<Op>>, after: seq<seq<Op>>) {
    && |row| == |after| == |before|
    && forall d :: 0 <= d < |after| ==> after[d] == before[d] + if row[d] then [] else [op]
  }

  ghost predicate SameFrom<T>(d: nat, before: seq<T>, after: seq<T>) {
    |after| == |before| && forall k :: d <= k < |after| ==> after[k] == before[k]
  }

  /** The devices before `d` have been called. */
  ghost predicate CalledTo(d: nat, op: Op, row: Row, before: seq<seq<Op>>, after: seq<seq<Op>>) {
    && |row| == d <= |after| && SameFrom(d, before, after)
    && forall k :: 0 <= k < d ==> after[k] == before[k] + if row[k] then [] else [op]
  }

  lemma CalledNext(d: nat, op: Op, row: Row, failed: bool,
                   before: seq<seq<Op>>, mid: seq<seq<Op>>, after: seq<seq<Op>>)
    requires d < |mid| && CalledTo(d, op, row, before, mid)
    requires after == mid[d := if failed then mid[d] else mid[d] + [op]]
    ensures CalledTo(d + 1, op, row + [failed], before, after)
  {
  }

  lemma CalledIsRan(e: Entry, stage: Stage, row: Row, op: Op, before: seq<seq<Op>>, after: seq<seq<Op>>)
    requires Calls(e, stage) == [op] && Called(op, row, before, after)
    ensures OneRan(e, stage, row, before, after)
  {
  }

  // ----- How stages rewrite statuses

  predicate Reported(rows: seq<Row>, i: nat) {
    i < |rows| && true in rows[i]
  }

  predicate AnyReported(rows: seq<Row>) {
    exists i :: 0 <= i < |rows| && Reported(rows, i)
  }

  /** Objects with a reported row are marked. */
  function Marked<T>(xs: seq<T>, rows: seq<Row>, mark: T -> T): (r: seq<T>)
    ensures |r| == |xs| && forall i :: 0 <= i < |xs| ==> r[i] == if Reported(rows, i) then mark(xs[i]) else xs[i]
  {
    seq(|xs|, i requires 0 <= i < |xs| => if Reported(rows, i) then mark(xs[i]) else xs[i])
  }

  lemma MarkedNext<T>(xs: seq<T>, rows: seq<Row>, row: Row, mark: T -> T)
    requires |rows| < |xs|
    ensures var was, i := Marked(xs, rows, mark), |rows|;
            was[i] == xs[i] && Marked(xs, rows + [row], mark) == if true in row then was[i := mark(xs[i])] else was
  {
    var was, more := Marked(xs, rows, mark), Marked(xs, rows + [row], mark);
    assert forall i :: 0 <= i < |rows| ==> (Reported(rows + [row], i) <==> Reported(rows, i));
    assert more == if true in row then was[|rows| := mark(xs[|rows|])] else was;
  }

  lemma MarkedClean<T>(xs: seq<T>, rows: seq<Row>, mark: T -> T)
    requires !AnyReported(rows)
    ensures Marked(xs, rows, mark) == xs
  {
    assert forall i :: 0 <= i < |rows| ==> !Reported(rows, i);
  }

  lemma AnyReportedNext(rows: seq<Row>, row: Row)
    ensures AnyReported(rows + [row]) <==> AnyReported(rows) || true in row
  {
    var more := rows + [row];
    assert Reported(more, |rows|) <==> true in row;
    assert forall i :: 0 <= i < |rows| ==> (Reported(more, i) <==> Reported(rows, i));
  }

  function MonitorInError(m: Monitor): Monitor {
    m.(status := Error)
  }

  function PoolInError(p: Pool): Pool {
    p.(status := Error)
  }

  function ListenerInError(l: Listener): Listener {
    l.(status := Error)
  }

  function MarkMonitors(svc: Service, rows: seq<Row>): Service {
    svc.(monitors := Marked(svc.monitors, rows, MonitorInError))
  }

  function MarkPools(svc: Service, rows: seq<Row>): Service {
    svc.(pools := Marked(svc.pools, rows, PoolInError))
  }

  function MarkListeners(svc: Service, rows: seq<Row>): Service {
    svc.(listeners := Marked(svc.listeners, rows, ListenerInError))
  }

  function MarkLoadBalancer(svc: Service, error: bool): Service {
    svc.(lbStatus := if error then Error else svc.lbStatus)
  }

  function AllPoliciesInError(ps: seq<L7.L7Policy>): seq<L7.L7Policy> {
    seq(|ps|, i requires 0 <= i < |ps| => ps[i].(status := Error))
  }

  /** An error for one listener's wrapper policy marks every L7 policy of the service. */
  function MarkPolicies(svc: Service, error: bool): Service {
    if error then svc.(policies := AllPoliciesInError(svc.policies), lbStatus := Error) else svc
  }

  lemma MarkPoliciesTwice(svc: Service, a: bool, b: bool)
    ensures MarkPolicies(MarkPolicies(svc, a), b) == MarkPolicies(svc, a || b)
  {
    var ps := svc.policies;
    assert AllPoliciesInError(AllPoliciesInError(ps)) == AllPoliciesInError(ps);
  }

  function MarkFirst(ps: seq<L7.L7Policy>, id: Id): seq<L7.L7Policy> {
    if ps == [] then []
    else if ps[0].id == id then [ps[0].(status := Error)] + ps[1..]
    else [ps[0]] + MarkFirst(ps[1..], id)
  }

  function MarkReferenced(ps: seq<L7.L7Policy>, refs: seq<Id>): seq<L7.L7Policy> {
    if refs == [] then ps else MarkFirst(MarkReferenced(ps, refs[..|refs| - 1]), refs[|refs| - 1])
  }

  function PolicyRefs(svc: Service, listener: Id): seq<Id> {
    match FindListener(svc.listeners, listener)
    case None => []
    case Some(l) => l.l7Policies
  }

  /** A failed delete marks the policies that the listener refers to. */
  function MarkDeleted(svc: Service, order: seq<Id>, rows: seq<Row>): Service
    requires |rows| <= |order|
  {
    if rows == [] then svc
    else
      var n := |rows| - 1;
      var s := MarkDeleted(svc, order, rows[..n]);
      if true in rows[n] then s.(policies := MarkReferenced(s.policies, PolicyRefs(svc, order[n]))) else s
  }

  lemma {:induction false} MarkDeletedKeeps(svc: Service, order: seq<Id>, rows: seq<Row>)
    requires |rows| <= |order|
    ensures MarkDeleted(svc, order, rows).(policies := svc.policies) == svc
    ensures !AnyReported(rows) ==> MarkDeleted(svc, order, rows) == svc
  {
    if rows != [] {
      var n := |rows| - 1;
      MarkDeletedKeeps(svc, order, rows[..n]);
      AnyReportedNext(rows[..n], rows[n]);
      assert rows[..n] + [rows[n]] == rows;
    }
  }

  // ----- L7 policies of the listeners

  function ListenersOf(ps: seq<L7.L7Policy>): set<Id> {
    set p | p in ps :: p.listenerId
  }

  lemma ListenersAre(ps: seq<L7.L7Policy>, id: Id)
    ensures id in ListenersOf(ps) <==> exists j :: 0 <= j < |ps| && ps[j].listenerId == id
  {
    if j :| 0 <= j < |ps| && ps[j].listenerId == id {
      assert ps[j] in ps;
    }
  }

  /** No exception escapes from building the wrapper policies. */
  ghost predicate Translatable(svc: Service) {
    forall p :: p in svc.policies ==> BuildPolicy(svc, p.listenerId).Ok?
  }

  /** Some iteration order of a dictionary keyed by the listeners that have policies. */
  ghost predicate IterationOrder(svc: Service, order: seq<Id>) {
    && (forall i, j :: 0 <= i < j < |order| ==> order[i] != order[j])
    && (forall id :: id in order <==> id in ListenersOf(svc.policies))
  }

  /** The dictionary holds what is built for every listener in the order, and no more. */
  ghost predicate BuiltFrom(svc: Service, order: seq<Id>, built: F5Policies) {
    && (forall id :: id in built <==> id in order)
    && (forall id :: id in built ==> built[id] == PolicyFor(svc, id))
  }

  /** What is attached to the listeners whose wrapper policy was created without error. */
  function AttachedBut(svc: Service, order: seq<Id>, errors: seq<bool>): F5Policies
    requires |errors| <= |order|
  {
    if errors == [] then map[]
    else
      var n := |errors| - 1;
      var before := AttachedBut(svc, order, errors[..n]);
      if errors[n] then before else before[order[n] := PolicyFor(svc, order[n])]
  }

  lemma AttachedButNext(svc: Service, order: seq<Id>, errors: seq<bool>, error: bool)
    requires |errors| < |order|
    ensures var before := AttachedBut(svc, order, errors);
            AttachedBut(svc, order, errors + [error]) ==
            if error then before else before[order[|errors|] := PolicyFor(svc, order[|errors|])]
  {
    assert (errors + [error])[..|errors|] == errors;
  }

  /** A failure that no later device hides by creating the object: what `create_l7policy`
      reports. */
  ghost predicate Unmasked(o: Obj, row: Row, before: seq<Device>) {
    exists d :: 0 <= d < |row| && d < |before| && row[d] && StillSet(o, row, before, d)
  }

  ghost predicate StillSet(o: Obj, row: Row, before: seq<Device>, d: nat) {
    forall k :: d < k < |row| && k < |before| ==> row[k] || o in before[k]
  }

  lemma UnmaskedNext(o: Obj, row: Row, failed: bool, before: seq<Device>, d: nat)
    requires d == |row| < |before|
    ensures Unmasked(o, row + [failed], before) <==> failed || (Unmasked(o, row, before) && o in before[d])
  {
    var more := row + [failed];
    if failed {
      assert more[d] && StillSet(o, more, before, d);
    } else {
      if Unmasked(o, row, before) && o in before[d] {
        var k :| 0 <= k < |row| && row[k] && StillSet(o, row, before, k);
        assert more[k] && StillSet(o, more, before, k);
      }
      if Unmasked(o, more, before) {
        var k :| 0 <= k < |more| && more[k] && StillSet(o, more, before, k);
        assert row[k];
        forall j | k < j < |row|
          ensures row[j] || o in before[j]
        {
          assert more[j] == row[j];
        }
        assert StillSet(o, row, before, k);
        assert !more[d];
      }
    }
  }

  /** No pattern of failures is hidden exactly when every device but the first already has
      the policy; with one device nothing is hidden. */
  lemma FailuresShow(o: Obj, before: seq<Device>)
    ensures (forall row: Row :: |row| == |before| && true in row ==> Unmasked(o, row, before)) <==>
            (forall k :: 1 <= k < |before| ==> o in before[k])
  {
    if forall k :: 1 <= k < |before| ==> o in before[k] {
      forall row: Row | |row| == |before| && true in row
        ensures Unmasked(o, row, before)
      {
        var d: nat :| d < |row| && row[d];
        assert StillSet(o, row, before, d);
      }
    } else {
      var k :| 1 <= k < |before| && o !in before[k];
      var row: Row := seq(|before|, i => i == 0);
      assert row[0] && !row[k] && !StillSet(o, row, before, 0);
      assert forall d :: 0 < d < |row| ==> !row[d];
      assert true in row && !Unmasked(o, row, before);
    }
  }

  ghost predicate SamePresence(o: Obj, before: seq<Device>, after: seq<Device>) {
    |after| == |before| && forall d :: 0 <= d < |after| ==> (o in after[d] <==> o in before[d])
  }

  lemma SamePresenceUnmasked(o: Obj, row: Row, before: seq<Device>, after: seq<Device>)
    requires SamePresence(o, before, after)
    ensures Unmasked(o, row, before) <==> Unmasked(o, row, after)
  {
    forall d: nat
      ensures StillSet(o, row, before, d) <==> StillSet(o, row, after, d)
    {
    }
  }

  /** No other object came or went. */
  ghost predicate OnlyAt(o: Obj, before: seq<Device>, after: seq<Device>) {
    |after| == |before| && forall d, x :: 0 <= d < |after| && x != o ==> (x in after[d] <==> x in before[d])
  }

  ghost predicate PresenceFrom(es: seq<Entry>, i: nat, before: seq<Device>, after: seq<Device>) {
    forall k {:trigger es[k]} :: i <= k < |es| ==> SamePresence(es[k].obj, before, after)
  }

  lemma OthersKeepPresence(svc: Service, order: seq<Id>, i: nat, before: seq<Device>, mid: seq<Device>,
                           after: seq<Device>)
    requires IterationOrder(svc, order) && i < |order|
    requires PresenceFrom(PolicyEntries(svc, order), i, before, mid)
    requires OnlyAt(PolicyEntries(svc, order)[i].obj, mid, after)
    ensures PresenceFrom(PolicyEntries(svc, order), i + 1, before, after)
  {
    var es := PolicyEntries(svc, order);
    forall k | i + 1 <= k < |es|
      ensures SamePresence(es[k].obj, before, after)
    {
      PlanResult.WrapperNameInjective(svc.folder, order[i], order[k]);
    }
  }

  /** The errors noticed are exactly the unmasked failures. */
  ghost predicate NoticedExactly(es: seq<Entry>, rows: seq<Row>, errors: seq<bool>, before: seq<Device>) {
    && |errors| == |rows| <= |es|
    && forall k {:trigger errors[k]} :: 0 <= k < |errors| ==> (errors[k] <==> Unmasked(es[k].obj, rows[k], before))
  }

  lemma NoticedNext(es: seq<Entry>, rows: seq<Row>, row: Row, errors: seq<bool>, error: bool,
                    before: seq<Device>, mid: seq<Device>)
    requires |rows| < |es| && NoticedExactly(es, rows, errors, before) && SamePresence(es[|rows|].obj, before, mid)
    requires error <==> Unmasked(es[|rows|].obj, row, mid)
    ensures NoticedExactly(es, rows + [row], errors + [error], before)
  {
    SamePresenceUnmasked(es[|rows|].obj, row, before, mid);
    forall k | 0 <= k < |rows| + 1
      ensures (errors + [error])[k] <==> Unmasked(es[k].obj, (rows + [row])[k], before)
    {
      assert k < |rows| ==> (errors[k] <==> Unmasked(es[k].obj, rows[k], before));
    }
  }

  lemma {:induction false} PrefixOfReferenced(refs: seq<Id>, ps: seq<L7.L7Policy>, i: nat)
    requires i < |refs|
    ensures Referenced(refs[..i + 1], ps) ==
            Referenced(refs[..i], ps) + if L7.FindPolicy(ps,
                                                         refs[i]).Some? then [L7.FindPolicy(ps, refs[i]).value] else []
  {
    assert refs[..i + 1][..i] == refs[..i];
  }

  // ----- Virtual addresses

  /** How assuring an address ends on one device: assured; given up because a create was
      answered by an HTTP error, which is swallowed; or left by an exception. */
  datatype AddressEnd = Assured | Swallowed | Failed

  /** `deleted`: the object was there with another address and was taken away. */
  datatype AddressOutcome = AddressOutcome(deleted: bool, end: AddressEnd)

  function OutcomeCalls(o: Obj, v: Value, x: AddressOutcome): seq<Op> {
    (if x.deleted then [Delete(o)] else []) + (if x.end.Assured? then [Put(o, v)] else [])
  }

  /** What may happen on a device with that configuration. */
  ghost predicate OutcomeFits(o: Obj, v: Value, d: Device, x: AddressOutcome) {
    && (x.deleted ==> o in d && d[o] != v)
    && (x.end.Swallowed? ==> !(o in d && d[o] == v))
    && (x.end.Assured? && o in d && d[o] != v ==> x.deleted)
  }

  ghost predicate OutcomesFit(o: Obj, v: Value, before: seq<Device>, outs: seq<AddressOutcome>) {
    |outs| == |before| && forall d :: 0 <= d < |outs| ==> OutcomeFits(o, v, before[d], outs[d])
  }

  /** An exception was caught, and the load balancer put in error. */
  predicate AnyFailed(outs: seq<AddressOutcome>) {
    exists d :: 0 <= d < |outs| && outs[d].end.Failed?
  }

  predicate AllAssured(outs: seq<AddressOutcome>) {
    forall d :: 0 <= d < |outs| ==> outs[d].end.Assured?
  }

  function AddressIssued(o: Obj, v: Value, outs: seq<AddressOutcome>, d: nat): seq<Op> {
    if d < |outs| then OutcomeCalls(o, v, outs[d]) else []
  }

  /** The devices before `d` have had their address assured. */
  ghost predicate AddressedTo(d: nat, o: Obj, v: Value, outs: seq<AddressOutcome>, before: seq<Device>,
                              first: seq<seq<Op>>, last: seq<seq<Op>>)
  {
    && |outs| == d <= |last| == |first| == |before| && SameFrom(d, first, last)
    && (forall k :: 0 <= k < d ==> OutcomeFits(o, v, before[k], outs[k]))
    && (forall k :: 0 <= k < d ==> last[k] == first[k] + OutcomeCalls(o, v, outs[k]))
  }

  lemma AddressedNext(d: nat, o: Obj, v: Value, outs: seq<AddressOutcome>, x: AddressOutcome, before: seq<Device>,
                      first: seq<seq<Op>>, mid: seq<seq<Op>>, last: seq<seq<Op>>)
    requires AddressedTo(d, o, v, outs, before, first, mid) && d < |before| && OutcomeFits(o, v, before[d], x)
    requires last == mid[d := mid[d] + OutcomeCalls(o, v, x)]
    ensures AddressedTo(d + 1, o, v, outs + [x], before, first, last)
  {
  }

  lemma TwoAdded(before: seq<Op>, a: Op, b: Op)
    ensures before + [a] + [b] == before + [a, b]
  {
  }

  lemma NoCalls(before: seq<Op>)
    ensures before + [] == before
  {
  }

  lemma OneCallOf(a: Op, d: Device)
    ensures ExecAll([], d) == d && ExecAll([a], d) == Exec(a, d) && [a] + [] == [a] && [] + [a] == [a]
  {
    assert [a][..0] == [];
  }

  lemma TwoCalls(a: Op, b: Op, d: Device)
    ensures ExecAll([], d) == d && ExecAll([a], d) == Exec(a, d) && ExecAll([b], d) == Exec(b, d)
    ensures ExecAll([a, b], d) == Exec(b, Exec(a, d)) && [a] + [b] == [a, b] && [] + [b] == [b] && [a] + [] == [a]
  {
    OneCallOf(a, d);
    OneCallOf(b, d);
    var both := [a, b];
    assert both[..1] == [a] && both[1] == b;
  }

  lemma AnyFailedNext(outs: seq<AddressOutcome>, x: AddressOutcome)
    ensures AnyFailed(outs + [x]) <==> AnyFailed(outs) || x.end.Failed?
  {
    var more := outs + [x];
    assert more[|outs|] == x && forall d :: 0 <= d < |outs| ==> more[d] == outs[d];
    if AnyFailed(outs) {
      var d :| 0 <= d < |outs| && outs[d].end.Failed?;
      assert more[d].end.Failed?;
    }
  }

  /** No failure goes unnoticed exactly when every device already holds the object with this
      very address.  Where the object is missing, or there with another address, an HTTP error
      of the create is swallowed. */
  lemma AddressFailuresShow(o: Obj, v: Value, before: seq<Device>)
    ensures (forall outs: seq<AddressOutcome> ::
               OutcomesFit(o, v, before, outs) && !AllAssured(outs) ==> AnyFailed(outs)) <==>
            (forall d :: 0 <= d < |before| ==> o in before[d] && before[d][o] == v)
  {
    if forall d :: 0 <= d < |before| ==> o in before[d] && before[d][o] == v {
      forall outs: seq<AddressOutcome> | OutcomesFit(o, v, before, outs) && !AllAssured(outs)
        ensures AnyFailed(outs)
      {
        var d :| 0 <= d < |outs| && !outs[d].end.Assured?;
        assert OutcomeFits(o, v, before[d], outs[d]);
      }
    } else {
      var k :| 0 <= k < |before| && !(o in before[k] && before[k][o] == v);
      var outs := seq(|before|, i requires 0 <= i < |before| =>
                      if i == k then AddressOutcome(false, Swallowed)
                      else AddressOutcome(o in before[i] && before[i][o] != v, Assured));
      assert OutcomesFit(o, v, before, outs);
      assert !outs[k].end.Assured?;
      assert !AnyFailed(outs);
    }
  }

  // ----- Reports of a pass

  /** The calls that devices missed, stage by stage (no rows for stages not reached), and the
      errors that the builder noticed where they are not exactly the missed calls. */
  datatype CreateReport = CreateReport(
    addressError: bool, address: seq<AddressOutcome>, monitors: seq<Row>, pools: seq<Row>,
    policies: seq<Row>, policyErrors: seq<bool>, listeners: seq<Row>)

  datatype DeleteReport = DeleteReport(
    listeners: seq<Row>, legacy: seq<Row>, policies: seq<Row>, pools: seq<Row>, monitors: seq<Row>, address: seq<Row>)

  datatype Report = Report(creates: CreateReport, deletes: DeleteReport)

  const NoDeletes: DeleteReport := DeleteReport([], [], [], [], [], [])
  const NoReport: Report := Report(CreateReport(false, [], [], [], [], [], []), NoDeletes)

  // ----- The service after each stage

  function AfterAddress(svc: Service, c: CreateReport): Service {
    MarkLoadBalancer(svc, c.addressError)
  }

  function AfterMonitors(svc: Service, c: CreateReport): Service {
    MarkMonitors(AfterAddress(svc, c), c.monitors)
  }

  function AfterPools(svc: Service, c: CreateReport): Service {
    MarkLoadBalancer(MarkPools(AfterMonitors(svc, c), c.pools), AnyReported(c.pools))
  }

  function AfterPolicies(svc: Service, c: CreateReport): Service {
    MarkPolicies(AfterPools(svc, c), true in c.policyErrors)
  }

  function AfterCreates(svc: Service, c: CreateReport): Service {
    MarkLoadBalancer(MarkListeners(AfterPolicies(svc, c), c.listeners), AnyReported(c.listeners))
  }

  function AfterVirtualsGone(s: Service, r: DeleteReport): Service {
    MarkListeners(s, r.listeners)
  }

  function AfterPoliciesGone(s: Service, order: seq<Id>, r: DeleteReport): Service
    requires |r.policies| <= |order|
  {
    MarkDeleted(AfterVirtualsGone(s, r), order, r.policies)
  }

  function AfterPoolsGone(s: Service, order: seq<Id>, r: DeleteReport): Service
    requires |r.policies| <= |order|
  {
    MarkPools(AfterPoliciesGone(s, order, r), r.pools)
  }

  function AfterDeletes(s: Service, order: seq<Id>, r: DeleteReport): Service
    requires |r.policies| <= |order|
  {
    MarkMonitors(AfterPoolsGone(s, order, r), r.monitors)
  }

  /** The service at the end of the pass. */
  function Outcome(svc: Service, order: seq<Id>, rep: Report): Service
    requires |rep.deletes.policies| <= |order|
  {
    AfterDeletes(AfterCreates(svc, rep.creates), order, rep.deletes)
  }

  // ----- What each device executed

  /** The `f5_policy` of the listeners after the L7 create stage. */
  function F5Of(svc: Service, order: seq<Id>, c: CreateReport): F5Policies
    requires |c.policyErrors| <= |order|
  {
    AttachedBut(AfterPools(svc, c), order, c.policyErrors)
  }

  predicate FirstRows(svc: Service, c: CreateReport) {
    |c.monitors| <= |svc.monitors| && |c.pools| <= |svc.pools|
  }

  predicate LaterRows(svc: Service, order: seq<Id>, c: CreateReport) {
    |c.policyErrors| <= |order| && |c.policies| <= |order| && |c.listeners| <= |svc.listeners|
  }

  predicate DeleteRows(s: Service, order: seq<Id>, r: DeleteReport) {
    && |r.listeners| <= |s.listeners| && |r.legacy| <= 1 && |r.policies| <= |order| && |r.pools| <= |s.pools|
    && |r.monitors| <= |s.monitors| && |r.address| <= 1
  }

  function FirstIssued(svc: Service, sync: bool, c: CreateReport, d: nat): seq<Op>
    requires FirstRows(svc, c)
  {
    AddressIssued(AddressEntry(svc, sync).obj, AddressValue(svc.vip), c.address, d) +
    Issued(MonitorEntries(AfterAddress(svc, c), sync), CreateStage, c.monitors, d) +
    Issued(PoolEntries(AfterMonitors(svc, c), sync), CreateStage, c.pools, d)
  }

  function LaterIssued(svc: Service, sync: bool, order: seq<Id>, c: CreateReport, d: nat): seq<Op>
    requires LaterRows(svc, order, c)
  {
    Issued(PolicyEntries(AfterPools(svc, c), order), CreateStage, c.policies, d) +
    Issued(VirtualEntries(AfterPolicies(svc, c), sync, F5Of(svc, order, c)), CreateStage, c.listeners, d)
  }

  function FrontDeleted(s: Service, sync: bool, order: seq<Id>, f5: F5Policies, r: DeleteReport, d: nat): seq<Op>
    requires |r.listeners| <= |s.listeners| && |r.legacy| <= 1 && |r.policies| <= |order|
  {
    Issued(VirtualEntries(s, sync, f5), DeleteStage, r.listeners, d) +
    Issued([LegacyEntry(AfterVirtualsGone(s, r))], DeleteStage, r.legacy, d) +
    Issued(PolicyEntries(AfterVirtualsGone(s, r), order), DeleteStage, r.policies, d)
  }

  function BackDeleted(q: Service, sync: bool, r: DeleteReport, d: nat): seq<Op>
    requires |r.pools| <= |q.pools| && |r.monitors| <= |q.monitors| && |r.address| <= 1
  {
    Issued(PoolEntries(q, sync), DeleteStage, r.pools, d) +
    Issued(MonitorEntries(MarkPools(q, r.pools), sync), DeleteStage, r.monitors, d) +
    Issued([AddressEntry(MarkMonitors(MarkPools(q, r.pools), r.monitors), sync)], DeleteStage, r.address, d)
  }

  // ----- The relation of a whole pass

  ghost predicate FirstPass(svc: Service, sync: bool, before: seq<Device>, c: CreateReport) {
    var n := |before|;
    && (if Acts(sync, svc.lbStatus)
        then OutcomesFit(AddressEntry(svc, sync).obj, AddressValue(svc.vip), before, c.address)
        else c.address == [])
    && (c.addressError <==> AnyFailed(c.address))
    && |c.monitors| == |svc.monitors| && RowsFit(MonitorEntries(AfterAddress(svc, c), sync), CreateStage, c.monitors, n)
    && |c.pools| == |svc.pools| && RowsFit(PoolEntries(AfterMonitors(svc, c), sync), CreateStage, c.pools, n)
  }

  /** `stopped`: an L7 policy could not be translated, and an exception left the pass. */
  ghost predicate LaterPass(svc: Service, sync: bool, order: seq<Id>, before: seq<Device>, c: CreateReport,
                            stopped: bool) {
    var s, n := AfterPools(svc, c), |before|;
    && (stopped <==> !Translatable(s))
    && (stopped ==> c.policies == [] && c.policyErrors == [] && c.listeners == [])
    && (!stopped ==>
          && |c.policies| == |order| && RowsFit(PolicyEntries(s, order), CreateStage, c.policies, n)
          && NoticedExactly(PolicyEntries(s, order), c.policies, c.policyErrors, before)
          && |c.listeners| == |svc.listeners|
          && RowsFit(VirtualEntries(AfterPolicies(svc, c), sync, F5Of(svc, order, c)), CreateStage, c.listeners, n))
  }

  ghost predicate FrontPass(s: Service, sync: bool, order: seq<Id>, f5: F5Policies, n: nat, r: DeleteReport,
                            stopped: bool) {
    var v := AfterVirtualsGone(s, r);
    && |r.listeners| == |s.listeners| && RowsFit(VirtualEntries(s, sync, f5), DeleteStage, r.listeners, n)
    && (stopped <==> !Translatable(v))
    && (stopped ==> r.legacy == [] && r.policies == [])
    && (!stopped ==>
          && |r.legacy| == 1 && RowsFit([LegacyEntry(v)], DeleteStage, r.legacy, n)
          && |r.policies| == |order| && RowsFit(PolicyEntries(v, order), DeleteStage, r.policies, n))
  }

  /** A failing delete of the address raises, and later devices are not called. */
  ghost predicate BackPass(q: Service, sync: bool, n: nat, r: DeleteReport, raised: bool) {
    var p := MarkPools(q, r.pools);
    && |r.pools| == |q.pools| && RowsFit(PoolEntries(q, sync), DeleteStage, r.pools, n)
    && |r.monitors| == |q.monitors| && RowsFit(MonitorEntries(p, sync), DeleteStage, r.monitors, n)
    && |r.address| == 1 && RowsFit([AddressEntry(MarkMonitors(p, r.monitors), sync)], DeleteStage, r.address, n)
    && (raised <==> true in r.address[0])
    && forall i, j :: 0 <= i < j < |r.address[0]| && r.address[0][i] ==> r.address[0][j]
  }

  /** Whether the pass is left before the listeners are created. */
  ghost predicate StoppedEarly(svc: Service, rep: Report) {
    !Translatable(AfterPools(svc, rep.creates))
  }

  /** Whether it is left before the wrapper policies are deleted. */
  ghost predicate StoppedLate(svc: Service, rep: Report) {
    !Translatable(AfterVirtualsGone(AfterCreates(svc, rep.creates), rep.deletes))
  }

  ghost predicate DeletePass(s: Service, sync: bool, order: seq<Id>, f5: F5Policies, n: nat, r: DeleteReport,
                             raised: bool)
    requires |r.policies| <= |order|
  {
    var stopped := !Translatable(AfterVirtualsGone(s, r));
    && FrontPass(s, sync, order, f5, n, r, stopped)
    && if stopped then r.pools == r.monitors == r.address == [] && raised
       else BackPass(AfterPoliciesGone(s, order, r), sync, n, r, raised)
  }

  ghost predicate PassReport(svc: Service, sync: bool, order: seq<Id>, before: seq<Device>, rep: Report, raised: bool) {
    var c, r := rep.creates, rep.deletes;
    && FirstPass(svc, sync, before, c) && LaterRows(svc, order, c)
    && LaterPass(svc, sync, order, before, c, StoppedEarly(svc, rep))
    && DeleteRows(AfterCreates(svc, c), order, r)
    && if StoppedEarly(svc, rep) then r == NoDeletes && raised
       else DeletePass(AfterCreates(svc, c), sync, order, F5Of(svc, order, c), |before|, r, raised)
  }

  lemma SameCounts(s: Service, order: seq<Id>, r: DeleteReport)
    requires |r.policies| <= |order|
    ensures SameCountsAre(s, order, r)
  {
    MarkDeletedKeeps(AfterVirtualsGone(s, r), order, r.policies);
  }

  function DeleteIssued(s: Service, sync: bool, order: seq<Id>, f5: F5Policies, r: DeleteReport, d: nat): seq<Op>
    requires DeleteRows(s, order, r)
  {
    SameCounts(s, order, r);
    FrontDeleted(s, sync, order, f5, r, d) + BackDeleted(AfterPoliciesGone(s, order, r), sync, r, d)
  }

  /** Everything that device `d` executed in the pass. */
  function PassIssued(svc: Service, sync: bool, order: seq<Id>, rep: Report, d: nat): seq<Op>
    requires FirstRows(svc, rep.creates) && LaterRows(svc, order, rep.creates)
    requires DeleteRows(AfterCreates(svc, rep.creates), order, rep.deletes)
  {
    FirstIssued(svc, sync, rep.creates, d) + LaterIssued(svc, sync, order, rep.creates, d) +
    DeleteIssued(AfterCreates(svc, rep.creates), sync, order, F5Of(svc, order, rep.creates), rep.deletes, d)
  }

  /** Every device executed what the report says. */
  ghost predicate Executed(svc: Service, sync: bool, order: seq<Id>, before: seq<Device>, rep: Report,
                           after: seq<Device>)
    requires FirstRows(svc, rep.creates) && LaterRows(svc, order, rep.creates)
    requires DeleteRows(AfterCreates(svc, rep.creates), order, rep.deletes)
  {
    && |after| == |before|
    && forall d: nat {:trigger after[d]} :: d < |after| ==>
         after[d] == ExecAll(PassIssued(svc, sync, order, rep, d), before[d])
  }

  /** One pass over all devices, under any failures. */
  ghost predicate Pass(svc: Service, sync: bool, order: seq<Id>, before: seq<Device>, rep: Report, raised: bool,
                       after: seq<Device>)
  {
    PassReport(svc, sync, order, before, rep, raised) && Executed(svc, sync, order, before, rep, after)
  }

  // ----- Putting the parts of a pass together

  lemma SameListeners(ps: seq<L7.L7Policy>)
    ensures ListenersOf(AllPoliciesInError(ps)) == ListenersOf(ps)
  {
    var marked := AllPoliciesInError(ps);
    forall i | 0 <= i < |ps|
      ensures ps[i].listenerId in ListenersOf(marked) && marked[i].listenerId in ListenersOf(ps)
    {
      assert marked[i] in marked && ps[i] in ps;
    }
  }

  lemma FirstKeepsOrder(svc: Service, order: seq<Id>, c: CreateReport)
    requires IterationOrder(svc, order)
    ensures IterationOrder(AfterPools(svc, c), order) && |AfterPools(svc, c).listeners| == |svc.listeners|
  {
  }

  lemma CreatesKeepOrder(svc: Service, order: seq<Id>, c: CreateReport)
    requires IterationOrder(svc, order)
    ensures IterationOrder(AfterCreates(svc, c), order)
  {
    SameListeners(svc.policies);
  }

  /** The later fields of the report do not matter to the first stages. */
  lemma SameFirst(svc: Service, sync: bool, first: CreateReport, c: CreateReport, before: seq<Device>)
    requires c == first.(policies := c.policies, policyErrors := c.policyErrors, listeners := c.listeners)
    requires FirstPass(svc, sync, before, first)
    ensures FirstPass(svc, sync, before, c) && AfterPools(svc, first) == AfterPools(svc, c)
  {
  }

  lemma {:induction false} IssuedKinds(es: seq<Entry>, stage: Stage, rows: seq<Row>, d: nat, k: Kind)
    requires |rows| <= |es| && forall i :: 0 <= i < |es| ==> es[i].obj.kind != k
    ensures forall j :: 0 <= j < |Issued(es, stage, rows, d)| ==> Issued(es, stage, rows, d)[j].obj.kind != k
  {
    if rows != [] {
      IssuedKinds(es, stage, rows[..|rows| - 1], d, k);
    }
  }

  lemma {:induction false} NotCalledStays(ops: seq<Op>, d: Device, o: Obj)
    requires forall j :: 0 <= j < |ops| ==> ops[j].obj != o
    ensures o in ExecAll(ops, d) <==> o in d
    ensures o in d ==> ExecAll(ops, d)[o] == d[o]
  {
    if ops != [] {
      NotCalledStays(ops[..|ops| - 1], d, o);
    }
  }

  lemma FirstHasNoPolicies(svc: Service, sync: bool, c: CreateReport, d: nat)
    requires FirstRows(svc, c)
    ensures forall j :: 0 <= j < |FirstIssued(svc, sync, c, d)| ==>
            FirstIssued(svc, sync, c, d)[j].obj.kind != PolicyKind
  {
    IssuedKinds(MonitorEntries(AfterAddress(svc, c), sync), CreateStage, c.monitors, d, PolicyKind);
    IssuedKinds(PoolEntries(AfterMonitors(svc, c), sync), CreateStage, c.pools, d, PolicyKind);
  }

  /** What is noticed about L7 policies can be read off the devices before the pass. */
  lemma FirstKeepsPolicies(svc: Service, sync: bool, c: CreateReport, order: seq<Id>, before: seq<Device>,
                           mid: seq<Device>)
    requires FirstRows(svc, c) && |mid| == |before|
    requires forall d :: 0 <= d < |mid| ==> mid[d] == ExecAll(FirstIssued(svc, sync, c, d), before[d])
    ensures var es := PolicyEntries(AfterPools(svc, c), order);
            NoticedExactly(es, c.policies, c.policyErrors, mid) <==>
                NoticedExactly(es, c.policies, c.policyErrors, before)
  {
    var es := PolicyEntries(AfterPools(svc, c), order);
    forall k | 0 <= k < |c.policyErrors| && k < |c.policies| && k < |es|
      ensures Unmasked(es[k].obj, c.policies[k], before) <==> Unmasked(es[k].obj, c.policies[k], mid)
    {
      forall d | 0 <= d < |mid|
        ensures es[k].obj in mid[d] <==> es[k].obj in before[d]
      {
        FirstHasNoPolicies(svc, sync, c, d);
        NotCalledStays(FirstIssued(svc, sync, c, d), before[d], es[k].obj);
      }
      SamePresenceUnmasked(es[k].obj, c.policies[k], before, mid);
    }
  }

  /** The back of the delete stages after their front. */
  lemma DeletesJoined(s: Service, sync: bool, order: seq<Id>, f5: F5Policies, front: DeleteReport, r: DeleteReport,
                      l0: seq<seq<Op>>, l1: seq<seq<Op>>, l2: seq<seq<Op>>)
    requires DeleteRows(s, order, r) && SameCountsAre(s, order, r) && |l1| == |l0| == |l2|
    requires r == front.(pools := r.pools, monitors := r.monitors, address := r.address)
    requires forall d: nat {:trigger l1[d]} :: d < |l1| ==> l1[d] == l0[d] + FrontDeleted(s, sync, order, f5, front, d)
    requires forall d: nat {:trigger l2[d]} :: d < |l2| ==>
               l2[d] == l1[d] + BackDeleted(AfterPoliciesGone(s, order, r), sync, r, d)
    ensures forall d: nat {:trigger l2[d]} :: d < |l2| ==> l2[d] == l0[d] + DeleteIssued(s, sync, order, f5, r, d)
  {
    forall d: nat | d < |l2|
      ensures l2[d] == l0[d] + DeleteIssued(s, sync, order, f5, r, d)
    {
      assert FrontDeleted(s, sync, order, f5, front, d) == FrontDeleted(s, sync, order, f5, r, d);
      Regrouped(l0[d], l1[d], l2[d], FrontDeleted(s, sync, order, f5, r, d),
                BackDeleted(AfterPoliciesGone(s, order, r), sync, r, d));
    }
  }

  predicate SameCountsAre(s: Service, order: seq<Id>, r: DeleteReport)
    requires |r.policies| <= |order|
  {
    && |AfterPoliciesGone(s, order, r).pools| == |s.pools|
    && |AfterPoliciesGone(s, order, r).monitors| == |s.monitors|
  }

  lemma FirstRuns(svc: Service, sync: bool, c: CreateReport, l0: seq<seq<Op>>, l1: seq<seq<Op>>, start: seq<Device>,
                  before: seq<Device>, mid: seq<Device>)
    requires FirstRows(svc, c) && |l0| == |l1| == |start| == |before| == |mid|
    requires forall d :: 0 <= d < |before| ==> before[d] == ExecAll(l0[d], start[d])
    requires forall d :: 0 <= d < |mid| ==> mid[d] == ExecAll(l1[d], start[d])
    requires forall d: nat {:trigger l1[d]} :: d < |l1| ==> l1[d] == l0[d] + FirstIssued(svc, sync, c, d)
    ensures forall d :: 0 <= d < |mid| ==> mid[d] == ExecAll(FirstIssued(svc, sync, c, d), before[d])
  {
    forall d | 0 <= d < |mid|
      ensures mid[d] == ExecAll(FirstIssued(svc, sync, c, d), before[d])
    {
      PlanResult.ExecAppend(l0[d], FirstIssued(svc, sync, c, d), start[d]);
    }
  }

  lemma CreatesJoined(svc: Service, sync: bool, order: seq<Id>, first: CreateReport, c: CreateReport,
                      l0: seq<seq<Op>>, l1: seq<seq<Op>>, l2: seq<seq<Op>>)
    requires FirstRows(svc, first) && LaterRows(svc, order, c) && |l1| == |l0| == |l2|
    requires c == first.(policies := c.policies, policyErrors := c.policyErrors, listeners := c.listeners)
    requires forall d: nat {:trigger l1[d]} :: d < |l1| ==> l1[d] == l0[d] + FirstIssued(svc, sync, first, d)
    requires forall d: nat {:trigger l2[d]} :: d < |l2| ==> l2[d] == l1[d] + LaterIssued(svc, sync, order, c, d)
    ensures forall d: nat {:trigger l2[d]} :: d < |l2| ==>
              l2[d] == l0[d] + (FirstIssued(svc, sync, c, d) + LaterIssued(svc, sync, order, c, d))
  {
    forall d: nat | d < |l2|
      ensures l2[d] == l0[d] + (FirstIssued(svc, sync, c, d) + LaterIssued(svc, sync, order, c, d))
    {
      assert FirstIssued(svc, sync, first, d) == FirstIssued(svc, sync, c, d);
      Regrouped(l0[d], l1[d], l2[d], FirstIssued(svc, sync, c, d), LaterIssued(svc, sync, order, c, d));
    }
  }

  lemma NothingBack(q: Service, sync: bool, r: DeleteReport)
    requires r.pools == r.monitors == r.address == []
    ensures MarkMonitors(MarkPools(q, r.pools), r.monitors) == q && forall d :: BackDeleted(q, sync, r, d) == []
  {
    MarkedClean(q.pools, r.pools, PoolInError);
    MarkedClean(q.monitors, r.monitors, MonitorInError);
  }

  lemma NothingDeleted(s: Service, sync: bool, order: seq<Id>, f5: F5Policies)
    ensures AfterDeletes(s, order, NoDeletes) == s && DeleteRows(s, order, NoDeletes)
    ensures forall d :: DeleteIssued(s, sync, order, f5, NoDeletes, d) == []
  {
    MarkedClean(s.listeners, [], ListenerInError);
    NothingBack(s, sync, NoDeletes);
  }

  lemma AllIssued(svc: Service, sync: bool, order: seq<Id>, rep: Report, l0: seq<seq<Op>>, l1: seq<seq<Op>>,
                  l2: seq<seq<Op>>)
    requires FirstRows(svc, rep.creates) && LaterRows(svc, order, rep.creates)
    requires DeleteRows(AfterCreates(svc, rep.creates), order, rep.deletes) && |l0| == |l1| == |l2|
    requires forall d: nat {:trigger l1[d]} :: d < |l1| ==>
               l1[d] == l0[d] + (FirstIssued(svc, sync, rep.creates, d) + LaterIssued(svc, sync, order, rep.creates, d))
    requires forall d: nat {:trigger l2[d]} :: d < |l2| ==>
               l2[d] == l1[d] + DeleteIssued(AfterCreates(svc, rep.creates), sync, order, F5Of(svc, order, rep.creates),
                                             rep.deletes, d)
    ensures forall d: nat {:trigger l2[d]} :: d < |l2| ==> l2[d] == l0[d] + PassIssued(svc, sync, order, rep, d)
  {
    forall d: nat | d < |l2|
      ensures l2[d] == l0[d] + PassIssued(svc, sync, order, rep, d)
    {
      var s, f5 := AfterCreates(svc, rep.creates), F5Of(svc, order, rep.creates);
      Regrouped(l0[d], l1[d], l2[d], FirstIssued(svc, sync, rep.creates, d) +
                LaterIssued(svc, sync, order, rep.creates, d),
                DeleteIssued(s, sync, order, f5, rep.deletes, d));
    }
  }

  lemma Regrouped(l0: seq<Op>, l1: seq<Op>, l2: seq<Op>, a: seq<Op>, b: seq<Op>)
    requires l1 == l0 + a && l2 == l1 + b
    ensures l2 == l0 + (a + b)
  {
  }

  lemma ReportWhenStopped(svc: Service, sync: bool, order: seq<Id>, before: seq<Device>, c: CreateReport)
    requires FirstPass(svc, sync, before, c) && LaterRows(svc, order, c)
    requires LaterPass(svc, sync, order, before, c, true)
    ensures PassReport(svc, sync, order, before, Report(c, NoDeletes), true)
  {
  }

  lemma ReportWhenNotStopped(svc: Service, sync: bool, order: seq<Id>, before: seq<Device>, c: CreateReport,
                             r: DeleteReport, raised: bool)
    requires FirstPass(svc, sync, before, c) && LaterRows(svc, order, c)
    requires LaterPass(svc, sync, order, before, c, false) && DeleteRows(AfterCreates(svc, c), order, r)
    requires DeletePass(AfterCreates(svc, c), sync, order, F5Of(svc, order, c), |before|, r, raised)
    ensures PassReport(svc, sync, order, before, Report(c, r), raised)
  {
  }

  lemma StoppedLogs(svc: Service, sync: bool, order: seq<Id>, c: CreateReport, log: seq<seq<Op>>)
    requires LaterRows(svc, order, c)
    ensures var s := AfterCreates(svc, c);
            && AfterDeletes(s, order, NoDeletes) == s && DeleteRows(s, order, NoDeletes)
            && forall d: nat {:trigger log[d]} ::
                 d < |log| ==> log[d] == log[d] + DeleteIssued(s, sync, order, F5Of(svc, order, c), NoDeletes, d)
  {
    NothingDeleted(AfterCreates(svc, c), sync, order, F5Of(svc, order, c));
  }

  /** From the logs of the devices to their configurations. */
  lemma PassRuns(svc: Service, sync: bool, order: seq<Id>, before: seq<Device>, rep: Report, raised: bool,
                 first: seq<seq<Op>>, last: seq<seq<Op>>, start: seq<Device>, after: seq<Device>)
    requires PassReport(svc, sync, order, before, rep, raised)
    requires |first| == |last| == |start| == |before| == |after|
    requires forall d :: 0 <= d < |before| ==> before[d] == ExecAll(first[d], start[d])
    requires forall d :: 0 <= d < |after| ==> after[d] == ExecAll(last[d], start[d])
    requires forall d: nat {:trigger last[d]} :: d < |last| ==>
             last[d] == first[d] + PassIssued(svc, sync, order, rep, d)
    ensures Pass(svc, sync, order, before, rep, raised, after)
  {
    forall d: nat | d < |after|
      ensures after[d] == ExecAll(PassIssued(svc, sync, order, rep, d), before[d])
    {
      PlanResult.ExecAppend(first[d], PassIssued(svc, sync, order, rep, d), start[d]);
    }
  }
}
