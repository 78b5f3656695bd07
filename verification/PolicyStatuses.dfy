/** Which L7 policies a pass puts in error, in terms of the references of the service. */
module PolicyStatuses {
  import opened Lbaas
  import opened AssurePlan
  import opened BuilderStages
  import L7 = L7Policy

  /** Some reference is to policy `j`. */
  ghost predicate ReferredBy(refs: seq<Id>, ps: seq<L7.L7Policy>, j: nat) {
    exists i :: 0 <= i < |refs| && L7.PolicyAt(ps, refs[i], j)
  }

  /** The same policies up to their statuses. */
  ghost predicate StatusesOnly(ps: seq<L7.L7Policy>, qs: seq<L7.L7Policy>) {
    |qs| == |ps| && forall j :: 0 <= j < |ps| ==> qs[j] == ps[j].(status := qs[j].status)
  }

  lemma {:induction false} FirstMarked(ps: seq<L7.L7Policy>, id: Id)
    ensures var qs := MarkFirst(ps, id);
            && StatusesOnly(ps, qs)
            && forall j: nat {:trigger qs[j]} ::
                 j < |ps| ==> qs[j].status == if L7.PolicyAt(ps, id, j) then Error else ps[j].status
  {
    if ps != [] && ps[0].id != id {
      FirstMarked(ps[1..], id);
      var qs := MarkFirst(ps, id);
      forall j: nat | j < |ps|
        ensures qs[j] == ps[j].(status := if L7.PolicyAt(ps, id, j) then Error else ps[j].status)
      {
        if j > 0 {
          assert qs[j] == MarkFirst(ps[1..], id)[j - 1] && ps[j] == ps[1..][j - 1];
          PolicyAtTail(ps, id, j);
        }
      }
    }
  }

  lemma PolicyAtTail(ps: seq<L7.L7Policy>, id: Id, j: nat)
    requires 0 < j < |ps| && ps[0].id != id
    ensures L7.PolicyAt(ps, id, j) <==> L7.PolicyAt(ps[1..], id, j - 1)
  {
    if L7.PolicyAt(ps[1..], id, j - 1) {
      forall k | 0 <= k < j
        ensures ps[k].id != id
      {
        assert k > 0 ==> ps[k] == ps[1..][k - 1];
      }
    }
  }

  lemma SamePolicyAt(ps: seq<L7.L7Policy>, qs: seq<L7.L7Policy>, id: Id, j: nat)
    requires StatusesOnly(ps, qs)
    ensures L7.PolicyAt(ps, id, j) <==> L7.PolicyAt(qs, id, j)
  {
    assert forall k :: 0 <= k < |ps| ==> qs[k].id == ps[k].id;
  }

  lemma {:induction false} ReferencedMarked(ps: seq<L7.L7Policy>, refs: seq<Id>)
    ensures var qs := MarkReferenced(ps, refs);
            && StatusesOnly(ps, qs)
            && forall j: nat {:trigger qs[j]} ::
                 j < |ps| ==> qs[j].status == if ReferredBy(refs, ps, j) then Error else ps[j].status
  {
    if refs != [] {
      var n := |refs| - 1;
      var before, qs := MarkReferenced(ps, refs[..n]), MarkReferenced(ps, refs);
      ReferencedMarked(ps, refs[..n]);
      FirstMarked(before, refs[n]);
      forall j: nat | j < |ps|
        ensures qs[j] == ps[j].(status := if ReferredBy(refs, ps, j) then Error else ps[j].status)
      {
        SamePolicyAt(ps, before, refs[n], j);
        ReferredNext(refs, ps, j);
      }
    }
  }

  lemma ReferredNext(refs: seq<Id>, ps: seq<L7.L7Policy>, j: nat)
    requires refs != []
    ensures ReferredBy(refs, ps, j) <==> ReferredBy(refs[..|refs| - 1], ps, j) || L7.PolicyAt(ps, refs[|refs| - 1], j)
  {
    assert forall i :: 0 <= i < |refs| - 1 ==> refs[..|refs| - 1][i] == refs[i];
  }

  /** Listener `i` is the first with this id. */
  ghost predicate ListenerAt(ls: seq<Listener>, id: Id, i: nat) {
    i < |ls| && ls[i].id == id && forall k :: 0 <= k < i ==> ls[k].id != id
  }

  lemma {:induction false} FindsListenerAt(ls: seq<Listener>, id: Id)
    ensures FindListener(ls, id).None? <==> forall i: nat :: !ListenerAt(ls, id, i)
    ensures forall i: nat :: ListenerAt(ls, id, i) ==> FindListener(ls, id) == Some(ls[i])
  {
    if ls != [] {
      FindsListenerAt(ls[1..], id);
      if ls[0].id == id {
        assert ListenerAt(ls, id, 0);
      } else {
        forall i: nat
          ensures ListenerAt(ls, id, i) <==> i > 0 && ListenerAt(ls[1..], id, i - 1)
        {
          ListenerAtTail(ls, id, i);
        }
        if FindListener(ls[1..], id).Some? {
          var i: nat :| ListenerAt(ls[1..], id, i);
          assert ListenerAt(ls, id, i + 1);
        }
      }
    }
  }

  lemma ListenerAtTail(ls: seq<Listener>, id: Id, i: nat)
    requires ls != [] && ls[0].id != id
    ensures ListenerAt(ls, id, i) <==> i > 0 && ListenerAt(ls[1..], id, i - 1)
  {
    if i > 0 && ListenerAt(ls[1..], id, i - 1) {
      forall k | 0 <= k < i
        ensures ls[k].id != id
      {
        assert k > 0 ==> ls[k] == ls[1..][k - 1];
      }
    }
  }

  /** The delete of a wrapper policy was missed, of listener `i`, which refers to policy `j`. */
  ghost predicate MissedFor(svc: Service, order: seq<Id>, rows: seq<Row>, k: nat, i: nat, j: nat) {
    && k < |rows| && k < |order| && true in rows[k] && ListenerAt(svc.listeners, order[k], i)
    && ReferredBy(svc.listeners[i].l7Policies, svc.policies, j)
  }

  ghost predicate DeleteMissed(svc: Service, order: seq<Id>, rows: seq<Row>, j: nat) {
    exists k: nat, i: nat :: MissedFor(svc, order, rows, k, i, j)
  }

  lemma {:induction false} DeletedMarked(svc: Service, order: seq<Id>, rows: seq<Row>)
    requires |rows| <= |order|
    ensures var ps, qs := svc.policies, MarkDeleted(svc, order, rows).policies;
            && StatusesOnly(ps, qs)
            && forall j: nat {:trigger qs[j]} ::
                 j < |ps| ==> qs[j].status == if DeleteMissed(svc, order, rows, j) then Error else ps[j].status
  {
    if rows != [] {
      var n := |rows| - 1;
      DeletedMarked(svc, order, rows[..n]);
      var before, ps, qs := MarkDeleted(svc, order, rows[..n]).policies, svc.policies,
                            MarkDeleted(svc, order, rows).policies;
      var refs := PolicyRefs(svc, order[n]);
      ReferencedMarked(before, refs);
      forall j: nat | j < |ps|
        ensures qs[j] == ps[j].(status := if DeleteMissed(svc, order, rows, j) then Error else ps[j].status)
      {
        SameReferredBy(refs, ps, before, j);
        DeleteMissedNext(svc, order, rows, j);
      }
    }
  }

  lemma SameReferredBy(refs: seq<Id>, ps: seq<L7.L7Policy>, qs: seq<L7.L7Policy>, j: nat)
    requires StatusesOnly(ps, qs)
    ensures ReferredBy(refs, ps, j) <==> ReferredBy(refs, qs, j)
  {
    forall i | 0 <= i < |refs|
      ensures L7.PolicyAt(ps, refs[i], j) <==> L7.PolicyAt(qs, refs[i], j)
    {
      SamePolicyAt(ps, qs, refs[i], j);
    }
  }

  lemma DeleteMissedNext(svc: Service, order: seq<Id>, rows: seq<Row>, j: nat)
    requires rows != [] && |rows| <= |order|
    ensures var n := |rows| - 1;
            DeleteMissed(svc, order, rows, j) <==>
            || DeleteMissed(svc, order, rows[..n], j)
            || (true in rows[n] && ReferredBy(PolicyRefs(svc, order[n]), svc.policies, j))
  {
    var n := |rows| - 1;
    FindsListenerAt(svc.listeners, order[n]);
    assert forall k: nat, i: nat :: k < n ==>
      (MissedFor(svc, order, rows, k, i, j) <==> MissedFor(svc, order, rows[..n], k, i, j));
    if true in rows[n] && ReferredBy(PolicyRefs(svc, order[n]), svc.policies, j) {
      var i: nat :| ListenerAt(svc.listeners, order[n], i);
      assert MissedFor(svc, order, rows, n, i, j);
    }
    if DeleteMissed(svc, order, rows, j) {
      var k: nat, i: nat :| MissedFor(svc, order, rows, k, i, j);
      if k == n {
        assert FindListener(svc.listeners, order[n]) == Some(svc.listeners[i]);
      }
    }
  }

  /** After a pass, a policy is in error exactly when it was, or an L7 create error was noticed,
      or the delete of a wrapper policy was missed whose listener refers to it.  Nothing else
      about the policies changes. */
  lemma PoliciesEnd(svc: Service, order: seq<Id>, rep: Report)
    requires |rep.deletes.policies| <= |order|
    ensures var ps, qs := svc.policies, Outcome(svc, order, rep).policies;
            && StatusesOnly(ps, qs)
            && forall j: nat {:trigger qs[j]} :: j < |ps| ==>
                 qs[j].status == if true in rep.creates.policyErrors ||
                     DeleteMissed(svc, order, rep.deletes.policies, j)
                                 then Error else ps[j].status
  {
    var s := AfterVirtualsGone(AfterCreates(svc, rep.creates), rep.deletes);
    DeletedMarked(s, order, rep.deletes.policies);
    forall j: nat | j < |svc.policies|
      ensures DeleteMissed(s, order, rep.deletes.policies, j) <==> DeleteMissed(svc, order, rep.deletes.policies, j)
    {
      SameDeleteMissed(svc, s, order, rep.deletes.policies, j);
    }
  }

  lemma SameDeleteMissed(svc: Service, s: Service, order: seq<Id>, rows: seq<Row>, j: nat)
    requires StatusesOnly(svc.policies, s.policies) && |s.listeners| == |svc.listeners|
    requires forall i :: 0 <= i < |svc.listeners| ==>
               s.listeners[i].id == svc.listeners[i].id && s.listeners[i].l7Policies == svc.listeners[i].l7Policies
    ensures DeleteMissed(s, order, rows, j) <==> DeleteMissed(svc, order, rows, j)
  {
    forall k: nat, i: nat
      ensures MissedFor(s, order, rows, k, i, j) <==> MissedFor(svc, order, rows, k, i, j)
    {
      if i < |svc.listeners| {
        SameReferredBy(svc.listeners[i].l7Policies, svc.policies, s.policies, j);
      }
    }
  }
}
