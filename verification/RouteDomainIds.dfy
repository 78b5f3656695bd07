/** Choice of the next route-domain id across all devices. */
module RouteDomainIds {

  type Rd = nat

  datatype DomainId =
    | Next(id: Rd)
    | DefaultDomainMissing  // `remove(0)` on a list without 0
    | OutOfOrder            // the LookupError branch

  /** Some device already uses the id. */
  predicate Used(devices: seq<set<Rd>>, id: Rd) {
    exists d :: 0 <= d < |devices| && id in devices[d]
  }

  /** The least positive id that is free on every device. */
  predicate LeastFree(devices: seq<set<Rd>>, id: Rd) {
    id > 0 && !Used(devices, id) && forall k :: 0 < k < id ==> Used(devices, k)
  }

  predicate Increasing(ids: seq<Rd>) {
    forall i, j :: 0 <= i < j < |ids| ==> ids[i] < ids[j]
  }

  /** `sorted(set(ids))`: the ids in strictly increasing order. */
  method Sorted(ids: set<Rd>) returns (r: seq<Rd>)
    ensures Increasing(r) && forall x :: x in r <==> x in ids
  {
    r := [];
    var todo := ids;
    while todo != {}
      invariant todo <= ids && Increasing(r)
      invariant forall x :: x in r <==> x in ids && x !in todo
      invariant forall i, y :: 0 <= i < |r| && y in todo ==> r[i] < y
      decreases |todo|
    {
      var least :| least in todo;
      var rest := todo - {least};
      while rest != {}
        invariant rest <= todo && least in todo
        invariant forall y :: y in todo && y !in rest ==> least <= y
        decreases |rest|
      {
        var y :| y in rest;
        if y < least {
          least := y;
        }
        rest := rest - {y};
      }
      r := r + [least];
      todo := todo - {least};
    }
  }

  lemma SmallestFirst(ids: seq<Rd>, all: set<Rd>)
    requires Increasing(ids) && 0 in all && forall x :: x in ids <==> x in all
    ensures |ids| > 0 && ids[0] == 0 && Increasing(ids[1..])
    ensures forall x :: x in ids[1..] <==> x in all && x != 0
  {
    var z :| 0 <= z < |ids| && ids[z] == 0;
    assert forall k :: 0 < k < |ids| ==> ids[0] < ids[k];
    forall x
      ensures x in ids[1..] <==> x in all && x != 0
    {
      if x in all && x != 0 {
        var i :| 0 <= i < |ids| && ids[i] == x;
        assert ids[1..][i - 1] == x;
      }
    }
  }

  method AllIds(devices: seq<set<Rd>>) returns (all: set<Rd>)
    ensures forall x :: x in all <==> Used(devices, x)
  {
    all := {};
    for d := 0 to |devices|
      invariant forall x :: x in all <==> exists k :: 0 <= k < d && x in devices[k]
    {
      all := all + devices[d];
    }
  }

  method GetNextDomainId(devices: seq<set<Rd>>) returns (r: DomainId)
    ensures r != OutOfOrder
    ensures r == DefaultDomainMissing <==> !Used(devices, 0)
    ensures r.Next? ==> LeastFree(devices, r.id)
  {
    var all := AllIds(devices);
    if 0 !in all {
      return DefaultDomainMissing;
    }
    var ids := Sorted(all);
    SmallestFirst(ids, all);
    ids := ids[1..];
    var lowest := 1;
    var i := 0;
    while i < |ids|
      invariant 0 <= i <= |ids| && lowest == i + 1
      invariant Increasing(ids) && forall x :: x in ids <==> x in all && x != 0
      invariant forall k :: 0 <= k < i ==> ids[k] == k + 1
    {
      assert ids[i] in ids && (i > 0 ==> ids[i - 1] < ids[i]);
      if lowest < ids[i] {
        break;
      } else if ids[i] == lowest {
        lowest := lowest + 1;
      } else {
        return OutOfOrder;
      }
      i := i + 1;
    }
    forall k | 0 < k < lowest
      ensures k in all
    {
      assert ids[k - 1] == k;
    }
    return Next(lowest);
  }
}
