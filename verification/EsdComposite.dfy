/** Composition of the enhanced service definitions (ESDs) named by a listener's policies.

    The policies are sorted by descending position and their ESDs merged in that order,
    each overriding the ones before it. */
module EsdComposite {
  import opened Lbaas

  datatype Policy = Policy(name: string, position: int, status: Status)

  type Tag = string
  type Esd = map<Tag, string>

  /** The policy is live and its ESD defines the tag. */
  predicate DefinesTag(p: Policy, esds: map<string, Esd>, tag: Tag) {
    p.status != PendingDelete && p.name in esds && tag in esds[p.name]
  }

  /** The policy at `i` settles the tag: no live policy that defines it has a lower position,
      nor an equal position further on in the list. */
  ghost predicate Wins(ps: seq<Policy>, esds: map<string, Esd>, i: nat, tag: Tag) {
    && i < |ps| && DefinesTag(ps[i], esds, tag)
    && forall j :: 0 <= j < |ps| && DefinesTag(ps[j], esds, tag) ==>
         ps[i].position < ps[j].position || (ps[i].position == ps[j].position && j <= i)
  }

  /** In the sorted list, `ps[i]` comes before `ps[j]`: higher position first, equal
      positions in their original order. */
  predicate Before(ps: seq<Policy>, i: nat, j: nat)
    requires i < |ps| && j < |ps|
  {
    ps[i].position > ps[j].position || (ps[i].position == ps[j].position && i < j)
  }

  /** `order` lists the indices of the first `n` policies in sorted order. */
  ghost predicate SortedOrder(ps: seq<Policy>, n: nat, order: seq<nat>) {
    && n <= |ps| && |order| == n
    && (forall k :: 0 <= k < n ==> order[k] < n)
    && (forall i :: 0 <= i < n ==> i in order)
    && forall k, l :: 0 <= k < l < n ==> Before(ps, order[k], order[l])
  }

  lemma InsertKeepsOrder(ps: seq<Policy>, n: nat, order: seq<nat>, at: nat)
    requires n < |ps| && SortedOrder(ps, n, order) && at <= n
    requires forall k :: at <= k < n ==> ps[order[k]].position < ps[n].position
    requires at > 0 ==> ps[order[at - 1]].position >= ps[n].position
    ensures SortedOrder(ps, n + 1, order[..at] + [n] + order[at..])
  {
    var order' := order[..at] + [n] + order[at..];
    forall i | 0 <= i < n + 1
      ensures i in order'
    {
      if i < n {
        assert i in order;
        var k :| 0 <= k < n && order[k] == i;
        assert order'[if k < at then k else k + 1] == i;
      } else {
        assert order'[at] == n;
      }
    }
    forall k | 0 <= k < at
      ensures Before(ps, order[k], n)
    {
      assert k == at - 1 || Before(ps, order[k], order[at - 1]);
    }
  }

  /** `sorted(policies, key=itemgetter('position'), reverse=True)`, as indices of the list. */
  method SortDescending(ps: seq<Policy>) returns (order: seq<nat>)
    ensures SortedOrder(ps, |ps|, order)
  {
    order := [];
    for n := 0 to |ps|
      invariant SortedOrder(ps, n, order)
    {
      var at := n;
      while at > 0 && ps[order[at - 1]].position < ps[n].position
        invariant at <= n
        invariant forall k :: at <= k < n ==> ps[order[k]].position < ps[n].position
        decreases at
      {
        at := at - 1;
      }
      InsertKeepsOrder(ps, n, order, at);
      order := order[..at] + [n] + order[at..];
    }
  }

  /** Among the first `k` policies of the order, the one at `j` is the last to define the tag. */
  ghost predicate LastToDefine(ps: seq<Policy>, esds: map<string, Esd>, order: seq<nat>, k: nat, j: nat, tag: Tag)
    requires SortedOrder(ps, |ps|, order) && k <= |ps|
  {
    && j < k && DefinesTag(ps[order[j]], esds, tag)
    && forall l :: j < l < k ==> !DefinesTag(ps[order[l]], esds, tag)
  }

  lemma WinnerIsLast(ps: seq<Policy>, esds: map<string, Esd>, order: seq<nat>, i: nat, tag: Tag) returns (j: nat)
    requires SortedOrder(ps, |ps|, order) && Wins(ps, esds, i, tag)
    ensures LastToDefine(ps, esds, order, |ps|, j, tag) && order[j] == i
  {
    assert i in order;
    j :| j < |order| && order[j] == i;
    forall l | j < l < |ps|
      ensures !DefinesTag(ps[order[l]], esds, tag)
    {
      assert Before(ps, order[j], order[l]);
    }
  }

  /** The composite ESD.  Each tag holds the value of the policy that wins it, and a tag is
      missing only when no live policy defines it. */
  method Compose(ps: seq<Policy>, esds: map<string, Esd>) returns (composite: Esd)
    ensures forall tag :: tag in composite <==>
              exists i :: 0 <= i < |ps| && ps[i].status != PendingDelete && ps[i].name in esds &&
                  tag in esds[ps[i].name]
    ensures forall tag, i: nat :: Wins(ps, esds, i, tag) ==> tag in composite && composite[tag] == esds[ps[i].name][tag]
  {
    var order := SortDescending(ps);
    composite := map[];
    for k := 0 to |order|
      invariant forall tag :: tag in composite <==> exists j :: 0 <= j < k && DefinesTag(ps[order[j]], esds, tag)
      invariant forall tag, j: nat :: LastToDefine(ps, esds, order, k, j, tag) ==>
                  tag in composite && composite[tag] == esds[ps[order[j]].name][tag]
    {
      var p := ps[order[k]];
      if p.status != PendingDelete && p.name in esds {
        composite := composite + esds[p.name];
      }
    }
    forall tag, i: nat | i < |ps| && DefinesTag(ps[i], esds, tag)
      ensures tag in composite
    {
      assert i in order;
      var k :| 0 <= k < |order| && order[k] == i;
    }
    forall tag, i: nat | Wins(ps, esds, i, tag)
      ensures tag in composite && composite[tag] == esds[ps[i].name][tag]
    {
      var j := WinnerIsLast(ps, esds, order, i, tag);
    }
  }

  /** With distinct positions the lowest-position live policy that defines a tag wins it, so
      every defined tag has exactly one winner. */
  lemma {:induction false} LowestPositionWins(ps: seq<Policy>, esds: map<string, Esd>, tag: Tag) returns (i: nat)
    requires forall j, k :: 0 <= j < k < |ps| ==> ps[j].position != ps[k].position
    requires exists j :: 0 <= j < |ps| && DefinesTag(ps[j], esds, tag)
    ensures Wins(ps, esds, i, tag)
    ensures forall k :: Wins(ps, esds, k, tag) ==> k == i
    ensures forall j :: 0 <= j < |ps| && DefinesTag(ps[j], esds, tag) ==> ps[i].position <= ps[j].position
  {
    var n := |ps| - 1;
    if j :| 0 <= j < n && DefinesTag(ps[j], esds, tag) {
      assert DefinesTag(ps[..n][j], esds, tag);
      i := LowestPositionWins(ps[..n], esds, tag);
      assert forall j :: 0 <= j < n && DefinesTag(ps[j], esds, tag) ==>
          DefinesTag(ps[..n][j], esds, tag) && ps[i].position <= ps[j].position;
      if DefinesTag(ps[n], esds, tag) && ps[n].position < ps[i].position {
        i := n;
      }
    } else {
      i := n;
    }
  }
}
