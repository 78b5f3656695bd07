/** What Neutron is told about every object of a synchronised service. */
module ReportLaws {
  import opened Lbaas
  import opened AssurePlan
  import opened BuilderStages
  import opened PassLaws
  import opened PolicyStatuses
  import opened IcontrolDriver
  import opened DriverLaws

  // ----- Single messages

  /** The message is one about an object that had this status before the event: an error, an
      activation, or a deletion. */
  ghost predicate Tells(m: Rpc, what: What, id: Id, before: Status, error: bool) {
    && m.what == what && m.id == id
    && match m
       case Updated(_, _, s) =>
         || (s == Error && (error || before == Error))
         || (s == Active && !error && (before == PendingCreate || before == PendingUpdate))
       case Destroyed(_, _) => !error && before == PendingDelete
  }

  lemma OneMessage(what: What, x: Item, m: Rpc)
    ensures m in Message(what, x) <==> Tells(m, what, x.id, x.status, false)
  {
  }

  lemma {:induction false} MessagesHas(what: What, xs: seq<Item>, m: Rpc)
    ensures m in Messages(what, xs) <==>
            exists i :: 0 <= i < |xs| && Tells(m, what, xs[i].id, xs[i].status, false)
  {
    if xs != [] {
      var n := |xs| - 1;
      MessagesHas(what, xs[..n], m);
      OneMessage(what, xs[n], m);
      assert forall i :: 0 <= i < n ==> xs[..n][i] == xs[i];
    }
  }

  // ----- Order of the messages

  /** Messages about a list of objects are in its order. */
  lemma {:induction false} MessagesInOrder(what: What, xs: seq<Item>, ys: seq<Item>)
    ensures Messages(what, xs + ys) == Messages(what, xs) + Messages(what, ys)
  {
    if ys == [] {
      assert xs + ys == xs;
    } else {
      var n := |ys| - 1;
      MessagesInOrder(what, xs, ys[..n]);
      LastOfBoth(xs, ys);
      SentLast(Messages(what, xs), Messages(what, ys[..n]), Message(what, ys[n]));
    }
  }

  lemma LastOfBoth(xs: seq<Item>, ys: seq<Item>)
    requires ys != []
    ensures (xs + ys)[..|xs + ys| - 1] == xs + ys[..|ys| - 1] && (xs + ys)[|xs + ys| - 1] == ys[|ys| - 1]
  {
  }

  function Place(what: What): nat {
    match what
    case Monitors => 0
    case Pools => 1
    case Listeners => 2
    case Rules => 3
    case Policies => 4
    case LoadBalancer => 5
  }

  ghost predicate KindsInOrder(ms: seq<Rpc>) {
    forall i, j :: 0 <= i < j < |ms| ==> Place(ms[i].what) <= Place(ms[j].what)
  }

  /** The messages are in order and about no later kind than this. */
  ghost predicate OrderedUpTo(ms: seq<Rpc>, what: What) {
    KindsInOrder(ms) && forall m :: m in ms ==> Place(m.what) <= Place(what)
  }

  lemma OneMoreKind(ms: seq<Rpc>, last: What, more: seq<Rpc>, what: What)
    requires OrderedUpTo(ms, last) && Place(last) <= Place(what) && forall m :: m in more ==> m.what == what
    ensures OrderedUpTo(ms + more, what)
  {
  }

  lemma KindAppended(ms: seq<Rpc>, last: What, what: What, xs: seq<Item>)
    requires OrderedUpTo(ms, last) && Place(last) <= Place(what)
    ensures OrderedUpTo(ms + Messages(what, xs), what)
  {
    MessagesAbout(what, xs);
    OneMoreKind(ms, last, Messages(what, xs), what);
  }

  lemma ChildrenInOrder(svc: Service)
    ensures OrderedUpTo(TreeMessages(svc), Listeners)
  {
    var m, p := Messages(Monitors, ItemsOf(svc.monitors, MonitorItem)), Messages(Pools, ItemsOf(svc.pools, PoolItem));
    MessagesAbout(Monitors, ItemsOf(svc.monitors, MonitorItem));
    KindAppended(m, Monitors, Pools, ItemsOf(svc.pools, PoolItem));
    KindAppended(m + p, Pools, Listeners, ItemsOf(svc.listeners, ListenerItem));
  }

  /** Monitors are reported first, then pools, listeners, L7 rules and L7 policies, and the load
      balancer last. */
  lemma KindsAreInOrder(svc: Service)
    ensures KindsInOrder(AllMessages(svc, false))
  {
    var tree, rules := TreeMessages(svc), Messages(Rules, ItemsOf(svc.rules, RuleItem));
    var policies := Messages(Policies, ItemsOf(svc.policies, PolicyItem));
    ChildrenInOrder(svc);
    KindAppended(tree, Listeners, Rules, ItemsOf(svc.rules, RuleItem));
    KindAppended(tree + rules, Rules, Policies, ItemsOf(svc.policies, PolicyItem));
    AboutLoadBalancer(svc);
    OneMoreKind(tree + rules + policies, Policies, LbMessage(svc, false), LoadBalancer);
  }

  lemma AboutLoadBalancer(svc: Service)
    ensures forall m :: m in LbMessage(svc, false) ==> m.what == LoadBalancer
  {
  }

  // ----- What is said about each kind of object

  /** A message about one kind of object is one for its list. */
  lemma SentAbout(svc: Service, m: Rpc)
    requires m.what != LoadBalancer
    ensures m in AllMessages(svc, false) <==>
            m in match m.what
                 case Monitors => Messages(Monitors, ItemsOf(svc.monitors, MonitorItem))
                 case Pools => Messages(Pools, ItemsOf(svc.pools, PoolItem))
                 case Listeners => Messages(Listeners, ItemsOf(svc.listeners, ListenerItem))
                 case Rules => Messages(Rules, ItemsOf(svc.rules, RuleItem))
                 case _ => Messages(Policies, ItemsOf(svc.policies, PolicyItem))
  {
    MessagesAbout(Monitors, ItemsOf(svc.monitors, MonitorItem));
    MessagesAbout(Pools, ItemsOf(svc.pools, PoolItem));
    MessagesAbout(Listeners, ItemsOf(svc.listeners, ListenerItem));
    MessagesAbout(Rules, ItemsOf(svc.rules, RuleItem));
    MessagesAbout(Policies, ItemsOf(svc.policies, PolicyItem));
  }

  /** What is told about monitor `i`, pool `i`, listener `i`, L7 rule `i` and L7 policy `i`. */
  ghost predicate MonitorTold(svc: Service, rep: Report, i: nat, m: Rpc) {
    && i < |svc.monitors|
    && Tells(m, Monitors, svc.monitors[i].id, svc.monitors[i].status,
             Reported(rep.creates.monitors, i) || Reported(rep.deletes.monitors, i))
  }

  ghost predicate PoolTold(svc: Service, rep: Report, i: nat, m: Rpc) {
    && i < |svc.pools|
    && Tells(m, Pools, svc.pools[i].id, svc.pools[i].status,
             Reported(rep.creates.pools, i) || Reported(rep.deletes.pools, i))
  }

  ghost predicate ListenerTold(svc: Service, rep: Report, i: nat, m: Rpc) {
    && i < |svc.listeners|
    && Tells(m, Listeners, svc.listeners[i].id, svc.listeners[i].status,
             Reported(rep.creates.listeners, i) || Reported(rep.deletes.listeners, i))
  }

  ghost predicate RuleTold(svc: Service, i: nat, m: Rpc) {
    i < |svc.rules| && Tells(m, Rules, svc.rules[i].id, svc.rules[i].status, false)
  }

  ghost predicate PolicyTold(svc: Service, order: seq<Id>, rep: Report, i: nat, m: Rpc) {
    && i < |svc.policies|
    && Tells(m, Policies, svc.policies[i].id, svc.policies[i].status,
             true in rep.creates.policyErrors || DeleteMissed(svc, order, rep.deletes.policies, i))
  }

  /** An object that was marked in error is told as one in error. */
  lemma MarkedTells(m: Rpc, what: What, id: Id, before: Status, error: bool)
    ensures Tells(m, what, id, if error then Error else before, false) <==> Tells(m, what, id, before, error)
  {
  }

  lemma MonitorsTold(svc: Service, order: seq<Id>, setup: Setup, rep: Report, raised: bool, m: Rpc)
    requires Shaped(order, setup, false, rep, raised)
    ensures m in Messages(Monitors, ItemsOf(Handled(svc, order, setup, false, rep, raised).monitors, MonitorItem)) <==>
            exists i: nat :: MonitorTold(svc, rep, i, m)
  {
    var xs := ItemsOf(Handled(svc, order, setup, false, rep, raised).monitors, MonitorItem);
    HandledMarks(svc, order, setup, false, rep, raised);
    MessagesHas(Monitors, xs, m);
    forall i: nat
      ensures i < |xs| && Tells(m, Monitors, xs[i].id, xs[i].status, false) <==> MonitorTold(svc, rep, i, m)
    {
      if i < |xs| {
        MarkedTells(m, Monitors, svc.monitors[i].id, svc.monitors[i].status,
                    Reported(rep.creates.monitors, i) || Reported(rep.deletes.monitors, i));
      }
    }
  }

  lemma PoolsTold(svc: Service, order: seq<Id>, setup: Setup, rep: Report, raised: bool, m: Rpc)
    requires Shaped(order, setup, false, rep, raised)
    ensures m in Messages(Pools, ItemsOf(Handled(svc, order, setup, false, rep, raised).pools, PoolItem)) <==>
            exists i: nat :: PoolTold(svc, rep, i, m)
  {
    var xs := ItemsOf(Handled(svc, order, setup, false, rep, raised).pools, PoolItem);
    HandledMarks(svc, order, setup, false, rep, raised);
    MessagesHas(Pools, xs, m);
    forall i: nat
      ensures i < |xs| && Tells(m, Pools, xs[i].id, xs[i].status, false) <==> PoolTold(svc, rep, i, m)
    {
      if i < |xs| {
        MarkedTells(m, Pools, svc.pools[i].id, svc.pools[i].status,
                    Reported(rep.creates.pools, i) || Reported(rep.deletes.pools, i));
      }
    }
  }

  lemma ListenersTold(svc: Service, order: seq<Id>, setup: Setup, rep: Report, raised: bool, m: Rpc)
    requires Shaped(order, setup, false, rep, raised)
    ensures m in Messages(Listeners, ItemsOf(Handled(svc, order, setup, false, rep, raised).listeners, ListenerItem))
            <==> exists i: nat :: ListenerTold(svc, rep, i, m)
  {
    var xs := ItemsOf(Handled(svc, order, setup, false, rep, raised).listeners, ListenerItem);
    HandledMarks(svc, order, setup, false, rep, raised);
    MessagesHas(Listeners, xs, m);
    forall i: nat
      ensures i < |xs| && Tells(m, Listeners, xs[i].id, xs[i].status, false) <==> ListenerTold(svc, rep, i, m)
    {
      if i < |xs| {
        MarkedTells(m, Listeners, svc.listeners[i].id, svc.listeners[i].status,
                    Reported(rep.creates.listeners, i) || Reported(rep.deletes.listeners, i));
      }
    }
  }

  lemma RulesTold(svc: Service, order: seq<Id>, setup: Setup, rep: Report, raised: bool, m: Rpc)
    requires Shaped(order, setup, false, rep, raised)
    ensures m in Messages(Rules, ItemsOf(Handled(svc, order, setup, false, rep, raised).rules, RuleItem)) <==>
            exists i: nat :: RuleTold(svc, i, m)
  {
    var xs := ItemsOf(Handled(svc, order, setup, false, rep, raised).rules, RuleItem);
    HandledRules(svc, order, setup, false, rep, raised);
    MessagesHas(Rules, xs, m);
    forall i: nat
      ensures i < |xs| && Tells(m, Rules, xs[i].id, xs[i].status, false) <==> RuleTold(svc, i, m)
    {
    }
  }

  lemma HandledRules(svc: Service, order: seq<Id>, setup: Setup, deleteEvent: bool, rep: Report, raised: bool)
    requires |rep.deletes.policies| <= |order|
    ensures Handled(svc, order, setup, deleteEvent, rep, raised).rules == svc.rules
  {
    var s := AfterVirtualsGone(AfterCreates(Prepared(svc, setup), rep.creates), rep.deletes);
    MarkDeletedKeeps(s, order, rep.deletes.policies);
  }

  lemma PoliciesTold(svc: Service, order: seq<Id>, setup: Setup, rep: Report, raised: bool, m: Rpc)
    requires Shaped(order, setup, false, rep, raised)
    ensures m in Messages(Policies, ItemsOf(Handled(svc, order, setup, false, rep, raised).policies, PolicyItem)) <==>
            exists i: nat :: PolicyTold(svc, order, rep, i, m)
  {
    var xs := ItemsOf(Handled(svc, order, setup, false, rep, raised).policies, PolicyItem);
    HandledPolicies(svc, order, setup, false, rep, raised);
    MessagesHas(Policies, xs, m);
    forall i: nat
      ensures i < |xs| && Tells(m, Policies, xs[i].id, xs[i].status, false) <==> PolicyTold(svc, order, rep, i, m)
    {
      if i < |xs| {
        MarkedTells(m, Policies, svc.policies[i].id, svc.policies[i].status,
                    true in rep.creates.policyErrors || DeleteMissed(svc, order, rep.deletes.policies, i));
      }
    }
  }

  /** Exactly what Neutron is told about monitors, pools, listeners, L7 rules and L7 policies
      when statuses are reported: the errors noticed, the activations and the deletions. */
  lemma ObjectsReported(svc: Service, order: seq<Id>, setup: Setup, rep: Report, raised: bool, m: Rpc)
    requires Shaped(order, setup, false, rep, raised) && Reports(svc, setup, false) && m.what != LoadBalancer
    ensures m in SyncSent(svc, order, setup, rep, raised) <==>
            match m.what
            case Monitors => exists i: nat :: MonitorTold(svc, rep, i, m)
            case Pools => exists i: nat :: PoolTold(svc, rep, i, m)
            case Listeners => exists i: nat :: ListenerTold(svc, rep, i, m)
            case Rules => exists i: nat :: RuleTold(svc, i, m)
            case _ => exists i: nat :: PolicyTold(svc, order, rep, i, m)
  {
    SentAbout(Handled(svc, order, setup, false, rep, raised), m);
    match m.what
    case Monitors => MonitorsTold(svc, order, setup, rep, raised, m);
    case Pools => PoolsTold(svc, order, setup, rep, raised, m);
    case Listeners => ListenersTold(svc, order, setup, rep, raised, m);
    case Rules => RulesTold(svc, order, setup, rep, raised, m);
    case _ => PoliciesTold(svc, order, setup, rep, raised, m);
  }
}
