/** The wrapper policy of a listener in terms of the service definition: when building it
    raises, when it has rules, and what it decides on the device. */
module ListenerPolicies {
  import opened Lbaas
  import opened AssurePlan
  import PlanResult
  import L7 = L7Policy
  import Laws = L7PolicyLaws

  // ----- Gathering policies and rules

  /** The listener refers to the policy. */
  ghost predicate RefersTo(svc: Service, l: Listener, p: L7.L7Policy) {
    exists i, k: nat {:trigger L7.PolicyAt(svc.policies, l.l7Policies[i], k)} ::
      0 <= i < |l.l7Policies| && L7.PolicyAt(svc.policies, l.l7Policies[i], k) && p == svc.policies[k]
  }

  lemma RefersByFinding(svc: Service, l: Listener, p: L7.L7Policy)
    ensures RefersTo(svc, l, p) <==>
            exists i :: 0 <= i < |l.l7Policies| && L7.FindPolicy(svc.policies, l.l7Policies[i]) == Some(p)
  {
    forall i | 0 <= i < |l.l7Policies| && L7.FindPolicy(svc.policies, l.l7Policies[i]) == Some(p)
      ensures RefersTo(svc, l, p)
    {
      var k := Laws.FoundPolicyIs(svc.policies, l.l7Policies[i]);
      assert L7.PolicyAt(svc.policies, l.l7Policies[i], k);
    }
    forall i, k: nat | 0 <= i < |l.l7Policies| && L7.PolicyAt(svc.policies, l.l7Policies[i], k)
      ensures L7.FindPolicy(svc.policies, l.l7Policies[i]) == Some(svc.policies[k])
    {
      Laws.FindsPolicy(svc.policies, l.l7Policies[i], k);
    }
  }

  /** The policies gathered for a listener are those that it refers to. */
  lemma GatheredAre(svc: Service, l: Listener, p: L7.L7Policy)
    ensures p in PoliciesOf(svc, l) <==> RefersTo(svc, l, p)
  {
    RefersByFinding(svc, l, p);
    ReferencedHas(l.l7Policies, svc.policies, p);
  }

  lemma {:induction false} ReferencedHas(refs: seq<Id>, ps: seq<L7.L7Policy>, p: L7.L7Policy)
    ensures p in Referenced(refs, ps) <==> exists i :: 0 <= i < |refs| && L7.FindPolicy(ps, refs[i]) == Some(p)
  {
    if refs != [] {
      var n := |refs| - 1;
      ReferencedHas(refs[..n], ps, p);
      assert forall i :: 0 <= i < n ==> refs[..n][i] == refs[i];
    }
  }

  lemma {:induction false} ReferencedRulesHas(refs: seq<Id>, rules: seq<L7.L7Rule>, r: L7.L7Rule)
    ensures r in ReferencedRules(refs, rules) <==> exists i :: 0 <= i < |refs| && L7.FindRule(rules, refs[i]) == Some(r)
  {
    if refs != [] {
      var n := |refs| - 1;
      ReferencedRulesHas(refs[..n], rules, r);
      assert forall i :: 0 <= i < n ==> refs[..n][i] == refs[i];
    }
  }

  /** The rule is found by one of the policy's rule references. */
  ghost predicate HasRule(p: L7.L7Policy, rules: seq<L7.L7Rule>, r: L7.L7Rule) {
    exists i :: 0 <= i < |p.rules| && L7.FindRule(rules, p.rules[i]) == Some(r)
  }

  lemma {:induction false} RulesOfHas(ps: seq<L7.L7Policy>, rules: seq<L7.L7Rule>, r: L7.L7Rule)
    ensures r in RulesOf(ps, rules) <==> exists p :: p in ps && HasRule(p, rules, r)
  {
    if ps != [] {
      var n := |ps| - 1;
      RulesOfHas(ps[..n], rules, r);
      ReferencedRulesHas(ps[n].rules, rules, r);
      assert r in ReferencedRules(ps[n].rules, rules) <==> HasRule(ps[n], rules, r);
      assert forall p :: p in ps <==> p in ps[..n] || p == ps[n];
    }
  }

  lemma {:induction false} FoundRule(rs: seq<L7.L7Rule>, id: Id)
    ensures L7.FindRule(rs, id).Some? ==> L7.FindRule(rs, id).value in rs && L7.FindRule(rs, id).value.id == id
    ensures L7.FindRule(rs, id).None? ==> forall r :: r in rs ==> r.id != id
  {
    if rs != [] {
      FoundRule(rs[1..], id);
      assert forall r :: r in rs <==> r in rs[1..] || r == rs[0];
    }
  }

  /** Among the gathered rules a policy's references find what they find in the service. */
  lemma SameRule(ps: seq<L7.L7Policy>, rules: seq<L7.L7Rule>, p: L7.L7Policy, i: nat)
    requires p in ps && i < |p.rules|
    ensures L7.FindRule(RulesOf(ps, rules), p.rules[i]) == L7.FindRule(rules, p.rules[i])
  {
    var gathered, id := RulesOf(ps, rules), p.rules[i];
    FoundRule(gathered, id);
    FoundRule(rules, id);
    if L7.FindRule(rules, id).Some? {
      var r := L7.FindRule(rules, id).value;
      assert HasRule(p, rules, r);
      RulesOfHas(ps, rules, r);
    }
    if L7.FindRule(gathered, id).Some? {
      var r := L7.FindRule(gathered, id).value;
      RulesOfHas(ps, rules, r);
      var o :| o in ps && HasRule(o, rules, r);
      var j :| 0 <= j < |o.rules| && L7.FindRule(rules, o.rules[j]) == Some(r);
      FoundRule(rules, o.rules[j]);
    }
  }

  // ----- When building raises

  /** A live policy of the listener has a rule reference that cannot be translated. */
  ghost predicate BadPolicy(svc: Service, l: Listener) {
    exists p :: RefersTo(svc, l, p) && p.status != PendingDelete && p.adminStateUp &&
                exists i :: 0 <= i < |p.rules| && Laws.BadRef(p.rules[i], svc.rules)
  }

  /** Some policy of the listener, live or not, refers to a rule of the service. */
  ghost predicate AnyRule(svc: Service, l: Listener) {
    exists p :: RefersTo(svc, l, p) && exists i :: 0 <= i < |p.rules| && NamesRule(svc, p.rules[i])
  }

  ghost predicate NamesRule(svc: Service, id: Id) {
    exists k :: 0 <= k < |svc.rules| && svc.rules[k].id == id
  }

  /** A live policy of the listener has a live rule. */
  ghost predicate LiveIn(svc: Service, l: Listener) {
    exists p :: RefersTo(svc, l, p) && p.status != PendingDelete && p.adminStateUp && Laws.HasLiveRule(p, svc.rules)
  }

  lemma RuleIsNamed(svc: Service, id: Id)
    ensures NamesRule(svc, id) <==> L7.FindRule(svc.rules, id).Some?
  {
    if L7.FindRule(svc.rules, id).Some? {
      var k := Laws.FoundRuleIs(svc.rules, id);
    } else {
      Laws.NoRuleFound(svc.rules, id);
    }
  }

  lemma GathersRule(svc: Service, l: Listener, p: L7.L7Policy, i: nat)
    requires RefersTo(svc, l, p) && i < |p.rules| && NamesRule(svc, p.rules[i])
    ensures RulesOf(PoliciesOf(svc, l), svc.rules) != []
  {
    RuleIsNamed(svc, p.rules[i]);
    GatheredAre(svc, l, p);
    var r := L7.FindRule(svc.rules, p.rules[i]).value;
    assert HasRule(p, svc.rules, r);
    RulesOfHas(PoliciesOf(svc, l), svc.rules, r);
  }

  lemma GatheredRules(svc: Service, l: Listener)
    ensures RulesOf(PoliciesOf(svc, l), svc.rules) != [] <==> AnyRule(svc, l)
  {
    var ps := PoliciesOf(svc, l);
    var gathered := RulesOf(ps, svc.rules);
    if gathered != [] {
      RulesOfHas(ps, svc.rules, gathered[0]);
      var p :| p in ps && HasRule(p, svc.rules, gathered[0]);
      GatheredAre(svc, l, p);
      var i :| 0 <= i < |p.rules| && L7.FindRule(svc.rules, p.rules[i]) == Some(gathered[0]);
      RuleIsNamed(svc, p.rules[i]);
    }
    if AnyRule(svc, l) {
      var p :| RefersTo(svc, l, p) && exists i :: 0 <= i < |p.rules| && NamesRule(svc, p.rules[i]);
      var i :| 0 <= i < |p.rules| && NamesRule(svc, p.rules[i]);
      GathersRule(svc, l, p, i);
    }
  }

  lemma SameRef(svc: Service, l: Listener, p: L7.L7Policy, i: nat, q: L7.HttpRequest, regex: (string, string) -> bool)
    requires p in PoliciesOf(svc, l) && i < |p.rules|
    ensures var gathered, id := RulesOf(PoliciesOf(svc, l), svc.rules), p.rules[i];
            && (Laws.LiveRef(id, gathered) <==> Laws.LiveRef(id, svc.rules))
            && (Laws.BadRef(id, gathered) <==> Laws.BadRef(id, svc.rules))
            && (L7.RefMatches(id, gathered, q, regex) <==> L7.RefMatches(id, svc.rules, q, regex))
  {
    SameRule(PoliciesOf(svc, l), svc.rules, p, i);
    Laws.RefReadings(p.rules[i], RulesOf(PoliciesOf(svc, l), svc.rules), q, regex);
    Laws.RefReadings(p.rules[i], svc.rules, q, regex);
  }

  const AnyRequest: L7.HttpRequest := L7.HttpRequest("", "", "", map[], map[])

  lemma SameRefs(svc: Service, l: Listener, p: L7.L7Policy)
    requires p in PoliciesOf(svc, l)
    ensures var gathered := RulesOf(PoliciesOf(svc, l), svc.rules);
            && (Laws.HasLiveRule(p, gathered) <==> Laws.HasLiveRule(p, svc.rules))
            && ((exists i :: 0 <= i < |p.rules| && Laws.BadRef(p.rules[i], gathered)) <==>
                (exists i :: 0 <= i < |p.rules| && Laws.BadRef(p.rules[i], svc.rules)))
  {
    forall i | 0 <= i < |p.rules|
      ensures var gathered := RulesOf(PoliciesOf(svc, l), svc.rules);
              && (Laws.LiveRef(p.rules[i], gathered) <==> Laws.LiveRef(p.rules[i], svc.rules))
              && (Laws.BadRef(p.rules[i], gathered) <==> Laws.BadRef(p.rules[i], svc.rules))
    {
      SameRef(svc, l, p, i, AnyRequest, (s, v) => false);
    }
  }

  /** Building a listener's wrapper policy raises exactly when the listener is missing, or its
      policies have some rule of the service and a live one of them has a bad reference. */
  lemma BuildingRaises(svc: Service, id: Id)
    ensures !BuildPolicy(svc, id).NoActionFound?
    ensures BuildPolicy(svc, id).Crash? <==>
            match FindListener(svc.listeners, id)
            case None => true
            case Some(l) => AnyRule(svc, l) && BadPolicy(svc, l)
  {
    match FindListener(svc.listeners, id)
    case None =>
    case Some(l) =>
      var ps := PoliciesOf(svc, l);
      var gathered := RulesOf(ps, svc.rules);
      GatheredRules(svc, l);
      Laws.TranslationCrashes(ps, gathered, svc.folder);
      forall p
        ensures p in ps <==> RefersTo(svc, l, p)
        ensures p in ps ==> ((exists i :: 0 <= i < |p.rules| && Laws.BadRef(p.rules[i], gathered)) <==>
                             (exists i :: 0 <= i < |p.rules| && Laws.BadRef(p.rules[i], svc.rules)))
      {
        GatheredAre(svc, l, p);
        if p in ps {
          SameRefs(svc, l, p);
        }
      }
  }

  /** The wrapper policy has rules exactly when a live policy of the listener has a live rule. */
  lemma RulesWhenLive(svc: Service, id: Id)
    requires BuildPolicy(svc, id).Ok?
    ensures FindListener(svc.listeners, id).Some?
    ensures WrapperRules(svc, id) != [] <==> LiveIn(svc, FindListener(svc.listeners, id).value)
  {
    var l := FindListener(svc.listeners, id).value;
    var ps := PoliciesOf(svc, l);
    var gathered := RulesOf(ps, svc.rules);
    if ps != [] {
      Laws.TranslationEmpty(ps, gathered, svc.folder);
    }
    forall p
      ensures p in ps <==> RefersTo(svc, l, p)
      ensures p in ps ==> (Laws.HasLiveRule(p, gathered) <==> Laws.HasLiveRule(p, svc.rules))
    {
      GatheredAre(svc, l, p);
      if p in ps {
        SameRefs(svc, l, p);
      }
    }
  }

  // ----- What statuses of listeners do not change

  /** Equal up to the statuses of listeners and of what L7 policies do not look at. */
  ghost predicate SameForPolicies(a: Service, b: Service) {
    && a.folder == b.folder && a.policies == b.policies && a.rules == b.rules && |a.listeners| == |b.listeners|
    && forall i :: 0 <= i < |a.listeners| ==>
         a.listeners[i].id == b.listeners[i].id && a.listeners[i].l7Policies == b.listeners[i].l7Policies
  }

  lemma {:induction false} SameListenerFound(a: seq<Listener>, b: seq<Listener>, id: Id)
    requires |a| == |b| && forall i :: 0 <= i < |a| ==> a[i].id == b[i].id && a[i].l7Policies == b[i].l7Policies
    ensures FindListener(a, id).Some? <==> FindListener(b, id).Some?
    ensures FindListener(a, id).Some? && FindListener(b, id).Some? ==>
              FindListener(a, id).value.l7Policies == FindListener(b, id).value.l7Policies
  {
    if a != [] {
      SameListenerFound(a[1..], b[1..], id);
    }
  }

  lemma SamePolicyBuilt(a: Service, b: Service, id: Id)
    requires SameForPolicies(a, b)
    ensures BuildPolicy(a, id) == BuildPolicy(b, id)
  {
    SameListenerFound(a.listeners, b.listeners, id);
  }

  // ----- What the device does with requests

  /** What the policies attached to a virtual do with a request: first match over the rules
      of the attached policy, nothing without one. */
  ghost predicate VirtualPicks(d: Device, o: Obj, q: L7.HttpRequest, v: Option<L7.Verdict>) {
    && o in d && d[o].VirtualValue?
    && match |d[o].policies|
       case 0 => v == None
       case 1 =>
         var p := Obj(PolicyKind, d[o].policies[0]);
         p in d && d[p].PolicyValue? && L7.Picks(d[p].rules, q, v)
       case _ => false
  }

  lemma NoRulesPickNothing(q: L7.HttpRequest, v: Option<L7.Verdict>)
    ensures L7.Picks([], q, v) <==> v == None
  {
  }

  lemma SameDecision(svc: Service, l: Listener, q: L7.HttpRequest, regex: (string, string) -> bool,
                     v: Option<L7.Verdict>)
    ensures L7.Decides(PoliciesOf(svc, l), RulesOf(PoliciesOf(svc, l), svc.rules), svc.folder, q, regex, v) <==>
            L7.Decides(PoliciesOf(svc, l), svc.rules, svc.folder, q, regex, v)
  {
    forall p | p in PoliciesOf(svc, l)
      ensures L7.PolicyMatches(p, RulesOf(PoliciesOf(svc, l), svc.rules), q, regex) <==>
              L7.PolicyMatches(p, svc.rules, q, regex)
    {
      SameMatch(svc, l, p, q, regex);
    }
  }

  lemma SameMatch(svc: Service, l: Listener, p: L7.L7Policy, q: L7.HttpRequest, regex: (string, string) -> bool)
    requires p in PoliciesOf(svc, l)
    ensures L7.PolicyMatches(p, RulesOf(PoliciesOf(svc, l), svc.rules), q, regex) <==>
            L7.PolicyMatches(p, svc.rules, q, regex)
  {
    forall i | 0 <= i < |p.rules|
      ensures L7.RefMatches(p.rules[i], RulesOf(PoliciesOf(svc, l), svc.rules), q, regex) <==>
              L7.RefMatches(p.rules[i], svc.rules, q, regex)
    {
      SameRef(svc, l, p, i, q, regex);
    }
  }

  lemma SomeLiveIn(svc: Service, l: Listener)
    ensures Laws.SomeLiveRule(PoliciesOf(svc, l), RulesOf(PoliciesOf(svc, l), svc.rules)) <==> LiveIn(svc, l)
  {
    forall p
      ensures p in PoliciesOf(svc, l) <==> RefersTo(svc, l, p)
      ensures p in PoliciesOf(svc, l) ==>
                (Laws.HasLiveRule(p, RulesOf(PoliciesOf(svc, l), svc.rules)) <==> Laws.HasLiveRule(p, svc.rules))
    {
      GatheredAre(svc, l, p);
      if p in PoliciesOf(svc, l) {
        SameRefs(svc, l, p);
      }
    }
  }

  lemma {:induction false} FindsListener(ls: seq<Listener>, i: nat)
    requires i < |ls| && forall j, k :: 0 <= j < k < |ls| ==> ls[j].id != ls[k].id
    ensures FindListener(ls, ls[i].id) == Some(ls[i])
  {
    if i > 0 {
      assert ls[1..][i - 1] == ls[i];
      FindsListener(ls[1..], i - 1);
    }
  }

  // ----- What the listener's policies decide

  /** The policy that decides is the matching one of least position among those that the
      listener refers to. */
  ghost predicate ListenerDecides(svc: Service, l: Listener, q: L7.HttpRequest, regex: (string, string) -> bool,
                                  v: Option<L7.Verdict>)
  {
    match v
    case None => forall p :: RefersTo(svc, l, p) ==> !L7.PolicyMatches(p, svc.rules, q, regex)
    case Some(d) =>
      exists p :: RefersTo(svc, l, p) && L7.PolicyMatches(p, svc.rules, q, regex) &&
                  L7.PolicyVerdict(p, svc.folder) == d &&
                  forall o :: RefersTo(svc, l, o) && L7.PolicyMatches(o, svc.rules, q, regex) ==>
                                p.position <= o.position
  }

  /** Some policy of the listener is neither being deleted nor administratively down. */
  ghost predicate HasLivePolicy(svc: Service, l: Listener) {
    exists p :: RefersTo(svc, l, p) && p.status != PendingDelete && p.adminStateUp
  }

  /** The listener lists no policy twice, and its policies have different positions. */
  ghost predicate DistinctFor(svc: Service, l: Listener) {
    && (forall i, j :: 0 <= i < j < |l.l7Policies| ==> l.l7Policies[i] != l.l7Policies[j])
    && (forall p, o :: RefersTo(svc, l, p) && RefersTo(svc, l, o) && p != o ==> p.position != o.position)
  }

  lemma {:induction false} GatheredIds(refs: seq<Id>, ps: seq<L7.L7Policy>)
    requires forall i, j :: 0 <= i < j < |refs| ==> refs[i] != refs[j]
    ensures forall p :: p in Referenced(refs, ps) ==> p.id in refs
    ensures forall i, j :: 0 <= i < j < |Referenced(refs, ps)| ==>
            Referenced(refs, ps)[i].id != Referenced(refs, ps)[j].id
  {
    if refs != [] {
      var n := |refs| - 1;
      GatheredIds(refs[..n], ps);
      if L7.FindPolicy(ps, refs[n]).Some? {
        var k := Laws.FoundPolicyIs(ps, refs[n]);
      }
    }
  }

  lemma GatheredDistinct(svc: Service, l: Listener)
    requires DistinctFor(svc, l)
    ensures Laws.DistinctPolicies(PoliciesOf(svc, l))
  {
    var ps := PoliciesOf(svc, l);
    GatheredIds(l.l7Policies, svc.policies);
    forall i, j | 0 <= i < j < |ps|
      ensures ps[i].position != ps[j].position
    {
      GatheredAre(svc, l, ps[i]);
      GatheredAre(svc, l, ps[j]);
    }
  }

  lemma GatheredDecide(svc: Service, l: Listener, q: L7.HttpRequest, regex: (string, string) -> bool,
                       v: Option<L7.Verdict>)
    ensures L7.Decides(PoliciesOf(svc, l), svc.rules, svc.folder, q, regex, v) <==> ListenerDecides(svc, l, q, regex, v)
    ensures Laws.SomeLivePolicy(PoliciesOf(svc, l)) <==> HasLivePolicy(svc, l)
  {
    forall p
      ensures p in PoliciesOf(svc, l) <==> RefersTo(svc, l, p)
    {
      GatheredAre(svc, l, p);
    }
  }

  lemma Builds(svc: Service, i: nat)
    requires i < |svc.listeners| && forall j, k :: 0 <= j < k < |svc.listeners| ==>
               svc.listeners[j].id != svc.listeners[k].id
    ensures FindListener(svc.listeners, svc.listeners[i].id) == Some(svc.listeners[i])
    ensures BuildPolicy(svc, svc.listeners[i].id).Ok? <==>
            !(AnyRule(svc, svc.listeners[i]) && BadPolicy(svc, svc.listeners[i]))
  {
    FindsListener(svc.listeners, i);
    BuildingRaises(svc, svc.listeners[i].id);
  }

  /** The rules built for a listener pick what its live policies decide, exactly when one of
      them has a live rule or none of them is live. */
  lemma WrapperDecides(svc: Service, l: Listener, regex: (string, string) -> bool)
    requires FindListener(svc.listeners, l.id) == Some(l) && BuildPolicy(svc, l.id).Ok? && DistinctFor(svc, l)
    ensures LiveIn(svc, l) || !HasLivePolicy(svc, l) <==>
            forall q, v :: L7.Picks(WrapperRules(svc, l.id), q, v) <==> ListenerDecides(svc, l, q, regex, v)
  {
    var ps := PoliciesOf(svc, l);
    GatheredDistinct(svc, l);
    GatheredDecide(svc, l, AnyRequest, regex, None);
    SomeLiveIn(svc, l);
    forall q, v
      ensures L7.Decides(ps, RulesOf(ps, svc.rules), svc.folder, q, regex, v) <==>
              ListenerDecides(svc, l, q, regex, v)
    {
      SameDecision(svc, l, q, regex, v);
      GatheredDecide(svc, l, q, regex, v);
    }
    if ps != [] {
      Laws.TranslationPreservesMeaning(ps, RulesOf(ps, svc.rules), svc.folder, regex);
    } else {
      NothingToDecide(svc, regex);
    }
  }

  lemma NothingToDecide(svc: Service, regex: (string, string) -> bool)
    ensures !Laws.SomeLivePolicy([])
    ensures forall q, v :: L7.Picks([], q, v) <==> L7.Decides([], RulesOf([], svc.rules), svc.folder, q, regex, v)
  {
  }

  /** End to end: after a synchronisation without failing calls, a listener's virtual does with
      every request what the listener's live policies decide, exactly when one of them has a
      live rule or none of them is live. */
  lemma VirtualDecides(svc: Service, order: seq<Id>, d: Device, i: nat, k: nat, regex: (string, string) -> bool)
    requires PlanResult.DistinctIds(svc, order) && i < |svc.listeners| && svc.listeners[i].status != PendingDelete
    requires k < |order| && order[k] == svc.listeners[i].id && DistinctFor(svc, svc.listeners[i])
    requires !(AnyRule(svc, svc.listeners[i]) && BadPolicy(svc, svc.listeners[i]))
    ensures var l, after := svc.listeners[i], ExecAll(PlanOn(svc, true, order, d), d);
            LiveIn(svc, l) || !HasLivePolicy(svc, l) <==>
            forall q, v :: VirtualPicks(after, Obj(VirtualKind, Name(svc.folder, l.id)), q, v) <==>
                           ListenerDecides(svc, l, q, regex, v)
  {
    var l, after := svc.listeners[i], ExecAll(PlanOn(svc, true, order, d), d);
    Builds(svc, i);
    WrapperDecides(svc, l, regex);
    PlanResult.PlanOnEnds(svc, true, order, d);
    forall q, v
      ensures VirtualPicks(after, Obj(VirtualKind, Name(svc.folder, l.id)), q, v) <==>
              L7.Picks(WrapperRules(svc, l.id), q, v)
    {
      VirtualPicksWrapper(svc, order, d, i, k, q, v);
    }
  }

  lemma VirtualPicksWrapper(svc: Service, order: seq<Id>, d: Device, i: nat, k: nat, q: L7.HttpRequest,
                            v: Option<L7.Verdict>)
    requires PlanResult.DistinctIds(svc, order) && i < |svc.listeners| && svc.listeners[i].status != PendingDelete
    requires k < |order| && order[k] == svc.listeners[i].id
    ensures var l, after := svc.listeners[i], ExecAll(Plan(svc, true, order), d);
            VirtualPicks(after, Obj(VirtualKind, Name(svc.folder, l.id)), q, v) <==>
                L7.Picks(WrapperRules(svc, l.id), q, v)
  {
    var l, after := svc.listeners[i], ExecAll(Plan(svc, true, order), d);
    PlanResult.ListenersConverge(svc, true, order, d, i);
    PlanResult.PoliciesConverge(svc, true, order, d, k);
    NoRulesPickNothing(q, v);
    var rs := WrapperRules(svc, l.id);
    assert Attached(svc, order)[l.id] == PolicyFor(svc, l.id);
    assert after[Obj(VirtualKind, Name(svc.folder, l.id))].policies ==
           if rs != [] then [WrapperName(svc.folder, l.id)] else [];
  }
}
