/** The L7 translation preserves meaning. */
module L7PolicyLaws {
  import opened Lbaas
  import opened L7Policy

  ghost predicate DistinctPolicies(ps: seq<L7Policy>) {
    forall i, j :: 0 <= i < j < |ps| ==> ps[i].id != ps[j].id && ps[i].position != ps[j].position
  }

  /** The id refers to a rule that is neither being deleted nor administratively down. */
  ghost predicate LiveRef(id: Id, rules: seq<L7Rule>) {
    exists k: nat :: RuleAt(rules, id, k) && rules[k].status != PendingDelete && rules[k].adminStateUp
  }

  /** Translating this rule reference raises: it is dangling, or live and a regular expression. */
  ghost predicate BadRef(id: Id, rules: seq<L7Rule>) {
    || (forall k :: 0 <= k < |rules| ==> rules[k].id != id)
    || exists k: nat :: RuleAt(rules, id, k) && rules[k].status != PendingDelete && rules[k].adminStateUp &&
                   rules[k].compareType == Regex
  }

  ghost predicate HasLiveRule(p: L7Policy, rules: seq<L7Rule>) {
    exists i :: 0 <= i < |p.rules| && LiveRef(p.rules[i], rules)
  }

  ghost predicate SomeLivePolicy(ps: seq<L7Policy>) {
    exists p :: p in ps && p.status != PendingDelete && p.adminStateUp
  }

  ghost predicate SomeLiveRule(ps: seq<L7Policy>, rules: seq<L7Rule>) {
    exists p :: p in ps && p.status != PendingDelete && p.adminStateUp && HasLiveRule(p, rules)
  }

  // ----- Looking up by id

  lemma {:induction false} FindsRule(rules: seq<L7Rule>, id: Id, k: nat)
    requires RuleAt(rules, id, k)
    ensures FindRule(rules, id) == Some(rules[k])
  {
    if k > 0 {
      assert forall j :: 0 <= j < k - 1 ==> rules[1..][j] == rules[j + 1];
      FindsRule(rules[1..], id, k - 1);
    }
  }

  lemma {:induction false} FoundRuleIs(rules: seq<L7Rule>, id: Id) returns (k: nat)
    requires FindRule(rules, id).Some?
    ensures RuleAt(rules, id, k) && FindRule(rules, id) == Some(rules[k])
  {
    if rules[0].id == id {
      k := 0;
    } else {
      k := FoundRuleIs(rules[1..], id);
      k := k + 1;
    }
  }

  lemma {:induction false} NoRuleFound(rules: seq<L7Rule>, id: Id)
    requires FindRule(rules, id).None?
    ensures forall k :: 0 <= k < |rules| ==> rules[k].id != id
  {
    if rules != [] {
      NoRuleFound(rules[1..], id);
      assert forall k :: 0 < k < |rules| ==> rules[k] == rules[1..][k - 1];
    }
  }

  lemma {:induction false} FindsPolicy(ps: seq<L7Policy>, id: Id, k: nat)
    requires PolicyAt(ps, id, k)
    ensures FindPolicy(ps, id) == Some(ps[k])
  {
    if k > 0 {
      assert forall j :: 0 <= j < k - 1 ==> ps[1..][j] == ps[j + 1];
      FindsPolicy(ps[1..], id, k - 1);
    }
  }

  lemma {:induction false} FoundPolicyIs(ps: seq<L7Policy>, id: Id) returns (k: nat)
    requires FindPolicy(ps, id).Some?
    ensures PolicyAt(ps, id, k) && FindPolicy(ps, id) == Some(ps[k])
  {
    if ps[0].id == id {
      k := 0;
    } else {
      k := FoundPolicyIs(ps[1..], id);
      k := k + 1;
    }
  }

  /** The readings of a rule reference, in terms of the rule that is found. */
  lemma RefReadings(id: Id, rules: seq<L7Rule>, q: HttpRequest, regex: (string, string) -> bool)
    ensures var f := FindRule(rules, id);
            && (LiveRef(id, rules) <==> f.Some? && LiveRule(f.value))
            && (BadRef(id, rules) <==> f.None? || (LiveRule(f.value) && f.value.compareType == Regex))
            && (RefMatches(id, rules, q, regex) <==>
                (f.Some? && LiveRule(f.value) ==> RuleMatches(f.value, q, regex)))
  {
    if FindRule(rules, id).Some? {
      var k := FoundRuleIs(rules, id);
    } else {
      NoRuleFound(rules, id);
    }
    forall k: nat | RuleAt(rules, id, k)
      ensures FindRule(rules, id) == Some(rules[k])
    {
      FindsRule(rules, id, k);
    }
  }

  // ----- Conditions

  /** A condition holds on the device exactly when its LBaaS rule matches, inversion included. */
  lemma ConditionMeaning(r: L7Rule, name: nat, q: HttpRequest, regex: (string, string) -> bool)
    ensures MakeCondition(r, name).Crash? <==> r.compareType == Regex
    ensures !MakeCondition(r, name).NoActionFound?
    ensures MakeCondition(r, name).Ok? ==>
              (ConditionHolds(MakeCondition(r, name).value, q) <==> RuleMatches(r, q, regex))
  {
    if MakeCondition(r, name).Ok? {
      var c := MakeCondition(r, name).value;
      OperandIsSubject(r, name, q);
      var s := Subject(r, q);
      if s.Some? {
        MeetsWhenCompares(r, name, s.value, regex);
        assert r.value in c.values;
      }
    }
  }

  lemma OperandIsSubject(r: L7Rule, name: nat, q: HttpRequest)
    requires MakeCondition(r, name).Ok?
    ensures var c := MakeCondition(r, name).value;
            Operand(c, q) == Subject(r, q) && c.values == [r.value] && c.negated == r.invert
  {
  }

  lemma CompareFlags(r: L7Rule, name: nat)
    requires MakeCondition(r, name).Ok?
    ensures var c, t := MakeCondition(r, name).value, r.compareType;
            && c.startsWith == t.StartsWith? && c.endsWith == t.EndsWith?
            && c.contains == t.Contains? && c.equals == t.EqualTo? && !t.Regex?
  {
  }

  lemma MeetsWhenCompares(r: L7Rule, name: nat, s: string, regex: (string, string) -> bool)
    requires MakeCondition(r, name).Ok?
    ensures Meets(MakeCondition(r, name).value, s, r.value) <==> Compares(r.compareType, s, r.value, regex)
  {
    CompareFlags(r, name);
    var c := MakeCondition(r, name).value;
    MeetsByFlags(c, r.compareType, s, r.value, regex);
  }

  /** The suffix and infix tests of the device are the comparisons of the rules. */
  lemma PartsAgree(s: string, value: string)
    ensures HasSuffix(s, value) <==> exists i :: 0 <= i <= |s| && s[i..] == value
    ensures HasInfix(s, value) <==> exists i, j :: 0 <= i <= j <= |s| && s[i..j] == value
  {
    if HasSuffix(s, value) {
      assert 0 <= |s| - |value| <= |s|;
    }
    if HasInfix(s, value) {
      var i :| 0 <= i <= |s| && value <= s[i..];
      assert s[i..i + |value|] == value;
    }
    forall i, j | 0 <= i <= j <= |s| && s[i..j] == value
      ensures value <= s[i..]
    {
      assert s[i..j] == s[i..][..j - i];
    }
  }

  lemma MeetsByFlags(c: Condition, t: CompareType, s: string, value: string, regex: (string, string) -> bool)
    requires c.startsWith == t.StartsWith? && c.endsWith == t.EndsWith? && c.contains == t.Contains? &&
             c.equals == t.EqualTo? && !t.Regex?
    ensures Meets(c, s, value) <==> Compares(t, s, value, regex)
  {
    PartsAgree(s, value);
  }

  ghost predicate AllMatch(ids: seq<Id>, rules: seq<L7Rule>, q: HttpRequest, regex: (string, string) -> bool) {
    forall i :: 0 <= i < |ids| ==> RefMatches(ids[i], rules, q, regex)
  }

  lemma AllMatchNext(ids: seq<Id>, rules: seq<L7Rule>, q: HttpRequest, regex: (string, string) -> bool)
    requires ids != []
    ensures AllMatch(ids, rules, q, regex) <==>
            AllMatch(ids[..|ids| - 1], rules, q, regex) && RefMatches(ids[|ids| - 1], rules, q, regex)
  {
  }

  lemma RefsNext(ids: seq<Id>, rules: seq<L7Rule>)
    requires ids != []
    ensures var n := |ids| - 1;
            && ((exists i :: 0 <= i < |ids| && LiveRef(ids[i], rules)) <==>
                (exists i :: 0 <= i < n && LiveRef(ids[..n][i], rules)) || LiveRef(ids[n], rules))
            && ((exists i :: 0 <= i < |ids| && BadRef(ids[i], rules)) <==>
                (exists i :: 0 <= i < n && BadRef(ids[..n][i], rules)) || BadRef(ids[n], rules))
  {
    var n := |ids| - 1;
    assert forall i :: 0 <= i < n ==> ids[..n][i] == ids[i];
  }

  lemma {:induction false} ConditionsMeaning(ids: seq<Id>, rules: seq<L7Rule>, q: HttpRequest,
                                             regex: (string, string) -> bool)
    ensures !MakeConditions(ids, rules).NoActionFound?
    ensures MakeConditions(ids, rules).Crash? <==> exists i :: 0 <= i < |ids| && BadRef(ids[i], rules)
    ensures MakeConditions(ids, rules).Ok? ==>
              var cs := MakeConditions(ids, rules).value;
              && ((forall c :: c in cs ==> ConditionHolds(c, q)) <==> AllMatch(ids, rules, q, regex))
              && (cs == [] <==> forall i :: 0 <= i < |ids| ==> !LiveRef(ids[i], rules))
  {
    if ids != [] {
      var n := |ids| - 1;
      ConditionsMeaning(ids[..n], rules, q, regex);
      AllMatchNext(ids, rules, q, regex);
      RefsNext(ids, rules);
      RefReadings(ids[n], rules, q, regex);
      var r := FindRule(rules, ids[n]);
      if r.Some? {
        ConditionMeaning(r.value, n, q, regex);
      }
      var before := MakeConditions(ids[..n], rules);
      if before.Ok? && r.Some? && LiveRule(r.value) && MakeCondition(r.value, n).Ok? {
        var c := MakeCondition(r.value, n).value;
        assert forall d :: d in before.value + [c] <==> d in before.value || d == c;
      }
    }
  }

  /** The condition is that of the rule which reference `c.name` refers to, a live one. */
  ghost predicate ConditionOf(c: Condition, ids: seq<Id>, rules: seq<L7Rule>) {
    && c.name < |ids|
    && exists k: nat :: RuleAt(rules, ids[c.name], k) && rules[k].status != PendingDelete && rules[k].adminStateUp &&
                   MakeCondition(rules[k], c.name) == Ok(c)
  }

  /** One condition per live reference among the first `n`, named by its index and in order. */
  ghost predicate NamedConditions(cs: seq<Condition>, ids: seq<Id>, rules: seq<L7Rule>, n: nat)
    requires n <= |ids|
  {
    && (forall j, k :: 0 <= j < k < |cs| ==> cs[j].name < cs[k].name)
    && (forall j :: 0 <= j < |cs| ==> cs[j].name < n && ConditionOf(cs[j], ids, rules))
    && (forall i :: 0 <= i < n && LiveRef(ids[i], rules) ==> exists j :: 0 <= j < |cs| && cs[j].name == i)
  }

  /** The conditions are those of the live rules, in the order of the references, each named
      by the index of its reference. */
  lemma {:induction false} ConditionsAreLiveRules(ids: seq<Id>, rules: seq<L7Rule>, n: nat)
    requires n <= |ids| && MakeConditions(ids[..n], rules).Ok?
    ensures NamedConditions(MakeConditions(ids[..n], rules).value, ids, rules, n)
  {
    if n > 0 {
      LastCondition(ids, rules, n);
      ConditionsAreLiveRules(ids, rules, n - 1);
      var before, cs := MakeConditions(ids[..n - 1], rules).value, MakeConditions(ids[..n], rules).value;
      if LiveRef(ids[n - 1], rules) {
        OneMoreCondition(before, cs[|before|], ids, rules, n);
      }
    }
  }

  lemma OneMoreCondition(before: seq<Condition>, c: Condition, ids: seq<Id>, rules: seq<L7Rule>, n: nat)
    requires 0 < n <= |ids| && NamedConditions(before, ids, rules, n - 1)
    requires ConditionOf(c, ids, rules) && c.name == n - 1
    ensures NamedConditions(before + [c], ids, rules, n)
  {
    var cs := before + [c];
    forall i | 0 <= i < n && LiveRef(ids[i], rules)
      ensures exists j :: 0 <= j < |cs| && cs[j].name == i
    {
      if i < n - 1 {
        var j :| 0 <= j < |before| && before[j].name == i;
        assert cs[j].name == i;
      } else {
        assert cs[|before|].name == i;
      }
    }
  }

  lemma LastCondition(ids: seq<Id>, rules: seq<L7Rule>, n: nat)
    requires 0 < n <= |ids| && MakeConditions(ids[..n], rules).Ok?
    ensures MakeConditions(ids[..n - 1], rules).Ok?
    ensures var before, cs := MakeConditions(ids[..n - 1], rules).value, MakeConditions(ids[..n], rules).value;
            if LiveRef(ids[n - 1], rules)
            then |cs| == |before| + 1 && cs == before + [cs[|before|]] && cs[|before|].name == n - 1 &&
                 ConditionOf(cs[|before|], ids, rules)
            else cs == before
  {
    var id := ids[n - 1];
    assert ids[..n][..n - 1] == ids[..n - 1];
    RefReadings(id, rules, HttpRequest("", "", "", map[], map[]), (s, v) => false);
    if LiveRef(id, rules) {
      var k: nat :| RuleAt(rules, id, k);
      FindsRule(rules, id, k);
      assert MakeCondition(rules[k], n - 1).value.name == n - 1;
    }
  }

  lemma ActionMeaning(p: L7Policy, folder: string)
    ensures ActionVerdict(MakeAction(p, folder)) == Some(PolicyVerdict(p, folder))
  {
  }

  lemma {:induction false} FindsItself(ps: seq<L7Policy>, i: nat)
    requires i < |ps| && DistinctPolicies(ps)
    ensures FindPolicy(ps, ps[i].id) == Some(ps[i])
  {
    if i > 0 {
      assert ps[1..][i - 1] == ps[i];
      FindsItself(ps[1..], i - 1);
    }
  }

  // ----- Rules

  /** Rule `r` was made from policy `p`: its action is that of the first policy with the id. */
  ghost predicate MadeFrom(r: Rule, p: L7Policy, ps: seq<L7Policy>, rules: seq<L7Rule>, folder: string) {
    && r.ordinal == p.position && MakeConditions(p.rules, rules) == Ok(r.conditions)
    && FindPolicy(ps, p.id).Some? && r.action == MakeAction(FindPolicy(ps, p.id).value, folder)
  }

  /** Rule `r` is the translation of policy `p`. */
  ghost predicate Translates(r: Rule, p: L7Policy, rules: seq<L7Rule>, folder: string) {
    && r.ordinal == p.position && MakeConditions(p.rules, rules) == Ok(r.conditions)
    && r.action == MakeAction(p, folder)
  }

  lemma {:induction false} FindsSome(ps: seq<L7Policy>, i: nat)
    requires i < |ps|
    ensures FindPolicy(ps, ps[i].id).Some?
  {
    if i > 0 {
      assert ps[1..][i - 1] == ps[i];
      FindsSome(ps[1..], i - 1);
    }
  }

  /** NoActionFoundForPolicy cannot happen: a policy is always found by its own id. */
  lemma {:induction false} RulesMeaning(k: nat, ps: seq<L7Policy>, rules: seq<L7Rule>, folder: string)
    requires k <= |ps|
    ensures !MakeRules(ps[..k], ps, rules, folder).NoActionFound?
    ensures MakeRules(ps[..k], ps, rules, folder).Crash? <==>
              exists i :: 0 <= i < k && LivePolicy(ps[i]) && MakeConditions(ps[i].rules, rules) == Crash
    ensures MakeRules(ps[..k], ps, rules, folder).Ok? ==>
              var rs := MakeRules(ps[..k], ps, rules, folder).value;
              && (forall r :: r in rs ==>
                    exists i :: 0 <= i < k && LivePolicy(ps[i]) && MadeFrom(r, ps[i], ps, rules, folder))
              && (forall i :: 0 <= i < k && LivePolicy(ps[i]) ==>
                    exists r :: r in rs && MadeFrom(r, ps[i], ps, rules, folder))
  {
    if k > 0 {
      RulesMeaning(k - 1, ps, rules, folder);
      assert ps[..k][..k - 1] == ps[..k - 1];
      var before := MakeRules(ps[..k - 1], ps, rules, folder);
      OneRule(ps, k - 1, rules, folder);
      var made := MakeRule(ps[k - 1], ps, rules, folder);
      if before.Ok? && LivePolicy(ps[k - 1]) && made.Ok? {
        assert MakeRules(ps[..k], ps, rules, folder) == Ok(before.value + [made.value]);
        assert forall r :: r in before.value + [made.value] <==> r in before.value || r == made.value;
      }
    }
  }

  lemma OneRule(ps: seq<L7Policy>, i: nat, rules: seq<L7Rule>, folder: string)
    requires i < |ps|
    ensures var made := MakeRule(ps[i], ps, rules, folder);
            && !made.NoActionFound? && (made.Crash? <==> MakeConditions(ps[i].rules, rules) == Crash)
            && (made.Ok? ==> MadeFrom(made.value, ps[i], ps, rules, folder))
  {
    FindsSome(ps, i);
    ConditionsMeaning(ps[i].rules, rules, HttpRequest("", "", "", map[], map[]), (s, v) => false);
  }

  lemma RulesOfAll(ps: seq<L7Policy>, rules: seq<L7Rule>, folder: string)
    ensures !MakeRules(ps, ps, rules, folder).NoActionFound?
    ensures MakeRules(ps, ps, rules, folder).Crash? <==>
              exists p :: p in ps && LivePolicy(p) && MakeConditions(p.rules, rules) == Crash
    ensures MakeRules(ps, ps, rules, folder).Ok? ==>
              var rs := MakeRules(ps, ps, rules, folder).value;
              && (forall r :: r in rs ==> exists p :: p in ps && LivePolicy(p) && MadeFrom(r, p, ps, rules, folder))
              && (forall p :: p in ps && LivePolicy(p) ==> exists r :: r in rs && MadeFrom(r, p, ps, rules, folder))
  {
    RulesMeaning(|ps|, ps, rules, folder);
    assert ps[..|ps|] == ps;
  }

  lemma MadeIsTranslated(r: Rule, p: L7Policy, ps: seq<L7Policy>, rules: seq<L7Rule>, folder: string)
    requires DistinctPolicies(ps) && p in ps && MadeFrom(r, p, ps, rules, folder)
    ensures Translates(r, p, rules, folder)
  {
    var i :| 0 <= i < |ps| && ps[i] == p;
    FindsItself(ps, i);
  }

  /** `translate` raises exactly when there are rules at all and some live policy refers to a
      missing rule, or has a live rule with a regular expression; it has no other failure. */
  lemma TranslationCrashes(ps: seq<L7Policy>, rules: seq<L7Rule>, folder: string)
    ensures Translate(ps, rules, folder).Crash? <==>
            rules != [] &&
            exists p :: p in ps && p.status != PendingDelete && p.adminStateUp &&
                        exists i :: 0 <= i < |p.rules| && BadRef(p.rules[i], rules)
    ensures !Translate(ps, rules, folder).NoActionFound?
  {
    RulesOfAll(ps, rules, folder);
    forall p: L7Policy
      ensures MakeConditions(p.rules, rules) == Crash <==> exists i :: 0 <= i < |p.rules| && BadRef(p.rules[i], rules)
    {
      ConditionsMeaning(p.rules, rules, HttpRequest("", "", "", map[], map[]), (s, v) => false);
    }
  }

  lemma RuleConditions(r: Rule, p: L7Policy, rules: seq<L7Rule>, folder: string, q: HttpRequest,
                       regex: (string, string) -> bool)
    requires Translates(r, p, rules, folder) && LivePolicy(p)
    ensures RuleFires(r, q) <==> PolicyMatches(p, rules, q, regex)
    ensures ActionVerdict(r.action) == Some(PolicyVerdict(p, folder))
  {
    ConditionsMeaning(p.rules, rules, q, regex);
    ActionMeaning(p, folder);
  }

  lemma MadeConditions(r: Rule, p: L7Policy, ps: seq<L7Policy>, rules: seq<L7Rule>, folder: string)
    requires MadeFrom(r, p, ps, rules, folder)
    ensures r.conditions != [] <==> HasLiveRule(p, rules)
  {
    ConditionsMeaning(p.rules, rules, HttpRequest("", "", "", map[], map[]), (s, v) => false);
  }

  /** The translation is empty exactly when no live policy has a live rule. */
  lemma TranslationEmpty(ps: seq<L7Policy>, rules: seq<L7Rule>, folder: string)
    requires Translate(ps, rules, folder).Ok?
    ensures Translate(ps, rules, folder).value == [] <==> !SomeLiveRule(ps, rules)
  {
    RulesOfAll(ps, rules, folder);
    if rules != [] {
      var rs := MakeRules(ps, ps, rules, folder).value;
      if SomeLiveRule(ps, rules) {
        var p :| p in ps && LivePolicy(p) && HasLiveRule(p, rules);
        var r :| r in rs && MadeFrom(r, p, ps, rules, folder);
        MadeConditions(r, p, ps, rules, folder);
      } else {
        forall r | r in rs
          ensures r.conditions == []
        {
          var p :| p in ps && LivePolicy(p) && MadeFrom(r, p, ps, rules, folder);
          MadeConditions(r, p, ps, rules, folder);
        }
      }
    }
  }

  lemma RulesDecide(rs: seq<Rule>, ps: seq<L7Policy>, rules: seq<L7Rule>, folder: string, q: HttpRequest,
                    regex: (string, string) -> bool, v: Option<Verdict>)
    requires forall r :: r in rs ==> exists p :: p in ps && LivePolicy(p) && Translates(r, p, rules, folder)
    requires forall p :: p in ps && LivePolicy(p) ==> exists r :: r in rs && Translates(r, p, rules, folder)
    ensures Picks(rs, q, v) <==> Decides(ps, rules, folder, q, regex, v)
  {
    forall r, p | Translates(r, p, rules, folder) && LivePolicy(p)
      ensures RuleFires(r, q) <==> PolicyMatches(p, rules, q, regex)
      ensures ActionVerdict(r.action) == Some(PolicyVerdict(p, folder)) && r.ordinal == p.position
    {
      RuleConditions(r, p, rules, folder, q, regex);
    }
    if Picks(rs, q, v) && v.Some? {
      var r :| r in rs && RuleFires(r, q) && ActionVerdict(r.action) == v &&
               forall o :: o in rs && RuleFires(o, q) ==> r.ordinal <= o.ordinal;
      var p :| p in ps && LivePolicy(p) && Translates(r, p, rules, folder);
      assert PolicyVerdict(p, folder) == v.value;
    }
    if Decides(ps, rules, folder, q, regex, v) && v.Some? {
      var p :| p in ps && PolicyMatches(p, rules, q, regex) && PolicyVerdict(p, folder) == v.value &&
               forall o :: o in ps && PolicyMatches(o, rules, q, regex) ==> p.position <= o.position;
      var r :| r in rs && Translates(r, p, rules, folder);
      assert ActionVerdict(r.action) == v;
    }
  }

  /** Meaning is preserved for every request exactly when some live policy has a live rule,
      or there is no live policy at all.  Otherwise the policies, having nothing to check,
      match everything, while the device is left without a policy. */
  lemma TranslationPreservesMeaning(ps: seq<L7Policy>, rules: seq<L7Rule>, folder: string,
                                    regex: (string, string) -> bool)
    requires DistinctPolicies(ps) && Translate(ps, rules, folder).Ok?
    ensures SomeLiveRule(ps, rules) || !SomeLivePolicy(ps) <==>
            forall q, v :: Picks(Translate(ps, rules, folder).value, q, v) <==> Decides(ps, rules, folder, q, regex, v)
  {
    var rs := Translate(ps, rules, folder).value;
    TranslationEmpty(ps, rules, folder);
    if SomeLiveRule(ps, rules) {
      RulesOfAll(ps, rules, folder);
      LiveRuleMeansRules(ps, rules);
      forall r, p | p in ps && MadeFrom(r, p, ps, rules, folder)
        ensures Translates(r, p, rules, folder)
      {
        MadeIsTranslated(r, p, ps, rules, folder);
      }
      forall q, v
        ensures Picks(rs, q, v) <==> Decides(ps, rules, folder, q, regex, v)
      {
        RulesDecide(rs, ps, rules, folder, q, regex, v);
      }
    } else if SomeLivePolicy(ps) {
      var q := HttpRequest("", "", "", map[], map[]);
      var p := MatchesWithoutRules(ps, rules, q, regex);
      assert Picks(rs, q, None) && !Decides(ps, rules, folder, q, regex, None);
    }
  }

  /** A live policy without live rules matches everything. */
  lemma MatchesWithoutRules(ps: seq<L7Policy>, rules: seq<L7Rule>, q: HttpRequest, regex: (string, string) -> bool)
    returns (p: L7Policy)
    requires SomeLivePolicy(ps) && !SomeLiveRule(ps, rules)
    ensures p in ps && PolicyMatches(p, rules, q, regex)
  {
    p :| p in ps && p.status != PendingDelete && p.adminStateUp;
    assert !HasLiveRule(p, rules);
    forall i | 0 <= i < |p.rules|
      ensures RefMatches(p.rules[i], rules, q, regex)
    {
      assert !LiveRef(p.rules[i], rules);
      RefReadings(p.rules[i], rules, q, regex);
    }
  }

  lemma LiveRuleMeansRules(ps: seq<L7Policy>, rules: seq<L7Rule>)
    requires SomeLiveRule(ps, rules)
    ensures rules != []
  {
  }

  /** No request gets two verdicts: distinct positions make the choice unique. */
  lemma VerdictIsUnique(ps: seq<L7Policy>, rules: seq<L7Rule>, folder: string, q: HttpRequest,
                        regex: (string, string) -> bool, v: Option<Verdict>, w: Option<Verdict>)
    requires DistinctPolicies(ps)
    requires Decides(ps, rules, folder, q, regex, v) && Decides(ps, rules, folder, q, regex, w)
    ensures v == w
  {
    if v.Some? && w.Some? {
      var p :| p in ps && PolicyMatches(p, rules, q, regex) && PolicyVerdict(p, folder) == v.value &&
               forall o :: o in ps && PolicyMatches(o, rules, q, regex) ==> p.position <= o.position;
      var o :| o in ps && PolicyMatches(o, rules, q, regex) && PolicyVerdict(o, folder) == w.value &&
               forall p :: p in ps && PolicyMatches(p, rules, q, regex) ==> o.position <= p.position;
      assert p.position == o.position;
    }
  }
}
