/** Translation of LBaaS L7 policies into one first-match policy on the device.

    Both sides are given a meaning over HTTP requests, and the translation is proved to
    preserve it, with the exact condition under which it does. */
module L7Policy {
  import opened Lbaas

  // ----- LBaaS side

  datatype RuleType = HostName | Path | FileType | Header | Cookie

  datatype CompareType = StartsWith | EndsWith | Contains | EqualTo | Regex

  datatype L7Rule = L7Rule(id: Id, status: Status, adminStateUp: bool, ruleType: RuleType,
                           compareType: CompareType, key: string, value: string, invert: bool)

  datatype ActionName = RedirectToPool | RedirectToUrl | Reject

  datatype L7Policy = L7Policy(id: Id, listenerId: Id, position: int, action: ActionName, redirectPoolId: Id,
                               redirectUrl: string, status: Status, adminStateUp: bool, rules: seq<Id>)

  datatype HttpRequest = HttpRequest(host: string, path: string, extension: string,
                                     headers: map<string, string>, cookies: map<string, string>)

  /** The part of the request a rule looks at. */
  function Subject(r: L7Rule, q: HttpRequest): Option<string> {
    match r.ruleType
    case HostName => Some(q.host)
    case Path => Some(q.path)
    case FileType => Some(q.extension)
    case Header => if r.key in q.headers then Some(q.headers[r.key]) else None
    case Cookie => if r.key in q.cookies then Some(q.cookies[r.key]) else None
  }

  /** Regular expressions stay uninterpreted. */
  predicate Compares(t: CompareType, s: string, value: string, regex: (string, string) -> bool) {
    match t
    case StartsWith => value <= s
    case EndsWith => exists i :: 0 <= i <= |s| && s[i..] == value
    case Contains => exists i, j :: 0 <= i <= j <= |s| && s[i..j] == value
    case EqualTo => s == value
    case Regex => regex(s, value)
  }

  predicate RuleMatches(r: L7Rule, q: HttpRequest, regex: (string, string) -> bool) {
    var s := Subject(r, q);
    (s.Some? && Compares(r.compareType, s.value, r.value, regex)) != r.invert
  }

  /** Rule `k` is the one that the id refers to: the first with this id. */
  ghost predicate RuleAt(rules: seq<L7Rule>, id: Id, k: nat) {
    k < |rules| && rules[k].id == id && forall j :: 0 <= j < k ==> rules[j].id != id
  }

  /** Policy `k` is the one that the id refers to: the first with this id. */
  ghost predicate PolicyAt(ps: seq<L7Policy>, id: Id, k: nat) {
    k < |ps| && ps[k].id == id && forall j :: 0 <= j < k ==> ps[j].id != id
  }

  /** The rule referred to matches, if it is neither being deleted nor administratively down. */
  ghost predicate RefMatches(id: Id, rules: seq<L7Rule>, q: HttpRequest, regex: (string, string) -> bool) {
    forall k: nat :: RuleAt(rules, id, k) && rules[k].status != PendingDelete && rules[k].adminStateUp ==>
                  RuleMatches(rules[k], q, regex)
  }

  /** The policy is neither being deleted nor administratively down, and its rules match. */
  ghost predicate PolicyMatches(p: L7Policy, rules: seq<L7Rule>, q: HttpRequest, regex: (string, string) -> bool) {
    && p.status != PendingDelete && p.adminStateUp
    && forall i :: 0 <= i < |p.rules| ==> RefMatches(p.rules[i], rules, q, regex)
  }

  /** What is done with a request. */
  datatype Verdict = Reset | Forward(pool: Name) | Redirect(location: string)

  function PolicyVerdict(p: L7Policy, folder: string): Verdict {
    match p.action
    case Reject => Reset
    case RedirectToPool => Forward(Name(folder, p.redirectPoolId))
    case RedirectToUrl => Redirect(p.redirectUrl)
  }

  /** The live policy of least position that matches decides; `None` when none matches. */
  ghost predicate Decides(ps: seq<L7Policy>, rules: seq<L7Rule>, folder: string, q: HttpRequest,
                          regex: (string, string) -> bool, v: Option<Verdict>)
  {
    match v
    case None => forall p :: p in ps ==> !PolicyMatches(p, rules, q, regex)
    case Some(d) =>
      exists p :: p in ps && PolicyMatches(p, rules, q, regex) && PolicyVerdict(p, folder) == d &&
                  forall o :: o in ps && PolicyMatches(o, rules, q, regex) ==> p.position <= o.position
  }

  // ----- Device side

  /** A condition as the dictionary of flags sent to the device. */
  datatype Condition = Condition(
    name: nat, negated: bool, values: seq<string>, tmName: Option<string>,
    httpHost: bool, host: bool, httpUri: bool, path: bool, extension: bool, httpHeader: bool, httpCookie: bool,
    startsWith: bool, endsWith: bool, contains: bool, equals: bool)

  datatype Action = Action(forward: bool, pool: Option<Name>, redirect: bool, location: Option<string>,
                           httpReply: bool, reset: bool)

  datatype Rule = Rule(ordinal: int, conditions: seq<Condition>, action: Action)

  function Lookup(m: map<string, string>, key: string): Option<string> {
    if key in m then Some(m[key]) else None
  }

  predicate HasSuffix(s: string, suffix: string) {
    |suffix| <= |s| && s[|s| - |suffix|..] == suffix
  }

  predicate HasInfix(s: string, infix: string) {
    exists i :: 0 <= i <= |s| && infix <= s[i..]
  }

  /** The operand that the flags select, if they select one. */
  function Operand(c: Condition, q: HttpRequest): Option<string> {
    match (c.httpHost, c.httpUri, c.httpHeader, c.httpCookie)
    case (true, false, false, false) => if c.host then Some(q.host) else None
    case (false, true, false, false) =>
      if c.path == c.extension then None else Some(if c.path then q.path else q.extension)
    case (false, false, true, false) => if c.tmName.Some? then Lookup(q.headers, c.tmName.value) else None
    case (false, false, false, true) => if c.tmName.Some? then Lookup(q.cookies, c.tmName.value) else None
    case _ => None
  }

  predicate Meets(c: Condition, s: string, value: string) {
    || (c.startsWith && value <= s)
    || (c.endsWith && HasSuffix(s, value))
    || (c.contains && HasInfix(s, value))
    || (c.equals && s == value)
  }

  predicate ConditionHolds(c: Condition, q: HttpRequest) {
    var s := Operand(c, q);
    (s.Some? && exists v :: v in c.values && Meets(c, s.value, v)) != c.negated
  }

  predicate RuleFires(r: Rule, q: HttpRequest) {
    forall c :: c in r.conditions ==> ConditionHolds(c, q)
  }

  /** What the flags of an action make the device do, if they are consistent. */
  function ActionVerdict(a: Action): Option<Verdict> {
    if a.forward && a.reset && !a.redirect && a.pool.None? then Some(Reset)
    else if a.forward && !a.reset && !a.redirect && a.pool.Some? then Some(Forward(a.pool.value))
    else if a.redirect && a.httpReply && !a.forward && !a.reset &&
        a.location.Some? then Some(Redirect(a.location.value))
    else None
  }

  /** First-match strategy: the firing rule of least ordinal acts. */
  ghost predicate Picks(rs: seq<Rule>, q: HttpRequest, v: Option<Verdict>) {
    match v
    case None => forall r :: r in rs ==> !RuleFires(r, q)
    case Some(d) =>
      exists r :: r in rs && RuleFires(r, q) && ActionVerdict(r.action) == Some(d) &&
                  forall o :: o in rs && RuleFires(o, q) ==> r.ordinal <= o.ordinal
  }

  // ----- The adapter

  /** A value, a KeyError or TypeError that leaves `translate`, or the caught
      NoActionFoundForPolicy. */
  datatype Outcome<T> = Ok(value: T) | Crash | NoActionFound

  predicate LiveRule(r: L7Rule) {
    r.status != PendingDelete && r.adminStateUp
  }

  predicate LivePolicy(p: L7Policy) {
    p.status != PendingDelete && p.adminStateUp
  }

  function FindRule(rules: seq<L7Rule>, id: Id): Option<L7Rule> {
    if rules == [] then None
    else if rules[0].id == id then Some(rules[0])
    else FindRule(rules[1..], id)
  }

  const NoFlags: Condition :=
    Condition(0, false, [], None, false, false, false, false, false, false, false, false, false, false, false)

  function TypeFlags(t: RuleType, key: string): Condition {
    match t
    case HostName => NoFlags.(httpHost := true, host := true)
    case Path => NoFlags.(httpUri := true, path := true)
    case FileType => NoFlags.(httpUri := true, extension := true)
    case Header => NoFlags.(httpHeader := true, tmName := Some(key))
    case Cookie => NoFlags.(httpCookie := true, tmName := Some(key))
  }

  /** `Condition(rule, name)`; the comparison table has no entry for regular expressions. */
  function MakeCondition(r: L7Rule, name: nat): Outcome<Condition> {
    var c := TypeFlags(r.ruleType, r.key).(name := name, values := [r.value], negated := r.invert);
    match r.compareType
    case StartsWith => Ok(c.(startsWith := true))
    case EndsWith => Ok(c.(endsWith := true))
    case Contains => Ok(c.(contains := true))
    case EqualTo => Ok(c.(equals := true))
    case Regex => Crash
  }

  const NoAction: Action := Action(false, None, false, None, false, false)

  function MakeAction(p: L7Policy, folder: string): Action {
    match p.action
    case RedirectToPool => NoAction.(forward := true, pool := Some(Name(folder, p.redirectPoolId)))
    case RedirectToUrl => NoAction.(redirect := true, location := Some(p.redirectUrl), httpReply := true)
    case Reject => NoAction.(reset := true, forward := true)
  }

  function FindPolicy(ps: seq<L7Policy>, id: Id): Option<L7Policy> {
    if ps == [] then None
    else if ps[0].id == id then Some(ps[0])
    else FindPolicy(ps[1..], id)
  }

  /** Conditions built from the first rule ids on, or the exception met on the way. */
  function MakeConditions(ids: seq<Id>, rules: seq<L7Rule>): Outcome<seq<Condition>> {
    if ids == [] then Ok([])
    else
      var n := |ids| - 1;
      match MakeConditions(ids[..n], rules)
      case Crash => Crash
      case NoActionFound => NoActionFound
      case Ok(cs) =>
        var r := FindRule(rules, ids[n]);
        if r.None? then Crash
        else if !LiveRule(r.value) then Ok(cs)
        else match MakeCondition(r.value, n)
          case Ok(c) => Ok(cs + [c])
          case Crash => Crash
          case NoActionFound => NoActionFound
  }

  function MakeRule(p: L7Policy, ps: seq<L7Policy>, rules: seq<L7Rule>, folder: string): Outcome<Rule> {
    match MakeConditions(p.rules, rules)
    case Crash => Crash
    case NoActionFound => NoActionFound
    case Ok(cs) =>
      var found := FindPolicy(ps, p.id);
      if found.None? then NoActionFound else Ok(Rule(p.position, cs, MakeAction(found.value, folder)))
  }

  /** The rules made from the live policies among the first ones. */
  function MakeRules(todo: seq<L7Policy>, ps: seq<L7Policy>, rules: seq<L7Rule>, folder: string): Outcome<seq<Rule>> {
    if todo == [] then Ok([])
    else
      var n := |todo| - 1;
      match MakeRules(todo[..n], ps, rules, folder)
      case Crash => Crash
      case NoActionFound => NoActionFound
      case Ok(rs) =>
        if !LivePolicy(todo[n]) then Ok(rs)
        else match MakeRule(todo[n], ps, rules, folder)
          case Ok(r) => Ok(rs + [r])
          case Crash => Crash
          case NoActionFound => NoActionFound
  }

  /** `translate`: the rules of the wrapper policy, empty when PolicyHasNoRules or
      NoActionFoundForPolicy was caught. */
  function Translate(ps: seq<L7Policy>, rules: seq<L7Rule>, folder: string): Outcome<seq<Rule>> {
    if rules == [] then Ok([])
    else
      match MakeRules(ps, ps, rules, folder)
      case Crash => Crash
      case NoActionFound => Ok([])
      case Ok(rs) => if forall r :: r in rs ==> r.conditions == [] then Ok([]) else Ok(rs)
  }

  method AdaptConditions(ids: seq<Id>, rules: seq<L7Rule>) returns (out: Outcome<seq<Condition>>)
    ensures out == MakeConditions(ids, rules)
  {
    var conditions: seq<Condition> := [];
    for idx := 0 to |ids|
      invariant MakeConditions(ids[..idx], rules) == Ok(conditions)
    {
      assert ids[..idx + 1][..idx] == ids[..idx];
      var rule := FindRule(rules, ids[idx]);
      if rule.None? {
        CrashSpreads(ids, rules, idx + 1);
        return Crash;
      }
      if LiveRule(rule.value) {
        var c := MakeCondition(rule.value, idx);
        if !c.Ok? {
          CrashSpreads(ids, rules, idx + 1);
          return Crash;
        }
        conditions := conditions + [c.value];
      }
    }
    assert ids[..|ids|] == ids;
    return Ok(conditions);
  }

  lemma {:induction false} CrashSpreads(ids: seq<Id>, rules: seq<L7Rule>, k: nat)
    requires k <= |ids| && MakeConditions(ids[..k], rules) == Crash
    ensures MakeConditions(ids, rules) == Crash
    decreases |ids|
  {
    if k < |ids| {
      assert ids[..|ids| - 1][..k] == ids[..k];
      CrashSpreads(ids[..|ids| - 1], rules, k);
    } else {
      assert ids[..k] == ids;
    }
  }

  lemma {:induction false} FailureSpreads(todo: seq<L7Policy>, ps: seq<L7Policy>, rules: seq<L7Rule>, folder: string,
                                          k: nat)
    requires k <= |todo| && !MakeRules(todo[..k], ps, rules, folder).Ok?
    ensures MakeRules(todo, ps, rules, folder) == MakeRules(todo[..k], ps, rules, folder)
    decreases |todo|
  {
    if k < |todo| {
      assert todo[..|todo| - 1][..k] == todo[..k];
      FailureSpreads(todo[..|todo| - 1], ps, rules, folder, k);
    } else {
      assert todo[..k] == todo;
    }
  }

  method AdaptPolicies(ps: seq<L7Policy>, rules: seq<L7Rule>, folder: string) returns (out: Outcome<seq<Rule>>)
    ensures out == MakeRules(ps, ps, rules, folder)
  {
    var made: seq<Rule> := [];
    for k := 0 to |ps|
      invariant MakeRules(ps[..k], ps, rules, folder) == Ok(made)
    {
      assert ps[..k + 1][..k] == ps[..k];
      if LivePolicy(ps[k]) {
        var conditions := AdaptConditions(ps[k].rules, rules);
        if !conditions.Ok? {
          FailureSpreads(ps, ps, rules, folder, k + 1);
          return if conditions.Crash? then Crash else NoActionFound;
        }
        var found := FindPolicy(ps, ps[k].id);
        if found.None? {
          FailureSpreads(ps, ps, rules, folder, k + 1);
          return NoActionFound;
        }
        made := made + [Rule(ps[k].position, conditions.value, MakeAction(found.value, folder))];
      }
    }
    assert ps[..|ps|] == ps;
    return Ok(made);
  }

  method TranslateService(ps: seq<L7Policy>, rules: seq<L7Rule>, folder: string) returns (out: Outcome<seq<Rule>>)
    requires ps != []
    ensures out == Translate(ps, rules, folder)
  {
    if rules == [] {
      return Ok([]);
    }
    var adapted := AdaptPolicies(ps, rules, folder);
    if adapted.Crash? {
      return Crash;
    }
    if adapted.NoActionFound? {
      return Ok([]);
    }
    var deleteWrapper := true;
    for k := 0 to |adapted.value|
      invariant deleteWrapper <==> forall j :: 0 <= j < k ==> adapted.value[j].conditions == []
    {
      if adapted.value[k].conditions != [] {
        deleteWrapper := false;
        break;
      }
    }
    return if deleteWrapper then Ok([]) else adapted;
  }
}
