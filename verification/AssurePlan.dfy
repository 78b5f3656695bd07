/** The calls that assuring a service makes on a device, in order, and what they leave there.

    The builder issues exactly these calls when none fails (module `LbaasBuilder`).  A
    create that finds the object is followed by an update of every attribute, so both appear
    here as one `Put`. */
module AssurePlan {
  import opened Lbaas
  import L7 = L7Policy

  // ----- The service definition

  datatype Listener = Listener(id: Id, status: Status, defaultPoolId: Option<Id>, l7Policies: seq<Id>)

  datatype Pool = Pool(id: Id, status: Status, monitorId: Option<Id>)

  datatype Monitor = Monitor(id: Id, status: Status)

  datatype Service = Service(folder: string, lbId: Id, vip: string, lbStatus: Status, listeners: seq<Listener>,
                             pools: seq<Pool>,
                             monitors: seq<Monitor>, policies: seq<L7.L7Policy>, rules: seq<L7.L7Rule>)

  // ----- The device

  datatype Kind = AddressKind | MonitorKind | PoolKind | PolicyKind | VirtualKind

  datatype Obj = Obj(kind: Kind, name: Name)

  /** What the model keeps of a device object: its references to other objects, the rules of
      an L7 policy, and the address of a virtual address. */
  datatype Value =
    | AddressValue(address: string)
    | MonitorValue
    | PoolValue(monitor: Option<Name>)
    | PolicyValue(rules: seq<L7.Rule>)
    | VirtualValue(pool: Option<Name>, policies: seq<Name>)

  type Device = map<Obj, Value>

  datatype Op = Put(obj: Obj, value: Value) | Delete(obj: Obj)

  function Exec(op: Op, d: Device): Device {
    match op
    case Put(o, v) => d[o := v]
    case Delete(o) => d - {o}
  }

  function ExecAll(ops: seq<Op>, d: Device): Device {
    if ops == [] then d else Exec(ops[|ops| - 1], ExecAll(ops[..|ops| - 1], d))
  }

  /** An object of the service: whether the create stage acts on it, with which value, and
      whether the delete stage does. */
  datatype Entry = Entry(obj: Obj, put: bool, value: Value, del: bool)

  function Puts(es: seq<Entry>): seq<Op> {
    if es == [] then []
    else
      var e := es[|es| - 1];
      Puts(es[..|es| - 1]) + if e.put then [Put(e.obj, e.value)] else []
  }

  function Deletes(es: seq<Entry>): seq<Op> {
    if es == [] then []
    else
      var e := es[|es| - 1];
      Deletes(es[..|es| - 1]) + if e.del then [Delete(e.obj)] else []
  }

  // ----- Mapping the service to the device

  /** Membership of `const_status`: what the create stages act on. */
  predicate Acts(sync: bool, s: Status) {
    if sync then s != PendingDelete else s == PendingCreate || s == PendingUpdate
  }

  function WrapperName(folder: string, listener: Id): Name {
    Name(folder, "wrapper_policy_" + listener)
  }

  function LegacyName(folder: string): Name {
    Name(folder, "wrapper_policy")
  }

  function FindMonitor(ms: seq<Monitor>, id: Id): Option<Monitor> {
    if ms == [] then None
    else if ms[0].id == id && ms[0].status != PendingDelete then Some(ms[0])
    else FindMonitor(ms[1..], id)
  }

  /** Reference to the first monitor with the pool's monitor id among those not being deleted. */
  function MonitorRef(svc: Service, p: Pool): Option<Name> {
    if p.monitorId.Some? && FindMonitor(svc.monitors, p.monitorId.value).Some?
    then Some(Name(svc.folder, p.monitorId.value)) else None
  }

  function FindPool(ps: seq<Pool>, id: Id): Option<Pool> {
    if ps == [] then None else if ps[0].id == id then Some(ps[0]) else FindPool(ps[1..], id)
  }

  /** Reference to the listener's default pool, unless that pool is being deleted. */
  function PoolRef(svc: Service, l: Listener): Option<Name> {
    if l.defaultPoolId.None? then None
    else
      var p := FindPool(svc.pools, l.defaultPoolId.value);
      if p.Some? && p.value.status != PendingDelete then Some(Name(svc.folder, p.value.id)) else None
  }

  function FindListener(ls: seq<Listener>, id: Id): Option<Listener> {
    if ls == [] then None else if ls[0].id == id then Some(ls[0]) else FindListener(ls[1..], id)
  }

  /** The policies of the service that the references name. */
  function Referenced(refs: seq<Id>, ps: seq<L7.L7Policy>): seq<L7.L7Policy> {
    if refs == [] then []
    else
      var found := L7.FindPolicy(ps, refs[|refs| - 1]);
      Referenced(refs[..|refs| - 1], ps) + if found.Some? then [found.value] else []
  }

  function ReferencedRules(refs: seq<Id>, rules: seq<L7.L7Rule>): seq<L7.L7Rule> {
    if refs == [] then []
    else
      var found := L7.FindRule(rules, refs[|refs| - 1]);
      ReferencedRules(refs[..|refs| - 1], rules) + if found.Some? then [found.value] else []
  }

  function RulesOf(ps: seq<L7.L7Policy>, rules: seq<L7.L7Rule>): seq<L7.L7Rule> {
    if ps == [] then [] else RulesOf(ps[..|ps| - 1], rules) + ReferencedRules(ps[|ps| - 1].rules, rules)
  }

  /** A listener's `f5_policy`: an empty dictionary when the listener refers to none of the
      service's policies, else the wrapper policy with its rules, possibly none. */
  datatype F5Policy = NoPolicy | Wrapper(rules: seq<L7.Rule>)

  function RulesIn(p: F5Policy): seq<L7.Rule> {
    match p
    case NoPolicy => []
    case Wrapper(rs) => rs
  }

  /** The policies of the service that the listener refers to. */
  function PoliciesOf(svc: Service, l: Listener): seq<L7.L7Policy> {
    Referenced(l.l7Policies, svc.policies)
  }

  /** `build_policy`: the translation of all policies of the listener. */
  function BuildPolicy(svc: Service, listener: Id): L7.Outcome<F5Policy> {
    match FindListener(svc.listeners, listener)
    case None => L7.Crash
    case Some(l) =>
      var ps := PoliciesOf(svc, l);
      if ps == [] then L7.Ok(NoPolicy)
      else
        match L7.Translate(ps, RulesOf(ps, svc.rules), svc.folder)
        case Ok(rs) => L7.Ok(Wrapper(rs))
        case Crash => L7.Crash
        case NoActionFound => L7.NoActionFound
  }

  /** What is built for the listener when nothing is raised. */
  function PolicyFor(svc: Service, listener: Id): F5Policy {
    match BuildPolicy(svc, listener)
    case Ok(p) => p
    case _ => NoPolicy
  }

  function WrapperRules(svc: Service, listener: Id): seq<L7.Rule> {
    RulesIn(PolicyFor(svc, listener))
  }

  /** What is attached to listeners as their `f5_policy`. */
  type F5Policies = map<Id, F5Policy>

  function VirtualOf(svc: Service, l: Listener, f5: F5Policies): Value {
    VirtualValue(PoolRef(svc, l),
                 if l.id in f5 && RulesIn(f5[l.id]) != [] then [WrapperName(svc.folder, l.id)] else [])
  }

  // ----- The entries that each stage goes through

  function AddressEntry(svc: Service, sync: bool): Entry {
    Entry(Obj(AddressKind, Name(svc.folder, svc.lbId)), Acts(sync, svc.lbStatus), AddressValue(svc.vip),
          svc.lbStatus == PendingDelete)
  }

  function MonitorEntry(svc: Service, sync: bool, m: Monitor): Entry {
    Entry(Obj(MonitorKind, Name(svc.folder, m.id)), Acts(sync, m.status), MonitorValue, m.status == PendingDelete)
  }

  function PoolEntry(svc: Service, sync: bool, p: Pool): Entry {
    Entry(Obj(PoolKind, Name(svc.folder, p.id)), Acts(sync, p.status), PoolValue(MonitorRef(svc, p)),
          p.status == PendingDelete)
  }

  /** With an empty `f5_policy` there is no name to delete by: nothing is called. */
  function PolicyEntryOf(folder: string, id: Id, p: F5Policy): Entry {
    Entry(Obj(PolicyKind, WrapperName(folder, id)), RulesIn(p) != [], PolicyValue(RulesIn(p)), p == Wrapper([]))
  }

  function PolicyEntry(svc: Service, id: Id): Entry {
    PolicyEntryOf(svc.folder, id, PolicyFor(svc, id))
  }

  function LegacyEntry(svc: Service): Entry {
    Entry(Obj(PolicyKind, LegacyName(svc.folder)), false, PolicyValue([]), true)
  }

  function VirtualEntry(svc: Service, sync: bool, f5: F5Policies, l: Listener): Entry {
    Entry(Obj(VirtualKind, Name(svc.folder, l.id)), Acts(sync, l.status), VirtualOf(svc, l, f5),
          l.status == PendingDelete)
  }

  function MonitorEntries(svc: Service, sync: bool): (es: seq<Entry>)
    ensures |es| == |svc.monitors|
    ensures forall i :: 0 <= i < |es| ==> es[i] == MonitorEntry(svc, sync, svc.monitors[i])
  {
    seq(|svc.monitors|, i requires 0 <= i < |svc.monitors| => MonitorEntry(svc, sync, svc.monitors[i]))
  }

  function PoolEntries(svc: Service, sync: bool): (es: seq<Entry>)
    ensures |es| == |svc.pools|
    ensures forall i :: 0 <= i < |es| ==> es[i] == PoolEntry(svc, sync, svc.pools[i])
  {
    seq(|svc.pools|, i requires 0 <= i < |svc.pools| => PoolEntry(svc, sync, svc.pools[i]))
  }

  function PolicyEntries(svc: Service, order: seq<Id>): (es: seq<Entry>)
    ensures |es| == |order|
    ensures forall i :: 0 <= i < |es| ==> es[i] == PolicyEntry(svc, order[i])
  {
    seq(|order|, i requires 0 <= i < |order| => PolicyEntry(svc, order[i]))
  }

  function VirtualEntries(svc: Service, sync: bool, f5: F5Policies): (es: seq<Entry>)
    ensures |es| == |svc.listeners|
    ensures forall i :: 0 <= i < |es| ==> es[i] == VirtualEntry(svc, sync, f5, svc.listeners[i])
  {
    seq(|svc.listeners|, i requires 0 <= i < |svc.listeners| => VirtualEntry(svc, sync, f5, svc.listeners[i]))
  }

  /** What the L7 create stage attaches to the listeners when nothing fails. */
  function Attached(svc: Service, order: seq<Id>): F5Policies {
    map id | id in order :: PolicyFor(svc, id)
  }

  /** The calls of one `assure_service` on a device when none fails; `order` is the iteration
      order of the dictionary of listeners that have L7 policies. */
  function Plan(svc: Service, sync: bool, order: seq<Id>): seq<Op> {
    var f5 := Attached(svc, order);
    Puts([AddressEntry(svc, sync)]) + Puts(MonitorEntries(svc, sync)) + Puts(PoolEntries(svc, sync)) +
    Puts(PolicyEntries(svc, order)) + Puts(VirtualEntries(svc, sync, f5)) +
    Deletes(VirtualEntries(svc, sync, f5)) + Deletes([LegacyEntry(svc)]) + Deletes(PolicyEntries(svc, order)) +
    Deletes(PoolEntries(svc, sync)) + Deletes(MonitorEntries(svc, sync)) + Deletes([AddressEntry(svc, sync)])
  }

  /** The device holds the load balancer's object with another address; as that attribute
      cannot be changed, the object is deleted and created again. */
  predicate Stale(svc: Service, d: Device) {
    var o := AddressEntry(svc, true).obj;
    o in d && d[o] != AddressValue(svc.vip)
  }

  /** The same on a device with the given configuration: a stale address goes first. */
  function PlanOn(svc: Service, sync: bool, order: seq<Id>, d: Device): seq<Op> {
    (if Acts(sync, svc.lbStatus) && Stale(svc, d) then [Delete(AddressEntry(svc, sync).obj)] else []) +
    Plan(svc, sync, order)
  }
}
