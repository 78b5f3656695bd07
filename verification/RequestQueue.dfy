/** The request queue behind the `serialized` decorator, as steps of interleaved green threads.

    Each call appends a request with a fresh id, polls its own index until it is 0, runs its
    method and pops the front of the queue, whether the method returned or raised. */
module RequestQueue {

  type Id = nat

  datatype Request = Request(id: Id, methodName: string, service: nat)

  /** Position of the request with the id, or the queue's length when it is not queued. */
  function IndexOf(queue: seq<Request>, id: Id): (i: nat)
    ensures i <= |queue|
    ensures i < |queue| ==> queue[i].id == id
    ensures forall j :: 0 <= j < i ==> queue[j].id != id
  {
    if queue == [] then 0 else if queue[0].id == id then 0 else 1 + IndexOf(queue[1..], id)
  }

  /** The first index is unique, whatever way it was found. */
  lemma IndexIsFirst(queue: seq<Request>, id: Id, i: nat)
    requires i <= |queue| && (i < |queue| ==> queue[i].id == id)
    requires forall j :: 0 <= j < i ==> queue[j].id != id
    ensures IndexOf(queue, id) == i
  {
  }

  /** The loop finds a request by id; `list.index` then looks for the first equal request. */
  method GetRequestIndex(queue: seq<Request>, id: Id) returns (index: nat)
    ensures index == IndexOf(queue, id)
  {
    for k := 0 to |queue|
      invariant forall j :: 0 <= j < k ==> queue[j].id != id
    {
      if queue[k].id == id {
        index := 0;
        while queue[index] != queue[k]
          invariant index <= k
          invariant forall j :: 0 <= j < index ==> queue[j] != queue[k]
          decreases k - index
        {
          index := index + 1;
        }
        IndexIsFirst(queue, id, index);
        return;
      }
    }
    IndexIsFirst(queue, id, |queue|);
    return |queue|;
  }

  /** Where a call stands: entered, polled with that many requests ahead, running its
      method, or returned. */
  datatype Phase = Entered | Waiting(ahead: nat) | Running | Done

  /** `appended`, `started` and `finished` record the history of the queue; `waitsFor` maps a
      running request to a serialized call made from inside its method. */
  datatype State = State(
    queue: seq<Request>,
    phase: map<Id, Phase>,
    waitsFor: map<Id, Id>,
    appended: seq<Request>,
    started: seq<Request>,
    finished: seq<Request>)

  const Initial: State := State([], map[], map[], [], [], [])

  datatype Step =
    | Enqueue(request: Request)
    | EnqueueNested(caller: Id, request: Request)
    | Poll(id: Id)
    | Start(id: Id)
    | Finish(id: Id, failed: bool)

  predicate InPhase(st: State, id: Id, p: Phase) {
    id in st.phase && st.phase[id] == p
  }

  function Append(st: State, r: Request): State {
    st.(queue := st.queue + [r], appended := st.appended + [r], phase := st.phase[r.id := Entered])
  }

  /** The calls that may happen next; ids are fresh. */
  predicate Enabled(st: State, step: Step) {
    match step
    case Enqueue(r) => r.id !in st.phase
    case EnqueueNested(p, r) => r.id !in st.phase && InPhase(st, p, Running) && p !in st.waitsFor
    case Poll(id) => id in st.phase && (st.phase[id] == Entered || (st.phase[id].Waiting? && st.phase[id].ahead != 0))
    case Start(id) => InPhase(st, id, Waiting(0))
    case Finish(id, _) =>
      && InPhase(st, id, Running)
      && (id in st.waitsFor ==> InPhase(st, st.waitsFor[id], Done))
  }

  /** `pop(0)` drops the front of the queue, whoever is there.  Popping an empty queue
      would raise; `RunnerIsHead` shows that it never is. */
  function Next(st: State, step: Step): State {
    match step
    case Enqueue(r) => Append(st, r)
    case EnqueueNested(p, r) => Append(st, r).(waitsFor := st.waitsFor[p := r.id])
    case Poll(id) => st.(phase := st.phase[id := Waiting(IndexOf(st.queue, id))])
    case Start(id) =>
      var i := IndexOf(st.queue, id);
      st.(phase := st.phase[id := Running],
          started := if i < |st.queue| then st.started + [st.queue[i]] else st.started)
    case Finish(id, _) =>
      st.(phase := st.phase[id := Done],
          queue := if st.queue == [] then [] else st.queue[1..],
          finished := if st.queue == [] then st.finished else st.finished + [st.queue[0]])
  }

  ghost predicate Run(states: seq<State>, steps: seq<Step>) {
    && |states| == |steps| + 1
    && forall i {:trigger steps[i]} ::
         0 <= i < |steps| ==> Enabled(states[i], steps[i]) && states[i + 1] == Next(states[i], steps[i])
  }

  // ----- The invariant

  ghost predicate DistinctIds(queue: seq<Request>) {
    forall i, j :: 0 <= i < j < |queue| ==> queue[i].id != queue[j].id
  }

  ghost predicate Queued(st: State, id: Id) {
    exists i :: 0 <= i < |st.queue| && st.queue[i].id == id
  }

  ghost predicate Inv(st: State) {
    && DistinctIds(st.queue)
    && st.appended == st.finished + st.queue
    && (forall id :: Queued(st, id) <==> id in st.phase && st.phase[id] != Done)
    && (forall id :: id in st.phase && st.phase[id].Waiting? ==> IndexOf(st.queue, id) <= st.phase[id].ahead)
    && (forall id :: InPhase(st, id, Running) ==> IndexOf(st.queue, id) == 0)
    && st.started == st.finished + (if st.queue != [] && InPhase(st, st.queue[0].id,
                                                                 Running) then st.queue[..1] else [])
    && (forall p :: p in st.waitsFor ==> p in st.phase && st.waitsFor[p] in st.phase)
  }

  lemma IndexAfterAppend(queue: seq<Request>, r: Request, id: Id)
    ensures id != r.id && IndexOf(queue, id) < |queue| ==> IndexOf(queue + [r], id) == IndexOf(queue, id)
  {
    if id != r.id && IndexOf(queue, id) < |queue| {
      IndexIsFirst(queue + [r], id, IndexOf(queue, id));
    }
  }

  lemma QueuedIndex(st: State, id: Id)
    ensures Queued(st, id) <==> IndexOf(st.queue, id) < |st.queue|
  {
  }

  lemma AppendKeepsInv(st: State, r: Request)
    requires Inv(st) && r.id !in st.phase
    ensures Inv(Append(st, r))
  {
    var st' := Append(st, r);
    forall id
      ensures Queued(st', id) <==> Queued(st, id) || id == r.id
    {
      if Queued(st, id) {
        var i :| 0 <= i < |st.queue| && st.queue[i].id == id;
        assert st'.queue[i].id == id;
      }
      assert st'.queue[|st.queue|] == r;
    }
    forall id | Queued(st, id)
      ensures IndexOf(st'.queue, id) == IndexOf(st.queue, id)
    {
      QueuedIndex(st, id);
      IndexAfterAppend(st.queue, r, id);
    }
    assert st'.appended == st'.finished + st'.queue;
    assert st.queue != [] ==> st'.queue[..1] == st.queue[..1] && st.queue[0].id != r.id by {
      if st.queue != [] {
        assert Queued(st, st.queue[0].id);
      }
    }
  }

  lemma PollKeepsInv(st: State, id: Id)
    requires Inv(st) && Enabled(st, Poll(id))
    ensures Inv(Next(st, Poll(id)))
  {
    var st' := Next(st, Poll(id));
    assert forall k :: Queued(st', k) <==> Queued(st, k);
  }

  lemma StartKeepsInv(st: State, id: Id)
    requires Inv(st) && Enabled(st, Start(id))
    ensures Inv(Next(st, Start(id)))
  {
    var st' := Next(st, Start(id));
    assert Queued(st, id);
    QueuedIndex(st, id);
    assert forall k :: Queued(st', k) <==> Queued(st, k);
    assert st.queue[0].id == id && st.queue[..1] == [st.queue[0]];
  }

  lemma PoppedQueued(st: State, st': State, k: Id)
    requires st.queue != [] && DistinctIds(st.queue) && st'.queue == st.queue[1..]
    ensures Queued(st', k) <==> Queued(st, k) && k != st.queue[0].id
  {
    if Queued(st, k) && k != st.queue[0].id {
      var i :| 0 <= i < |st.queue| && st.queue[i].id == k;
      assert st'.queue[i - 1].id == k;
    }
    if Queued(st', k) {
      var i :| 0 <= i < |st'.queue| && st'.queue[i].id == k;
      assert st.queue[i + 1].id == k;
    }
  }

  lemma FinishKeepsInv(st: State, id: Id, failed: bool)
    requires Inv(st) && Enabled(st, Finish(id, failed))
    ensures Inv(Next(st, Finish(id, failed)))
  {
    var st' := Next(st, Finish(id, failed));
    assert Queued(st, id);
    QueuedIndex(st, id);
    assert st.queue[0].id == id;
    forall k
      ensures Queued(st', k) <==> Queued(st, k) && k != id
    {
      PoppedQueued(st, st', k);
    }
    assert st'.appended == st'.finished + st'.queue;
    assert st.queue[..1] == [st.queue[0]];
    if st'.queue != [] {
      assert Queued(st', st'.queue[0].id);
      assert IndexOf(st.queue, st.queue[1].id) == 1;
    }
  }

  lemma NestedKeepsInv(st: State, p: Id, r: Request)
    requires Inv(st) && Enabled(st, EnqueueNested(p, r))
    ensures Inv(Next(st, EnqueueNested(p, r)))
  {
    AppendKeepsInv(st, r);
    var st' := Next(st, EnqueueNested(p, r));
    assert forall id :: Queued(st', id) <==> Queued(Append(st, r), id);
  }

  lemma StepKeepsInv(st: State, step: Step)
    requires Inv(st) && Enabled(st, step)
    ensures Inv(Next(st, step))
  {
    match step
    case Enqueue(r) => AppendKeepsInv(st, r);
    case EnqueueNested(p, r) => NestedKeepsInv(st, p, r);
    case Poll(id) => PollKeepsInv(st, id);
    case Start(id) => StartKeepsInv(st, id);
    case Finish(id, failed) => FinishKeepsInv(st, id, failed);
  }

  lemma {:induction false} InvariantOverRuns(states: seq<State>, steps: seq<Step>, k: nat)
    requires Run(states, steps) && states[0] == Initial && k < |states|
    ensures Inv(states[k])
  {
    if k > 0 {
      InvariantOverRuns(states, steps, k - 1);
      StepKeepsInv(states[k - 1], steps[k - 1]);
    }
  }

  // ----- What callers rely on

  /** In every interleaving, nested calls included, at most one request runs at a time. */
  lemma MutualExclusion(states: seq<State>, steps: seq<Step>, k: nat, a: Id, b: Id)
    requires Run(states, steps) && states[0] == Initial && k < |states|
    requires InPhase(states[k], a, Running) && InPhase(states[k], b, Running)
    ensures a == b
  {
    InvariantOverRuns(states, steps, k);
    assert Queued(states[k], a) && Queued(states[k], b);
    QueuedIndex(states[k], a);
    QueuedIndex(states[k], b);
  }

  /** The runner is the head of the queue, and what it pops, on return or on exception, is
      its own entry: everyone else stays queued in the same order. */
  lemma RunnerIsHead(states: seq<State>, steps: seq<Step>, k: nat, id: Id, failed: bool)
    requires Run(states, steps) && states[0] == Initial && k < |steps| && steps[k] == Finish(id, failed)
    ensures states[k].queue != [] && states[k].queue[0].id == id
    ensures states[k].queue == [states[k].queue[0]] + states[k + 1].queue
    ensures !Queued(states[k + 1], id)
  {
    InvariantOverRuns(states, steps, k);
    InvariantOverRuns(states, steps, k + 1);
    assert Queued(states[k], id);
    QueuedIndex(states[k], id);
  }

  /** Requests start in the order in which they were appended, and finish in that order. */
  lemma Fifo(states: seq<State>, steps: seq<Step>, k: nat)
    requires Run(states, steps) && states[0] == Initial && k < |states|
    ensures states[k].finished <= states[k].started <= states[k].appended
    ensures |states[k].started| <= |states[k].finished| + 1
  {
    InvariantOverRuns(states, steps, k);
    var st := states[k];
    if st.queue != [] {
      assert st.appended == (st.finished + st.queue[..1]) + st.queue[1..];
    }
  }

  lemma StepLowersIndex(st: State, step: Step, id: Id)
    requires Inv(st) && Enabled(st, step) && Queued(st, id) && Queued(Next(st, step), id)
    ensures IndexOf(Next(st, step).queue, id) + |Next(st, step).finished| == IndexOf(st.queue, id) + |st.finished|
    ensures |Next(st, step).finished| >= |st.finished|
  {
    QueuedIndex(st, id);
    match step
    case Enqueue(r) => IndexAfterAppend(st.queue, r, id);
    case EnqueueNested(_, r) => IndexAfterAppend(st.queue, r, id);
    case Poll(_) =>
    case Start(_) =>
    case Finish(f, failed) => FinishLowersIndex(st, f, failed, id);
  }

  lemma FinishLowersIndex(st: State, f: Id, failed: bool, id: Id)
    requires Inv(st) && Enabled(st, Finish(f, failed)) && Queued(st, id) && Queued(Next(st, Finish(f, failed)), id)
    ensures var st' := Next(st, Finish(f, failed));
            && IndexOf(st'.queue, id) + |st'.finished| == IndexOf(st.queue, id) + |st.finished|
            && |st'.finished| >= |st.finished|
  {
    QueuedIndex(st, id);
    FinishKeepsInv(st, f, failed);
    assert Queued(st, f);
    assert st.queue[0].id == f;
  }

  lemma RunLowersIndex(states: seq<State>, steps: seq<Step>, k: nat, id: Id)
    requires Run(states, steps) && states[0] == Initial && k + 1 < |states|
    requires Queued(states[k], id) && Queued(states[k + 1], id)
    ensures IndexOf(states[k + 1].queue, id) + |states[k + 1].finished| ==
            IndexOf(states[k].queue, id) + |states[k].finished|
    ensures |states[k + 1].finished| >= |states[k].finished|
  {
    InvariantOverRuns(states, steps, k);
    StepLowersIndex(states[k], steps[k], id);
  }

  /** While a request is queued its index never grows, and each finish lowers it by one. */
  lemma {:induction false} IndexOnlyDecreases(states: seq<State>, steps: seq<Step>, i: nat, k: nat, id: Id)
    requires Run(states, steps) && states[0] == Initial && i <= k < |states|
    requires forall j :: i <= j <= k ==> Queued(states[j], id)
    ensures IndexOf(states[k].queue, id) + |states[k].finished| == IndexOf(states[i].queue, id) + |states[i].finished|
    ensures |states[k].finished| >= |states[i].finished|
    decreases k
  {
    if i < k {
      IndexOnlyDecreases(states, steps, i, k - 1, id);
      RunLowersIndex(states, steps, k - 1, id);
    }
  }

  // ----- Progress

  /** How many steps the head still needs before it has popped itself. */
  function HeadSteps(st: State): nat {
    if st.queue == [] then 0
    else
      var id := st.queue[0].id;
      if id !in st.phase then 0
      else if st.phase[id] == Waiting(0) then 2
      else if st.phase[id] == Running then 1
      else 3
  }

  /** Without a nested call the head can always take a step, which brings the queue nearer
      to empty. */
  lemma HeadCanMove(st: State) returns (step: Step)
    requires Inv(st) && st.queue != [] && st.waitsFor == map[]
    ensures Enabled(st, step) && Next(st, step).waitsFor == map[]
    ensures var st' := Next(st, step);
            |st'.queue| < |st.queue| || (|st'.queue| == |st.queue| && HeadSteps(st') < HeadSteps(st))
    ensures Next(st, step).appended == st.appended
  {
    var id := st.queue[0].id;
    assert Queued(st, id);
    match st.phase[id]
    case Entered => step := Poll(id);
    case Waiting(a) => step := if a == 0 then Start(id) else Poll(id);
    case Running => step := Finish(id, false);
  }

  /** So every queue can be drained, with every request run. */
  lemma {:induction false} CanDrain(st: State) returns (states: seq<State>, steps: seq<Step>)
    requires Inv(st) && st.waitsFor == map[]
    ensures Run(states, steps) && states[0] == st
    ensures var last := states[|steps|];
            last.queue == [] && last.finished == last.started == last.appended == st.appended
    decreases |st.queue|, HeadSteps(st)
  {
    if st.queue == [] {
      states, steps := [st], [];
    } else {
      var step := HeadCanMove(st);
      StepKeepsInv(st, step);
      states, steps := CanDrain(Next(st, step));
      states, steps := [st] + states, [step] + steps;
      assert forall i :: 0 < i < |steps| ==> states[i] == states[1..][i - 1] && steps[i] == steps[1..][i - 1];
    }
  }

  /** The running request waits for a call queued behind it. */
  ghost predicate SelfBlocked(st: State, p: Id) {
    && InPhase(st, p, Running) && p in st.waitsFor
    && IndexOf(st.queue, p) == 0 && 0 < IndexOf(st.queue, st.waitsFor[p]) < |st.queue|
  }

  lemma NestedCallBlocks(st: State, p: Id, r: Request)
    requires Inv(st) && Enabled(st, EnqueueNested(p, r))
    ensures SelfBlocked(Next(st, EnqueueNested(p, r)), p)
  {
    assert Queued(st, p);
    QueuedIndex(st, p);
    IndexAfterAppend(st.queue, r, p);
    assert r.id !in st.phase;
    assert !Queued(st, r.id);
    IndexIsFirst(st.queue + [r], r.id, |st.queue|);
  }

  lemma BlockedStays(st: State, p: Id, step: Step)
    requires Inv(st) && SelfBlocked(st, p) && Enabled(st, step)
    ensures SelfBlocked(Next(st, step), p)
    ensures Next(st, step).started == st.started && Next(st, step).finished == st.finished
  {
    var c := st.waitsFor[p];
    QueuedIndex(st, c);
    QueuedIndex(st, p);
    assert Queued(st, c) && Queued(st, p);
    forall id | InPhase(st, id, Running) || InPhase(st, id, Waiting(0))
      ensures id == p
    {
      assert Queued(st, id);
      QueuedIndex(st, id);
      assert IndexOf(st.queue, id) == 0 == IndexOf(st.queue, p);
    }
    if step.Enqueue? {
      IndexAfterAppend(st.queue, step.request, p);
      IndexAfterAppend(st.queue, step.request, c);
    }
  }

  /** A serialized method that calls another one deadlocks the queue for good: from then on
      nothing starts and nothing finishes, in any continuation. */
  lemma {:induction false} NestedCallDeadlocks(states: seq<State>, steps: seq<Step>, i: nat, k: nat, p: Id, r: Request)
    requires Run(states, steps) && states[0] == Initial && i < |steps| && steps[i] == EnqueueNested(p, r)
    requires i < k < |states|
    ensures SelfBlocked(states[k], p)
    ensures states[k].started == states[i].started && states[k].finished == states[i].finished
    decreases k
  {
    if k == i + 1 {
      InvariantOverRuns(states, steps, i);
      NestedCallBlocks(states[i], p, r);
    } else {
      NestedCallDeadlocks(states, steps, i, k - 1, p, r);
      InvariantOverRuns(states, steps, k - 1);
      BlockedStays(states[k - 1], p, steps[k - 1]);
    }
  }
}
