/** The agent's record of load balancers that are still pending, over periodic passes. */
module PendingServices {
  import opened Lbaas

  /** Microseconds, as `datetime` counts them. */
  type Time = int

  const MICROS: int := 1_000_000
  const SECONDS_IN_A_DAY: int := 86_400

  /** `(now - then).seconds`: whole seconds of the difference with full days taken out. */
  function ElapsedSeconds(now: Time, since: Time): int {
    ((now - since) / MICROS) % SECONDS_IN_A_DAY
  }

  /** What syncing one load balancer came to. */
  datatype SyncResult = Synced(pending: bool) | NeutronError | OtherError

  /** A load balancer that the plugin listed as pending, with the outcome of its refresh. */
  datatype Polled = Polled(id: Id, result: SyncResult)

  datatype Record = Record(pending: map<Id, Time>, needsResync: bool)

  predicate Raises(p: Polled) {
    p.result == Synced(true) || p.result == OtherError
  }

  /** One round of the loop over pending load balancers. */
  function Poll(r: Record, p: Polled, now: Time, timeout: int): Record {
    if !(r.needsResync || Raises(p)) then r.(pending := r.pending - {p.id})
    else
      var since := if p.id in r.pending then r.pending[p.id] else now;
      Record(if ElapsedSeconds(now, since) > timeout then r.pending - {p.id} else r.pending[p.id := since], true)
  }

  function PollAll(r: Record, polled: seq<Polled>, now: Time, timeout: int): Record {
    if polled == [] then r
    else Poll(PollAll(r, polled[..|polled| - 1], now, timeout), polled[|polled| - 1], now, timeout)
  }

  // ----- One pass

  ghost predicate DistinctPolls(polled: seq<Polled>) {
    forall i, j :: 0 <= i < j < |polled| ==> polled[i].id != polled[j].id
  }

  /** The refresh left the load balancer pending, or failed otherwise than in Neutron. */
  ghost predicate Unsettled(p: Polled) {
    p.result == Synced(true) || p.result == OtherError
  }

  /** The refresh of `polled[i]` came back as pending. */
  ghost predicate FoundPending(flag: bool, polled: seq<Polled>, i: nat) {
    i < |polled| && (flag || exists j :: 0 <= j <= i && Unsettled(polled[j]))
  }

  /** Seconds of an age in microseconds, without its whole days. */
  ghost function SecondsBelowADay(age: int): int {
    age / 1_000_000 % 86_400
  }

  lemma {:induction false} FlagAfter(r: Record, polled: seq<Polled>, now: Time, timeout: int)
    ensures PollAll(r, polled, now, timeout).needsResync ==
            (r.needsResync || exists j :: 0 <= j < |polled| && Unsettled(polled[j]))
  {
    if polled != [] {
      var n := |polled| - 1;
      FlagAfter(r, polled[..n], now, timeout);
      assert forall j :: 0 <= j < n ==> polled[..n][j] == polled[j];
    }
  }

  /** A pass leaves load balancers that it does not poll alone. */
  lemma {:induction false} Untouched(r: Record, polled: seq<Polled>, now: Time, timeout: int, id: Id)
    requires forall i :: 0 <= i < |polled| ==> polled[i].id != id
    ensures var r' := PollAll(r, polled, now, timeout);
            (id in r'.pending <==> id in r.pending) && (id in r.pending ==> r'.pending[id] == r.pending[id])
  {
    if polled != [] {
      Untouched(r, polled[..|polled| - 1], now, timeout, id);
    }
  }

  /** How one pass treats a polled load balancer.  The flag is shared, so it counts as pending
      as soon as one polled before it in the same pass was. */
  lemma {:induction false} PassEffect(r: Record, polled: seq<Polled>, now: Time, timeout: int, i: nat)
    requires DistinctPolls(polled) && i < |polled|
    ensures var r', id := PollAll(r, polled, now, timeout), polled[i].id;
            var since := if id in r.pending then r.pending[id] else now;
            && (id in r'.pending <==>
                FoundPending(r.needsResync, polled, i) && SecondsBelowADay(now - since) <= timeout)
            && (id in r'.pending ==> r'.pending[id] == since)
    decreases |polled|
  {
    var n := |polled| - 1;
    var before := polled[..n];
    if i < n {
      PassEffect(r, before, now, timeout, i);
      assert FoundPending(r.needsResync, before, i) <==> FoundPending(r.needsResync, polled, i);
    } else {
      Untouched(r, before, now, timeout, polled[n].id);
      FlagAfter(r, before, now, timeout);
      assert forall j :: 0 <= j < n ==> before[j] == polled[j];
      assert FoundPending(r.needsResync, polled, n) <==>
        PollAll(r, before, now, timeout).needsResync || Unsettled(polled[n]);
    }
  }

  /** The pass gives up on `polled[i]`, and reports its service as timed out. */
  ghost predicate TimesOut(r: Record, polled: seq<Polled>, now: Time, timeout: int, i: nat)
    requires i < |polled|
  {
    var since := if polled[i].id in r.pending then r.pending[polled[i].id] else now;
    FoundPending(r.needsResync, polled, i) && SecondsBelowADay(now - since) > timeout
  }

  /** A refresh from this record gives up on the load balancer. */
  ghost predicate Expires(r: Record, p: Polled, now: Time, timeout: int) {
    var since := if p.id in r.pending then r.pending[p.id] else now;
    (r.needsResync || Unsettled(p)) && SecondsBelowADay(now - since) > timeout
  }

  /** The record that a round of the loop finds for its own load balancer. */
  lemma RoundStart(r: Record, polled: seq<Polled>, now: Time, timeout: int, k: nat)
    requires DistinctPolls(polled) && k < |polled|
    ensures var s, id := PollAll(r, polled[..k], now, timeout), polled[k].id;
            && (id in s.pending <==> id in r.pending) && (id in r.pending ==> s.pending[id] == r.pending[id])
            && (TimesOut(r, polled, now, timeout, k) <==> Expires(s, polled[k], now, timeout))
  {
    Untouched(r, polled[..k], now, timeout, polled[k].id);
    FlagAfter(r, polled[..k], now, timeout);
    assert forall j :: 0 <= j < k ==> polled[..k][j] == polled[j];
  }

  class LbaasAgentManager {
    const timeout: int
    var pendingServices: map<Id, Time>
    var needsResync: bool

    constructor (timeout: int)
      ensures this.timeout == timeout && Now() == Record(map[], false)
    {
      this.timeout := timeout;
      pendingServices, needsResync := map[], false;
    }

    function Now(): Record
      reads this
    {
      Record(pendingServices, needsResync)
    }

    /** Reports the flag that asks for a resync, which stays set once it was raised. */
    method RefreshService(p: Polled) returns (pending: bool)
      modifies this`needsResync
      ensures pending == needsResync == (old(needsResync) || p.result == Synced(true) || p.result == OtherError)
    {
      match p.result {
        case Synced(lbPending) =>
          if lbPending {
            needsResync := true;
          }
        case NeutronError =>
        case OtherError =>
          needsResync := true;
      }
      return needsResync;
    }

    /** One round of the loop: refresh, record, and drop what expired or is done. */
    method RefreshPending(now: Time, p: Polled) returns (expired: bool)
      modifies this
      ensures Now() == Poll(old(Now()), p, now, timeout)
      ensures expired <==> Expires(old(Now()), p, now, timeout)
    {
      expired := false;
      var lbPending := RefreshService(p);
      if lbPending {
        if p.id !in pendingServices {
          pendingServices := pendingServices[p.id := now];
        }
        var timeAdded := pendingServices[p.id];
        expired := ElapsedSeconds(now, timeAdded) > timeout;
        if expired {
          lbPending := false;
        }
      }
      if !lbPending && p.id in pendingServices {
        pendingServices := pendingServices - {p.id};
      }
    }

    method RefreshPendingServices(now: Time, polled: seq<Polled>) returns (resync: bool, timedOut: seq<Id>)
      requires DistinctPolls(polled)
      modifies this
      ensures Now() == PollAll(old(Now()), polled, now, timeout)
      ensures resync <==> pendingServices != map[]
      ensures forall i :: 0 <= i < |polled| ==>
                (polled[i].id in timedOut <==> TimesOut(old(Now()), polled, now, timeout, i))
    {
      resync, timedOut := false, [];
      ghost var before := Now();
      for k := 0 to |polled|
        invariant Now() == PollAll(before, polled[..k], now, timeout)
        invariant forall i :: 0 <= i < k ==>
                    (polled[i].id in timedOut <==> TimesOut(before, polled, now, timeout, i))
        invariant forall i :: k <= i < |polled| ==> polled[i].id !in timedOut
      {
        assert polled[..k + 1][..k] == polled[..k];
        RoundStart(before, polled, now, timeout, k);
        var expired := RefreshPending(now, polled[k]);
        if expired {
          timedOut := timedOut + [polled[k].id];
        }
      }
      assert polled[..|polled|] == polled;
      if |pendingServices| > 0 {
        resync := true;
      }
    }
  }

  /** A polled load balancer stays recorded beyond the timeout exactly when it was found
      pending and whole days hide its age from `.seconds`. */
  lemma OverstaysByWholeDays(r: Record, polled: seq<Polled>, now: Time, timeout: int, i: nat)
    requires DistinctPolls(polled) && i < |polled| && polled[i].id in r.pending
    ensures var r', id := PollAll(r, polled, now, timeout), polled[i].id;
            var age := (now - r.pending[id]) / 1_000_000;
            (id in r'.pending && age > timeout) <==>
            (FoundPending(r.needsResync, polled, i) && age > timeout && age % 86_400 <= timeout)
  {
    PassEffect(r, polled, now, timeout, i);
  }

  /** Below one day of age, none of the polled load balancers is kept past the timeout. */
  lemma NoneOverstays(r: Record, polled: seq<Polled>, now: Time, timeout: int, i: nat)
    requires DistinctPolls(polled) && i < |polled| && timeout >= 0
    requires polled[i].id in r.pending ==> 0 <= (now - r.pending[polled[i].id]) / 1_000_000 < 86_400
    ensures var r', id := PollAll(r, polled, now, timeout), polled[i].id;
            id in r'.pending ==> (now - r'.pending[id]) / 1_000_000 <= timeout
  {
    PassEffect(r, polled, now, timeout, i);
  }

  // ----- Runs of passes

  /** `flag` is the resync flag when the pass begins; the periodic task resets it. */
  datatype Pass = Pass(now: Time, flag: bool, polled: seq<Polled>)

  ghost predicate PassRun(passes: seq<Pass>, recorded: seq<map<Id, Time>>, timeout: int) {
    && |recorded| == |passes| + 1 && recorded[0] == map[]
    && forall k :: 0 <= k < |passes| ==>
         && DistinctPolls(passes[k].polled)
         && recorded[k + 1] == PollAll(Record(recorded[k], passes[k].flag), passes[k].polled, passes[k].now,
                                       timeout).pending
  }

  ghost predicate PolledIn(p: Pass, id: Id) {
    exists i :: 0 <= i < |p.polled| && p.polled[i].id == id
  }

  /** In pass `k` the load balancer was found pending while it was not recorded. */
  ghost predicate FirstFound(passes: seq<Pass>, recorded: seq<map<Id, Time>>, k: nat, id: Id) {
    && k < |passes| && k < |recorded| && id !in recorded[k]
    && exists i: nat :: FoundPending(passes[k].flag, passes[k].polled, i) && passes[k].polled[i].id == id
  }

  lemma PassEntry(p: Pass, before: map<Id, Time>, timeout: int, id: Id)
    requires DistinctPolls(p.polled)
    ensures var after := PollAll(Record(before, p.flag), p.polled, p.now, timeout).pending;
            && (id in after && id in before ==> after[id] == before[id])
            && (id in before && !PolledIn(p, id) ==> id in after)
    ensures var after := PollAll(Record(before, p.flag), p.polled, p.now, timeout).pending;
            id in after && id !in before ==>
              after[id] == p.now && exists i: nat :: FoundPending(p.flag, p.polled, i) && p.polled[i].id == id
  {
    if i :| 0 <= i < |p.polled| && p.polled[i].id == id {
      PassEffect(Record(before, p.flag), p.polled, p.now, timeout, i);
      assert FoundPending(p.flag, p.polled, i) ==> p.polled[i].id == id;
    } else {
      Untouched(Record(before, p.flag), p.polled, p.now, timeout, id);
    }
  }

  /** The recorded time is that of the pass in which the load balancer was first found
      pending since it was last dropped; from that pass on it has been recorded throughout. */
  lemma {:induction false} RecordedSinceFirstFound(passes: seq<Pass>, recorded: seq<map<Id, Time>>, timeout: int,
                                                   n: nat, id: Id) returns (k: nat)
    requires PassRun(passes, recorded, timeout) && n < |recorded| && id in recorded[n]
    ensures k < n && FirstFound(passes, recorded, k, id) && recorded[n][id] == passes[k].now
    ensures forall m :: k < m <= n ==> id in recorded[m] && recorded[m][id] == passes[k].now
    decreases n
  {
    PassEntry(passes[n - 1], recorded[n - 1], timeout, id);
    if id in recorded[n - 1] {
      k := RecordedSinceFirstFound(passes, recorded, timeout, n - 1, id);
    } else {
      k := n - 1;
    }
  }

  /** Two passes a day apart reach a load balancer kept past its timeout. */
  lemma OverstayIsReached(id: Id, timeout: int) returns (passes: seq<Pass>, recorded: seq<map<Id, Time>>)
    requires 0 <= timeout < 86_400
    ensures PassRun(passes, recorded, timeout) && |passes| == 2
    ensures id in recorded[2] && (passes[1].now - recorded[2][id]) / 1_000_000 > timeout
  {
    var polled, empty: map<Id, Time> := [Polled(id, Synced(true))], map[];
    passes := [Pass(0, false, polled), Pass(SECONDS_IN_A_DAY * MICROS, false, polled)];
    recorded := [empty, map[id := 0], map[id := 0]];
    assert polled[..0] == [];
    assert PollAll(Record(empty, false), [], 0, timeout) == Record(empty, false);
    assert PollAll(Record(recorded[1], false), [], passes[1].now, timeout) == Record(recorded[1], false);
  }

  /** A recorded load balancer that the plugin stops listing is never dropped again, so every
      later pass asks for a resync. */
  lemma {:induction false} UnlistedIsNeverDropped(passes: seq<Pass>, recorded: seq<map<Id, Time>>, timeout: int,
                                                  k: nat, n: nat, id: Id)
    requires PassRun(passes, recorded, timeout) && k <= n < |recorded| && id in recorded[k]
    requires forall m :: k <= m < n ==> !PolledIn(passes[m], id)
    ensures id in recorded[n] && recorded[n] != map[] && recorded[n][id] == recorded[k][id]
    decreases n
  {
    if k < n {
      UnlistedIsNeverDropped(passes, recorded, timeout, k, n - 1, id);
      PassEntry(passes[n - 1], recorded[n - 1], timeout, id);
    }
  }
}
