/**
 * The counting semaphore in front of host-side reads, as a transition system: arrivals
 * and settlements interleave freely, the code between two awaits is one step.
 */
module ReadLimiter {
  import opened Wrappers

  /** The object's own fields; a waiter is known by its ticket, its place in arrival order. */
  datatype Slots = Slots(limit: int, active: int, peak: int, waiting: seq<nat>)

  function Occupy(s: Slots): Slots {
    s.(active := s.active + 1, peak := if s.active + 1 > s.peak then s.active + 1 else s.peak)
  }

  /** `admit`: the new slots, and whether the caller got one at once. */
  function Admit(s: Slots, ticket: nat): (Slots, bool) {
    if s.active < s.limit then (Occupy(s), true) else (s.(waiting := s.waiting + [ticket]), false)
  }

  /** `release`: the new slots, and the waiter the slot was handed to. */
  function Release(s: Slots): (Slots, Option<nat>) {
    var lower := s.(active := s.active - 1);
    if s.waiting == [] then (lower, None)
    else (Occupy(lower.(waiting := s.waiting[1..])), Some(s.waiting[0]))
  }

  class DataReadLimiter {
    const limit: int
    var active: int
    var peak: int
    var waiting: seq<nat>

    ghost function State(): Slots
      reads this
    {
      Slots(limit, active, peak, waiting)
    }

    constructor (limit: int)
      requires limit >= 1
      ensures State() == Slots(limit, 0, 0, [])
    {
      this.limit := limit;
      active, peak, waiting := 0, 0, [];
    }

    /** The source's constructor with its throw: an unbounded or zero-width limiter is refused. */
    static method Open(limit: int) returns (limiter: DataReadLimiter?)
      ensures limiter == null <==> limit < 1
      ensures limiter != null ==> fresh(limiter) && limiter.State() == Slots(limit, 0, 0, [])
    {
      if limit < 1 {
        limiter := null;
      } else {
        limiter := new DataReadLimiter(limit);
      }
    }

    method TakeSlot()
      modifies this`active, this`peak
      ensures State() == Occupy(old(State()))
    {
      active := active + 1;
      if active > peak {
        peak := active;
      }
    }

    method Arrive(ticket: nat) returns (granted: bool)
      modifies this
      ensures (State(), granted) == Admit(old(State()), ticket)
    {
      if active < limit {
        TakeSlot();
        return true;
      }
      waiting := waiting + [ticket];
      return false;
    }

    /** The `finally` of `run`: reached by a body that returned and by one that threw. */
    method Settle() returns (next: Option<nat>)
      modifies this
      ensures (State(), next) == Release(old(State()))
    {
      active := active - 1;
      if waiting == [] {
        return None;
      }
      next := Some(waiting[0]);
      waiting := waiting[1..];
      TakeSlot();
    }
  }

  // ----------------------------------------------------------- all interleavings

  datatype Event = Arrival | Settlement(ticket: nat, threw: bool)

  /** The slots with the history the claims are about. */
  datatype System = System(slots: Slots, arrived: nat, granted: seq<nat>, settled: map<nat, bool>)

  function Init(limit: int): System {
    System(Slots(limit, 0, 0, []), 0, [], map[])
  }

  /** Tickets that hold a slot: granted and not yet settled. */
  function Holders(s: System): set<nat> {
    set t | t in s.granted && t !in s.settled
  }

  predicate Enabled(s: System, e: Event) {
    e.Settlement? ==> e.ticket in Holders(s)
  }

  function Step(s: System, e: Event): System {
    match e
    case Arrival =>
      var (slots, got) := Admit(s.slots, s.arrived);
      System(slots, s.arrived + 1, if got then s.granted + [s.arrived] else s.granted, s.settled)
    case Settlement(t, threw) =>
      var (slots, next) := Release(s.slots);
      System(slots, s.arrived, if next.Some? then s.granted + [next.value] else s.granted, s.settled[t := threw])
  }

  ghost predicate EnabledRun(s: System, events: seq<Event>)
    decreases |events|
  {
    events == [] || (Enabled(s, events[0]) && EnabledRun(Step(s, events[0]), events[1..]))
  }

  function Run(s: System, events: seq<Event>): System
    decreases |events|
  {
    if events == [] then s else Run(Step(s, events[0]), events[1..])
  }

  /** The largest number of holders any state of the run has. */
  function MostHolders(s: System, events: seq<Event>): nat
    decreases |events|
  {
    if events == [] then |Holders(s)|
    else
      var later := MostHolders(Step(s, events[0]), events[1..]);
      if |Holders(s)| > later then |Holders(s)| else later
  }

  /**
   * What every reachable state satisfies: slots are counted by their holders and bounded,
   * grants follow arrival order with the queue holding exactly the rest, and a queue forms
   * only in front of a full limiter.
   */
  ghost predicate Inv(s: System) {
    && s.slots.limit >= 1
    && s.slots.active == |Holders(s)| <= s.slots.limit
    && s.slots.active <= s.slots.peak
    && |s.granted| <= s.arrived
    && (forall i :: 0 <= i < |s.granted| ==> s.granted[i] == i)
    && |s.slots.waiting| == s.arrived - |s.granted|
    && (forall i :: 0 <= i < |s.slots.waiting| ==> s.slots.waiting[i] == |s.granted| + i)
    && (forall t :: t in s.settled ==> t in s.granted)
    && (s.slots.waiting != [] ==> s.slots.active == s.slots.limit)
  }

  lemma GrantAddsHolder(s: System, next: System, t: nat)
    requires t !in s.granted && t !in s.settled
    requires next.granted == s.granted + [t] && next.settled == s.settled
    ensures |Holders(next)| == |Holders(s)| + 1
  {
    assert Holders(next) == Holders(s) + {t};
  }

  lemma SettleDropsHolder(s: System, next: System, t: nat, threw: bool)
    requires t in Holders(s)
    requires next.granted == s.granted && next.settled == s.settled[t := threw]
    ensures |Holders(next)| == |Holders(s)| - 1
  {
    assert Holders(next) == Holders(s) - {t};
  }

  lemma StepKeepsInv(s: System, e: Event)
    requires Inv(s) && Enabled(s, e)
    ensures Inv(Step(s, e))
    ensures Step(s, e).slots.peak == if |Holders(Step(s, e))| > s.slots.peak then |Holders(Step(s, e))| else s.slots.peak
  {
    var next := Step(s, e);
    match e
    case Arrival =>
      if s.slots.active < s.slots.limit {
        GrantAddsHolder(s, next, s.arrived);
      }
    case Settlement(t, threw) =>
      var dropped := s.(settled := s.settled[t := threw]);
      SettleDropsHolder(s, dropped, t, threw);
      if s.slots.waiting != [] {
        GrantAddsHolder(dropped, next, s.slots.waiting[0]);
      }
  }

  /**
   * Over every interleaving of arrivals and settlements, successful or not: the invariant
   * holds in the end and the reported peak is the true maximum of simultaneous holders.
   */
  lemma {:induction false} EveryRunKeepsInv(s: System, events: seq<Event>)
    requires Inv(s) && EnabledRun(s, events)
    ensures Inv(Run(s, events))
    ensures var most := MostHolders(s, events);
            Run(s, events).slots.peak == if most > s.slots.peak then most else s.slots.peak
    decreases |events|
  {
    if events != [] {
      StepKeepsInv(s, events[0]);
      EveryRunKeepsInv(Step(s, events[0]), events[1..]);
    }
  }

  lemma FreshLimiterRuns(limit: int, events: seq<Event>)
    requires limit >= 1 && EnabledRun(Init(limit), events)
    ensures Inv(Run(Init(limit), events))
    ensures Run(Init(limit), events).slots.peak == MostHolders(Init(limit), events) <= limit
  {
    assert Holders(Init(limit)) == {};
    EveryRunKeepsInv(Init(limit), events);
    MostIsBounded(Init(limit), events);
  }

  lemma {:induction false} MostIsBounded(s: System, events: seq<Event>)
    requires Inv(s) && EnabledRun(s, events)
    ensures MostHolders(s, events) <= s.slots.limit
    decreases |events|
  {
    if events != [] {
      StepKeepsInv(s, events[0]);
      MostIsBounded(Step(s, events[0]), events[1..]);
    }
  }

  /** A newcomer is never granted a slot while anybody waits, so it cannot overtake. */
  lemma NewcomerNeverOvertakes(s: System)
    requires Inv(s)
    ensures Step(s, Arrival).granted != s.granted ==> s.slots.waiting == [] && Step(s, Arrival).granted == s.granted + [s.arrived]
    ensures s.slots.waiting != [] ==> Step(s, Arrival).slots.waiting == s.slots.waiting + [s.arrived]
  {
  }

  /**
   * No slot leaks: with no holder left nobody waits, everybody who arrived was granted and
   * settled, and the limiter is as wide as when it was built.
   */
  lemma IdleMeansAllSettled(s: System)
    requires Inv(s) && Holders(s) == {}
    ensures s.slots.active == 0 && s.slots.waiting == []
    ensures forall t :: 0 <= t < s.arrived ==> t in s.settled
  {
    forall t | 0 <= t < s.arrived
      ensures t in s.settled
    {
      assert s.granted[t] == t && t !in Holders(s);
    }
  }

  /** Settling a holder serves the longest waiter at once, and only it. */
  lemma SettlementServesTheHead(s: System, t: nat, threw: bool)
    requires Inv(s) && t in Holders(s)
    ensures var next := Step(s, Settlement(t, threw));
            if s.slots.waiting == [] then Holders(next) == Holders(s) - {t} && next.slots.active == s.slots.active - 1
            else Holders(next) == Holders(s) - {t} + {|s.granted|} && next.slots.active == s.slots.active == s.slots.limit
  {
    StepKeepsInv(s, Settlement(t, threw));
    if s.slots.waiting != [] {
      assert s.slots.waiting[0] == |s.granted|;
    }
  }
}
