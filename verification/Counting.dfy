/**
 * The admission states of a run's tasks, the counts a run is reported by, the reason stated for
 * a deficit, and the predicate that gates new work.  Money is exact rather than floating point.
 */
module Counting {
  import opened Wrappers
  import opened Capacity

  datatype AdmissionState =
    | Prepared | Launching | Accepted | Executing | Settling | Completed | Confirmed
    | CancelRequested | Cancelled | Unknown

  const SLOT_HOLDING_STATES := {Prepared, Launching, Accepted, Executing, Settling, CancelRequested, Unknown}

  predicate HoldsSlot(state: AdmissionState) { state in SLOT_HOLDING_STATES }

  function Transitions(from: AdmissionState): set<AdmissionState> {
    match from
    case Prepared => {Launching, CancelRequested, Unknown}
    case Launching => {Accepted, Prepared, Unknown, CancelRequested}
    case Accepted => {Executing, Settling, Completed, CancelRequested, Unknown}
    case Executing => {Settling, Completed, CancelRequested, Unknown}
    case Settling => {Completed, Confirmed, Unknown, CancelRequested}
    case Completed => {Confirmed, Unknown, Cancelled}
    case Confirmed => {}
    case CancelRequested => {Cancelled, Unknown}
    case Cancelled => {}
    case Unknown => {Accepted, Executing, Settling, Completed, Confirmed, Cancelled, CancelRequested}
  }

  predicate CanTransition(from: AdmissionState, to: AdmissionState) { to in Transitions(from) }

  /**
   * The table read the other way, state by state entered: work is prepared again only by a launch
   * that failed, nothing leaves a confirmed or cancelled task, a settled outcome is never run
   * again unless it is in doubt, and every other state may fall into doubt.
   */
  lemma EnteredExactlyFrom(from: AdmissionState)
    ensures CanTransition(from, Prepared) <==> from == Launching
    ensures CanTransition(from, Launching) <==> from == Prepared
    ensures CanTransition(from, Accepted) <==> from in {Launching, Unknown}
    ensures CanTransition(from, Executing) <==> from in {Accepted, Unknown}
    ensures CanTransition(from, Settling) <==> from in {Accepted, Executing, Unknown}
    ensures CanTransition(from, Completed) <==> from in {Accepted, Executing, Settling, Unknown}
    ensures CanTransition(from, Confirmed) <==> from in {Settling, Completed, Unknown}
    ensures CanTransition(from, Cancelled) <==> from in {Completed, CancelRequested, Unknown}
    ensures CanTransition(from, CancelRequested) <==> from in {Prepared, Launching, Accepted, Executing, Settling, Unknown}
    ensures CanTransition(from, Unknown) <==> from !in {Confirmed, Cancelled, Unknown}
  {
  }

  datatype Budget = Budget(
    spent: real,
    reserved: real,
    unknownReserved: real,
    ceiling: real,
    rootReserve: Option<real>,
    overage: Option<real>,
    halted: bool)

  datatype Task = Task(state: AdmissionState, childId: string, reservedCost: real, attempt: nat)

  datatype RunPhase = Open | NotOpen

  datatype RunRecord = RunRecord(
    phase: RunPhase,
    requestedTarget: int,
    tasks: map<string, Task>,
    budget: Budget,
    tombstones: set<string>,
    generation: nat)

  // ---------------------------------------------------------------------------- money

  function MaxReal(a: real, b: real): real { if a < b then b else a }

  function MinReal(a: real, b: real): real { if a < b then a else b }

  /** What children may commit in total: the ceiling less the root's reserve. */
  function ChildCeiling(b: Budget): real {
    MaxReal(0.0, b.ceiling - (if b.rootReserve.Some? then b.rootReserve.value else 0.0))
  }

  function ChildCommitted(b: Budget): real { b.spent + b.reserved + b.unknownReserved }

  function ApplySpend(b: Budget, reservationReleased: real, reservationCovering: real, actualCost: real): Budget {
    var released := MinReal(b.reserved, MaxReal(0.0, reservationReleased));
    var overageAdd := MaxReal(0.0, actualCost - MaxReal(0.0, reservationCovering));
    b.(reserved := b.reserved - released, spent := b.spent + actualCost,
       overage := Some((if b.overage.Some? then b.overage.value else 0.0) + overageAdd),
       halted := b.halted || overageAdd != 0.0)
  }

  function RetainAsUnknown(b: Budget, amount: real): Budget {
    var moved := MinReal(b.reserved, MaxReal(0.0, amount));
    b.(reserved := b.reserved - moved, unknownReserved := b.unknownReserved + moved)
  }

  function HoldUnknown(b: Budget, amount: real): Budget {
    b.(unknownReserved := b.unknownReserved + MaxReal(0.0, amount))
  }

  predicate NonNegative(b: Budget) {
    b.spent >= 0.0 && b.reserved >= 0.0 && b.unknownReserved >= 0.0
  }

  /**
   * Conservation: a spend is recorded in full and moves the commitment by what was spent less
   * what was released; it raises the commitment only as far as it was not covered by a release;
   * an actual above its covering estimate halts, and nothing un-halts.
   */
  lemma SpendIsConserved(b: Budget, released: real, covering: real, actual: real)
    requires NonNegative(b) && actual >= 0.0
    ensures var after := ApplySpend(b, released, covering, actual);
            && NonNegative(after) && after.spent == b.spent + actual
            && ChildCommitted(after) == ChildCommitted(b) + actual - (b.reserved - after.reserved)
            && 0.0 <= b.reserved - after.reserved <= MaxReal(0.0, released)
            && (after.halted <==> b.halted || (actual > covering && actual > 0.0))
            && after.overage.Some?
            && after.overage.value - (if b.overage.Some? then b.overage.value else 0.0)
                 == (if actual <= covering then 0.0 else if covering > 0.0 then actual - covering else actual)
            && (released <= b.reserved ==> b.reserved - after.reserved == MaxReal(0.0, released))
            && (released > b.reserved ==> after.reserved == 0.0)
            && after.unknownReserved == b.unknownReserved && after.ceiling == b.ceiling && after.rootReserve == b.rootReserve
  {
  }

  /** Not learning a usage keeps the commitment; holding one that was never reserved raises it by the amount. */
  lemma UnknownIsConserved(b: Budget, amount: real)
    requires NonNegative(b)
    ensures ChildCommitted(RetainAsUnknown(b, amount)) == ChildCommitted(b) && NonNegative(RetainAsUnknown(b, amount))
    ensures var after := RetainAsUnknown(b, amount);
            && after == b.(reserved := after.reserved, unknownReserved := b.unknownReserved + (b.reserved - after.reserved))
            && after.reserved == (if amount <= 0.0 then b.reserved else if amount < b.reserved then b.reserved - amount else 0.0)
    ensures HoldUnknown(b, amount)
         == b.(unknownReserved := if amount > 0.0 then b.unknownReserved + amount else b.unknownReserved)
  {
  }

  // --------------------------------------------------------------------------- counting

  datatype TaskLiveness = TaskLiveness(startedRealWork: bool, waitingOnOwnedTool: bool, providerWaiting: bool)

  datatype DeficitReason =
    | NoDeficit | TargetExceeded | InsufficientReadyTasks | SlotsHeldByUnconfirmed
    | BudgetBlocked | BudgetOverageHalt | HostCapacityIsReached | RunNotOpen

  /** The ten counters of the loop over the tasks. */
  datatype TaskCounts = TaskCounts(
    durablyAdmitted: nat,
    launching: nat,
    activeAssignments: nat,
    waitingOwnedTool: nat,
    providerWaiting: nat,
    stopping: nat,
    quarantinedUnknown: nat,
    completed: nat,
    confirmed: nat,
    cancelled: nat)

  datatype Counts = Counts(
    desiredTarget: int,
    readyTasks: int,
    tasks: TaskCounts,
    heldReservations: nat,
    capacityDeficit: int,
    targetOvershoot: int,
    deficitReason: DeficitReason)

  function InStates(tasks: map<string, Task>, states: set<AdmissionState>): set<string> {
    set id | id in tasks && tasks[id].state in states
  }

  function Held(tasks: map<string, Task>): set<string> { InStates(tasks, SLOT_HOLDING_STATES) }

  /** Executing tasks whose child was observed to have started real work. */
  function Active(tasks: map<string, Task>, liveness: map<string, TaskLiveness>): set<string> {
    set id | id in tasks && tasks[id].state == Executing && id in liveness && liveness[id].startedRealWork
  }

  function MaxInt(a: int, b: int): int { if a < b then b else a }

  method HeldSlots(record: RunRecord) returns (held: nat)
    ensures held == |Held(record.tasks)|
  {
    held := 0;
    var remaining := record.tasks.Keys;
    ghost var holding := Held(record.tasks);
    CountNone(holding);
    while remaining != {}
      invariant remaining <= record.tasks.Keys
      invariant held == CountIn(holding, record.tasks.Keys - remaining)
      decreases remaining
    {
      var id :| id in remaining;
      CountNext(holding, record.tasks.Keys, remaining, id);
      if HoldsSlot(record.tasks[id].state) {
        held := held + 1;
      }
      remaining := remaining - {id};
    }
    CountAll(holding, record.tasks.Keys - remaining);
  }

  /** The counters a run is reported by, occupancy aside. */
  datatype Counter =
    | OnBooks | InLaunch | Working | OnOwnTool | AtProvider | Stops | InDoubt | Done | Judged | Withdrawn

  /** The tasks a counter counts. */
  function Members(t: map<string, Task>, liveness: map<string, TaskLiveness>, c: Counter): set<string> {
    match c
    case OnBooks => t.Keys - InStates(t, {Cancelled, Confirmed})
    case InLaunch => InStates(t, {Launching})
    case Working => Active(t, liveness)
    case OnOwnTool => set id | id in Active(t, liveness) && liveness[id].waitingOnOwnedTool
    case AtProvider => set id | id in Active(t, liveness) && liveness[id].providerWaiting
    case Stops => InStates(t, {CancelRequested})
    case InDoubt => InStates(t, {Unknown})
    case Done => InStates(t, {Completed})
    case Judged => InStates(t, {Confirmed})
    case Withdrawn => InStates(t, {Cancelled})
  }

  /** Every quantity reported is the number of tasks it names, and deficit and overshoot are clamped differences. */
  ghost predicate CountsAre(record: RunRecord, liveness: map<string, TaskLiveness>, readyTasks: int, counts: Counts) {
    && (forall c :: Read(counts.tasks, c) == |Members(record.tasks, liveness, c)|)
    && counts.heldReservations == |Held(record.tasks)|
    && counts.desiredTarget == record.requestedTarget && counts.readyTasks == readyTasks
    && counts.capacityDeficit == MaxInt(0, record.requestedTarget - |Held(record.tasks)|)
    && counts.targetOvershoot == MaxInt(0, |Held(record.tasks)| - record.requestedTarget)
    && counts.deficitReason == ExplainDeficit(record, counts.capacityDeficit, readyTasks, 0.0)
  }

  /** One task's contribution to the counters. */
  function Counted(p: TaskCounts, state: AdmissionState, live: Option<TaskLiveness>): TaskCounts {
    var q := if state != Cancelled && state != Confirmed then p.(durablyAdmitted := p.durablyAdmitted + 1) else p;
    match state
    case Launching => q.(launching := q.launching + 1)
    case Executing =>
      if live.Some? && live.value.startedRealWork
      then q.(activeAssignments := q.activeAssignments + 1,
              waitingOwnedTool := if live.value.waitingOnOwnedTool then q.waitingOwnedTool + 1 else q.waitingOwnedTool,
              providerWaiting := if live.value.providerWaiting then q.providerWaiting + 1 else q.providerWaiting)
      else q
    case CancelRequested => q.(stopping := q.stopping + 1)
    case Unknown => q.(quarantinedUnknown := q.quarantinedUnknown + 1)
    case Completed => q.(completed := q.completed + 1)
    case Confirmed => q.(confirmed := q.confirmed + 1)
    case Cancelled => q.(cancelled := q.cancelled + 1)
    case _ => q
  }

  function LivenessOf(liveness: map<string, TaskLiveness>, id: string): Option<TaskLiveness> {
    if id in liveness then Some(liveness[id]) else None
  }

  method CountRun(record: RunRecord, liveness: map<string, TaskLiveness>, readyTasks: int) returns (counts: Counts)
    ensures CountsAre(record, liveness, readyTasks, counts)
  {
    var held := HeldSlots(record);
    var t := record.tasks;
    var p := TaskCounts(0, 0, 0, 0, 0, 0, 0, 0, 0, 0);
    var remaining := t.Keys;
    forall c ensures Read(p, c) == CountIn(Members(t, liveness, c), t.Keys - t.Keys) {
      CountNone(Members(t, liveness, c));
    }
    while remaining != {}
      invariant remaining <= t.Keys && Tallied(t, liveness, t.Keys - remaining, p)
      decreases remaining
    {
      var id :| id in remaining;
      TallyNext(t, liveness, remaining, p, id);
      p := Counted(p, t[id].state, LivenessOf(liveness, id));
      remaining := remaining - {id};
    }
    assert t.Keys - remaining == t.Keys;
    TallyAll(t, liveness, p);
    var deficit := MaxInt(0, record.requestedTarget - held);
    var overshoot := MaxInt(0, held - record.requestedTarget);
    counts := Counts(record.requestedTarget, readyTasks, p, held, deficit, overshoot,
                     ExplainDeficit(record, deficit, readyTasks, 0.0));
  }

  function Read(p: TaskCounts, c: Counter): nat {
    match c
    case OnBooks => p.durablyAdmitted
    case InLaunch => p.launching
    case Working => p.activeAssignments
    case OnOwnTool => p.waitingOwnedTool
    case AtProvider => p.providerWaiting
    case Stops => p.stopping
    case InDoubt => p.quarantinedUnknown
    case Done => p.completed
    case Judged => p.confirmed
    case Withdrawn => p.cancelled
  }

  /** Each counter has counted exactly its members among the tasks visited. */
  ghost predicate Tallied(t: map<string, Task>, liveness: map<string, TaskLiveness>, done: set<string>, p: TaskCounts) {
    forall c :: Read(p, c) == CountIn(Members(t, liveness, c), done)
  }

  lemma CountedAdds(t: map<string, Task>, liveness: map<string, TaskLiveness>, p: TaskCounts, id: string, c: Counter)
    requires id in t
    ensures Read(Counted(p, t[id].state, LivenessOf(liveness, id)), c) == Read(p, c) + One(id in Members(t, liveness, c))
  {
  }

  lemma TallyNext(t: map<string, Task>, liveness: map<string, TaskLiveness>, remaining: set<string>, p: TaskCounts, id: string)
    requires id in remaining && remaining <= t.Keys && Tallied(t, liveness, t.Keys - remaining, p)
    ensures Tallied(t, liveness, t.Keys - (remaining - {id}), Counted(p, t[id].state, LivenessOf(liveness, id)))
  {
    var next := Counted(p, t[id].state, LivenessOf(liveness, id));
    forall c ensures Read(next, c) == CountIn(Members(t, liveness, c), t.Keys - (remaining - {id})) {
      CountedAdds(t, liveness, p, id, c);
      CountNext(Members(t, liveness, c), t.Keys, remaining, id);
    }
  }

  lemma MembersAreTasks(t: map<string, Task>, liveness: map<string, TaskLiveness>, c: Counter)
    ensures Members(t, liveness, c) <= t.Keys
  {
  }

  lemma TallyAll(t: map<string, Task>, liveness: map<string, TaskLiveness>, p: TaskCounts)
    requires Tallied(t, liveness, t.Keys, p)
    ensures forall c :: Read(p, c) == |Members(t, liveness, c)|
  {
    forall c ensures Read(p, c) == |Members(t, liveness, c)| {
      MembersAreTasks(t, liveness, c);
      CountAll(Members(t, liveness, c), t.Keys);
    }
  }

  // ------------------------------------------------------------------- reasons and gates

  predicate BudgetExhausted(record: RunRecord) {
    ChildCommitted(record.budget) >= ChildCeiling(record.budget)
  }

  function ExplainDeficit(record: RunRecord, deficit: int, readyTasks: int, outstandingCost: real): DeficitReason {
    if |Held(record.tasks)| > record.requestedTarget then TargetExceeded
    else if deficit == 0 then NoDeficit
    else if record.phase != Open then RunNotOpen
    else if record.budget.halted then BudgetOverageHalt
    else if BudgetExhausted(record) then BudgetBlocked
    else if ChildCommitted(record.budget) + outstandingCost > ChildCeiling(record.budget) then BudgetBlocked
    else if readyTasks < record.requestedTarget then InsufficientReadyTasks
    else SlotsHeldByUnconfirmed
  }

  function AdmissionReason(record: RunRecord, counts: Counts, outstandingCost: real): DeficitReason {
    ExplainDeficit(record, counts.capacityDeficit, counts.readyTasks, outstandingCost)
  }

  function TargetRefusalReason(record: RunRecord): DeficitReason {
    if |Held(record.tasks)| > record.requestedTarget then TargetExceeded else NoDeficit
  }

  predicate MayAdmit(record: RunRecord, counts: Counts, outstandingCost: real) {
    && record.phase == Open && !record.budget.halted && !BudgetExhausted(record)
    && ChildCommitted(record.budget) + outstandingCost <= ChildCeiling(record.budget)
    && counts.capacityDeficit > 0
  }

  /** What the root keeps back for itself. */
  function RootReserve(b: Budget): real { if b.rootReserve.Some? then b.rootReserve.value else 0.0 }

  /** An open gate leaves the root's reserve alone: money is left before the request, and the request fits. */
  lemma MayAdmitExactly(record: RunRecord, counts: Counts, cost: real)
    requires NonNegative(record.budget)
    ensures var b := record.budget;
            MayAdmit(record, counts, cost) <==>
            && record.phase == Open && !b.halted && counts.capacityDeficit > 0
            && b.spent + b.reserved + b.unknownReserved + RootReserve(b) < b.ceiling
            && b.spent + b.reserved + b.unknownReserved + cost + RootReserve(b) <= b.ceiling
  {
  }

  /** The reason stated for a deficit, each of the seven exactly when it applies. */
  lemma ReasonExactly(record: RunRecord, liveness: map<string, TaskLiveness>, readyTasks: int, counts: Counts, cost: real)
    requires CountsAre(record, liveness, readyTasks, counts) && NonNegative(record.budget)
    ensures var reason := AdmissionReason(record, counts, cost);
            var b := record.budget;
            var committed := b.spent + b.reserved + b.unknownReserved;
            var short := |Held(record.tasks)| < record.requestedTarget;
            var broke := committed + RootReserve(b) >= b.ceiling || committed + cost + RootReserve(b) > b.ceiling;
            && (reason == TargetExceeded <==> |Held(record.tasks)| > record.requestedTarget)
            && (reason == NoDeficit <==> |Held(record.tasks)| == record.requestedTarget)
            && (reason == RunNotOpen <==> short && record.phase != Open)
            && (reason == BudgetOverageHalt <==> short && record.phase == Open && b.halted)
            && (reason == BudgetBlocked <==> short && record.phase == Open && !b.halted && broke)
            && (reason == InsufficientReadyTasks <==>
                  short && record.phase == Open && !b.halted && !broke && readyTasks < record.requestedTarget)
            && (reason == SlotsHeldByUnconfirmed <==>
                  short && record.phase == Open && !b.halted && !broke && readyTasks >= record.requestedTarget)
  {
  }

  /** The gate and its stated reason are one decision, for every record, liveness and request. */
  lemma GateAgreesWithReason(record: RunRecord, liveness: map<string, TaskLiveness>, readyTasks: int, counts: Counts, cost: real)
    requires CountsAre(record, liveness, readyTasks, counts)
    ensures MayAdmit(record, counts, cost) <==>
              AdmissionReason(record, counts, cost) in {InsufficientReadyTasks, SlotsHeldByUnconfirmed}
  {
  }

  /** With counts taken of some other record they part exactly on an open, solvent run that those counts leave room in and that is in fact over its target. */
  lemma StaleCountsPartExactly(record: RunRecord, counts: Counts, cost: real)
    requires counts.capacityDeficit >= 0
    ensures MayAdmit(record, counts, cost) != (AdmissionReason(record, counts, cost) in {InsufficientReadyTasks, SlotsHeldByUnconfirmed})
       <==> && record.phase == Open && !record.budget.halted && !BudgetExhausted(record)
            && ChildCommitted(record.budget) + cost <= ChildCeiling(record.budget)
            && counts.capacityDeficit > 0 && |Held(record.tasks)| > record.requestedTarget
  {
  }

  lemma StatesSplit(t: map<string, Task>, a: set<AdmissionState>, b: set<AdmissionState>)
    requires a !! b
    ensures |InStates(t, a + b)| == |InStates(t, a)| + |InStates(t, b)|
  {
    assert InStates(t, a + b) == InStates(t, a) + InStates(t, b);
    assert InStates(t, a) !! InStates(t, b);
  }

  /** Every task holds a slot, is completed, confirmed or cancelled, and only one of these. */
  lemma TasksPartition(t: map<string, Task>)
    ensures |t.Keys| == |Held(t)| + |InStates(t, {Completed})| + |InStates(t, {Confirmed})| + |InStates(t, {Cancelled})|
    ensures |t.Keys - InStates(t, {Cancelled, Confirmed})| == |Held(t)| + |InStates(t, {Completed})|
  {
    StatesSplit(t, SLOT_HOLDING_STATES, {Completed});
    StatesSplit(t, SLOT_HOLDING_STATES + {Completed}, {Confirmed});
    StatesSplit(t, SLOT_HOLDING_STATES + {Completed} + {Confirmed}, {Cancelled});
    EveryTaskHasAState(t);
  }

  /** The activities that are reported separately are disjoint parts of what is held. */
  lemma ActivityPartition(t: map<string, Task>, liveness: map<string, TaskLiveness>)
    ensures |InStates(t, {Launching})| + |Active(t, liveness)| + |InStates(t, {CancelRequested})| + |InStates(t, {Unknown})|
         <= |Held(t)|
  {
    StatesSplit(t, {Launching}, {Executing});
    StatesSplit(t, {Launching} + {Executing}, {CancelRequested});
    StatesSplit(t, {Launching} + {Executing} + {CancelRequested}, {Unknown});
    SubsetCard(InStates(t, {Launching} + {Executing} + {CancelRequested} + {Unknown}), Held(t));
    SubsetCard(Active(t, liveness), InStates(t, {Executing}));
  }

  /**
   * No task is lost or counted twice: every task holds a slot, is completed, confirmed or
   * cancelled; the overshoot and the deficit are the two halves of one difference.
   */
  lemma CountsConserve(record: RunRecord, liveness: map<string, TaskLiveness>, readyTasks: int, c: Counts)
    requires CountsAre(record, liveness, readyTasks, c)
    ensures
            && |record.tasks.Keys| == c.heldReservations + c.tasks.completed + c.tasks.confirmed + c.tasks.cancelled
            && c.tasks.durablyAdmitted == c.heldReservations + c.tasks.completed
            && c.targetOvershoot - c.capacityDeficit == c.heldReservations - record.requestedTarget
            && (c.targetOvershoot == 0 || c.capacityDeficit == 0)
  {
    TasksPartition(record.tasks);
    assert Read(c.tasks, Done) == c.tasks.completed && Read(c.tasks, Judged) == c.tasks.confirmed;
    assert Read(c.tasks, Withdrawn) == c.tasks.cancelled && Read(c.tasks, OnBooks) == c.tasks.durablyAdmitted;
  }

  /** What is reported as activity never exceeds what is held, and waiting is a part of active. */
  lemma ActivityWithinHeld(record: RunRecord, liveness: map<string, TaskLiveness>, readyTasks: int, c: Counts)
    requires CountsAre(record, liveness, readyTasks, c)
    ensures
            && c.tasks.launching + c.tasks.activeAssignments + c.tasks.stopping + c.tasks.quarantinedUnknown <= c.heldReservations
            && c.tasks.waitingOwnedTool <= c.tasks.activeAssignments && c.tasks.providerWaiting <= c.tasks.activeAssignments
  {
    ActivityPartition(record.tasks, liveness);
    SubsetCard(Members(record.tasks, liveness, OnOwnTool), Active(record.tasks, liveness));
    SubsetCard(Members(record.tasks, liveness, AtProvider), Active(record.tasks, liveness));
    assert Read(c.tasks, InLaunch) == c.tasks.launching && Read(c.tasks, Working) == c.tasks.activeAssignments;
    assert Read(c.tasks, Stops) == c.tasks.stopping && Read(c.tasks, InDoubt) == c.tasks.quarantinedUnknown;
    assert Read(c.tasks, OnOwnTool) == c.tasks.waitingOwnedTool && Read(c.tasks, AtProvider) == c.tasks.providerWaiting;
  }

  lemma EveryState(s: AdmissionState)
    ensures s in SLOT_HOLDING_STATES + {Completed} + {Confirmed} + {Cancelled}
    ensures s in SLOT_HOLDING_STATES + {Completed} <==> s !in {Cancelled, Confirmed}
  {
    match s {
      case Prepared | Launching | Accepted | Executing | Settling =>
      case Completed | Confirmed | CancelRequested | Cancelled | Unknown =>
    }
  }

  lemma EveryTaskHasAState(t: map<string, Task>)
    ensures InStates(t, SLOT_HOLDING_STATES + {Completed} + {Confirmed} + {Cancelled}) == t.Keys
    ensures t.Keys - InStates(t, {Cancelled, Confirmed}) == InStates(t, SLOT_HOLDING_STATES + {Completed})
  {
    forall id | id in t
      ensures t[id].state in SLOT_HOLDING_STATES + {Completed} + {Confirmed} + {Cancelled}
      ensures t[id].state in SLOT_HOLDING_STATES + {Completed} <==> t[id].state !in {Cancelled, Confirmed}
    {
      EveryState(t[id].state);
    }
  }

  lemma SubsetCard(a: set<string>, b: set<string>)
    requires a <= b
    ensures |a| <= |b|
  {
    assert b == a + (b - a);
  }
}
