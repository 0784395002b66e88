/**
 * The atomic reservation of a task against one run's record and the host's slot ledger, the
 * state transitions that follow it, and what the two keep together.
 */
module Admission {
  import opened Wrappers
  import C = Capacity
  import opened Counting

  datatype Request = Request(taskId: string, childId: string, reservedCost: real, expectedRevision: Option<nat>)

  /** The refusals decided on the record alone, in the order the code takes them. */
  function RefusalOf(record: RunRecord, q: Request): Option<DeficitReason> {
    if record.phase != Open then Some(RunNotOpen)
    else if q.expectedRevision.Some? && q.expectedRevision.value != record.generation then Some(SlotsHeldByUnconfirmed)
    else if record.budget.halted then Some(BudgetOverageHalt)
    else if q.taskId in record.tasks && HoldsSlot(record.tasks[q.taskId].state) then Some(SlotsHeldByUnconfirmed)
    else if q.taskId in record.tombstones then Some(SlotsHeldByUnconfirmed)
    else if ChildCommitted(record.budget) + q.reservedCost > ChildCeiling(record.budget) then Some(BudgetBlocked)
    else if |Held(record.tasks)| >= record.requestedTarget then
      Some(if |Held(record.tasks)| > record.requestedTarget then TargetExceeded else NoDeficit)
    else None
  }

  function WithTask(record: RunRecord, q: Request): RunRecord {
    var attempt := if q.taskId in record.tasks then record.tasks[q.taskId].attempt + 1 else 1;
    record.(generation := record.generation + 1,
            tasks := record.tasks[q.taskId := Task(Prepared, q.childId, q.reservedCost, attempt)],
            budget := record.budget.(reserved := record.budget.reserved + q.reservedCost))
  }

  datatype Movement = Movement(taskId: string, to: AdmissionState, release: Option<bool>, spentCost: real)

  predicate Releases(m: Movement) {
    if m.release.Some? then m.release.value else m.to == Confirmed || m.to == Cancelled
  }

  function BudgetAfter(b: Budget, task: Task, m: Movement): Budget {
    if m.spentCost == 0.0
    then b.(reserved := if Releases(m) then MaxReal(0.0, b.reserved - task.reservedCost) else b.reserved)
    else ApplySpend(b, if Releases(m) then task.reservedCost else 0.0, task.reservedCost, m.spentCost)
  }

  predicate IsLegal(record: RunRecord, m: Movement) {
    m.taskId in record.tasks && CanTransition(record.tasks[m.taskId].state, m.to)
  }

  function Moved(record: RunRecord, m: Movement): RunRecord
    requires m.taskId in record.tasks
  {
    var task := record.tasks[m.taskId];
    record.(tasks := record.tasks[m.taskId := task.(state := m.to)],
            budget := BudgetAfter(record.budget, task, m),
            tombstones := if m.to == Confirmed || m.to == Cancelled then record.tombstones + {m.taskId} else record.tombstones)
  }

  /** What a state change does to the host's slot of that id. */
  function SlotOp(taskId: string, to: AdmissionState): C.Op {
    match to
    case Confirmed => C.Op.ReleaseTask(taskId)
    case Cancelled => C.Op.ReleaseTask(taskId)
    case Completed => C.Op.ReleaseTask(taskId)
    case Prepared => C.Op.ReserveTask(taskId, C.Reserved, None)
    case Launching => C.Op.ReserveTask(taskId, C.Starting, None)
    case Unknown => C.Op.ReserveTask(taskId, C.UnknownQuarantined, None)
    case CancelRequested => C.Op.ReserveTask(taskId, C.Stopping, None)
    case _ => C.Op.ReserveTask(taskId, C.ActiveAssignment, None)
  }

  datatype Failure = InvalidCost | StorageFailed | NoSuchTask | IllegalTransition | HostRefused

  /** The answer to a reservation: refused with its reason, or the occupancy it brought the run to. */
  datatype Reservation = Refused(reason: DeficitReason) | Granted(heldReservations: nat)

  class WorkService {
    var record: RunRecord
    const gate: C.ChildAdmissionGate

    constructor (record: RunRecord, gate: C.ChildAdmissionGate)
      ensures this.record == record && this.gate == gate
    {
      this.record, this.gate := record, gate;
    }

    /**
     * A refusal moves neither record nor ledger, the high-water mark included; only the host cap's
     * own refusal is counted.  A write that fails after the take gives the slot back.
     */
    method TryReserveAdmission(q: Request, persists: bool) returns (r: Result<Reservation, Failure>)
      modifies this`record, gate
      ensures var before, was := old(record), old(gate.State());
              var take := C.Op.ReserveTask(q.taskId, C.Reserved, Some(q.childId));
              if q.reservedCost < 0.0 then
                r == Err(InvalidCost) && record == before && gate.State() == was
              else if RefusalOf(before, q).Some? then
                r == Ok(Refused(RefusalOf(before, q).value)) && record == before && gate.State() == was
              else if C.Refused(was, take) then
                && r == Ok(Refused(HostCapacityIsReached)) && record == before
                && gate.State() == was.(capacityRefusals := was.capacityRefusals + 1)
              else if !persists then
                && r == Err(StorageFailed) && record == before
                && gate.State() == C.Step(C.Step(was, take), C.Op.ReleaseTask(q.taskId))
              else
                && r == Ok(Granted(|Held(before.tasks)| + 1)) && record == WithTask(before, q)
                && gate.State() == C.Step(was, take)
    {
      if q.reservedCost < 0.0 {
        return Err(InvalidCost);
      }
      var held := HeldSlots(record);
      if record.phase != Open {
        return Ok(Refused(RunNotOpen));
      }
      if q.expectedRevision.Some? && q.expectedRevision.value != record.generation {
        return Ok(Refused(SlotsHeldByUnconfirmed));
      }
      if record.budget.halted {
        return Ok(Refused(BudgetOverageHalt));
      }
      if q.taskId in record.tasks && HoldsSlot(record.tasks[q.taskId].state) {
        return Ok(Refused(SlotsHeldByUnconfirmed));
      }
      if q.taskId in record.tombstones {
        return Ok(Refused(SlotsHeldByUnconfirmed));
      }
      if ChildCommitted(record.budget) + q.reservedCost > ChildCeiling(record.budget) {
        return Ok(Refused(BudgetBlocked));
      }
      if held >= record.requestedTarget {
        return Ok(Refused(TargetRefusalReason(record)));
      }
      var slot := gate.ReserveTask(q.taskId, C.Reserved, Some(q.childId));
      if slot.Err? {
        return Ok(Refused(HostCapacityIsReached));
      }
      if !persists {
        var _ := gate.ReleaseTask(q.taskId);
        return Err(StorageFailed);
      }
      record := WithTask(record, q);
      return Ok(Granted(held + 1));
    }

    /**
     * The record moves first, the slot follows.  A write that fails leaves both; a slot the host
     * refuses leaves the record moved.
     */
    method Transition(m: Movement, persists: bool) returns (r: Result<AdmissionState, Failure>)
      modifies this`record, gate
      ensures var before, was := old(record), old(gate.State());
              if m.taskId !in before.tasks then
                r == Err(NoSuchTask) && record == before && gate.State() == was
              else if !IsLegal(before, m) then
                r == Err(IllegalTransition) && record == before && gate.State() == was
              else if !persists then
                r == Err(StorageFailed) && record == before && gate.State() == was
              else
                && record == Moved(before, m) && gate.State() == C.Step(was, SlotOp(m.taskId, m.to))
                && r == if C.Refused(was, SlotOp(m.taskId, m.to)) then Err(HostRefused) else Ok(m.to)
    {
      if m.taskId !in record.tasks {
        return Err(NoSuchTask);
      }
      if !CanTransition(record.tasks[m.taskId].state, m.to) {
        return Err(IllegalTransition);
      }
      if !persists {
        return Err(StorageFailed);
      }
      record := Moved(record, m);
      r := SyncSlotToState(m.taskId, m.to);
    }

    method SyncSlotToState(taskId: string, to: AdmissionState) returns (r: Result<AdmissionState, Failure>)
      modifies gate
      ensures gate.State() == C.Step(old(gate.State()), SlotOp(taskId, to))
      ensures r == if C.Refused(old(gate.State()), SlotOp(taskId, to)) then Err(HostRefused) else Ok(to)
    {
      match to
      case Confirmed | Cancelled | Completed =>
        var _ := gate.ReleaseTask(taskId);
        return Ok(to);
      case _ =>
        var bucket := match to
          case Prepared => C.Reserved
          case Launching => C.Starting
          case Unknown => C.UnknownQuarantined
          case CancelRequested => C.Stopping
          case _ => C.ActiveAssignment;
        var slot := gate.ReserveTask(taskId, bucket, None);
        return if slot.Err? then Err(HostRefused) else Ok(to);
    }
  }

  // ------------------------------------------------------------------ what is kept

  lemma HeldUpdate(tasks: map<string, Task>, id: string, task: Task)
    ensures Held(tasks[id := task]) == (Held(tasks) - {id}) + (if HoldsSlot(task.state) then {id} else {})
  {
  }

  lemma HeldAfter(tasks: map<string, Task>, id: string, task: Task)
    ensures |Held(tasks[id := task])|
         == |Held(tasks)| + C.One(HoldsSlot(task.state)) - C.One(id in tasks && HoldsSlot(tasks[id].state))
  {
    HeldUpdate(tasks, id, task);
    C.CardWithout(Held(tasks), id);
    PlusOne(Held(tasks) - {id}, id, HoldsSlot(task.state));
  }

  lemma PlusOne(s: set<string>, id: string, more: bool)
    requires id !in s
    ensures |s + (if more then {id} else {})| == |s| + C.One(more)
  {
    assert s + {} == s;
  }

  /** A granted reservation takes exactly one slot and exactly its cost, and stays within both limits. */
  lemma GrantedStaysWithin(record: RunRecord, q: Request)
    requires RefusalOf(record, q).None?
    ensures var after := WithTask(record, q);
            && |Held(after.tasks)| == |Held(record.tasks)| + 1 <= after.requestedTarget
            && ChildCommitted(after.budget) == ChildCommitted(record.budget) + q.reservedCost <= ChildCeiling(after.budget)
            && after.generation > record.generation
  {
    HeldAfter(record.tasks, q.taskId, WithTask(record, q).tasks[q.taskId]);
  }

  /** A grant writes one prepared task, numbered as the next attempt at it, reserves its cost and moves the generation. */
  lemma GrantWritesOneTask(record: RunRecord, q: Request)
    ensures var after := WithTask(record, q);
            && after.tasks.Keys == record.tasks.Keys + {q.taskId}
            && (forall id :: id in record.tasks && id != q.taskId ==> after.tasks[id] == record.tasks[id])
            && after.tasks[q.taskId].state == Prepared && after.tasks[q.taskId].childId == q.childId
            && after.tasks[q.taskId].reservedCost == q.reservedCost
            && after.tasks[q.taskId].attempt == (if q.taskId in record.tasks then record.tasks[q.taskId].attempt + 1 else 1)
            && after.generation == record.generation + 1
            && after.budget.reserved == record.budget.reserved + q.reservedCost
            && after.budget.(reserved := 0.0) == record.budget.(reserved := 0.0)
            && after.phase == record.phase && after.requestedTarget == record.requestedTarget && after.tombstones == record.tombstones
  {
  }

  /**
   * What a movement does to the record: the state of its one task, a tombstone when that is
   * final, the cost that was spent in full, and the task's own reservation given back if it is
   * released: when the movement says so, or, if it does not say, when the state is final.
   */
  lemma MovedExactly(record: RunRecord, m: Movement)
    requires m.taskId in record.tasks && NonNegative(record.budget)
    requires m.spentCost >= 0.0 && record.tasks[m.taskId].reservedCost >= 0.0
    ensures var (was, after) := (record.tasks[m.taskId], Moved(record, m));
            var final := m.to == Confirmed || m.to == Cancelled;
            var released := m.release == Some(true) || (m.release == None && final);
            && after.tasks == record.tasks[m.taskId := Task(m.to, was.childId, was.reservedCost, was.attempt)]
            && after.tombstones == (if final then record.tombstones + {m.taskId} else record.tombstones)
            && after.budget.spent == record.budget.spent + m.spentCost
            && after.budget.reserved == (if !released then record.budget.reserved
                                         else if was.reservedCost < record.budget.reserved
                                         then record.budget.reserved - was.reservedCost else 0.0)
            && after.budget.unknownReserved == record.budget.unknownReserved
            && (after.budget.halted <==> record.budget.halted || m.spentCost > was.reservedCost)
            && after.budget.ceiling == record.budget.ceiling && after.budget.rootReserve == record.budget.rootReserve
            && after.phase == record.phase && after.requestedTarget == record.requestedTarget
            && after.generation == record.generation
  {
  }

  /** With money committed afterwards, a grant leaves the root's reserve whole. */
  lemma GrantSparesTheReserve(record: RunRecord, q: Request)
    requires RefusalOf(record, q).None?
    ensures var b := WithTask(record, q).budget;
            b.spent + b.reserved + b.unknownReserved > 0.0 ==>
              b.spent + b.reserved + b.unknownReserved + RootReserve(b) <= b.ceiling
  {
  }

  /** A request that nothing else stands against is refused for money exactly when it would reach into the reserve. */
  lemma BlockedExactlyByTheReserve(record: RunRecord, q: Request)
    requires record.phase == Open && !record.budget.halted && |Held(record.tasks)| < record.requestedTarget
    requires TaskIsFree(record, q)
    ensures var b := record.budget;
            var after := b.spent + b.reserved + b.unknownReserved + q.reservedCost;
            RefusalOf(record, q) == if after > 0.0 && after + RootReserve(b) > b.ceiling then Some(BudgetBlocked) else None
  {
  }

  /** Seven of ten units are spent and three are the root's: a task of one is refused, of none is granted. */
  lemma ReserveIsNotForChildren()
    ensures var run := RunRecord(Open, 1, map[], Budget(7.0, 0.0, 0.0, 10.0, Some(3.0), None, false), {}, 0);
            && RefusalOf(run, Request("t", "c", 1.0, None)) == Some(BudgetBlocked)
            && RefusalOf(run, Request("t", "c", 0.0, None)) == None
            && RefusalOf(run.(budget := run.budget.(rootReserve := None)), Request("t", "c", 1.0, None)) == None
  {
    var none: map<string, Task> := map[];
    assert Held(none) == {};
  }

  /** A request already decided at one generation is refused once another has been granted. */
  lemma StaleRevisionIsRefused(record: RunRecord, first: Request, second: Request)
    requires second.expectedRevision == Some(record.generation)
    ensures RefusalOf(WithTask(record, first), second).Some?
  {
  }

  /** What the reservation asks of the request besides the run's phase, halt, money and slots. */
  predicate TaskIsFree(record: RunRecord, q: Request) {
    && (q.expectedRevision.Some? ==> q.expectedRevision.value == record.generation)
    && q.taskId !in Held(record.tasks) && q.taskId !in record.tombstones
  }

  /**
   * Where the run is open, not halted, short of its target and the cost fits, the two admission
   * gates differ in two cases: the request's own task is not free and money is left, which
   * `mayAdmit` does not see; or it is free and every unit is committed, so that a request costing
   * nothing is refused by `mayAdmit` and granted by the reservation.
   */
  lemma GatesDifferExactly(record: RunRecord, liveness: map<string, TaskLiveness>, readyTasks: int, counts: Counts, q: Request)
    requires CountsAre(record, liveness, readyTasks, counts) && q.reservedCost >= 0.0
    ensures RefusalOf(record, q).None? != MayAdmit(record, counts, q.reservedCost) <==>
            && record.phase == Open && !record.budget.halted && |Held(record.tasks)| < record.requestedTarget
            && ChildCommitted(record.budget) + q.reservedCost <= ChildCeiling(record.budget)
            && (TaskIsFree(record, q) <==> ChildCommitted(record.budget) == ChildCeiling(record.budget))
  {
  }

  /** A run with one slot and no money, and a request for a task that costs nothing. */
  function PennilessRun(): RunRecord {
    RunRecord(Open, 1, map[], Budget(0.0, 0.0, 0.0, 0.0, None, None, false), {}, 0)
  }

  lemma ZeroCostPartsTheGates()
    ensures var counts := Counts(1, 0, TaskCounts(0, 0, 0, 0, 0, 0, 0, 0, 0, 0), 0, 1, 0, BudgetBlocked);
            && CountsAre(PennilessRun(), map[], 0, counts)
            && RefusalOf(PennilessRun(), Request("t", "c", 0.0, None)).None?
            && !MayAdmit(PennilessRun(), counts, 0.0)
  {
    var none: map<string, Task> := map[];
    assert Held(none) == {};
    forall c ensures Members(none, map[], c) == {} {
    }
  }

  /** The one legal transition that takes a slot back: a completed task whose outcome comes into doubt. */
  lemma OnlyReopeningRaises(record: RunRecord, m: Movement)
    requires IsLegal(record, m)
    ensures |Held(Moved(record, m).tasks)| > |Held(record.tasks)| <==>
              record.tasks[m.taskId].state == Completed && m.to == Unknown
    ensures |Held(Moved(record, m).tasks)| <= |Held(record.tasks)| + 1
  {
    HeldAfter(record.tasks, m.taskId, Moved(record, m).tasks[m.taskId]);
  }

  // ------------------------------------------------------------------ whole runs

  datatype Event = Reserve(q: Request, hostHasRoom: bool) | Move(m: Movement) | Hold(amount: real)

  function Step(record: RunRecord, e: Event): RunRecord {
    match e
    case Reserve(q, hostHasRoom) =>
      if q.reservedCost < 0.0 || RefusalOf(record, q).Some? || !hostHasRoom then record else WithTask(record, q)
    case Move(m) => if IsLegal(record, m) then Moved(record, m) else record
    case Hold(amount) => record.(budget := HoldUnknown(record.budget, amount))
  }

  predicate Reopens(record: RunRecord, e: Event) {
    e.Move? && IsLegal(record, e.m) && record.tasks[e.m.taskId].state == Completed && e.m.to == Unknown
  }

  predicate WithinTarget(record: RunRecord) { |Held(record.tasks)| <= record.requestedTarget }

  /** The target is kept by a step exactly unless it reopens a completed task at a full target. */
  lemma TargetKeptExactly(record: RunRecord, e: Event)
    requires WithinTarget(record)
    ensures WithinTarget(Step(record, e)) <==> !(Reopens(record, e) && |Held(record.tasks)| == record.requestedTarget)
  {
    match e
    case Reserve(q, hostHasRoom) =>
      if RefusalOf(record, q).None? {
        GrantedStaysWithin(record, q);
      }
    case Move(m) =>
      if IsLegal(record, m) {
        HeldAfter(record.tasks, m.taskId, Moved(record, m).tasks[m.taskId]);
        OnlyReopeningRaises(record, m);
      }
    case Hold(_) =>
  }

  function Run(record: RunRecord, events: seq<Event>): RunRecord
    decreases |events|
  {
    if events == [] then record else Run(Step(record, events[0]), events[1..])
  }

  /** A run takes its events one after the other, the last one last. */
  lemma {:induction false} RunTakesEvents(record: RunRecord, events: seq<Event>, last: Event)
    ensures Run(record, []) == record
    ensures Run(record, events + [last]) == Step(Run(record, events), last)
    decreases |events|
  {
    var all := events + [last];
    if events == [] {
      assert all[1..] == [];
    } else {
      assert all[0] == events[0] && all[1..] == events[1..] + [last];
      RunTakesEvents(Step(record, events[0]), events[1..], last);
    }
  }

  /** A reservation is the record's part of one: made when its cost, the record and the host allow it. */
  lemma StepsAreCalls(record: RunRecord, q: Request, m: Movement)
    ensures q.reservedCost >= 0.0 && RefusalOf(record, q).None? ==> Step(record, Reserve(q, true)) == WithTask(record, q)
    ensures q.reservedCost < 0.0 || RefusalOf(record, q).Some? ==> Step(record, Reserve(q, true)) == record
    ensures Step(record, Reserve(q, false)) == record
    ensures m.taskId in record.tasks && m.to in Transitions(record.tasks[m.taskId].state) ==> Step(record, Move(m)) == Moved(record, m)
    ensures m.taskId !in record.tasks || m.to !in Transitions(record.tasks[m.taskId].state) ==> Step(record, Move(m)) == record
  {
  }

  /** No step of the run reopens a completed task while every slot of the target is taken. */
  predicate NeverReopensFull(record: RunRecord, events: seq<Event>)
    decreases |events|
  {
    events == []
    || (!(Reopens(record, events[0]) && |Held(record.tasks)| == record.requestedTarget)
        && NeverReopensFull(Step(record, events[0]), events[1..]))
  }

  /** At every point of the run. */
  predicate StaysWithinTarget(record: RunRecord, events: seq<Event>)
    decreases |events|
  {
    WithinTarget(record) && (events == [] || StaysWithinTarget(Step(record, events[0]), events[1..]))
  }

  /** A run keeps to its target throughout if and only if it never reopens a completed task at a full target. */
  lemma {:induction false} RunsKeepTarget(record: RunRecord, events: seq<Event>)
    requires WithinTarget(record)
    ensures StaysWithinTarget(record, events) <==> NeverReopensFull(record, events)
    ensures StaysWithinTarget(record, events) ==> WithinTarget(Run(record, events))
    decreases |events|
  {
    if events != [] {
      TargetKeptExactly(record, events[0]);
      if WithinTarget(Step(record, events[0])) {
        RunsKeepTarget(Step(record, events[0]), events[1..]);
      }
    }
  }

  predicate WithinBudget(record: RunRecord) {
    NonNegative(record.budget) && ChildCommitted(record.budget) <= ChildCeiling(record.budget)
  }

  /** How far a step raises the commitment beyond what a reservation checked. */
  function Unchecked(record: RunRecord, e: Event): real {
    match e
    case Reserve(_, _) => 0.0
    case Hold(amount) => MaxReal(0.0, amount)
    case Move(m) =>
      if !IsLegal(record, m) || m.spentCost == 0.0 then 0.0
      else m.spentCost - (if Releases(m) then MinReal(record.budget.reserved, MaxReal(0.0, record.tasks[m.taskId].reservedCost)) else 0.0)
  }

  predicate CostsNonNegative(record: RunRecord, e: Event) {
    match e
    case Move(m) => m.spentCost >= 0.0 && (m.taskId in record.tasks ==> record.tasks[m.taskId].reservedCost >= 0.0)
    case _ => true
  }

  /**
   * A run within its child ceiling stays within it exactly if what the step commits unchecked, a
   * spend above its release or a newly held unknown, fits the headroom.
   */
  lemma BudgetKeptExactly(record: RunRecord, e: Event)
    requires WithinBudget(record) && CostsNonNegative(record, e)
    ensures WithinBudget(Step(record, e)) <==>
              Unchecked(record, e) <= ChildCeiling(record.budget) - ChildCommitted(record.budget)
  {
    match e
    case Reserve(q, hostHasRoom) =>
    case Hold(amount) =>
    case Move(m) =>
      if IsLegal(record, m) && m.spentCost != 0.0 {
        SpendIsConserved(record.budget, if Releases(m) then record.tasks[m.taskId].reservedCost else 0.0,
                         record.tasks[m.taskId].reservedCost, m.spentCost);
      }
  }

  // --------------------------------------------------------------- record and ledger agree

  /** The host's task slots are exactly the tasks of the record that hold one. */
  predicate Agree(record: RunRecord, l: C.Ledger) { l.tasks.Keys == Held(record.tasks) }

  lemma TakenKeys(l: C.Ledger, id: string, bucket: C.Bucket, name: Option<string>)
    ensures var after := C.Step(l, C.Op.ReserveTask(id, bucket, name));
            if id !in l.tasks && C.Full(l) then after.tasks == l.tasks
            else after.tasks == l.tasks[id := if id in l.tasks then C.Renamed(l.tasks[id], bucket, name) else C.TaskSlot(bucket, name)]
  {
  }

  lemma GivenBackKeys(l: C.Ledger, id: string)
    ensures C.Step(l, C.Op.ReleaseTask(id)).tasks == l.tasks - {id}
  {
  }

  /** A granted reservation, and one the host refuses, keep record and ledger in agreement. */
  lemma ReservationKeepsAgreement(record: RunRecord, l: C.Ledger, q: Request)
    requires Agree(record, l) && RefusalOf(record, q).None?
    ensures var take := C.Op.ReserveTask(q.taskId, C.Reserved, Some(q.childId));
            Agree(if C.Refused(l, take) then record else WithTask(record, q), C.Step(l, take))
  {
    TakenKeys(l, q.taskId, C.Reserved, Some(q.childId));
    HeldGains(record, q);
  }

  lemma HeldGains(record: RunRecord, q: Request)
    ensures Held(WithTask(record, q).tasks) == Held(record.tasks) + {q.taskId}
  {
  }

  /** A write that fails after the take leaves the host's task slots as they were. */
  lemma FailedWriteGivesBack(record: RunRecord, l: C.Ledger, q: Request)
    requires Agree(record, l) && RefusalOf(record, q).None?
    requires !C.Refused(l, C.Op.ReserveTask(q.taskId, C.Reserved, Some(q.childId)))
    ensures C.Step(C.Step(l, C.Op.ReserveTask(q.taskId, C.Reserved, Some(q.childId))), C.Op.ReleaseTask(q.taskId)).tasks == l.tasks
  {
    assert q.taskId !in l.tasks.Keys;
    TakenKeys(l, q.taskId, C.Reserved, Some(q.childId));
    GivenBackKeys(C.Step(l, C.Op.ReserveTask(q.taskId, C.Reserved, Some(q.childId))), q.taskId);
    AddThenRemove(l.tasks, q.taskId, C.TaskSlot(C.Reserved, Some(q.childId)));
  }

  lemma AddThenRemove(tasks: map<string, C.TaskSlot>, id: string, slot: C.TaskSlot)
    requires id !in tasks
    ensures tasks[id := slot] - {id} == tasks
  {
  }

  /**
   * A transition keeps the agreement exactly unless it reopens a completed task on a full host:
   * then the record says a slot is held that the host never gave.
   */
  lemma TransitionKeepsAgreementExactly(record: RunRecord, l: C.Ledger, m: Movement)
    requires Agree(record, l) && IsLegal(record, m)
    ensures Agree(Moved(record, m), C.Step(l, SlotOp(m.taskId, m.to))) <==>
            !(record.tasks[m.taskId].state == Completed && m.to == Unknown && C.Full(l))
  {
    HeldMoves(record, m);
    SlotMoves(l, m.taskId, m.to);
    OnlyReopeningTakes(record, m);
    KeysPart(Held(record.tasks), Held(Moved(record, m).tasks), C.Step(l, SlotOp(m.taskId, m.to)).tasks.Keys,
             m.taskId, HoldsSlot(m.to), C.Full(l));
  }

  lemma OnlyReopeningTakes(record: RunRecord, m: Movement)
    requires IsLegal(record, m)
    ensures HoldsSlot(m.to) && m.taskId !in Held(record.tasks) <==> record.tasks[m.taskId].state == Completed && m.to == Unknown
  {
  }

  lemma KeysPart(held: set<string>, heldAfter: set<string>, slotsAfter: set<string>, id: string, takes: bool, full: bool)
    requires heldAfter == if takes then held + {id} else held - {id}
    requires slotsAfter == if !takes then held - {id} else if id !in held && full then held else held + {id}
    ensures slotsAfter == heldAfter <==> !(takes && id !in held && full)
  {
  }

  lemma HeldMoves(record: RunRecord, m: Movement)
    requires m.taskId in record.tasks
    ensures Held(Moved(record, m).tasks)
         == if HoldsSlot(m.to) then Held(record.tasks) + {m.taskId} else Held(record.tasks) - {m.taskId}
  {
  }

  lemma SlotMoves(l: C.Ledger, id: string, to: AdmissionState)
    ensures C.Step(l, SlotOp(id, to)).tasks.Keys
         == if !HoldsSlot(to) then l.tasks.Keys - {id}
            else if id !in l.tasks.Keys && C.Full(l) then l.tasks.Keys
            else l.tasks.Keys + {id}
  {
    if HoldsSlot(to) {
      var op := SlotOp(id, to);
      TakenKeys(l, id, op.bucket, op.name);
    } else {
      GivenBackKeys(l, id);
    }
  }
}
