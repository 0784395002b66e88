/**
 * A run's record and its host's slot ledger, moving together: reservations, transitions and the
 * children's own lifecycle, with failed writes and host refusals anywhere.
 */
module HostRuns {
  import opened Wrappers
  import C = Capacity
  import opened Counting
  import opened Admission

  datatype Joint = Joint(record: RunRecord, ledger: C.Ledger)

  datatype HostEvent =
    | Admit(q: Request, persists: bool)
    | Transit(m: Movement, persists: bool)
    | ChildCreated(childId: string)
    | ChildDisposed(childId: string)

  function Take(q: Request): C.Op { C.Op.ReserveTask(q.taskId, C.Reserved, Some(q.childId)) }

  /** The ledger operations an event comes to. */
  function OpsOf(j: Joint, e: HostEvent): seq<C.Op> {
    match e
    case Admit(q, persists) =>
      if q.reservedCost < 0.0 || RefusalOf(j.record, q).Some? then []
      else if C.Refused(j.ledger, Take(q)) || persists then [Take(q)]
      else [Take(q), C.Op.ReleaseTask(q.taskId)]
    case Transit(m, persists) => if IsLegal(j.record, m) && persists then [SlotOp(m.taskId, m.to)] else []
    case ChildCreated(c) => [C.Op.ReserveChild(c)]
    case ChildDisposed(c) => [C.Op.ReleaseChild(c)]
  }

  function RecordAfter(j: Joint, e: HostEvent): RunRecord {
    match e
    case Admit(q, persists) =>
      if q.reservedCost < 0.0 || RefusalOf(j.record, q).Some? || C.Refused(j.ledger, Take(q)) || !persists then j.record
      else WithTask(j.record, q)
    case Transit(m, persists) => if IsLegal(j.record, m) && persists then Moved(j.record, m) else j.record
    case _ => j.record
  }

  function StepJoint(j: Joint, e: HostEvent): Joint {
    Joint(RecordAfter(j, e), C.Run(j.ledger, OpsOf(j, e)))
  }

  /** A child coming or going is the ledger's business: the record stays, and only that child's place moves. */
  lemma ChildComesToTheLedger(j: Joint, c: string)
    ensures var came := StepJoint(j, ChildCreated(c));
            && came.record == j.record && came.ledger.tasks == j.ledger.tasks
            && came.ledger.live == (if c in j.ledger.live || C.Refused(j.ledger, C.Op.ReserveChild(c)) then j.ledger.live
                                    else j.ledger.live[c := C.ActiveAssignment])
  {
    RunOne(j.ledger, C.Op.ReserveChild(c));
    C.ArrivalIsLive(j.ledger, c);
  }

  lemma ChildLeavesTheLedger(j: Joint, c: string)
    ensures StepJoint(j, ChildDisposed(c)) == Joint(j.record, j.ledger.(live := j.ledger.live - {c}))
  {
    RunOne(j.ledger, C.Op.ReleaseChild(c));
  }

  /** What one call brings about: a grant on both sides, a refusal on neither, a failed write gives its slot back. */
  lemma CallsMoveBothSides(j: Joint, q: Request, m: Movement)
    requires q.reservedCost >= 0.0 && RefusalOf(j.record, q).None? && C.Occupied(j.ledger) < j.ledger.capacity
    requires q.taskId !in j.ledger.tasks
    ensures var granted, failed := StepJoint(j, Admit(q, true)), StepJoint(j, Admit(q, false));
            && granted.record == WithTask(j.record, q) && failed.record == j.record
            && granted.ledger.tasks == j.ledger.tasks[q.taskId := C.TaskSlot(C.Reserved, Some(q.childId))]
            && failed.ledger.tasks == j.ledger.tasks && granted.ledger.live == failed.ledger.live == j.ledger.live
    ensures StepJoint(j, Transit(m, false)) == j
  {
    RunOne(j.ledger, Take(q));
    RunTwo(j.ledger, Take(q), C.Op.ReleaseTask(q.taskId));
  }

  function RunJoint(j: Joint, events: seq<HostEvent>): Joint
    decreases |events|
  {
    if events == [] then j else RunJoint(StepJoint(j, events[0]), events[1..])
  }

  lemma RunOne(l: C.Ledger, op: C.Op)
    ensures C.Run(l, [op]) == C.Step(l, op)
  {
  }

  lemma RunTwo(l: C.Ledger, a: C.Op, b: C.Op)
    ensures C.Run(l, [a, b]) == C.Step(C.Step(l, a), b)
  {
    assert [a, b][1..] == [b];
    RunOne(C.Step(l, a), b);
  }

  /** A joint step is what the service's own methods do to record and gate. */
  method PerformAdmission(service: WorkService, q: Request, persists: bool) returns (r: Result<Reservation, Failure>)
    modifies service`record, service.gate
    ensures Joint(service.record, service.gate.State())
         == StepJoint(Joint(old(service.record), old(service.gate.State())), Admit(q, persists))
  {
    ghost var l := service.gate.State();
    RunOne(l, Take(q));
    RunTwo(l, Take(q), C.Op.ReleaseTask(q.taskId));
    r := service.TryReserveAdmission(q, persists);
  }

  method PerformTransition(service: WorkService, m: Movement, persists: bool) returns (r: Result<AdmissionState, Failure>)
    modifies service`record, service.gate
    ensures Joint(service.record, service.gate.State())
         == StepJoint(Joint(old(service.record), old(service.gate.State())), Transit(m, persists))
  {
    RunOne(service.gate.State(), SlotOp(m.taskId, m.to));
    r := service.Transition(m, persists);
  }

  // -------------------------------------------------------- record and ledger agree

  /** The step reopens a completed task while the host has no slot to give. */
  predicate ReopensOnFullHost(j: Joint, e: HostEvent) {
    && e.Transit? && e.persists && IsLegal(j.record, e.m)
    && j.record.tasks[e.m.taskId].state == Completed && e.m.to == Unknown && C.Full(j.ledger)
  }

  lemma AdmissionKeepsAgreement(j: Joint, q: Request, persists: bool)
    requires Agree(j.record, j.ledger) && RefusalOf(j.record, q).None?
    ensures Agree(StepJoint(j, Admit(q, persists)).record, StepJoint(j, Admit(q, persists)).ledger)
  {
    RunOne(j.ledger, Take(q));
    RunTwo(j.ledger, Take(q), C.Op.ReleaseTask(q.taskId));
    ReservationKeepsAgreement(j.record, j.ledger, q);
    if !C.Refused(j.ledger, Take(q)) {
      FailedWriteGivesBack(j.record, j.ledger, q);
    }
  }

  /** A joint step keeps the agreement exactly unless it reopens a completed task on a full host. */
  lemma AgreementKeptExactly(j: Joint, e: HostEvent)
    requires Agree(j.record, j.ledger)
    ensures Agree(StepJoint(j, e).record, StepJoint(j, e).ledger) <==> !ReopensOnFullHost(j, e)
  {
    match e
    case Admit(q, persists) =>
      if RefusalOf(j.record, q).None? {
        AdmissionKeepsAgreement(j, q, persists);
      }
    case Transit(m, persists) =>
      RunOne(j.ledger, SlotOp(m.taskId, m.to));
      if IsLegal(j.record, m) {
        TransitionKeepsAgreementExactly(j.record, j.ledger, m);
      }
    case ChildCreated(c) => RunOne(j.ledger, C.Op.ReserveChild(c));
    case ChildDisposed(c) => RunOne(j.ledger, C.Op.ReleaseChild(c));
  }

  predicate AgreesThroughout(j: Joint, events: seq<HostEvent>)
    decreases |events|
  {
    Agree(j.record, j.ledger) && (events == [] || AgreesThroughout(StepJoint(j, events[0]), events[1..]))
  }

  predicate NeverReopensOnFullHost(j: Joint, events: seq<HostEvent>)
    decreases |events|
  {
    events == [] || (!ReopensOnFullHost(j, events[0]) && NeverReopensOnFullHost(StepJoint(j, events[0]), events[1..]))
  }

  /** Over whole runs record and ledger agree throughout if and only if no completed task is reopened on a full host. */
  lemma {:induction false} AgreementOverRuns(j: Joint, events: seq<HostEvent>)
    requires Agree(j.record, j.ledger)
    ensures AgreesThroughout(j, events) <==> NeverReopensOnFullHost(j, events)
    decreases |events|
  {
    if events != [] {
      AgreementKeptExactly(j, events[0]);
      if !ReopensOnFullHost(j, events[0]) {
        AgreementOverRuns(StepJoint(j, events[0]), events[1..]);
      }
    }
  }

  // ------------------------------------------------- the service keeps the host's discipline

  /** Even where the two disagree, the host never gives a slot the record does not say is held. */
  predicate SlotsAreHeld(j: Joint) { j.ledger.tasks.Keys <= Held(j.record.tasks) }

  /** A reservation names a child that no slot names yet. */
  predicate NamesFreshChild(j: Joint, e: HostEvent) {
    e.Admit? ==> C.Namers(j.ledger, e.q.childId) == {}
  }

  predicate NamesFreshChildren(j: Joint, events: seq<HostEvent>)
    decreases |events|
  {
    events == [] || (NamesFreshChild(j, events[0]) && NamesFreshChildren(StepJoint(j, events[0]), events[1..]))
  }

  lemma AdmissionKeepsSlotsHeld(j: Joint, q: Request, persists: bool)
    requires SlotsAreHeld(j) && RefusalOf(j.record, q).None?
    ensures SlotsAreHeld(StepJoint(j, Admit(q, persists)))
  {
    RunOne(j.ledger, Take(q));
    RunTwo(j.ledger, Take(q), C.Op.ReleaseTask(q.taskId));
    TakenKeys(j.ledger, q.taskId, C.Reserved, Some(q.childId));
    GivenBackKeys(C.Step(j.ledger, Take(q)), q.taskId);
    HeldGains(j.record, q);
  }

  lemma StepKeepsSlotsHeld(j: Joint, e: HostEvent)
    requires SlotsAreHeld(j)
    ensures SlotsAreHeld(StepJoint(j, e))
  {
    match e
    case Admit(q, persists) =>
      if RefusalOf(j.record, q).None? {
        AdmissionKeepsSlotsHeld(j, q, persists);
      }
    case Transit(m, persists) =>
      RunOne(j.ledger, SlotOp(m.taskId, m.to));
      if IsLegal(j.record, m) {
        HeldMoves(j.record, m);
        SlotMoves(j.ledger, m.taskId, m.to);
      }
    case ChildCreated(c) => RunOne(j.ledger, C.Op.ReserveChild(c));
    case ChildDisposed(c) => RunOne(j.ledger, C.Op.ReleaseChild(c));
  }

  lemma StepIsDisciplined(j: Joint, e: HostEvent)
    requires SlotsAreHeld(j) && NamesFreshChild(j, e)
    ensures C.DisciplinedRun(j.ledger, OpsOf(j, e))
  {
    if e.Admit? && RefusalOf(j.record, e.q).None? {
      assert e.q.taskId !in j.ledger.tasks.Keys;
      assert [Take(e.q), C.Op.ReleaseTask(e.q.taskId)][1..] == [C.Op.ReleaseTask(e.q.taskId)];
    }
  }

  /** All the ledger operations of a run, in order. */
  function RunOps(j: Joint, events: seq<HostEvent>): seq<C.Op>
    decreases |events|
  {
    if events == [] then [] else OpsOf(j, events[0]) + RunOps(StepJoint(j, events[0]), events[1..])
  }

  lemma {:induction false} RunsConcatenate(l: C.Ledger, a: seq<C.Op>, b: seq<C.Op>)
    ensures C.Run(l, a + b) == C.Run(C.Run(l, a), b)
    ensures C.DisciplinedRun(l, a + b) <==> C.DisciplinedRun(l, a) && C.DisciplinedRun(C.Run(l, a), b)
    decreases |a|
  {
    if a == [] {
      assert a + b == b;
    } else {
      assert (a + b)[1..] == a[1..] + b;
      RunsConcatenate(C.Step(l, a[0]), a[1..], b);
    }
  }

  lemma {:induction false} ServiceIsDisciplined(j: Joint, events: seq<HostEvent>)
    requires SlotsAreHeld(j) && NamesFreshChildren(j, events)
    ensures C.DisciplinedRun(j.ledger, RunOps(j, events))
    ensures RunJoint(j, events).ledger == C.Run(j.ledger, RunOps(j, events))
    decreases |events|
  {
    if events != [] {
      var next := StepJoint(j, events[0]);
      StepKeepsSlotsHeld(j, events[0]);
      StepIsDisciplined(j, events[0]);
      ServiceIsDisciplined(next, events[1..]);
      RunsConcatenate(j.ledger, OpsOf(j, events[0]), RunOps(next, events[1..]));
    }
  }

  /**
   * The composed system, from an empty record and ledger: as long as each reservation names a
   * child no slot names yet, whatever is admitted, refused, failed, moved, created or disposed of,
   * the host stays within its cap and its high-water mark is the true maximum.
   */
  lemma HostStaysWithinCap(record: RunRecord, capacity: int, events: seq<HostEvent>)
    requires record.tasks == map[] && capacity >= 1
    requires NamesFreshChildren(Joint(record, C.Empty(capacity)), events)
    ensures var start := Joint(record, C.Empty(capacity));
            var ops, end := RunOps(start, events), RunJoint(start, events).ledger;
            && C.WithinCap(start.ledger, ops) && C.NamesDistinct(end)
            && C.Occupied(end) <= end.high == C.MostOccupied(start.ledger, ops) <= capacity
  {
    var start := Joint(record, C.Empty(capacity));
    assert C.Unbacked(start.ledger.live, start.ledger.tasks) == {};
    ServiceIsDisciplined(start, events);
    C.DisciplinedRunsKeepCap(start.ledger, RunOps(start, events));
    C.MostOccupiedNonNegative(start.ledger, RunOps(start, events));
  }

  // ------------------------------------------------------------- reopening, step by step

  function OneSlotRun(): RunRecord {
    RunRecord(Open, 1, map[], Budget(0.0, 0.0, 0.0, 10.0, None, None, false), {}, 0)
  }

  function Transition(id: string, to: AdmissionState): HostEvent { Transit(Movement(id, to, None, 0.0), true) }

  /** A task is launched and completes, its slot goes to a second one, then its outcome comes into doubt. */
  function Reopening(): seq<HostEvent> {
    [Admit(Request("t1", "c1", 1.0, None), true)] + ([Transition("t1", Launching)] + ([Transition("t1", Accepted)]
    + ([Transition("t1", Completed)] + ([Admit(Request("t2", "c2", 1.0, None), true)] + ([Transition("t1", Unknown)] + [])))))
  }

  lemma JointCons(j: Joint, e: HostEvent, rest: seq<HostEvent>)
    ensures RunJoint(j, [e] + rest) == RunJoint(StepJoint(j, e), rest)
  {
    assert ([e] + rest)[1..] == rest;
  }

  /** An open run of target one on a host of capacity one, with nobody live. */
  predicate OneSlot(j: Joint) {
    && j.record.phase == Open && j.record.requestedTarget == 1 && j.record.tombstones == {}
    && !j.record.budget.halted && ChildCeiling(j.record.budget) == 10.0
    && j.ledger.capacity == 1 && j.ledger.live == map[]
  }

  lemma OccupiedBySlots(l: C.Ledger)
    requires l.live == map[]
    ensures C.Occupied(l) == |l.tasks.Keys|
  {
    assert C.Unbacked(l.live, l.tasks) == l.tasks.Keys;
  }

  /** An idle one-slot run grants a task it does not know. */
  lemma IdleRunGrants(j: Joint, id: string, child: string)
    requires OneSlot(j) && Held(j.record.tasks) == {} && j.ledger.tasks.Keys == {}
    requires id !in j.record.tasks && ChildCommitted(j.record.budget) <= 9.0
    ensures var q := Request(id, child, 1.0, None);
            RefusalOf(j.record, q).None? && !C.Refused(j.ledger, Take(q))
  {
    OccupiedBySlots(j.ledger);
  }

  lemma GrantedAfter(j: Joint, id: string, child: string)
    requires OneSlot(j) && Held(j.record.tasks) == {} && j.ledger.tasks.Keys == {}
    requires id !in j.record.tasks && ChildCommitted(j.record.budget) <= 9.0
    ensures var after := StepJoint(j, Admit(Request(id, child, 1.0, None), true));
            && OneSlot(after) && after.record.tasks == j.record.tasks[id := Task(Prepared, child, 1.0, 1)]
            && after.ledger.tasks.Keys == {id}
            && ChildCommitted(after.record.budget) == ChildCommitted(j.record.budget) + 1.0
  {
    var q := Request(id, child, 1.0, None);
    IdleRunGrants(j, id, child);
    RunOne(j.ledger, Take(q));
    TakenKeys(j.ledger, id, C.Reserved, Some(child));
    SlotsLeaveTheHost(j.ledger, Take(q));
  }

  lemma SlotsLeaveTheHost(l: C.Ledger, op: C.Op)
    requires op.ReserveTask? || op.ReleaseTask?
    ensures C.Step(l, op).capacity == l.capacity && C.Step(l, op).live == l.live
  {
  }

  lemma FirstIsGranted()
    ensures var j := StepJoint(Joint(OneSlotRun(), C.Empty(1)), Admit(Request("t1", "c1", 1.0, None), true));
            && OneSlot(j) && j.record.tasks == map["t1" := Task(Prepared, "c1", 1.0, 1)]
            && j.ledger.tasks.Keys == {"t1"} && ChildCommitted(j.record.budget) == 1.0
  {
    GrantedAfter(Joint(OneSlotRun(), C.Empty(1)), "t1", "c1");
  }

  lemma TransitionMoves(j: Joint, id: string, to: AdmissionState)
    requires OneSlot(j) && id in j.record.tasks && CanTransition(j.record.tasks[id].state, to)
    requires to in {Launching, Accepted, Completed, Unknown}
    ensures var after := StepJoint(j, Transition(id, to));
            && OneSlot(after) && after.record.tasks == j.record.tasks[id := j.record.tasks[id].(state := to)]
            && after.record.budget == j.record.budget
            && after.ledger.tasks.Keys == (if to == Completed then j.ledger.tasks.Keys - {id}
                                           else if id !in j.ledger.tasks.Keys && C.Full(j.ledger) then j.ledger.tasks.Keys
                                           else j.ledger.tasks.Keys + {id})
  {
    LedgerMoves(j, id, to);
    RecordMoves(j, id, to);
  }

  lemma LedgerMoves(j: Joint, id: string, to: AdmissionState)
    requires id in j.record.tasks && CanTransition(j.record.tasks[id].state, to)
    ensures var after := StepJoint(j, Transition(id, to)).ledger;
            && after.capacity == j.ledger.capacity && after.live == j.ledger.live
            && after.tasks.Keys == (if !HoldsSlot(to) then j.ledger.tasks.Keys - {id}
                                    else if id !in j.ledger.tasks.Keys && C.Full(j.ledger) then j.ledger.tasks.Keys
                                    else j.ledger.tasks.Keys + {id})
  {
    RunOne(j.ledger, SlotOp(id, to));
    SlotMoves(j.ledger, id, to);
    SlotsLeaveTheHost(j.ledger, SlotOp(id, to));
  }

  lemma RecordMoves(j: Joint, id: string, to: AdmissionState)
    requires id in j.record.tasks && CanTransition(j.record.tasks[id].state, to) && to != Confirmed && to != Cancelled
    ensures StepJoint(j, Transition(id, to)).record
         == j.record.(tasks := j.record.tasks[id := j.record.tasks[id].(state := to)])
  {
  }

  lemma FirstCompletes(j: Joint)
    requires OneSlot(j) && j.record.tasks == map["t1" := Task(Prepared, "c1", 1.0, 1)]
    requires j.ledger.tasks.Keys == {"t1"} && ChildCommitted(j.record.budget) == 1.0
    ensures var launched := StepJoint(j, Transition("t1", Launching));
            var done := StepJoint(StepJoint(launched, Transition("t1", Accepted)), Transition("t1", Completed));
            && OneSlot(done) && done.record.tasks == map["t1" := Task(Completed, "c1", 1.0, 1)]
            && done.ledger.tasks.Keys == {} && ChildCommitted(done.record.budget) == 1.0
  {
    var launched := StepJoint(j, Transition("t1", Launching));
    var accepted := StepJoint(launched, Transition("t1", Accepted));
    TransitionMoves(j, "t1", Launching);
    TransitionMoves(launched, "t1", Accepted);
    TransitionMoves(accepted, "t1", Completed);
  }

  lemma SecondIsGranted(j: Joint)
    requires OneSlot(j) && j.record.tasks == map["t1" := Task(Completed, "c1", 1.0, 1)]
    requires j.ledger.tasks.Keys == {} && ChildCommitted(j.record.budget) == 1.0
    ensures var after := StepJoint(j, Admit(Request("t2", "c2", 1.0, None), true));
            && OneSlot(after) && after.record.tasks == j.record.tasks["t2" := Task(Prepared, "c2", 1.0, 1)]
            && after.ledger.tasks.Keys == {"t2"}
  {
    assert Held(j.record.tasks) == {};
    GrantedAfter(j, "t2", "c2");
  }

  lemma DoubtOverflows(j: Joint)
    requires OneSlot(j) && j.ledger.tasks.Keys == {"t2"}
    requires j.record.tasks == map["t1" := Task(Completed, "c1", 1.0, 1), "t2" := Task(Prepared, "c2", 1.0, 1)]
    ensures var after := StepJoint(j, Transition("t1", Unknown));
            && Held(after.record.tasks) == {"t1", "t2"} && !WithinTarget(after.record) && after.ledger.tasks.Keys == {"t2"}
  {
    OccupiedBySlots(j.ledger);
    TransitionMoves(j, "t1", Unknown);
    assert Held(StepJoint(j, Transition("t1", Unknown)).record.tasks) == {"t1", "t2"};
  }

  /** Target one, host capacity one: the run ends holding two slots, and the host knows only one of them. */
  lemma ReopeningBreaksTargetAndLedger()
    ensures var end := RunJoint(Joint(OneSlotRun(), C.Empty(1)), Reopening());
            && Held(end.record.tasks) == {"t1", "t2"} && !WithinTarget(end.record)
            && end.ledger.tasks.Keys == {"t2"} && !Agree(end.record, end.ledger)
  {
    var doubt := [Transition("t1", Unknown)] + [];
    var second := [Admit(Request("t2", "c2", 1.0, None), true)] + doubt;
    var completes := [Transition("t1", Completed)] + second;
    var accepted := [Transition("t1", Accepted)] + completes;
    var j0 := Joint(OneSlotRun(), C.Empty(1));
    var j1 := StepJoint(j0, Admit(Request("t1", "c1", 1.0, None), true));
    var j2 := StepJoint(j1, Transition("t1", Launching));
    var j3 := StepJoint(j2, Transition("t1", Accepted));
    var j4 := StepJoint(j3, Transition("t1", Completed));
    var j5 := StepJoint(j4, Admit(Request("t2", "c2", 1.0, None), true));
    JointCons(j0, Admit(Request("t1", "c1", 1.0, None), true), [Transition("t1", Launching)] + accepted);
    JointCons(j1, Transition("t1", Launching), accepted);
    JointCons(j2, Transition("t1", Accepted), completes);
    JointCons(j3, Transition("t1", Completed), second);
    JointCons(j4, Admit(Request("t2", "c2", 1.0, None), true), doubt);
    JointCons(j5, Transition("t1", Unknown), []);
    FirstIsGranted();
    FirstCompletes(j1);
    SecondIsGranted(j4);
    DoubtOverflows(j5);
  }
}
