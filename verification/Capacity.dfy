/**
 * The host-wide child slot ledger: `occupied = live children + task slots with no
 * live child behind them`.  The ledger's meaning is a step function on values; the
 * class is proved against it, and the documented cap is settled on the step function.
 */
module Capacity {
  import opened Wrappers

  const HARD_CHILD_CAPACITY := 30
  const MAX_SAFE_INTEGER := 0x1F_FFFF_FFFF_FFFF

  datatype Bucket = Reserved | Starting | ActiveAssignment | Stopping | UnknownQuarantined

  datatype TaskSlot = TaskSlot(bucket: Bucket, childId: Option<string>)

  datatype Ledger = Ledger(
    capacity: int,
    live: map<string, Bucket>,
    tasks: map<string, TaskSlot>,
    high: nat,
    capacityRefusals: nat,
    depthRefusals: nat)

  /** Everything the host can do to the ledger, handle writes included. */
  datatype Op =
    | ReserveChild(childId: string)
    | ReserveTask(taskId: string, bucket: Bucket, name: Option<string>)
    | ReleaseChild(childId: string)
    | ReleaseTask(taskId: string)
    | SetTaskBucket(taskId: string, bucket: Bucket)
    | SetTaskChild(taskId: string, newChild: string)
    | SetChildBucket(childId: string, bucket: Bucket)
    | RefuseDepth

  predicate BackedBy(live: map<string, Bucket>, slot: TaskSlot) {
    slot.childId.Some? && slot.childId.value in live
  }

  /** Task slots with no live child behind them: each occupies. */
  function Unbacked(live: map<string, Bucket>, tasks: map<string, TaskSlot>): set<string> {
    set t | t in tasks && !BackedBy(live, tasks[t])
  }

  function Quarantined(tasks: map<string, TaskSlot>): set<string> {
    set t | t in tasks && tasks[t].bucket == UnknownQuarantined
  }

  /** The task slots that name this child. */
  function Namers(l: Ledger, childId: string): set<string> {
    set t | t in l.tasks && l.tasks[t].childId == Some(childId)
  }

  function Occupied(l: Ledger): nat {
    |l.live.Keys| + |Unbacked(l.live, l.tasks)|
  }

  predicate Full(l: Ledger) {
    Occupied(l) >= l.capacity
  }

  function Observed(l: Ledger): Ledger {
    if Occupied(l) > l.high then l.(high := Occupied(l)) else l
  }

  function Renamed(slot: TaskSlot, bucket: Bucket, name: Option<string>): TaskSlot {
    TaskSlot(bucket, if name.Some? then name else slot.childId)
  }

  /** Whether the call throws HOST_CAPACITY_REACHED. */
  predicate Refused(l: Ledger, op: Op) {
    match op
    case ReserveChild(c) => c !in l.live && Namers(l, c) == {} && Full(l)
    case ReserveTask(t, _, _) => t !in l.tasks && Full(l)
    case _ => false
  }

  function Step(l: Ledger, op: Op): Ledger {
    if Refused(l, op) then l.(capacityRefusals := l.capacityRefusals + 1)
    else match op
      case ReserveChild(c) =>
        if c in l.live then l else Observed(l.(live := l.live[c := ActiveAssignment]))
      case ReserveTask(t, b, name) =>
        if t in l.tasks then l.(tasks := l.tasks[t := Renamed(l.tasks[t], b, name)])
        else Observed(l.(tasks := l.tasks[t := TaskSlot(b, name)]))
      case ReleaseChild(c) => l.(live := l.live - {c})
      case ReleaseTask(t) => l.(tasks := l.tasks - {t})
      case SetTaskBucket(t, b) =>
        if t in l.tasks then Observed(l.(tasks := l.tasks[t := l.tasks[t].(bucket := b)])) else l
      case SetTaskChild(t, c) =>
        if t in l.tasks then l.(tasks := l.tasks[t := l.tasks[t].(childId := Some(c))]) else l
      case SetChildBucket(c, b) =>
        if c in l.live then l.(live := l.live[c := b]) else l
      case RefuseDepth => l.(depthRefusals := l.depthRefusals + 1)
  }

  function Empty(capacity: int): Ledger {
    Ledger(capacity, map[], map[], 0, 0, 0)
  }

  function Run(l: Ledger, ops: seq<Op>): Ledger
    decreases |ops|
  {
    if ops == [] then l else Run(Step(l, ops[0]), ops[1..])
  }

  /** A child that is let in joins the live ones, each of which stays as it was; a child that is not leaves them alone. */
  lemma ArrivalIsLive(l: Ledger, c: string)
    ensures var after := Step(l, ReserveChild(c));
            && after.tasks == l.tasks
            && after.live == (if c in l.live || Refused(l, ReserveChild(c)) then l.live else l.live[c := ActiveAssignment])
  {
  }

  /**
   * Reserving a task again never asks for room: it moves the slot to the bucket, keeps the child's
   * name unless a new one is given, and the task is quarantined afterwards exactly if the bucket is.
   */
  lemma ReservingAgainMovesTheSlot(l: Ledger, t: string, bucket: Bucket, name: Option<string>)
    requires t in l.tasks
    ensures var after := Step(l, ReserveTask(t, bucket, name));
            && after.(tasks := l.tasks) == l && after.tasks.Keys == l.tasks.Keys
            && (forall s :: s in l.tasks && s != t ==> after.tasks[s] == l.tasks[s])
            && after.tasks[t].bucket == bucket
            && after.tasks[t].childId == (if name == None then l.tasks[t].childId else name)
            && Quarantined(after.tasks) == (if bucket == UnknownQuarantined then Quarantined(l.tasks) + {t}
                                            else Quarantined(l.tasks) - {t})
  {
    var slot := TaskSlot(bucket, if name == None then l.tasks[t].childId else name);
    assert Step(l, ReserveTask(t, bucket, name)) == l.(tasks := l.tasks[t := slot]);
    assert l.tasks[t := slot].Keys == l.tasks.Keys;
  }

  // ------------------------------------------------ how each step moves occupancy

  function One(b: bool): int { if b then 1 else 0 }

  /** Whether this task slot, were it `slot`, would be an unbacked reservation. */
  predicate Counts(l: Ledger, slot: TaskSlot) {
    !BackedBy(l.live, slot)
  }

  /** The change in occupancy an accepted step makes, read off the state before it. */
  function Delta(l: Ledger, op: Op): int {
    if Refused(l, op) then 0
    else match op
      case ReserveChild(c) => if c in l.live then 0 else 1 - |Namers(l, c)|
      case ReserveTask(t, b, name) =>
        if t in l.tasks then One(Counts(l, Renamed(l.tasks[t], b, name))) - One(Counts(l, l.tasks[t]))
        else One(Counts(l, TaskSlot(b, name)))
      case ReleaseChild(c) => if c in l.live then |Namers(l, c)| - 1 else 0
      case ReleaseTask(t) => if t in l.tasks then -One(Counts(l, l.tasks[t])) else 0
      case SetTaskChild(t, c) =>
        if t in l.tasks then One(c !in l.live) - One(Counts(l, l.tasks[t])) else 0
      case _ => 0
  }

  lemma SplitCard(whole: set<string>, part: set<string>, rest: set<string>)
    requires whole == part + rest && part !! rest
    ensures |whole| == |part| + |rest|
  {
  }

  lemma CardWithout(s: set<string>, t: string)
    ensures |s - {t}| == |s| - One(t in s)
  {
    if t !in s {
      assert s - {t} == s;
    }
  }

  lemma UnbackedWithout(live: map<string, Bucket>, tasks: map<string, TaskSlot>, t: string)
    ensures Unbacked(live, tasks - {t}) == Unbacked(live, tasks) - {t}
  {
  }

  lemma TaskErase(l: Ledger, t: string)
    ensures Occupied(l.(tasks := l.tasks - {t})) == Occupied(l) - One(t in l.tasks && Counts(l, l.tasks[t]))
  {
    UnbackedWithout(l.live, l.tasks, t);
    CardWithout(Unbacked(l.live, l.tasks), t);
  }

  lemma WriteThenErase(tasks: map<string, TaskSlot>, t: string, slot: TaskSlot)
    ensures tasks[t := slot] - {t} == tasks - {t}
  {
  }

  /** Writing one task's slot moves occupancy by that slot alone. */
  lemma TaskWrite(l: Ledger, t: string, slot: TaskSlot)
    ensures Occupied(l.(tasks := l.tasks[t := slot]))
         == Occupied(l) + One(Counts(l, slot)) - One(t in l.tasks && Counts(l, l.tasks[t]))
  {
    var written := l.(tasks := l.tasks[t := slot]);
    TaskErase(l, t);
    TaskErase(written, t);
    WriteThenErase(l.tasks, t, slot);
  }

  lemma ArrivalFolds(live: map<string, Bucket>, tasks: map<string, TaskSlot>, c: string, b: Bucket, named: set<string>)
    requires c !in live
    requires named == set t | t in tasks && tasks[t].childId == Some(c)
    ensures named <= Unbacked(live, tasks)
    ensures Unbacked(live[c := b], tasks) == Unbacked(live, tasks) - named
  {
  }

  lemma ArrivalUncounts(l: Ledger, c: string, b: Bucket)
    requires c !in l.live
    ensures |Unbacked(l.live[c := b], l.tasks)| == |Unbacked(l.live, l.tasks)| - |Namers(l, c)|
  {
    ArrivalFolds(l.live, l.tasks, c, b, Namers(l, c));
    SplitCard(Unbacked(l.live, l.tasks), Unbacked(l.live[c := b], l.tasks), Namers(l, c));
  }

  lemma OneMoreLive(live: map<string, Bucket>, c: string, b: Bucket)
    requires c !in live
    ensures |live[c := b].Keys| == |live.Keys| + 1
  {
    assert live[c := b].Keys == live.Keys + {c};
  }

  lemma ChildArrives(l: Ledger, c: string, b: Bucket)
    requires c !in l.live
    ensures Occupied(l.(live := l.live[c := b])) == Occupied(l) + 1 - |Namers(l, c)|
  {
    ArrivalUncounts(l, c, b);
    OneMoreLive(l.live, c, b);
  }

  lemma ChildLeaves(l: Ledger, c: string)
    requires c in l.live
    ensures Occupied(l.(live := l.live - {c})) == Occupied(l) - 1 + |Namers(l, c)|
  {
    var gone := l.(live := l.live - {c});
    ChildArrives(gone, c, l.live[c]);
    assert gone.live[c := l.live[c]] == l.live;
    assert Namers(gone, c) == Namers(l, c);
  }

  lemma ChildRelabelled(l: Ledger, c: string, b: Bucket)
    requires c in l.live
    ensures Occupied(l.(live := l.live[c := b])) == Occupied(l)
  {
    assert l.live[c := b].Keys == l.live.Keys;
    assert Unbacked(l.live[c := b], l.tasks) == Unbacked(l.live, l.tasks);
  }

  lemma TaskStepMoves(l: Ledger, op: Op)
    requires op.ReserveTask? || op.ReleaseTask? || op.SetTaskBucket? || op.SetTaskChild?
    ensures Occupied(Step(l, op)) == Occupied(l) + Delta(l, op)
  {
    match op
    case ReserveTask(t, b, name) =>
      if t in l.tasks {
        TaskWrite(l, t, Renamed(l.tasks[t], b, name));
      } else if !Refused(l, op) {
        TaskWrite(l, t, TaskSlot(b, name));
      }
    case ReleaseTask(t) => TaskErase(l, t);
    case SetTaskBucket(t, b) => if t in l.tasks { TaskWrite(l, t, l.tasks[t].(bucket := b)); }
    case SetTaskChild(t, c) => if t in l.tasks { TaskWrite(l, t, l.tasks[t].(childId := Some(c))); }
  }

  lemma ArrivalMoves(l: Ledger, op: Op)
    requires op.ReserveChild?
    ensures Occupied(Step(l, op)) == Occupied(l) + Delta(l, op)
  {
    if op.childId !in l.live && !Refused(l, op) {
      ChildArrives(l, op.childId, ActiveAssignment);
    }
  }

  lemma DepartureMoves(l: Ledger, op: Op)
    requires op.ReleaseChild?
    ensures Occupied(Step(l, op)) == Occupied(l) + Delta(l, op)
  {
    if op.childId in l.live {
      ChildLeaves(l, op.childId);
    } else {
      assert l.live - {op.childId} == l.live;
    }
  }

  lemma RelabelMoves(l: Ledger, op: Op)
    requires op.SetChildBucket? || op.RefuseDepth?
    ensures Occupied(Step(l, op)) == Occupied(l) + Delta(l, op)
  {
    if op.SetChildBucket? && op.childId in l.live {
      ChildRelabelled(l, op.childId, op.bucket);
    }
  }

  /** Every step of the ledger moves occupancy by exactly `Delta`. */
  lemma StepMovesByDelta(l: Ledger, op: Op)
    ensures Occupied(Step(l, op)) == Occupied(l) + Delta(l, op)
  {
    match op
    case ReserveChild(_) => ArrivalMoves(l, op);
    case ReleaseChild(_) => DepartureMoves(l, op);
    case SetChildBucket(_, _) => RelabelMoves(l, op);
    case RefuseDepth => RelabelMoves(l, op);
    case _ => TaskStepMoves(l, op);
  }

  // --------------------------------------------------- exactly when the cap holds

  /** What a caller can check before a step: nothing but these two cases can break the cap. */
  predicate SafeCall(l: Ledger, op: Op) {
    match op
    // releasing a live child uncovers every task that names it
    case ReleaseChild(c) => c in l.live ==> Occupied(l) + |Namers(l, c)| <= l.capacity + 1
    // renaming a task away from its live child uncovers that task
    case ReserveTask(t, b, Some(c)) =>
      t in l.tasks && BackedBy(l.live, l.tasks[t]) && c !in l.live ==> Occupied(l) < l.capacity
    case SetTaskChild(t, c) =>
      t in l.tasks && BackedBy(l.live, l.tasks[t]) && c !in l.live ==> Occupied(l) < l.capacity
    case _ => true
  }

  /** From a state within the cap, a step stays within it if and only if the call was safe. */
  lemma CapKeptExactlyBySafeCalls(l: Ledger, op: Op)
    requires Occupied(l) <= l.capacity
    ensures Occupied(Step(l, op)) <= l.capacity <==> SafeCall(l, op)
  {
    StepMovesByDelta(l, op);
  }

  ghost predicate AllSafe(l: Ledger, ops: seq<Op>)
    decreases |ops|
  {
    ops == [] || (SafeCall(l, ops[0]) && AllSafe(Step(l, ops[0]), ops[1..]))
  }

  /** Every state the run visits, its first included, is within the cap. */
  ghost predicate WithinCap(l: Ledger, ops: seq<Op>)
    decreases |ops|
  {
    Occupied(l) <= l.capacity && (ops == [] || WithinCap(Step(l, ops[0]), ops[1..]))
  }

  /** Over whole runs: `occupied` never exceeds the cap if and only if every call is safe. */
  lemma {:induction false} CapOverRuns(l: Ledger, ops: seq<Op>)
    requires Occupied(l) <= l.capacity
    ensures WithinCap(l, ops) <==> AllSafe(l, ops)
    decreases |ops|
  {
    if ops != [] {
      CapKeptExactlyBySafeCalls(l, ops[0]);
      if SafeCall(l, ops[0]) {
        CapOverRuns(Step(l, ops[0]), ops[1..]);
      }
    }
  }

  // ------------------------------------------- the host's discipline implies safety

  /** No two task slots name the same child. */
  ghost predicate NamesDistinct(l: Ledger) {
    forall t, u :: t in l.tasks && u in l.tasks && t != u && l.tasks[t].childId.Some?
      ==> l.tasks[t].childId != l.tasks[u].childId
  }

  /** This call gives the task a name no other task has, and does not move it off a live child. */
  predicate FreshName(l: Ledger, taskId: string, childId: string) {
    && Namers(l, childId) <= {taskId}
    && (taskId in l.tasks && BackedBy(l.live, l.tasks[taskId]) ==> l.tasks[taskId].childId == Some(childId))
  }

  predicate Disciplined(l: Ledger, op: Op) {
    match op
    case ReserveTask(t, _, Some(c)) => FreshName(l, t, c)
    case SetTaskChild(t, c) => FreshName(l, t, c)
    case _ => true
  }

  ghost predicate DisciplinedRun(l: Ledger, ops: seq<Op>)
    decreases |ops|
  {
    ops == [] || (Disciplined(l, ops[0]) && DisciplinedRun(Step(l, ops[0]), ops[1..]))
  }

  lemma OneNamer(l: Ledger, c: string)
    requires NamesDistinct(l)
    ensures |Namers(l, c)| <= 1
  {
    if t :| t in Namers(l, c) {
      assert Namers(l, c) == {t};
    }
  }

  lemma FreshNameStaysDistinct(l: Ledger, t: string, slot: TaskSlot)
    requires NamesDistinct(l)
    requires slot.childId.Some? ==> Namers(l, slot.childId.value) <= {t}
    ensures NamesDistinct(l.(tasks := l.tasks[t := slot]))
  {
    if slot.childId.Some? {
      assert forall u :: u in l.tasks && u != t ==> u !in Namers(l, slot.childId.value);
    }
  }

  lemma OldNameStaysDistinct(l: Ledger, t: string, b: Bucket)
    requires NamesDistinct(l) && t in l.tasks
    ensures NamesDistinct(l.(tasks := l.tasks[t := l.tasks[t].(bucket := b)]))
  {
  }

  lemma NamesStayDistinct(l: Ledger, op: Op)
    requires NamesDistinct(l) && Disciplined(l, op)
    ensures NamesDistinct(Step(l, op))
  {
    match op
    case ReserveTask(t, b, Some(c)) => FreshNameStaysDistinct(l, t, TaskSlot(b, Some(c)));
    case ReserveTask(t, b, None) =>
      if t in l.tasks { OldNameStaysDistinct(l, t, b); } else { FreshNameStaysDistinct(l, t, TaskSlot(b, None)); }
    case SetTaskChild(t, c) => if t in l.tasks { FreshNameStaysDistinct(l, t, l.tasks[t].(childId := Some(c))); }
    case SetTaskBucket(t, b) => if t in l.tasks { OldNameStaysDistinct(l, t, b); }
    case _ =>
  }

  lemma DisciplinedIsSafe(l: Ledger, op: Op)
    requires NamesDistinct(l) && Disciplined(l, op) && Occupied(l) <= l.capacity
    ensures SafeCall(l, op)
  {
    if op.ReleaseChild? {
      OneNamer(l, op.childId);
    }
  }

  function Max(a: int, b: int): int { if a < b then b else a }

  /** The largest occupancy any state of the run has. */
  function MostOccupied(l: Ledger, ops: seq<Op>): int
    decreases |ops|
  {
    if ops == [] then Occupied(l) else Max(Occupied(l), MostOccupied(Step(l, ops[0]), ops[1..]))
  }

  /** The steps that take a new slot. */
  predicate TakesSlot(l: Ledger, op: Op) {
    match op
    case ReserveChild(c) => c !in l.live && !Refused(l, op)
    case ReserveTask(t, _, _) => t !in l.tasks && !Refused(l, op)
    case _ => false
  }

  lemma TakingObservesTheMark(l: Ledger, op: Op)
    requires TakesSlot(l, op)
    ensures Step(l, op).high == Max(l.high, Occupied(Step(l, op)))
  {
  }

  lemma MarkOnlyRisesToOccupancy(l: Ledger, op: Op)
    ensures Step(l, op).high == l.high || Step(l, op).high == Occupied(Step(l, op)) > l.high
  {
  }

  /** Under the discipline nothing else raises occupancy. */
  lemma OnlyTakingRaises(l: Ledger, op: Op)
    requires NamesDistinct(l) && Disciplined(l, op) && !TakesSlot(l, op)
    ensures Delta(l, op) <= 0
  {
    if op.ReleaseChild? {
      OneNamer(l, op.childId);
    }
  }

  /** A disciplined step keeps the names distinct, the cap, and the mark the maximum so far. */
  lemma DisciplinedStep(l: Ledger, op: Op)
    requires NamesDistinct(l) && Disciplined(l, op) && Occupied(l) <= l.high <= l.capacity
    ensures NamesDistinct(Step(l, op)) && Step(l, op).capacity == l.capacity
    ensures Step(l, op).high == Max(l.high, Occupied(Step(l, op))) <= l.capacity
  {
    DisciplinedIsSafe(l, op);
    CapKeptExactlyBySafeCalls(l, op);
    NamesStayDistinct(l, op);
    if TakesSlot(l, op) {
      TakingObservesTheMark(l, op);
    } else {
      MarkOnlyRisesToOccupancy(l, op);
      StepMovesByDelta(l, op);
      OnlyTakingRaises(l, op);
    }
  }

  /**
   * Under the host's discipline every reachable ledger is within the cap, its names stay
   * distinct, and the high-water mark is the true maximum occupancy, itself within the cap.
   */
  lemma {:induction false} DisciplinedRunsKeepCap(l: Ledger, ops: seq<Op>)
    requires NamesDistinct(l) && Occupied(l) <= l.high <= l.capacity && DisciplinedRun(l, ops)
    ensures WithinCap(l, ops)
    ensures NamesDistinct(Run(l, ops))
    ensures Occupied(Run(l, ops)) <= Run(l, ops).high == Max(l.high, MostOccupied(l, ops)) <= l.capacity
    decreases |ops|
  {
    if ops != [] {
      DisciplinedStep(l, ops[0]);
      DisciplinedRunsKeepCap(Step(l, ops[0]), ops[1..]);
    }
  }

  lemma FreshHostKeepsCap(capacity: int, ops: seq<Op>)
    requires capacity >= 1 && DisciplinedRun(Empty(capacity), ops)
    ensures WithinCap(Empty(capacity), ops)
    ensures Run(Empty(capacity), ops).high == MostOccupied(Empty(capacity), ops) <= capacity
  {
    assert Occupied(Empty(capacity)) == 0;
    DisciplinedRunsKeepCap(Empty(capacity), ops);
    MostOccupiedNonNegative(Empty(capacity), ops);
  }

  /** A host that is given no capacity of its own runs thirty children at most. */
  lemma DefaultHostRunsThirty(ops: seq<Op>)
    requires DisciplinedRun(Empty(HARD_CHILD_CAPACITY), ops)
    ensures Occupied(Run(Empty(HARD_CHILD_CAPACITY), ops)) <= 30
  {
    FreshHostKeepsCap(HARD_CHILD_CAPACITY, ops);
    EndsWithinCap(Empty(HARD_CHILD_CAPACITY), ops);
  }

  lemma {:induction false} EndsWithinCap(l: Ledger, ops: seq<Op>)
    requires WithinCap(l, ops)
    ensures Occupied(Run(l, ops)) <= Run(l, ops).capacity == l.capacity
    decreases |ops|
  {
    if ops != [] {
      EndsWithinCap(Step(l, ops[0]), ops[1..]);
    }
  }

  lemma MostOccupiedNonNegative(l: Ledger, ops: seq<Op>)
    ensures 0 <= Occupied(l) <= MostOccupied(l, ops)
    decreases |ops|
  {
  }

  // ----------------------------------------------- every executor is counted once

  /** Live children that no task slot names: executors of their own. */
  function Unreserved(l: Ledger): set<string> {
    set c | c in l.live && Namers(l, c) == {}
  }

  /**
   * Counting by children (live plus unbacked tasks) and counting by tasks (tasks plus live
   * children nobody reserved) agree when names are distinct: no executor is counted twice.
   */
  lemma {:induction false} ExecutorsCountedOnce(l: Ledger)
    requires NamesDistinct(l)
    ensures Occupied(l) == |l.tasks.Keys| + |Unreserved(l)|
    decreases l.live.Keys
  {
    if l.live == map[] {
      assert Unbacked(l.live, l.tasks) == l.tasks.Keys;
      assert Unreserved(l) == {};
    } else {
      var c :| c in l.live;
      var less := l.(live := l.live - {c});
      ExecutorsCountedOnce(less);
      ChildLeaves(l, c);
      UnreservedWithout(l, c);
    }
  }

  /** Taking a live child away loses one unreserved executor exactly when no task names it. */
  lemma UnreservedWithout(l: Ledger, c: string)
    requires c in l.live && NamesDistinct(l)
    ensures |Unreserved(l.(live := l.live - {c}))| == |Unreserved(l)| - 1 + |Namers(l, c)|
  {
    OneNamer(l, c);
    var after := Unreserved(l.(live := l.live - {c}));
    assert after == Unreserved(l) - {c} by {
      assert forall d :: Namers(l.(live := l.live - {c}), d) == Namers(l, d);
    }
    CardWithout(Unreserved(l), c);
    assert Namers(l, c) == {} <==> |Namers(l, c)| == 0;
  }

  // ------------------------------------------ each half of the discipline is needed

  lemma RunStep(l: Ledger, op: Op, rest: seq<Op>)
    ensures Run(l, [op] + rest) == Run(Step(l, op), rest)
  {
    assert ([op] + rest)[1..] == rest;
  }

  /** Two unbacked tasks that name c1 fill a host of two. */
  lemma TwoTasksShareAName(l: Ledger)
    requires l == Empty(2)
    ensures var l1 := Step(l, ReserveTask("t1", Reserved, Some("c1")));
            var l2 := Step(l1, ReserveTask("t2", Reserved, Some("c1")));
            l2 == Ledger(2, map[], map["t1" := TaskSlot(Reserved, Some("c1")), "t2" := TaskSlot(Reserved, Some("c1"))], 2, 0, 0)
            && Occupied(l2) == 2
  {
    var op1, op2 := ReserveTask("t1", Reserved, Some("c1")), ReserveTask("t2", Reserved, Some("c1"));
    assert Occupied(l) == 0;
    StepMovesByDelta(l, op1);
    StepMovesByDelta(Step(l, op1), op2);
  }

  /** Two tasks name c1 and c1 is live: releasing c1 uncovers both. */
  lemma SharedNameUncoversBoth(l: Ledger)
    requires l == Empty(2)
    ensures var l1 := Step(l, ReserveTask("t1", Reserved, Some("c1")));
            var l2 := Step(l1, ReserveTask("t2", Reserved, Some("c1")));
            var l3 := Step(l2, ReserveChild("c1"));
            var l4 := Step(l3, ReserveTask("t3", Reserved, None));
            Occupied(l3) == 1 && Occupied(l4) == 2 == l4.high && l4.capacityRefusals == 0
            && Namers(l4, "c1") == {"t1", "t2"} && "c1" in l4.live
  {
    TwoTasksShareAName(l);
    SharedNameFillsTheHost(Step(Step(l, ReserveTask("t1", Reserved, Some("c1"))), ReserveTask("t2", Reserved, Some("c1"))));
  }

  lemma SharedNameFillsTheHost(l2: Ledger)
    requires l2 == Ledger(2, map[], map["t1" := TaskSlot(Reserved, Some("c1")), "t2" := TaskSlot(Reserved, Some("c1"))], 2, 0, 0)
    requires Occupied(l2) == 2
    ensures var l3 := Step(l2, ReserveChild("c1"));
            var l4 := Step(l3, ReserveTask("t3", Reserved, None));
            Occupied(l3) == 1 && Occupied(l4) == 2 == l4.high && l4.capacityRefusals == 0
            && Namers(l4, "c1") == {"t1", "t2"} && "c1" in l4.live
  {
    assert Namers(l2, "c1") == {"t1", "t2"};
    var l3 := Step(l2, ReserveChild("c1"));
    StepMovesByDelta(l2, ReserveChild("c1"));
    StepMovesByDelta(l3, ReserveTask("t3", Reserved, None));
  }

  /** Two tasks name c1, c1 goes live, the host fills, c1 is released: three of two slots. */
  lemma SharedNameBreaksCap()
    ensures var ops := [ReserveTask("t1", Reserved, Some("c1"))] + ([ReserveTask("t2", Reserved, Some("c1"))]
                       + ([ReserveChild("c1")] + ([ReserveTask("t3", Reserved, None)] + ([ReleaseChild("c1")] + []))));
            var end := Run(Empty(2), ops);
            Occupied(end) == 3 && end.high == 2 && end.capacityRefusals == 0
  {
    var r5: seq<Op> := [];
    var r4 := [ReleaseChild("c1")] + r5;
    var r3 := [ReserveTask("t3", Reserved, None)] + r4;
    var r2 := [ReserveChild("c1")] + r3;
    var r1 := [ReserveTask("t2", Reserved, Some("c1"))] + r2;
    var l0 := Empty(2);
    SharedNameUncoversBoth(l0);
    RunStep(l0, ReserveTask("t1", Reserved, Some("c1")), r1);
    var l1 := Step(l0, ReserveTask("t1", Reserved, Some("c1")));
    RunStep(l1, ReserveTask("t2", Reserved, Some("c1")), r2);
    var l2 := Step(l1, ReserveTask("t2", Reserved, Some("c1")));
    RunStep(l2, ReserveChild("c1"), r3);
    var l3 := Step(l2, ReserveChild("c1"));
    RunStep(l3, ReserveTask("t3", Reserved, None), r4);
    var l4 := Step(l3, ReserveTask("t3", Reserved, None));
    RunStep(l4, ReleaseChild("c1"), r5);
    StepMovesByDelta(l4, ReleaseChild("c1"));
  }

  /** A task is renamed while its child is live: two of one slot, names distinct throughout. */
  lemma RenameOfLiveBreaksCap()
    ensures var ops := [ReserveTask("t1", Reserved, Some("c1"))] + ([ReserveChild("c1")] + ([SetTaskChild("t1", "c2")] + []));
            var end := Run(Empty(1), ops);
            NamesDistinct(end) && Occupied(end) == 2 && end.high == 1
  {
    var r3: seq<Op> := [];
    var r2 := [SetTaskChild("t1", "c2")] + r3;
    var r1 := [ReserveChild("c1")] + r2;
    var l0 := Empty(1);
    var l1 := Step(l0, ReserveTask("t1", Reserved, Some("c1")));
    var l2 := Step(l1, ReserveChild("c1"));
    RunStep(l0, ReserveTask("t1", Reserved, Some("c1")), r1);
    RunStep(l1, ReserveChild("c1"), r2);
    RunStep(l2, SetTaskChild("t1", "c2"), r3);
    assert Occupied(l0) == 0;
    StepMovesByDelta(l0, ReserveTask("t1", Reserved, Some("c1")));
    assert Namers(l1, "c1") == {"t1"};
    StepMovesByDelta(l1, ReserveChild("c1"));
    StepMovesByDelta(l2, SetTaskChild("t1", "c2"));
  }

  // ------------------------------------------------------------- no self-deadlock

  /** Materializing a child some task names, or giving any slot back. */
  predicate OwnReservationOrRelease(l: Ledger, op: Op) {
    match op
    case ReserveChild(c) => Namers(l, c) != {}
    case ReleaseChild(_) => true
    case ReleaseTask(_) => true
    case _ => false
  }

  ghost predicate OwnReservationsAndReleases(l: Ledger, ops: seq<Op>)
    decreases |ops|
  {
    ops == [] || (OwnReservationOrRelease(l, ops[0]) && OwnReservationsAndReleases(Step(l, ops[0]), ops[1..]))
  }

  ghost predicate NoneRefused(l: Ledger, ops: seq<Op>)
    decreases |ops|
  {
    ops == [] || (!Refused(l, ops[0]) && NoneRefused(Step(l, ops[0]), ops[1..]))
  }

  /**
   * Reserved children materialize in any order, interleaved with any releases, without one
   * refusal and without occupancy ever rising, however full the host is.
   */
  lemma {:induction false} ReservationsNeverDeadlock(l: Ledger, ops: seq<Op>)
    requires NamesDistinct(l) && OwnReservationsAndReleases(l, ops)
    ensures NoneRefused(l, ops)
    ensures MostOccupied(l, ops) == Occupied(l)
    decreases |ops|
  {
    if ops != [] {
      var next := Step(l, ops[0]);
      StepMovesByDelta(l, ops[0]);
      match ops[0] {
        case ReserveChild(c) =>
          assert |Namers(l, c)| != 0;
        case ReleaseChild(c) => OneNamer(l, c);
        case _ =>
      }
      assert Occupied(next) <= Occupied(l);
      NamesStayDistinct(l, ops[0]);
      ReservationsNeverDeadlock(next, ops[1..]);
    }
  }

  /** The children these tasks reserved, materialized in this order. */
  function Materialize(l: Ledger, order: seq<string>): seq<Op>
    requires forall t :: t in order ==> t in l.tasks && l.tasks[t].childId.Some?
    decreases |order|
  {
    if order == [] then [] else [ReserveChild(l.tasks[order[0]].childId.value)] + Materialize(l, order[1..])
  }

  /** Whatever the order, every named child ends up live and occupancy is untouched. */
  lemma {:induction false} EveryReservationMaterializes(l: Ledger, order: seq<string>)
    requires NamesDistinct(l)
    requires forall t :: t in order ==> t in l.tasks && l.tasks[t].childId.Some?
    ensures NoneRefused(l, Materialize(l, order))
    ensures var end := Run(l, Materialize(l, order));
            && end.tasks == l.tasks && Occupied(end) == Occupied(l) && l.live.Keys <= end.live.Keys
            && forall t :: t in order ==> l.tasks[t].childId.value in end.live
    decreases |order|
  {
    if order != [] {
      var op := ReserveChild(l.tasks[order[0]].childId.value);
      var next := Step(l, op);
      StepMovesByDelta(l, op);
      OneNamer(l, op.childId);
      assert order[0] in Namers(l, op.childId);
      assert |Namers(l, op.childId)| == 1;
      assert Materialize(next, order[1..]) == Materialize(l, order[1..]) by {
        SameTasksSameOrder(l, next, order[1..]);
      }
      assert Materialize(l, order)[1..] == Materialize(l, order[1..]);
      EveryReservationMaterializes(next, order[1..]);
    }
  }

  lemma {:induction false} SameTasksSameOrder(l: Ledger, m: Ledger, order: seq<string>)
    requires l.tasks == m.tasks
    requires forall t :: t in order ==> t in l.tasks && l.tasks[t].childId.Some?
    ensures Materialize(l, order) == Materialize(m, order)
  {
    if order != [] {
      SameTasksSameOrder(l, m, order[1..]);
    }
  }

  // -------------------------------------------------------- the mounted listeners

  /** What the created listener reads off an agent. */
  datatype Agent = Agent(id: string, originSubagent: bool, depth: nat) {
    predicate SessionBackedChild() { originSubagent || depth > 0 }
  }

  datatype Verdict = Ignored | Admitted | HostFull | TooDeep | BadCeiling {
    predicate Rejects() { !Ignored? && !Admitted? }
  }

  function OnCreated(l: Ledger, agent: Agent, maxDepth: int): (Verdict, Ledger) {
    if !agent.SessionBackedChild() then (Ignored, l)
    else if maxDepth < 0 || maxDepth > MAX_SAFE_INTEGER then (BadCeiling, l)
    else if agent.depth > maxDepth then (TooDeep, Step(l, RefuseDepth))
    else if Refused(l, ReserveChild(agent.id)) then (HostFull, Step(l, ReserveChild(agent.id)))
    else (Admitted, Step(l, ReserveChild(agent.id)))
  }

  function OnDisposed(l: Ledger, agent: Agent): Ledger {
    Step(l, ReleaseChild(agent.id))
  }

  /**
   * A rejected creation is always followed by the rollback's disposal.  That pair leaves every
   * slot as it was if and only if the rejected id was not already live: a depth refusal of a
   * re-announced live child frees the live child's slot.
   */
  lemma RejectedCreationLeavesNoTrace(l: Ledger, agent: Agent, maxDepth: int)
    requires OnCreated(l, agent, maxDepth).0.Rejects()
    ensures var after := OnDisposed(OnCreated(l, agent, maxDepth).1, agent);
            after.live == l.live && after.tasks == l.tasks && after.high == l.high <==> agent.id !in l.live
  {
    if agent.id !in l.live {
      assert l.live - {agent.id} == l.live;
    }
  }

  /** No child beyond the ceiling is ever admitted, and no admission exceeds the cap. */
  lemma AdmittedMeansBounded(l: Ledger, agent: Agent, maxDepth: int)
    requires NamesDistinct(l) && Occupied(l) <= l.capacity
    requires OnCreated(l, agent, maxDepth).0 == Admitted
    ensures agent.depth <= maxDepth
    ensures agent.id in OnCreated(l, agent, maxDepth).1.live
    ensures Occupied(OnCreated(l, agent, maxDepth).1) <= l.capacity
  {
    CapKeptExactlyBySafeCalls(l, ReserveChild(agent.id));
  }

  /** Which agents the ledger counts: every one with a subagent origin or a depth, and no root session. */
  lemma OnlyRootsAreIgnored(l: Ledger, agent: Agent, maxDepth: int)
    ensures OnCreated(l, agent, maxDepth).0 == Ignored <==> !agent.originSubagent && agent.depth == 0
    ensures !agent.originSubagent && agent.depth == 0 ==> OnCreated(l, agent, maxDepth) == (Ignored, l)
  {
  }

  /** Some task's slot names this child. */
  ghost predicate IsNamed(l: Ledger, c: string) {
    exists t :: t in l.tasks && l.tasks[t].childId == Some(c)
  }

  lemma NamedMeansNamers(l: Ledger, c: string)
    ensures Namers(l, c) == {} <==> !IsNamed(l, c)
  {
    if IsNamed(l, c) {
      var t :| t in l.tasks && l.tasks[t].childId == Some(c);
      assert t in Namers(l, c);
    }
  }

  /**
   * What becomes of a child: an invalid ceiling is an error that moves nothing; then depth decides,
   * then room, and room is asked for only by a child that is not yet live and that no task named.
   */
  lemma ChildVerdictExactly(l: Ledger, agent: Agent, maxDepth: int)
    requires agent.originSubagent || agent.depth > 0
    ensures var (verdict, after) := OnCreated(l, agent, maxDepth);
            if !(0 <= maxDepth <= MAX_SAFE_INTEGER) then verdict == BadCeiling && after == l
            else if agent.depth > maxDepth then verdict == TooDeep && after == l.(depthRefusals := l.depthRefusals + 1)
            else if agent.id !in l.live && !IsNamed(l, agent.id) && |l.live| + |Unbacked(l.live, l.tasks)| >= l.capacity
            then verdict == HostFull && after == l.(capacityRefusals := l.capacityRefusals + 1)
            else verdict == Admitted
  {
    NamedMeansNamers(l, agent.id);
    assert |l.live| == |l.live.Keys|;
  }

  /** An admitted child is live, beside those that were; nothing else moves but the high-water mark. */
  lemma AdmittedIsLive(l: Ledger, agent: Agent, maxDepth: int)
    requires OnCreated(l, agent, maxDepth).0 == Admitted
    ensures var after := OnCreated(l, agent, maxDepth).1;
            && after.live == (if agent.id in l.live then l.live else l.live[agent.id := ActiveAssignment])
            && after.(live := l.live, high := l.high) == l
            && (if agent.id in l.live then after.high == l.high
                else l.high <= after.high && Occupied(after) <= after.high && after.high in {l.high, Occupied(after)})
  {
    if agent.id !in l.live {
      var placed := l.(live := l.live[agent.id := ActiveAssignment]);
      assert OnCreated(l, agent, maxDepth).1 == Observed(placed) && Occupied(Observed(placed)) == Occupied(placed);
    }
  }

  // ------------------------------------------------------------------ the object

  /** The tallies over the task slots visited so far. */
  ghost function CountIn(counted: set<string>, done: set<string>): nat { |counted * done| }

  lemma CountNone(counted: set<string>)
    ensures forall keys: set<string> :: CountIn(counted, keys - keys) == 0
  {
    forall keys: set<string> ensures CountIn(counted, keys - keys) == 0 {
      assert counted * (keys - keys) == {};
    }
  }

  /** Visiting one more key adds it to the tally exactly when it is counted. */
  lemma CountNext(counted: set<string>, keys: set<string>, remaining: set<string>, t: string)
    requires t in remaining && remaining <= keys
    ensures CountIn(counted, keys - (remaining - {t})) == CountIn(counted, keys - remaining) + One(t in counted)
  {
    var done := keys - remaining;
    assert keys - (remaining - {t}) == done + {t};
    if t in counted {
      assert counted * (done + {t}) == counted * done + {t};
    } else {
      assert counted * (done + {t}) == counted * done;
    }
  }

  lemma ClassOf(live: map<string, Bucket>, tasks: map<string, TaskSlot>, t: string)
    requires t in tasks
    ensures t in Unbacked(live, tasks) <==> !BackedBy(live, tasks[t])
    ensures t in Quarantined(tasks) <==> tasks[t].bucket == UnknownQuarantined
  {
  }

  lemma CountAll(counted: set<string>, done: set<string>)
    requires counted <= done
    ensures CountIn(counted, done) == |counted|
  {
    assert counted * done == counted;
  }

  datatype Refusal = HostCapacityReached(occupied: nat, capacity: int) | DepthCeilingExceeded(occupied: nat, capacity: int)

  datatype Tally = Tally(liveChildren: nat, unbackedReservations: nat, unknownQuarantined: nat, occupied: nat)

  class ChildAdmissionGate {
    const capacity: int
    var live: map<string, Bucket>
    var tasks: map<string, TaskSlot>
    var high: nat
    var capacityRefusals: nat
    var depthRefusals: nat

    ghost function State(): Ledger
      reads this
    {
      Ledger(capacity, live, tasks, high, capacityRefusals, depthRefusals)
    }

    constructor (capacity: int)
      requires 1 <= capacity <= MAX_SAFE_INTEGER
      ensures State() == Empty(capacity)
    {
      this.capacity := capacity;
      live, tasks, high := map[], map[], 0;
      capacityRefusals, depthRefusals := 0, 0;
    }

    /** The source's constructor with its TypeError: no gate for a capacity that is not a positive safe integer. */
    static method Open(capacity: int) returns (gate: ChildAdmissionGate?)
      ensures gate == null <==> !(1 <= capacity <= MAX_SAFE_INTEGER)
      ensures gate != null ==> fresh(gate) && gate.State() == Empty(capacity)
    {
      if 1 <= capacity <= MAX_SAFE_INTEGER {
        gate := new ChildAdmissionGate(capacity);
      } else {
        gate := null;
      }
    }

    method Classify() returns (tally: Tally)
      ensures tally == Tally(|live.Keys|, |Unbacked(live, tasks)|, |Quarantined(tasks)|, Occupied(State()))
    {
      var unbacked, quarantined := 0, 0;
      var remaining := tasks.Keys;
      ghost var within, held := Unbacked(live, tasks), Quarantined(tasks);
      CountNone(within);
      CountNone(held);
      while remaining != {}
        invariant remaining <= tasks.Keys
        invariant unbacked == CountIn(within, tasks.Keys - remaining)
        invariant quarantined == CountIn(held, tasks.Keys - remaining)
        decreases remaining
      {
        var t :| t in remaining;
        ClassOf(live, tasks, t);
        CountNext(held, tasks.Keys, remaining, t);
        CountNext(within, tasks.Keys, remaining, t);
        if tasks[t].bucket == UnknownQuarantined {
          quarantined := quarantined + 1;
        }
        if !BackedBy(live, tasks[t]) {
          unbacked := unbacked + 1;
        }
        remaining := remaining - {t};
      }
      CountAll(within, tasks.Keys - remaining);
      CountAll(held, tasks.Keys - remaining);
      tally := Tally(|live.Keys|, unbacked, quarantined, |live.Keys| + unbacked);
    }

    method ReservationFor(childId: string) returns (found: bool)
      ensures found <==> Namers(State(), childId) != {}
    {
      var remaining := tasks.Keys;
      while remaining != {}
        invariant remaining <= tasks.Keys
        invariant Namers(State(), childId) <= remaining
        decreases remaining
      {
        var t :| t in remaining;
        if tasks[t].childId == Some(childId) {
          assert t in Namers(State(), childId);
          return true;
        }
        remaining := remaining - {t};
      }
      return false;
    }

    method AssertRoom() returns (refusal: Option<Refusal>)
      modifies this`capacityRefusals
      ensures refusal.Some? <==> old(Full(State()))
      ensures refusal.Some? ==> refusal.value == HostCapacityReached(old(Occupied(State())), capacity)
      ensures capacityRefusals == old(capacityRefusals) + if refusal.Some? then 1 else 0
    {
      var tally := Classify();
      if tally.occupied < capacity {
        return None;
      }
      capacityRefusals := capacityRefusals + 1;
      return Some(HostCapacityReached(tally.occupied, capacity));
    }

    method ObserveHighWater()
      modifies this`high
      ensures State() == Observed(old(State()))
    {
      var tally := Classify();
      if tally.occupied > high {
        high := tally.occupied;
      }
    }

    method ReserveChild(childId: string) returns (r: Result<ChildSlotHandle, Refusal>)
      modifies this
      ensures State() == Step(old(State()), Op.ReserveChild(childId))
      ensures r.Ok? <==> !Refused(old(State()), Op.ReserveChild(childId))
      ensures r.Ok? ==> r.value.gate == this && r.value.childId == childId
    {
      if childId !in live {
        var named := ReservationFor(childId);
        if !named {
          var refusal := AssertRoom();
          if refusal.Some? {
            return Err(refusal.value);
          }
        }
        live := live[childId := ActiveAssignment];
        ObserveHighWater();
      }
      var handle := new ChildSlotHandle(this, childId);
      return Ok(handle);
    }

    method ReserveTask(taskId: string, bucket: Bucket, childId: Option<string>) returns (r: Result<TaskSlotHandle, Refusal>)
      modifies this
      ensures State() == Step(old(State()), Op.ReserveTask(taskId, bucket, childId))
      ensures r.Ok? <==> !Refused(old(State()), Op.ReserveTask(taskId, bucket, childId))
      ensures r.Ok? ==> r.value.gate == this && r.value.taskId == taskId
    {
      if taskId in tasks {
        var existing := tasks[taskId].(bucket := bucket);
        if childId.Some? {
          existing := existing.(childId := childId);
        }
        tasks := tasks[taskId := existing];
      } else {
        var refusal := AssertRoom();
        if refusal.Some? {
          return Err(refusal.value);
        }
        tasks := tasks[taskId := TaskSlot(bucket, childId)];
        ObserveHighWater();
      }
      var handle := new TaskSlotHandle(this, taskId);
      return Ok(handle);
    }

    method ReleaseChild(childId: string) returns (released: bool)
      modifies this`live
      ensures State() == Step(old(State()), Op.ReleaseChild(childId))
      ensures released <==> childId in old(live)
    {
      released := childId in live;
      live := live - {childId};
    }

    method ReleaseTask(taskId: string) returns (released: bool)
      modifies this`tasks
      ensures State() == Step(old(State()), Op.ReleaseTask(taskId))
      ensures released <==> taskId in old(tasks)
    {
      released := taskId in tasks;
      tasks := tasks - {taskId};
    }

    /** The created listener: depth first, then the slot. */
    method Created(agent: Agent, maxDepth: int) returns (verdict: Verdict)
      modifies this
      ensures (verdict, State()) == OnCreated(old(State()), agent, maxDepth)
    {
      if !agent.SessionBackedChild() {
        return Ignored;
      }
      if maxDepth < 0 || maxDepth > MAX_SAFE_INTEGER {
        return BadCeiling;
      }
      if agent.depth > maxDepth {
        depthRefusals := depthRefusals + 1;
        return TooDeep;
      }
      var slot := ReserveChild(agent.id);
      return if slot.Ok? then Admitted else HostFull;
    }

    method Disposed(agent: Agent)
      modifies this`live
      ensures State() == OnDisposed(old(State()), agent)
    {
      var _ := ReleaseChild(agent.id);
    }
  }

  /** A handle holds the ledger and an id, never an entry: writes land on the current entry. */
  class TaskSlotHandle {
    const gate: ChildAdmissionGate
    const taskId: string

    constructor (gate: ChildAdmissionGate, taskId: string)
      ensures this.gate == gate && this.taskId == taskId
    {
      this.gate, this.taskId := gate, taskId;
    }

    method Bucket() returns (bucket: Bucket)
      ensures bucket == if taskId in gate.tasks then gate.tasks[taskId].bucket else Reserved
    {
      bucket := if taskId in gate.tasks then gate.tasks[taskId].bucket else Reserved;
    }

    method SetBucket(bucket: Bucket)
      modifies gate
      ensures gate.State() == Step(old(gate.State()), SetTaskBucket(taskId, bucket))
    {
      if taskId in gate.tasks {
        gate.tasks := gate.tasks[taskId := gate.tasks[taskId].(bucket := bucket)];
        gate.ObserveHighWater();
      }
    }

    method SetChildId(childId: string)
      modifies gate
      ensures gate.State() == Step(old(gate.State()), SetTaskChild(taskId, childId))
    {
      if taskId in gate.tasks {
        gate.tasks := gate.tasks[taskId := gate.tasks[taskId].(childId := Some(childId))];
      }
    }

    method Release()
      modifies gate
      ensures gate.State() == Step(old(gate.State()), ReleaseTask(taskId))
    {
      var _ := gate.ReleaseTask(taskId);
    }
  }

  class ChildSlotHandle {
    const gate: ChildAdmissionGate
    const childId: string

    constructor (gate: ChildAdmissionGate, childId: string)
      ensures this.gate == gate && this.childId == childId
    {
      this.gate, this.childId := gate, childId;
    }

    method SetBucket(bucket: Bucket)
      modifies gate
      ensures gate.State() == Step(old(gate.State()), SetChildBucket(childId, bucket))
    {
      if childId in gate.live {
        gate.live := gate.live[childId := bucket];
      }
    }

    method Release()
      modifies gate
      ensures gate.State() == Step(old(gate.State()), ReleaseChild(childId))
    {
      var _ := gate.ReleaseChild(childId);
    }
  }
}
