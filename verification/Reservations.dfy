/**
 * Where a run's reserved credit belongs.  The record keeps one figure, `budget.reserved`, and each
 * task the cost it was last reserved at; what of the figure is whose is kept here beside it.
 */
module Reservations {
  import opened Wrappers
  import opened Counting
  import A = Admission

  datatype Books = Books(record: RunRecord, outstanding: map<string, real>)

  datatype Event =
    | Reserve(q: A.Request)
    | Move(m: A.Movement)
    | Spend(taskId: string, actualCost: real, release: bool)
    | Retain(taskId: string, amount: real)
    | Hold(amount: real)

  function Share(b: Books, id: string): real {
    if id in b.outstanding then b.outstanding[id] else 0.0
  }

  predicate Granted(b: Books, e: Event) {
    e.Reserve? && e.q.reservedCost >= 0.0 && A.RefusalOf(b.record, e.q).None?
  }

  /** The task whose reservation an event draws on, and how much it asks for. */
  function Drawn(record: RunRecord, e: Event): Option<(string, real)> {
    match e
    case Move(m) =>
      if A.IsLegal(record, m) && A.Releases(m) then Some((m.taskId, record.tasks[m.taskId].reservedCost)) else None
    case Spend(id, _, release) =>
      if id in record.tasks && release then Some((id, record.tasks[id].reservedCost)) else None
    case Retain(id, amount) =>
      if id in record.tasks then Some((id, MinReal(amount, record.tasks[id].reservedCost))) else None
    case _ => None
  }

  /** What leaves `budget.reserved`: no more than is there, whoever it belongs to. */
  function Taken(record: RunRecord, e: Event): real {
    var drawn := Drawn(record, e);
    if drawn.None? then 0.0 else MinReal(record.budget.reserved, MaxReal(0.0, drawn.value.1))
  }

  function RecordAfter(record: RunRecord, e: Event): RunRecord {
    match e
    case Reserve(q) => if q.reservedCost < 0.0 || A.RefusalOf(record, q).Some? then record else A.WithTask(record, q)
    case Move(m) => if A.IsLegal(record, m) then A.Moved(record, m) else record
    case Spend(id, cost, release) =>
      if id !in record.tasks || cost < 0.0 then record
      else
        var covering := record.tasks[id].reservedCost;
        record.(budget := ApplySpend(record.budget, if release then covering else 0.0, covering, cost))
    case Retain(id, amount) =>
      if id !in record.tasks || amount < 0.0 then record
      else record.(budget := RetainAsUnknown(record.budget, MinReal(amount, record.tasks[id].reservedCost)))
    case Hold(amount) => if amount < 0.0 then record else record.(budget := HoldUnknown(record.budget, amount))
  }

  /** An event the service throws on before it touches the record. */
  predicate Thrown(e: Event) {
    match e
    case Spend(_, cost, _) => cost < 0.0
    case Retain(_, amount) => amount < 0.0
    case _ => false
  }

  function Step(b: Books, e: Event): Books {
    var outstanding :=
      if Granted(b, e) then b.outstanding[e.q.taskId := Share(b, e.q.taskId) + e.q.reservedCost]
      else if !Thrown(e) && Drawn(b.record, e).Some? then
        var id := Drawn(b.record, e).value.0;
        b.outstanding[id := Share(b, id) - Taken(b.record, e)]
      else b.outstanding;
    Books(RecordAfter(b.record, e), outstanding)
  }

  /** A call the service throws on moves neither record nor books. */
  lemma ThrownChangesNothing(b: Books, id: string, amount: real, release: bool)
    requires amount < 0.0 || id !in b.record.tasks
    ensures Step(b, Spend(id, amount, release)) == b && Step(b, Retain(id, amount)) == b
    ensures amount < 0.0 ==> Step(b, Hold(amount)) == b
  {
  }

  /** A spend on a task is charged in full and measured against that task's own cost, which it gives back only if told to. */
  lemma SpendIsCharged(b: Books, id: string, cost: real, release: bool)
    requires id in b.record.tasks && b.record.tasks[id].reservedCost >= 0.0 && cost >= 0.0 && NonNegative(b.record.budget)
    ensures var (was, own) := (b.record.budget, b.record.tasks[id].reservedCost);
            var after := Step(b, Spend(id, cost, release)).record;
            && after.(budget := was) == b.record
            && after.budget.spent == was.spent + cost && after.budget.unknownReserved == was.unknownReserved
            && after.budget.reserved == (if !release then was.reserved else if own < was.reserved then was.reserved - own else 0.0)
            && (after.budget.halted <==> was.halted || cost > own)
            && after.budget.ceiling == was.ceiling && after.budget.rootReserve == was.rootReserve
  {
  }

  /** What is never learned stays committed: up to the task's cost it changes its name, and without a task it is added. */
  lemma UnknownStaysCommitted(b: Books, id: string, amount: real)
    requires id in b.record.tasks && b.record.tasks[id].reservedCost >= 0.0 && amount >= 0.0 && NonNegative(b.record.budget)
    ensures var was := b.record.budget;
            var kept, held := Step(b, Retain(id, amount)).record, Step(b, Hold(amount)).record;
            var moved := kept.budget.unknownReserved - was.unknownReserved;
            && kept == b.record.(budget := was.(reserved := was.reserved - moved, unknownReserved := was.unknownReserved + moved))
            && moved <= amount && moved <= b.record.tasks[id].reservedCost && moved <= was.reserved
            && (moved == amount || moved == b.record.tasks[id].reservedCost || moved == was.reserved)
            && held == b.record.(budget := was.(unknownReserved := was.unknownReserved + amount))
  {
  }

  // ------------------------------------------------------------------ adding it up

  ghost function Total(m: map<string, real>): real
    decreases m.Keys
  {
    if m == map[] then 0.0
    else
      var k :| k in m;
      assert (m - {k}).Keys < m.Keys;
      m[k] + Total(m - {k})
  }

  /** Any entry may be counted first. */
  lemma {:induction false} TotalWithout(m: map<string, real>, k: string)
    requires k in m
    ensures Total(m) == m[k] + Total(m - {k})
    decreases m.Keys
  {
    var j :| j in m && Total(m) == m[j] + Total(m - {j});
    if j != k {
      assert (m - {j}).Keys < m.Keys && (m - {k}).Keys < m.Keys;
      TotalWithout(m - {j}, k);
      TotalWithout(m - {k}, j);
      assert m - {j} - {k} == m - {k} - {j};
    }
  }

  lemma TotalUpdate(m: map<string, real>, k: string, v: real)
    ensures Total(m[k := v]) == Total(m) + v - (if k in m then m[k] else 0.0)
  {
    TotalWithout(m[k := v], k);
    assert m[k := v] - {k} == m - {k};
    if k in m {
      TotalWithout(m, k);
    } else {
      assert m - {k} == m;
    }
  }

  ghost predicate CostsAreNatural(record: RunRecord) {
    forall id :: id in record.tasks ==> record.tasks[id].reservedCost >= 0.0
  }

  /** Credit is neither made nor lost: the one figure is the sum of the shares. */
  ghost predicate Accounted(b: Books) {
    && CostsAreNatural(b.record) && b.record.budget.reserved >= 0.0
    && b.record.budget.reserved == Total(b.outstanding)
  }

  lemma ReservedMoves(b: Books, e: Event)
    requires CostsAreNatural(b.record) && b.record.budget.reserved >= 0.0
    ensures RecordAfter(b.record, e).budget.reserved
         == b.record.budget.reserved + (if Granted(b, e) then e.q.reservedCost else 0.0)
            - (if Thrown(e) then 0.0 else Taken(b.record, e))
  {
  }

  lemma StepKeepsAccounts(b: Books, e: Event)
    requires Accounted(b)
    ensures Accounted(Step(b, e))
  {
    ReservedMoves(b, e);
    StepKeepsCosts(b, e);
    if Granted(b, e) {
      TotalUpdate(b.outstanding, e.q.taskId, Share(b, e.q.taskId) + e.q.reservedCost);
    } else if !Thrown(e) && Drawn(b.record, e).Some? {
      var id := Drawn(b.record, e).value.0;
      TotalUpdate(b.outstanding, id, Share(b, id) - Taken(b.record, e));
    }
  }

  /** Every task's share is covered by the cost it stands at, so its own release can give it all back. */
  ghost predicate Covered(b: Books) {
    forall id :: id in b.outstanding ==>
      id in b.record.tasks && 0.0 <= b.outstanding[id] <= b.record.tasks[id].reservedCost
  }

  /** A task that still has credit outstanding is reserved anew: the earlier cost is overwritten. */
  predicate Strands(b: Books, e: Event) { Granted(b, e) && Share(b, e.q.taskId) > 0.0 }

  /** More leaves the reserved figure for a task than is its own: the rest is its siblings'. */
  predicate TakesFromSiblings(b: Books, e: Event) {
    !Thrown(e) && Drawn(b.record, e).Some? && Taken(b.record, e) > Share(b, Drawn(b.record, e).value.0)
  }

  lemma TasksKeepTheirCost(b: Books, e: Event, id: string)
    requires id in b.record.tasks && !(Granted(b, e) && e.q.taskId == id)
    ensures id in RecordAfter(b.record, e).tasks
    ensures RecordAfter(b.record, e).tasks[id].reservedCost == b.record.tasks[id].reservedCost
  {
  }

  lemma TakenIsNatural(record: RunRecord, e: Event)
    requires record.budget.reserved >= 0.0
    ensures Taken(record, e) >= 0.0
  {
  }

  /** Shares stay covered exactly unless a step strands a task's credit or takes a sibling's. */
  lemma CoverKeptExactly(b: Books, e: Event)
    requires Covered(b) && b.record.budget.reserved >= 0.0 && CostsAreNatural(b.record)
    ensures Covered(Step(b, e)) <==> !Strands(b, e) && !TakesFromSiblings(b, e)
  {
    var after := Step(b, e);
    TakenIsNatural(b.record, e);
    forall id | id in b.record.tasks && !(Granted(b, e) && e.q.taskId == id)
      ensures id in after.record.tasks && after.record.tasks[id].reservedCost == b.record.tasks[id].reservedCost
    {
      TasksKeepTheirCost(b, e, id);
    }
    if Granted(b, e) {
      assert e.q.taskId in after.outstanding;
    } else if !Thrown(e) && Drawn(b.record, e).Some? {
      assert Drawn(b.record, e).value.0 in after.outstanding;
    }
  }

  lemma StepKeepsCosts(b: Books, e: Event)
    requires CostsAreNatural(b.record)
    ensures CostsAreNatural(RecordAfter(b.record, e))
  {
  }

  function Run(b: Books, events: seq<Event>): Books
    decreases |events|
  {
    if events == [] then b else Run(Step(b, events[0]), events[1..])
  }

  /** Over every run the reserved figure is the sum of what the tasks have outstanding. */
  lemma {:induction false} RunsStayAccounted(b: Books, events: seq<Event>)
    requires Accounted(b)
    ensures Accounted(Run(b, events))
    decreases |events|
  {
    if events != [] {
      StepKeepsAccounts(b, events[0]);
      RunsStayAccounted(Step(b, events[0]), events[1..]);
    }
  }

  ghost predicate CoveredThroughout(b: Books, events: seq<Event>)
    decreases |events|
  {
    Covered(b) && (events == [] || CoveredThroughout(Step(b, events[0]), events[1..]))
  }

  predicate NeverStrays(b: Books, events: seq<Event>)
    decreases |events|
  {
    events == []
    || (!Strands(b, events[0]) && !TakesFromSiblings(b, events[0]) && NeverStrays(Step(b, events[0]), events[1..]))
  }

  /** Every share stays covered by its own task throughout a run if and only if no step strays. */
  lemma {:induction false} CoverOverRuns(b: Books, events: seq<Event>)
    requires Covered(b) && Accounted(b)
    ensures CoveredThroughout(b, events) <==> NeverStrays(b, events)
    decreases |events|
  {
    if events != [] {
      CoverKeptExactly(b, events[0]);
      StepKeepsAccounts(b, events[0]);
      if Covered(Step(b, events[0])) {
        CoverOverRuns(Step(b, events[0]), events[1..]);
      }
    }
  }

  // ---------------------------------------------------------------- the two ways to stray

  /** The record's own part of a run. */
  function RecordRun(record: RunRecord, events: seq<Event>): RunRecord
    decreases |events|
  {
    if events == [] then record else RecordRun(RecordAfter(record, events[0]), events[1..])
  }

  lemma {:induction false} RecordsRunAlone(b: Books, events: seq<Event>)
    ensures Run(b, events).record == RecordRun(b.record, events)
    decreases |events|
  {
    if events != [] {
      RecordsRunAlone(Step(b, events[0]), events[1..]);
    }
  }

  lemma RecordCons(r: RunRecord, e: Event, rest: seq<Event>)
    ensures RecordRun(r, [e] + rest) == RecordRun(RecordAfter(r, e), rest)
  {
    assert ([e] + rest)[1..] == rest;
  }

  /** An open run of target two with ten units, these tasks and this much reserved. */
  function Standing(tasks: map<string, Task>, reserved: real, tombstones: set<string>, generation: nat): RunRecord {
    RunRecord(Open, 2, tasks, Budget(0.0, reserved, 0.0, 10.0, None, None, false), tombstones, generation)
  }

  function Blank(): Books { Books(Standing(map[], 0.0, {}, 0), map[]) }

  function Ask(id: string): Event { Reserve(A.Request(id, id, 1.0, None)) }

  function Shift(id: string, to: AdmissionState, release: bool): Event { Move(A.Movement(id, to, Some(release), 0.0)) }

  lemma AskIsGranted(tasks: map<string, Task>, reserved: real, generation: nat, id: string)
    requires |Held(tasks)| <= 1 && id !in Held(tasks) && 0.0 <= reserved <= 5.0
    ensures RecordAfter(Standing(tasks, reserved, {}, generation), Ask(id))
         == Standing(tasks[id := Task(Prepared, id, 1.0, if id in tasks then tasks[id].attempt + 1 else 1)],
                     reserved + 1.0, {}, generation + 1)
  {
  }

  lemma ShiftMoves(tasks: map<string, Task>, reserved: real, generation: nat, id: string, to: AdmissionState, release: bool)
    requires id in tasks && CanTransition(tasks[id].state, to) && tasks[id].reservedCost == 1.0 <= reserved
    ensures RecordAfter(Standing(tasks, reserved, {}, generation), Shift(id, to, release))
         == Standing(tasks[id := tasks[id].(state := to)], if release then reserved - 1.0 else reserved,
                     if to == Confirmed || to == Cancelled then {id} else {}, generation)
  {
  }

  /** A task completes and is reserved again; confirming it gives back one cost, and the other stays for ever. */
  lemma ReservingAgainStrands()
    ensures var events := [Ask("t")] + ([Shift("t", Unknown, false)] + ([Shift("t", Completed, false)] + ([Ask("t")]
                          + ([Shift("t", Unknown, false)] + ([Shift("t", Confirmed, true)] + [])))));
            Run(Blank(), events).record == Standing(map["t" := Task(Confirmed, "t", 1.0, 2)], 1.0, {"t"}, 2)
  {
    var e6 := [Shift("t", Confirmed, true)] + [];
    var e5 := [Shift("t", Unknown, false)] + e6;
    var e4 := [Ask("t")] + e5;
    var e3 := [Shift("t", Completed, false)] + e4;
    var e2 := [Shift("t", Unknown, false)] + e3;
    RecordsRunAlone(Blank(), [Ask("t")] + e2);
    var none: map<string, Task> := map[];
    var done := map["t" := Task(Completed, "t", 1.0, 1)];
    assert Held(none) == {} && Held(done) == {};
    AskIsGranted(none, 0.0, 0, "t");
    StrandedTail(done, e4, e5, e6);
    ToCompleted(e2, e3, e4);
    RecordCons(Standing(none, 0.0, {}, 0), Ask("t"), e2);
  }

  lemma ToCompleted(e2: seq<Event>, e3: seq<Event>, e4: seq<Event>)
    requires e2 == [Shift("t", Unknown, false)] + e3 && e3 == [Shift("t", Completed, false)] + e4
    ensures RecordRun(Standing(map["t" := Task(Prepared, "t", 1.0, 1)], 1.0, {}, 1), e2)
         == RecordRun(Standing(map["t" := Task(Completed, "t", 1.0, 1)], 1.0, {}, 1), e4)
  {
    var prepared := map["t" := Task(Prepared, "t", 1.0, 1)];
    var doubted := map["t" := Task(Unknown, "t", 1.0, 1)];
    ShiftMoves(prepared, 1.0, 1, "t", Unknown, false);
    ShiftMoves(doubted, 1.0, 1, "t", Completed, false);
    assert prepared["t" := Task(Unknown, "t", 1.0, 1)] == doubted;
    assert doubted["t" := Task(Completed, "t", 1.0, 1)] == map["t" := Task(Completed, "t", 1.0, 1)];
    RecordCons(Standing(prepared, 1.0, {}, 1), Shift("t", Unknown, false), e3);
    RecordCons(Standing(doubted, 1.0, {}, 1), Shift("t", Completed, false), e4);
  }

  lemma StrandedTail(done: map<string, Task>, e4: seq<Event>, e5: seq<Event>, e6: seq<Event>)
    requires done == map["t" := Task(Completed, "t", 1.0, 1)] && Held(done) == {}
    requires e4 == [Ask("t")] + e5 && e5 == [Shift("t", Unknown, false)] + e6 && e6 == [Shift("t", Confirmed, true)] + []
    ensures RecordRun(Standing(done, 1.0, {}, 1), e4) == Standing(map["t" := Task(Confirmed, "t", 1.0, 2)], 1.0, {"t"}, 2)
  {
    var again := map["t" := Task(Prepared, "t", 1.0, 2)];
    var doubted := map["t" := Task(Unknown, "t", 1.0, 2)];
    var confirmed := map["t" := Task(Confirmed, "t", 1.0, 2)];
    assert done["t" := Task(Prepared, "t", 1.0, 2)] == again;
    assert again["t" := Task(Unknown, "t", 1.0, 2)] == doubted;
    assert doubted["t" := Task(Confirmed, "t", 1.0, 2)] == confirmed;
    AskIsGranted(done, 1.0, 1, "t");
    ShiftMoves(again, 2.0, 2, "t", Unknown, false);
    ShiftMoves(doubted, 2.0, 2, "t", Confirmed, true);
    RecordCons(Standing(done, 1.0, {}, 1), Ask("t"), e5);
    RecordCons(Standing(again, 2.0, {}, 2), Shift("t", Unknown, false), e6);
    RecordCons(Standing(doubted, 2.0, {}, 2), Shift("t", Confirmed, true), []);
  }

  /** A completed task is released early and released again when confirmed: the second release is its sibling's credit. */
  lemma ReleasingTwiceTakesASiblings()
    ensures var events := [Ask("a")] + ([Ask("b")] + ([Shift("a", Unknown, false)] + ([Shift("a", Completed, true)]
                          + ([Shift("a", Confirmed, true)] + []))));
            Run(Blank(), events).record ==
              Standing(map["a" := Task(Confirmed, "a", 1.0, 1), "b" := Task(Prepared, "b", 1.0, 1)], 0.0, {"a"}, 2)
  {
    var e5 := [Shift("a", Confirmed, true)] + [];
    var e4 := [Shift("a", Completed, true)] + e5;
    var e3 := [Shift("a", Unknown, false)] + e4;
    var e2 := [Ask("b")] + e3;
    RecordsRunAlone(Blank(), [Ask("a")] + e2);
    var none: map<string, Task> := map[];
    var one := map["a" := Task(Prepared, "a", 1.0, 1)];
    var two := map["a" := Task(Prepared, "a", 1.0, 1), "b" := Task(Prepared, "b", 1.0, 1)];
    assert Held(none) == {} && Held(one) == {"a"};
    AskIsGranted(none, 0.0, 0, "a");
    AskIsGranted(one, 1.0, 1, "b");
    assert one["b" := Task(Prepared, "b", 1.0, 1)] == two;
    RecordCons(Standing(none, 0.0, {}, 0), Ask("a"), e2);
    RecordCons(Standing(one, 1.0, {}, 1), Ask("b"), e3);
    ReleasedTwice(two, e3, e4, e5);
  }

  lemma ReleasedTwice(two: map<string, Task>, e3: seq<Event>, e4: seq<Event>, e5: seq<Event>)
    requires two == map["a" := Task(Prepared, "a", 1.0, 1), "b" := Task(Prepared, "b", 1.0, 1)]
    requires e3 == [Shift("a", Unknown, false)] + e4 && e4 == [Shift("a", Completed, true)] + e5
    requires e5 == [Shift("a", Confirmed, true)] + []
    ensures RecordRun(Standing(two, 2.0, {}, 2), e3)
         == Standing(map["a" := Task(Confirmed, "a", 1.0, 1), "b" := Task(Prepared, "b", 1.0, 1)], 0.0, {"a"}, 2)
  {
    var doubted := two["a" := Task(Unknown, "a", 1.0, 1)];
    var done := doubted["a" := Task(Completed, "a", 1.0, 1)];
    ShiftMoves(two, 2.0, 2, "a", Unknown, false);
    ShiftMoves(doubted, 2.0, 2, "a", Completed, true);
    ShiftMoves(done, 1.0, 2, "a", Confirmed, true);
    assert done["a" := Task(Confirmed, "a", 1.0, 1)]
        == map["a" := Task(Confirmed, "a", 1.0, 1), "b" := Task(Prepared, "b", 1.0, 1)];
    RecordCons(Standing(two, 2.0, {}, 2), Shift("a", Unknown, false), e4);
    RecordCons(Standing(doubted, 2.0, {}, 2), Shift("a", Completed, true), e5);
    RecordCons(Standing(done, 1.0, {}, 2), Shift("a", Confirmed, true), []);
  }

  /** One task's usage is given up as unknown twice: the second time its sibling's credit is moved. */
  lemma RetainingTwiceTakesASiblings()
    ensures var events := [Ask("a")] + ([Ask("b")] + ([Retain("a", 1.0)] + ([Retain("a", 1.0)] + [])));
            var end := Run(Blank(), events).record;
            && "b" in end.tasks && end.tasks["b"] == Task(Prepared, "b", 1.0, 1)
            && end.budget.reserved == 0.0 && end.budget.unknownReserved == 2.0
  {
    var e4 := [Retain("a", 1.0)] + [];
    var e3 := [Retain("a", 1.0)] + e4;
    var e2 := [Ask("b")] + e3;
    RecordsRunAlone(Blank(), [Ask("a")] + e2);
    var none: map<string, Task> := map[];
    var one := map["a" := Task(Prepared, "a", 1.0, 1)];
    assert Held(none) == {} && Held(one) == {"a"};
    AskIsGranted(none, 0.0, 0, "a");
    AskIsGranted(one, 1.0, 1, "b");
    RecordCons(Standing(none, 0.0, {}, 0), Ask("a"), e2);
    RecordCons(Standing(one, 1.0, {}, 1), Ask("b"), e3);
    RetainedTwice(Standing(one["b" := Task(Prepared, "b", 1.0, 1)], 2.0, {}, 2), e3, e4);
  }

  lemma RetainedTwice(r: RunRecord, e3: seq<Event>, e4: seq<Event>)
    requires "a" in r.tasks && r.tasks["a"].reservedCost == 1.0
    requires r.budget.reserved == 2.0 && r.budget.unknownReserved == 0.0
    requires e3 == [Retain("a", 1.0)] + e4 && e4 == [Retain("a", 1.0)] + []
    ensures var end := RecordRun(r, e3);
            end.tasks == r.tasks && end.budget.reserved == 0.0 && end.budget.unknownReserved == 2.0
  {
    RecordCons(r, Retain("a", 1.0), e4);
    RecordCons(RecordAfter(r, Retain("a", 1.0)), Retain("a", 1.0), []);
  }
}
