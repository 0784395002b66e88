/**
 * `mapBounded`: a fixed set of workers share a cursor, a first failure and a result table.
 * A worker's code between two awaits is one step; the steps of different workers interleave
 * in every order.  What each call of the body would come to is the table `body`.
 */
module MapBounded {
  import opened Wrappers

  /** A rejection value as `??=` sees it: undefined and null are its two nullish values. */
  datatype Reason<E> = Undefined | Null | Value(value: E)

  datatype Outcome<R, E> = Returned(value: R) | Rejected(reason: Reason<E>)

  datatype Worker = Fresh | Running(index: nat) | Done

  /** `started` and `settled` record the order of events; the code keeps only the rest. */
  datatype State<R, E> = State(
    body: seq<Outcome<R, E>>,
    cursor: nat,
    failure: Reason<E>,
    results: seq<Option<R>>,
    workers: seq<Worker>,
    started: seq<nat>,
    settled: seq<nat>)

  datatype Event = Start(worker: nat) | Settle(worker: nat)

  function Width(limit: int, n: nat): nat {
    if limit < 0 then 0 else if limit < n then limit else n
  }

  function Init<R, E>(body: seq<Outcome<R, E>>, limit: int): State<R, E> {
    State(body, 0, Undefined, seq(|body|, _ => None), seq(Width(limit, |body|), _ => Fresh), [], [])
  }

  /** `failure ??= reason`. */
  function Coalesce<E>(failure: Reason<E>, reason: Reason<E>): Reason<E> {
    if failure.Value? then failure else reason
  }

  /** The top of the worker's loop: take the next index, and stop or start its body. */
  function Advance<R, E>(s: State<R, E>, w: nat): State<R, E>
    requires w < |s.workers|
  {
    var next := s.(cursor := s.cursor + 1);
    if s.cursor >= |s.body| || s.failure != Undefined then next.(workers := s.workers[w := Done])
    else next.(workers := s.workers[w := Running(s.cursor)], started := s.started + [s.cursor])
  }

  predicate Enabled<R, E>(s: State<R, E>, e: Event) {
    && e.worker < |s.workers|
    && match e
       case Start(w) => s.workers[w] == Fresh
       case Settle(w) => s.workers[w].Running? && s.workers[w].index < |s.body| == |s.results|
  }

  function Step<R, E>(s: State<R, E>, e: Event): State<R, E>
    requires Enabled(s, e)
  {
    match e
    case Start(w) => Advance(s, w)
    case Settle(w) =>
      var i := s.workers[w].index;
      var after := s.(settled := s.settled + [i]);
      match s.body[i]
      case Returned(value) => Advance(after.(results := s.results[i := Some(value)]), w)
      case Rejected(reason) =>
        after.(failure := Coalesce(s.failure, reason), workers := s.workers[w := Done])
  }

  ghost predicate EnabledRun<R, E>(s: State<R, E>, events: seq<Event>)
    decreases |events|
  {
    events == [] || (Enabled(s, events[0]) && EnabledRun(Step(s, events[0]), events[1..]))
  }

  function Run<R, E>(s: State<R, E>, events: seq<Event>): State<R, E>
    requires EnabledRun(s, events)
    decreases |events|
  {
    if events == [] then s else Run(Step(s, events[0]), events[1..])
  }

  predicate Finished<R, E>(s: State<R, E>) {
    forall w :: 0 <= w < |s.workers| ==> s.workers[w].Done?
  }

  /** What the call comes to once every worker returned. */
  datatype Conclusion<R, E> = Throws(reason: Reason<E>) | Returns(results: seq<Option<R>>)

  function Concluded<R, E>(s: State<R, E>): Conclusion<R, E> {
    if s.failure != Undefined then Throws(s.failure) else Returns(s.results)
  }

  // ------------------------------------------------------------ the shared state

  /** The variables the worker closures share. */
  class BoundedMap<R(==), E(==)> {
    const body: seq<Outcome<R, E>>
    var cursor: nat
    var failure: Reason<E>
    var results: seq<Option<R>>
    var workers: seq<Worker>
    ghost var started: seq<nat>
    ghost var settled: seq<nat>

    ghost function Model(): State<R, E>
      reads this
    {
      State(body, cursor, failure, results, workers, started, settled)
    }

    constructor (body: seq<Outcome<R, E>>, limit: int)
      ensures Model() == Init(body, limit)
    {
      this.body := body;
      cursor, failure := 0, Undefined;
      results := seq(|body|, _ => None);
      workers := seq(Width(limit, |body|), _ => Fresh);
      started, settled := [], [];
    }

    method TakeNext(w: nat)
      requires w < |workers|
      modifies this
      ensures Model() == Advance(old(Model()), w)
    {
      var index := cursor;
      cursor := cursor + 1;
      if index >= |body| {
        workers := workers[w := Done];
      } else if failure != Undefined {
        workers := workers[w := Done];
      } else {
        workers := workers[w := Running(index)];
        started := started + [index];
      }
    }

    method StartWorker(w: nat)
      requires Enabled(Model(), Start(w))
      modifies this
      ensures Model() == Step(old(Model()), Start(w))
    {
      TakeNext(w);
    }

    method SettleBody(w: nat)
      requires Enabled(Model(), Settle(w))
      modifies this
      ensures Model() == Step(old(Model()), Settle(w))
    {
      var index := workers[w].index;
      settled := settled + [index];
      match body[index]
      case Returned(value) =>
        results := results[index := Some(value)];
        TakeNext(w);
      case Rejected(reason) =>
        if !failure.Value? {
          failure := reason;
        }
        workers := workers[w := Done];
    }
  }

  // ------------------------------------------------------------ every interleaving

  function RunningCount(workers: seq<Worker>): nat {
    if workers == [] then 0 else (if workers[0].Running? then 1 else 0) + RunningCount(workers[1..])
  }

  function LiveCount(workers: seq<Worker>): nat {
    if workers == [] then 0 else (if workers[0].Done? then 0 else 1) + LiveCount(workers[1..])
  }

  lemma {:induction false} CountsAfterUpdate(workers: seq<Worker>, w: nat, to: Worker)
    requires w < |workers|
    ensures RunningCount(workers[w := to]) + (if workers[w].Running? then 1 else 0)
         == RunningCount(workers) + (if to.Running? then 1 else 0)
    ensures LiveCount(workers[w := to]) + (if workers[w].Done? then 0 else 1)
         == LiveCount(workers) + (if to.Done? then 0 else 1)
  {
    if w == 0 {
      assert workers[w := to][1..] == workers[1..];
    } else {
      CountsAfterUpdate(workers[1..], w - 1, to);
      assert workers[w := to][1..] == workers[1..][w - 1 := to];
    }
  }

  lemma {:induction false} RunningAtMostAll(workers: seq<Worker>)
    ensures RunningCount(workers) <= LiveCount(workers) <= |workers|
    ensures LiveCount(workers) == 0 ==> forall w :: 0 <= w < |workers| ==> workers[w].Done?
  {
    if workers != [] {
      RunningAtMostAll(workers[1..]);
      assert forall w :: 0 < w < |workers| ==> workers[w] == workers[1..][w - 1];
    }
  }

  ghost predicate Below(s: seq<nat>, n: nat) {
    forall k :: 0 <= k < |s| ==> s[k] < n
  }

  /** The reason `??=` has kept after these settlements. */
  function KeptReason<R, E>(body: seq<Outcome<R, E>>, settled: seq<nat>): Reason<E>
    requires Below(settled, |body|)
  {
    if settled == [] then Undefined
    else
      var before := KeptReason(body, settled[..|settled| - 1]);
      match body[settled[|settled| - 1]]
      case Returned(_) => before
      case Rejected(reason) => Coalesce(before, reason)
  }

  ghost predicate Increasing(s: seq<nat>) {
    forall i, j :: 0 <= i < j < |s| ==> s[i] < s[j]
  }

  ghost predicate RunBySomeone(workers: seq<Worker>, i: nat) {
    exists w :: 0 <= w < |workers| && workers[w] == Running(i)
  }

  /** A worker change leaves alone whoever runs the other indices. */
  lemma OthersStillRun(workers: seq<Worker>, w: nat, to: Worker, i: nat)
    requires w < |workers| && RunBySomeone(workers, i) && workers[w] != Running(i)
    ensures RunBySomeone(workers[w := to], i)
  {
    var v :| 0 <= v < |workers| && workers[v] == Running(i);
    assert workers[w := to][v] == Running(i);
  }

  /**
   * Every reachable state: indices start in increasing order (so at most once), exactly the
   * started and unsettled ones are running, each worker runs a different one, and results
   * hold exactly what settled bodies returned.
   */
  ghost predicate Inv<R, E>(s: State<R, E>, limit: int) {
    && |s.results| == |s.body| && |s.workers| == Width(limit, |s.body|)
    && Increasing(s.started)
    && Below(s.started, s.cursor) && Below(s.started, |s.body|) && Below(s.settled, |s.body|)
    && (forall i :: i in s.settled ==> i in s.started)
    && (forall i :: i in s.started && i !in s.settled ==> RunBySomeone(s.workers, i))
    && |s.started| == |s.settled| + RunningCount(s.workers)
    && (forall w :: 0 <= w < |s.workers| && s.workers[w].Running?
          ==> s.workers[w].index in s.started && s.workers[w].index !in s.settled)
    && (forall v, w :: 0 <= v < w < |s.workers| && s.workers[v].Running? && s.workers[w].Running?
          ==> s.workers[v].index != s.workers[w].index)
    && (forall i :: 0 <= i < |s.body|
          ==> s.results[i] == if i in s.settled && s.body[i].Returned? then Some(s.body[i].value) else None)
    && s.failure == KeptReason(s.body, s.settled)
  }

  lemma InitInv<R, E>(body: seq<Outcome<R, E>>, limit: int)
    ensures Inv(Init(body, limit), limit)
  {
    NobodyRuns(Init(body, limit).workers);
  }

  lemma {:induction false} NobodyRuns(workers: seq<Worker>)
    requires forall w :: 0 <= w < |workers| ==> workers[w].Fresh?
    ensures RunningCount(workers) == 0 && LiveCount(workers) == |workers|
  {
    if workers != [] {
      NobodyRuns(workers[1..]);
    }
  }

  lemma AdvanceKeepsInv<R, E>(s: State<R, E>, w: nat, limit: int)
    requires w < |s.workers| && !s.workers[w].Running? && Inv(s, limit)
    ensures Inv(Advance(s, w), limit)
  {
    var next := Advance(s, w);
    CountsAfterUpdate(s.workers, w, next.workers[w]);
    forall i | i in next.started && i !in next.settled
      ensures RunBySomeone(next.workers, i)
    {
      if i in s.started {
        OthersStillRun(s.workers, w, next.workers[w], i);
      } else {
        assert next.workers[w] == Running(i);
      }
    }
  }

  lemma SettledKeepsInv<R, E>(s: State<R, E>, w: nat, limit: int, next: State<R, E>)
    requires Inv(s, limit) && Enabled(s, Settle(w))
    requires var i := s.workers[w].index;
             && next.(results := s.results, failure := s.failure)
                == s.(settled := s.settled + [i], workers := s.workers[w := Done])
             && match s.body[i]
                case Returned(value) => next.results == s.results[i := Some(value)] && next.failure == s.failure
                case Rejected(reason) => next.results == s.results && next.failure == Coalesce(s.failure, reason)
    ensures Inv(next, limit)
  {
    var i := s.workers[w].index;
    CountsAfterUpdate(s.workers, w, Done);
    forall j | j in next.started && j !in next.settled
      ensures RunBySomeone(next.workers, j)
    {
      assert i in next.settled by {
        assert next.settled[|s.settled|] == i;
      }
      OthersStillRun(s.workers, w, Done, j);
    }
    assert next.settled[..|next.settled| - 1] == s.settled;
  }

  lemma StepKeepsInv<R, E>(s: State<R, E>, e: Event, limit: int)
    requires Inv(s, limit) && Enabled(s, e)
    ensures Inv(Step(s, e), limit)
  {
    match e
    case Start(w) => AdvanceKeepsInv(s, w, limit);
    case Settle(w) =>
      var i := s.workers[w].index;
      var done := s.(settled := s.settled + [i], workers := s.workers[w := Done]);
      match s.body[i] {
        case Returned(value) =>
          done := done.(results := s.results[i := Some(value)]);
          SettledKeepsInv(s, w, limit, done);
          AdvanceKeepsInv(done, w, limit);
          assert s.workers[w := Done][w := Step(s, e).workers[w]] == s.workers[w := Step(s, e).workers[w]];
          assert Step(s, e) == Advance(done, w);
        case Rejected(reason) =>
          done := done.(failure := Coalesce(s.failure, reason));
          SettledKeepsInv(s, w, limit, done);
          assert Step(s, e) == done;
      }
  }

  lemma {:induction false} RunKeepsInv<R, E>(s: State<R, E>, events: seq<Event>, limit: int)
    requires Inv(s, limit) && EnabledRun(s, events)
    ensures Inv(Run(s, events), limit)
    ensures Run(s, events).body == s.body
    decreases |events|
  {
    if events != [] {
      StepKeepsInv(s, events[0], limit);
      RunKeepsInv(Step(s, events[0]), events[1..], limit);
    }
  }

  /** Bodies in flight never exceed min(limit, n): they are the started, unsettled indices. */
  lemma InFlightIsBounded<R, E>(s: State<R, E>, limit: int)
    requires Inv(s, limit)
    ensures |s.started| - |s.settled| <= Width(limit, |s.body|)
  {
    RunningAtMostAll(s.workers);
  }

  // ---------------------------------------------------------------- termination

  function Measure<R, E>(s: State<R, E>): nat {
    (if s.cursor < |s.body| then |s.body| - s.cursor else 0) + LiveCount(s.workers)
  }

  lemma EveryStepDecreases<R, E>(s: State<R, E>, e: Event)
    requires Enabled(s, e)
    ensures Measure(Step(s, e)) < Measure(s)
  {
    CountsAfterUpdate(s.workers, e.worker, Step(s, e).workers[e.worker]);
  }

  /** No schedule is longer than n plus the number of workers. */
  lemma {:induction false} RunsAreBounded<R, E>(s: State<R, E>, events: seq<Event>)
    requires EnabledRun(s, events)
    ensures |events| + Measure(Run(s, events)) <= Measure(s)
    decreases |events|
  {
    if events != [] {
      EveryStepDecreases(s, events[0]);
      RunsAreBounded(Step(s, events[0]), events[1..]);
    }
  }

  /** A state nothing can move in is one where every worker returned. */
  lemma StuckOnlyWhenFinished<R, E>(s: State<R, E>, limit: int)
    requires Inv(s, limit)
    requires forall w: nat :: !Enabled(s, Start(w)) && !Enabled(s, Settle(w))
    ensures Finished(s)
  {
    forall w | 0 <= w < |s.workers|
      ensures s.workers[w].Done?
    {
      assert !Enabled(s, Start(w)) && !Enabled(s, Settle(w));
    }
  }

  // ------------------------------------------------ with reasons that are not nullish

  ghost predicate NoNullish<R, E>(body: seq<Outcome<R, E>>) {
    forall i :: 0 <= i < |body| && body[i].Rejected? ==> body[i].reason.Value?
  }

  /** The rejection reasons in the order they happened. */
  function Reasons<R, E>(body: seq<Outcome<R, E>>, settled: seq<nat>): seq<Reason<E>>
    requires Below(settled, |body|)
  {
    if settled == [] then []
    else
      Reasons(body, settled[..|settled| - 1])
      + match body[settled[|settled| - 1]]
        case Returned(_) => []
        case Rejected(reason) => [reason]
  }

  function Kept<E>(reasons: seq<Reason<E>>): Reason<E> {
    if reasons == [] then Undefined
    else Coalesce(Kept(reasons[..|reasons| - 1]), reasons[|reasons| - 1])
  }

  lemma {:induction false} KeptReasonOfReasons<R, E>(body: seq<Outcome<R, E>>, settled: seq<nat>)
    requires Below(settled, |body|)
    ensures KeptReason(body, settled) == Kept(Reasons(body, settled))
  {
    if settled != [] {
      var before := Reasons(body, settled[..|settled| - 1]);
      KeptReasonOfReasons(body, settled[..|settled| - 1]);
      match body[settled[|settled| - 1]] {
        case Returned(_) => assert Reasons(body, settled) == before;
        case Rejected(reason) => assert Reasons(body, settled)[..|before|] == before;
      }
    }
  }

  /** `??=` keeps the first non-nullish reason, or the last reason when all are nullish. */
  lemma {:induction false} KeptIsFirstValueOrLast<E>(reasons: seq<Reason<E>>)
    requires reasons != []
    ensures (exists i :: 0 <= i < |reasons| && reasons[i].Value? && reasons[i] == Kept(reasons)
                         && forall j :: 0 <= j < i ==> !reasons[j].Value?)
         || ((forall i :: 0 <= i < |reasons| ==> !reasons[i].Value?) && Kept(reasons) == reasons[|reasons| - 1])
  {
    var before := reasons[..|reasons| - 1];
    if before != [] {
      KeptIsFirstValueOrLast(before);
      if i :| 0 <= i < |before| && before[i].Value? && before[i] == Kept(before) && forall j :: 0 <= j < i ==> !before[j].Value? {
        assert reasons[i] == before[i];
      }
    }
  }

  /**
   * The call throws the rejection that came first in time if and only if that one is not
   * nullish, or no rejection is non-nullish and the last one is null like the first.
   */
  lemma ThrowsTheFirstExactly<R, E>(s: State<R, E>, limit: int)
    requires Inv(s, limit)
    requires Reasons(s.body, s.settled) != []
    ensures var reasons := Reasons(s.body, s.settled);
            Concluded(s) == Throws(reasons[0]) <==>
            || reasons[0].Value?
            || (reasons[0].Null? && reasons[|reasons| - 1].Null? && forall i :: 0 <= i < |reasons| ==> !reasons[i].Value?)
  {
    var reasons := Reasons(s.body, s.settled);
    KeptReasonOfReasons(s.body, s.settled);
    KeptIsFirstValueOrLast(reasons);
  }

  /** A rejection with `undefined` is lost: one item, one rejection, and the call returns. */
  lemma UndefinedRejectionIsLost()
    ensures var s := Init<int, int>([Rejected(Undefined)], 1);
            && EnabledRun(s, [Start(0), Settle(0)])
            && Finished(Run(s, [Start(0), Settle(0)]))
            && Concluded(Run(s, [Start(0), Settle(0)])) == Returns([None])
  {
    var s := Init<int, int>([Rejected(Undefined)], 1);
    var s1 := Step(s, Start(0));
    var s2 := Step(s1, Settle(0));
    assert [Start(0), Settle(0)][1..] == [Settle(0)];
    assert EnabledRun(s2, []) && Run(s2, []) == s2;
    assert EnabledRun(s1, [Settle(0)]) && Run(s1, [Settle(0)]) == s2;
    assert s2.results == [None];
  }

  lemma {:induction false} ReasonsAreValues<R, E>(body: seq<Outcome<R, E>>, settled: seq<nat>)
    requires Below(settled, |body|)
    requires NoNullish(body)
    ensures forall i :: 0 <= i < |Reasons(body, settled)| ==> Reasons(body, settled)[i].Value?
    ensures Reasons(body, settled) == [] <==> forall i :: i in settled ==> body[i].Returned?
  {
    if settled != [] {
      ReasonsAreValues(body, settled[..|settled| - 1]);
      assert settled == settled[..|settled| - 1] + [settled[|settled| - 1]];
    }
  }

  /** Until a body rejects, indices start one after the other with no gap. */
  ghost predicate NoGaps<R, E>(s: State<R, E>) {
    s.failure == Undefined ==> |s.started| == if s.cursor < |s.body| then s.cursor else |s.body|
  }

  /** A worker stops only at the end of the input or after a rejection. */
  ghost predicate StopsForAReason<R, E>(s: State<R, E>) {
    forall w :: 0 <= w < |s.workers| && s.workers[w].Done? ==> s.cursor >= |s.body| || s.failure != Undefined
  }

  lemma StepKeepsNoGaps<R, E>(s: State<R, E>, e: Event, limit: int)
    requires Inv(s, limit) && Enabled(s, e) && NoNullish(s.body) && NoGaps(s) && StopsForAReason(s)
    ensures NoGaps(Step(s, e)) && StopsForAReason(Step(s, e))
    ensures s.failure != Undefined ==> Step(s, e).started == s.started && Step(s, e).failure == s.failure
  {
    KeptReasonOfReasons(s.body, s.settled);
    ReasonsAreValues(s.body, s.settled);
    if Reasons(s.body, s.settled) != [] {
      KeptIsFirstValueOrLast(Reasons(s.body, s.settled));
    }
  }

  /** After the first rejection no body ever starts, and what will be thrown is settled. */
  lemma {:induction false} NothingStartsAfterFailure<R, E>(s: State<R, E>, events: seq<Event>, limit: int)
    requires Inv(s, limit) && NoNullish(s.body) && NoGaps(s) && StopsForAReason(s) && EnabledRun(s, events)
    ensures NoGaps(Run(s, events)) && StopsForAReason(Run(s, events))
    ensures s.failure != Undefined ==> Run(s, events).started == s.started && Run(s, events).failure == s.failure
    decreases |events|
  {
    if events != [] {
      StepKeepsInv(s, events[0], limit);
      StepKeepsNoGaps(s, events[0], limit);
      NothingStartsAfterFailure(Step(s, events[0]), events[1..], limit);
    }
  }

  lemma IncreasingCoversAll(s: seq<nat>, n: nat)
    requires Increasing(s) && |s| == n && Below(s, n)
    ensures forall i :: 0 <= i < n ==> s[i] == i
    decreases n
  {
    if n > 0 {
      var front := s[..n - 1];
      assert Below(front, n - 1) by {
        assert forall j :: 0 <= j < n - 1 ==> s[j] < s[n - 1];
      }
      IncreasingCoversAll(front, n - 1);
      assert forall i :: 0 <= i < n - 1 ==> s[i] == front[i] == i;
      assert n > 1 ==> s[n - 2] < s[n - 1];
    }
  }

  /** The input-order table of what the bodies returned. */
  function Sequential<R, E>(body: seq<Outcome<R, E>>): seq<Option<R>>
    requires forall i :: 0 <= i < |body| ==> body[i].Returned?
  {
    seq(|body|, i requires 0 <= i < |body| => Some(body[i].value))
  }

  lemma FinishedSettlesAll<R, E>(end: State<R, E>, limit: int)
    requires Inv(end, limit) && Finished(end)
    ensures forall i :: i in end.started <==> i in end.settled
  {
  }

  lemma FinishedFullResults<R, E>(end: State<R, E>, limit: int)
    requires Inv(end, limit) && Finished(end) && NoGaps(end) && StopsForAReason(end)
    requires limit >= 1 && end.failure == Undefined
    requires forall i :: i in end.settled ==> end.body[i].Returned?
    ensures forall i :: 0 <= i < |end.body| ==> end.body[i].Returned?
    ensures end.results == Sequential(end.body)
  {
    if end.body != [] {
      assert end.workers[0].Done?;
      FinishedSettlesAll(end, limit);
      IncreasingCoversAll(end.started, |end.body|);
      forall i | 0 <= i < |end.body|
        ensures end.body[i].Returned? && end.results[i] == Some(end.body[i].value)
      {
        assert end.started[i] == i && i in end.started;
      }
    }
  }

  /**
   * Every complete schedule, for every width and every table of non-nullish outcomes: each
   * started body has settled; with no rejection the call returns the sequential map in input
   * order (given at least one worker or nothing to do); with one it throws the first in time.
   */
  lemma CompleteScheduleVerdict<R, E>(body: seq<Outcome<R, E>>, limit: int, events: seq<Event>)
    requires NoNullish(body)
    requires EnabledRun(Init(body, limit), events) && Finished(Run(Init(body, limit), events))
    ensures var end := Run(Init(body, limit), events);
            && end.body == body && Below(end.settled, |body|)
            && (forall i :: i in end.started <==> i in end.settled)
            && var reasons := Reasons(body, end.settled);
               if reasons != [] then Concluded(end) == Throws(reasons[0])
               else if limit >= 1 then
                 (forall i :: 0 <= i < |body| ==> body[i].Returned?) && Concluded(end) == Returns(Sequential(body))
               else Concluded(end) == Returns(seq(|body|, _ => None))
  {
    var start := Init(body, limit);
    var end := Run(start, events);
    InitInv(body, limit);
    RunKeepsInv(start, events, limit);
    NothingStartsAfterFailure(start, events, limit);
    FinishedSettlesAll(end, limit);
    KeptReasonOfReasons(body, end.settled);
    ReasonsAreValues(body, end.settled);
    if Reasons(body, end.settled) != [] {
      ThrowsTheFirstExactly(end, limit);
    } else if limit >= 1 {
      FinishedFullResults(end, limit);
    } else {
      NoWorkersDoNothing(start, events);
    }
  }

  lemma NoWorkersDoNothing<R, E>(s: State<R, E>, events: seq<Event>)
    requires s.workers == [] && EnabledRun(s, events)
    ensures events == []
  {
  }
}
