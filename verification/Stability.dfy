/**
 * Release-blocking instability: the verdict on a case derived from an append-only ledger of
 * observations and clears, and the validation that decides which ledger entries count.
 */
module Stability {
  import opened Wrappers

  datatype Outcome = Pass | Fail

  datatype Observation = Observation(caseId: string, candidate: string, fixture: string, outcome: Outcome)

  datatype Clear = Clear(caseId: string, flakyCandidate: string, newCandidate: string, causalFix: string)

  datatype Ledger = Ledger(observations: seq<Observation>, clears: seq<Clear>)

  datatype Verdict = StablePass | StableFail | Flaky | Unobserved | Cleared

  /** A question: one case, narrowed to a candidate or a fixture when these are given. */
  datatype Query = Query(caseId: string, candidate: Option<string>, fixture: Option<string>)

  datatype Triple = Triple(caseId: string, candidate: string, fixture: string)

  datatype StabilityVerdict = StabilityVerdict(
    verdict: Verdict,
    outcomes: seq<Outcome>,
    passes: nat,
    failures: nat,
    clearedBy: Option<Clear>)

  // -------------------------------------------------------------- what a verdict means

  predicate Asked(q: Query, candidate: string, fixture: string) {
    (q.candidate.None? || q.candidate.value == candidate) && (q.fixture.None? || q.fixture.value == fixture)
  }

  predicate Matches(q: Query, o: Observation) {
    o.caseId == q.caseId && Asked(q, o.candidate, o.fixture)
  }

  /** The same candidate on the same fixture was seen both green and red. */
  predicate Mixed(l: Ledger, q: Query, candidate: string, fixture: string) {
    && Asked(q, candidate, fixture)
    && Observation(q.caseId, candidate, fixture, Pass) in l.observations
    && Observation(q.caseId, candidate, fixture, Fail) in l.observations
  }

  ghost predicate MixedCandidate(l: Ledger, q: Query, candidate: string) {
    exists fixture :: Mixed(l, q, candidate, fixture)
  }

  ghost predicate SomeMixed(l: Ledger, q: Query) {
    exists candidate :: MixedCandidate(l, q, candidate)
  }

  ghost predicate ClearedCandidate(l: Ledger, q: Query, candidate: string) {
    exists clear :: clear in l.clears && clear.caseId == q.caseId && clear.flakyCandidate == candidate
  }

  /** As coded, one clear for any one mixed candidate is enough. */
  ghost predicate SomeMixedCleared(l: Ledger, q: Query) {
    exists candidate :: MixedCandidate(l, q, candidate) && ClearedCandidate(l, q, candidate)
  }

  ghost predicate Saw(l: Ledger, q: Query, outcome: Outcome) {
    exists o :: o in l.observations && Matches(q, o) && o.outcome == outcome
  }

  /** The verdict on a case in terms of which entries the ledger holds, not how often or in what order. */
  ghost function VerdictOf(l: Ledger, q: Query): Verdict {
    if SomeMixed(l, q) then (if SomeMixedCleared(l, q) then Cleared else Flaky)
    else if Saw(l, q, Fail) then StableFail
    else if Saw(l, q, Pass) then StablePass
    else Unobserved
  }

  // --------------------------------------------------------------------- as it runs

  function Matching(observations: seq<Observation>, q: Query, n: nat): seq<Observation>
    requires n <= |observations|
  {
    if n == 0 then []
    else Matching(observations, q, n - 1) + (if Matches(q, observations[n - 1]) then [observations[n - 1]] else [])
  }

  lemma {:induction false} MatchingHolds(observations: seq<Observation>, q: Query, n: nat, o: Observation)
    requires n <= |observations|
    ensures o in Matching(observations, q, n) <==> o in observations[..n] && Matches(q, o)
  {
    if n > 0 {
      MatchingHolds(observations, q, n - 1, o);
      assert observations[..n] == observations[..n - 1] + [observations[n - 1]];
    }
  }

  function Outcomes(observations: seq<Observation>): (r: seq<Outcome>)
    ensures |r| == |observations| && forall i :: 0 <= i < |r| ==> r[i] == observations[i].outcome
  {
    seq(|observations|, i requires 0 <= i < |observations| => observations[i].outcome)
  }

  /** The clear that settles the case, if any: the first in the ledger that names a mixed candidate. */
  method FindClear(l: Ledger, caseId: string, mixed: set<Triple>) returns (found: Option<Clear>)
    ensures found.None? <==> forall clear :: clear in l.clears ==> !Settles(clear, caseId, mixed)
    ensures found.Some? ==> exists i :: 0 <= i < |l.clears| && l.clears[i] == found.value && Settles(l.clears[i], caseId, mixed)
                                     && forall j :: 0 <= j < i ==> !Settles(l.clears[j], caseId, mixed)
  {
    var flakyIdentities := set key | key in mixed :: key.candidate;
    for i := 0 to |l.clears|
      invariant forall j :: 0 <= j < i ==> !Settles(l.clears[j], caseId, mixed)
    {
      if l.clears[i].caseId != caseId {
        continue;
      }
      if l.clears[i].flakyCandidate !in flakyIdentities {
        continue;
      }
      assert l.clears[i] in l.clears && Settles(l.clears[i], caseId, mixed);
      return Some(l.clears[i]);
    }
    return None;
  }

  predicate Settles(clear: Clear, caseId: string, mixed: set<Triple>) {
    clear.caseId == caseId && exists key :: key in mixed && key.candidate == clear.flakyCandidate
  }

  /** Deriving one case's stability: group the matching outcomes by triple, look for a mixed one. */
  method StabilityOf(l: Ledger, q: Query) returns (r: StabilityVerdict)
    ensures r.verdict == VerdictOf(l, q)
    ensures r.outcomes == Outcomes(Matching(l.observations, q, |l.observations|))
    ensures r.passes == multiset(r.outcomes)[Pass] && r.failures == multiset(r.outcomes)[Fail]
    ensures r.clearedBy.Some? <==> r.verdict.Cleared?
    ensures r.clearedBy.Some? ==>
              (r.clearedBy.value in l.clears && r.clearedBy.value.caseId == q.caseId
               && MixedCandidate(l, q, r.clearedBy.value.flakyCandidate))
    ensures r.clearedBy.Some? ==>
              exists i :: 0 <= i < |l.clears| && l.clears[i] == r.clearedBy.value
                          && forall j :: 0 <= j < i ==>
                               !(l.clears[j].caseId == q.caseId && MixedCandidate(l, q, l.clears[j].flakyCandidate))
  {
    var matching := [];
    for i := 0 to |l.observations|
      invariant matching == Matching(l.observations, q, i)
    {
      if Matches(q, l.observations[i]) {
        matching := matching + [l.observations[i]];
      }
    }
    MatchesAre(l, q);
    var outcomes := Outcomes(matching);
    var passes, failures := multiset(outcomes)[Pass], multiset(outcomes)[Fail];
    if matching == [] {
      NothingSeen(l, q);
      return StabilityVerdict(Unobserved, outcomes, passes, failures, None);
    }
    var mixed := MixedTriples(l, q, matching);
    if mixed != {} {
      var cleared := FindClear(l, q.caseId, mixed);
      ClearsAgree(l, q, mixed);
      return StabilityVerdict(if cleared.Some? then Cleared else Flaky, outcomes, passes, failures, cleared);
    }
    OutcomesSeen(l, q, matching, Pass);
    OutcomesSeen(l, q, matching, Fail);
    if failures > 0 && passes > 0 {
      return StabilityVerdict(StableFail, outcomes, passes, failures, None);
    }
    if failures > 0 {
      return StabilityVerdict(StableFail, outcomes, passes, failures, None);
    }
    return StabilityVerdict(StablePass, outcomes, passes, failures, None);
  }

  method MixedTriples(ghost l: Ledger, ghost q: Query, matching: seq<Observation>) returns (mixed: set<Triple>)
    requires forall o :: o in matching <==> o in l.observations && Matches(q, o)
    ensures forall candidate, fixture :: Mixed(l, q, candidate, fixture) <==> Triple(q.caseId, candidate, fixture) in mixed
    ensures forall key :: key in mixed ==> key.caseId == q.caseId
    ensures mixed != {} <==> SomeMixed(l, q)
  {
    var triples := Group(matching);
    mixed := set key | key in triples && |triples[key]| > 1;
    forall candidate, fixture
      ensures Mixed(l, q, candidate, fixture) <==> Triple(q.caseId, candidate, fixture) in mixed
    {
      GroupedIsMixed(l, q, matching, triples, candidate, fixture);
    }
    forall key | key in mixed ensures key.caseId == q.caseId {
      var i :| 0 <= i < |matching| && KeyOf(matching[i]) == key;
      assert matching[i] in matching;
    }
    SomeMixedInSet(l, q, mixed);
  }

  lemma SomeMixedInSet(l: Ledger, q: Query, mixed: set<Triple>)
    requires forall candidate, fixture :: Mixed(l, q, candidate, fixture) <==> Triple(q.caseId, candidate, fixture) in mixed
    requires forall key :: key in mixed ==> key.caseId == q.caseId
    ensures mixed != {} <==> SomeMixed(l, q)
  {
    if mixed != {} {
      var key :| key in mixed;
      assert key == Triple(q.caseId, key.candidate, key.fixture);
      assert Mixed(l, q, key.candidate, key.fixture);
      assert MixedCandidate(l, q, key.candidate);
    }
  }

  function KeyOf(o: Observation): Triple { Triple(o.caseId, o.candidate, o.fixture) }

  method Group(matching: seq<Observation>) returns (triples: map<Triple, set<Outcome>>)
    ensures forall key :: key in triples <==> exists i :: 0 <= i < |matching| && KeyOf(matching[i]) == key
    ensures forall key, outcome :: key in triples ==>
              (outcome in triples[key] <==> Observation(key.caseId, key.candidate, key.fixture, outcome) in matching)
  {
    triples := map[];
    for i := 0 to |matching|
      invariant forall key :: key in triples <==> exists j :: 0 <= j < i && KeyOf(matching[j]) == key
      invariant forall key, outcome :: key in triples ==>
                  (outcome in triples[key] <==> Observation(key.caseId, key.candidate, key.fixture, outcome) in matching[..i])
    {
      var key := KeyOf(matching[i]);
      var before := if key in triples then triples[key] else {};
      triples := triples[key := before + {matching[i].outcome}];
      assert matching[..i + 1] == matching[..i] + [matching[i]];
    }
    assert matching[..|matching|] == matching;
  }

  lemma MatchesAre(l: Ledger, q: Query)
    ensures forall o :: o in Matching(l.observations, q, |l.observations|) <==> o in l.observations && Matches(q, o)
  {
    forall o ensures o in Matching(l.observations, q, |l.observations|) <==> o in l.observations && Matches(q, o) {
      MatchingHolds(l.observations, q, |l.observations|, o);
      assert l.observations[..|l.observations|] == l.observations;
    }
  }

  lemma NothingSeen(l: Ledger, q: Query)
    requires forall o :: o in l.observations ==> !Matches(q, o)
    ensures VerdictOf(l, q) == Unobserved
  {
  }

  lemma BothOutcomes(s: set<Outcome>)
    ensures |s| > 1 <==> Pass in s && Fail in s
  {
    assert forall x :: x in s ==> x == Pass || x == Fail;
    if Pass in s && Fail in s {
      assert s == {Pass, Fail};
    } else if Pass in s {
      assert s == {Pass};
    } else if Fail in s {
      assert s == {Fail};
    } else {
      assert s == {};
    }
  }

  lemma GroupedIsMixed(l: Ledger, q: Query, matching: seq<Observation>, triples: map<Triple, set<Outcome>>,
                       candidate: string, fixture: string)
    requires forall o :: o in matching <==> o in l.observations && Matches(q, o)
    requires forall key :: key in triples <==> exists i :: 0 <= i < |matching| && KeyOf(matching[i]) == key
    requires forall key, outcome :: key in triples ==>
               (outcome in triples[key] <==> Observation(key.caseId, key.candidate, key.fixture, outcome) in matching)
    ensures var key := Triple(q.caseId, candidate, fixture);
            Mixed(l, q, candidate, fixture) <==> key in triples && |triples[key]| > 1
  {
    var key := Triple(q.caseId, candidate, fixture);
    var green := Observation(q.caseId, candidate, fixture, Pass);
    if green in matching {
      var i :| 0 <= i < |matching| && matching[i] == green;
      assert KeyOf(matching[i]) == key;
    }
    if key in triples {
      BothOutcomes(triples[key]);
    }
  }

  lemma ClearsAgree(l: Ledger, q: Query, mixed: set<Triple>)
    requires forall candidate, fixture :: Mixed(l, q, candidate, fixture) <==> Triple(q.caseId, candidate, fixture) in mixed
    requires forall key :: key in mixed ==> key.caseId == q.caseId
    ensures forall clear :: clear in l.clears && clear.caseId == q.caseId ==>
              (Settles(clear, q.caseId, mixed) <==> MixedCandidate(l, q, clear.flakyCandidate))
    ensures SomeMixedCleared(l, q) <==> exists clear :: clear in l.clears && Settles(clear, q.caseId, mixed)
  {
    forall clear | clear in l.clears && clear.caseId == q.caseId
      ensures Settles(clear, q.caseId, mixed) <==> MixedCandidate(l, q, clear.flakyCandidate)
    {
      if Settles(clear, q.caseId, mixed) {
        var key :| key in mixed && key.candidate == clear.flakyCandidate;
        assert key == Triple(q.caseId, clear.flakyCandidate, key.fixture);
        assert Mixed(l, q, clear.flakyCandidate, key.fixture);
      }
    }
    if SomeMixedCleared(l, q) {
      var candidate :| MixedCandidate(l, q, candidate) && ClearedCandidate(l, q, candidate);
      var clear :| clear in l.clears && clear.caseId == q.caseId && clear.flakyCandidate == candidate;
      assert Settles(clear, q.caseId, mixed);
    }
    if exists clear :: clear in l.clears && Settles(clear, q.caseId, mixed) {
      var clear :| clear in l.clears && Settles(clear, q.caseId, mixed);
      assert MixedCandidate(l, q, clear.flakyCandidate) && ClearedCandidate(l, q, clear.flakyCandidate);
    }
  }

  lemma OutcomesSeen(l: Ledger, q: Query, matching: seq<Observation>, outcome: Outcome)
    requires forall o :: o in matching <==> o in l.observations && Matches(q, o)
    ensures multiset(Outcomes(matching))[outcome] > 0 <==> Saw(l, q, outcome)
  {
    var outcomes := Outcomes(matching);
    assert multiset(outcomes)[outcome] > 0 <==> outcome in outcomes;
    if outcome in outcomes {
      var i :| 0 <= i < |outcomes| && outcomes[i] == outcome;
      assert matching[i] in matching && matching[i].outcome == outcome;
    }
    if Saw(l, q, outcome) {
      var o :| o in l.observations && Matches(q, o) && o.outcome == outcome;
      var i :| 0 <= i < |matching| && matching[i] == o;
      assert outcomes[i] == outcome;
    }
  }

  /** The five verdicts read off the entries: which observations and which clears there must be for each. */
  lemma VerdictByEntries(l: Ledger, q: Query, candidate: string, fixture: string, outcome: Outcome)
    requires (q.candidate == None || q.candidate == Some(candidate)) && (q.fixture == None || q.fixture == Some(fixture))
    ensures Observation(q.caseId, candidate, fixture, outcome) in l.observations ==> VerdictOf(l, q) != Unobserved
    ensures Observation(q.caseId, candidate, fixture, Fail) in l.observations ==> VerdictOf(l, q) in {StableFail, Flaky, Cleared}
    ensures Observation(q.caseId, candidate, fixture, Pass) in l.observations
            && Observation(q.caseId, candidate, fixture, Fail) in l.observations ==>
              VerdictOf(l, q) == Cleared
              || (VerdictOf(l, q) == Flaky
                  && forall c :: c in l.clears ==> c.caseId != q.caseId || c.flakyCandidate != candidate)
  {
    if Observation(q.caseId, candidate, fixture, outcome) in l.observations {
      assert Matches(q, Observation(q.caseId, candidate, fixture, outcome));
    }
    if Observation(q.caseId, candidate, fixture, Fail) in l.observations {
      assert Matches(q, Observation(q.caseId, candidate, fixture, Fail));
      if Observation(q.caseId, candidate, fixture, Pass) in l.observations {
        assert Mixed(l, q, candidate, fixture);
        assert MixedCandidate(l, q, candidate);
      }
    }
  }

  /** And back: an answer other than unobserved rests on entries of that very case, within what was asked. */
  lemma VerdictHasEntries(l: Ledger, q: Query)
    ensures VerdictOf(l, q) != Unobserved ==>
              exists o :: o in l.observations && o.caseId == q.caseId
                          && (q.candidate == None || q.candidate == Some(o.candidate))
                          && (q.fixture == None || q.fixture == Some(o.fixture))
    ensures VerdictOf(l, q) in {Flaky, Cleared} ==>
              exists o :: o in l.observations && o.(outcome := Fail) in l.observations && o.outcome == Pass && o.caseId == q.caseId
                          && (q.candidate == None || q.candidate == Some(o.candidate))
                          && (q.fixture == None || q.fixture == Some(o.fixture))
    ensures VerdictOf(l, q) == StableFail ==> exists o :: o in l.observations && o.caseId == q.caseId && o.outcome == Fail
    ensures VerdictOf(l, q) == StablePass ==>
              forall o :: o in l.observations && o.caseId == q.caseId && q.candidate == None && q.fixture == None ==> o.outcome == Pass
  {
    if SomeMixed(l, q) {
      var candidate :| MixedCandidate(l, q, candidate);
      var fixture :| Mixed(l, q, candidate, fixture);
      var green := Observation(q.caseId, candidate, fixture, Pass);
      assert green in l.observations && green.(outcome := Fail) == Observation(q.caseId, candidate, fixture, Fail);
    } else if VerdictOf(l, q) == StablePass {
      forall o | o in l.observations && o.caseId == q.caseId && q.candidate == None && q.fixture == None
        ensures o.outcome == Pass
      {
        assert Matches(q, o);
      }
    }
  }

  // ------------------------------------------------------------------- what it promises

  ghost predicate Extends(before: Ledger, after: Ledger) {
    && (forall o :: o in before.observations ==> o in after.observations)
    && (forall c :: c in before.clears ==> c in after.clears)
  }

  /** The verdict depends only on the sets of observations and clears: not on order or repetition. */
  lemma DependsOnlyOnSets(a: Ledger, b: Ledger, q: Query)
    requires Extends(a, b) && Extends(b, a)
    ensures VerdictOf(a, q) == VerdictOf(b, q)
  {
    assert forall candidate :: MixedCandidate(a, q, candidate) <==> MixedCandidate(b, q, candidate) by {
      forall candidate, fixture ensures Mixed(a, q, candidate, fixture) <==> Mixed(b, q, candidate, fixture) {
      }
    }
    assert forall candidate :: ClearedCandidate(a, q, candidate) <==> ClearedCandidate(b, q, candidate);
  }

  /** Appending only ever adds mixed triples: a later green run erases nothing. */
  lemma MixedOnlyGrows(before: Ledger, after: Ledger, q: Query, candidate: string, fixture: string)
    requires Extends(before, after) && Mixed(before, q, candidate, fixture)
    ensures Mixed(after, q, candidate, fixture) && VerdictOf(after, q) in {Flaky, Cleared}
  {
    assert Mixed(after, q, candidate, fixture);
    assert MixedCandidate(after, q, candidate);
  }

  lemma MixedCandidatesGrow(before: Ledger, after: Ledger, q: Query, candidate: string)
    requires Extends(before, after) && MixedCandidate(before, q, candidate)
    ensures MixedCandidate(after, q, candidate)
  {
    var fixture :| Mixed(before, q, candidate, fixture);
    assert Mixed(after, q, candidate, fixture);
  }

  /** What can follow FLAKY: only a clear that names a mixed candidate of this case ends it. */
  lemma FlakyUntilCleared(before: Ledger, after: Ledger, q: Query)
    requires Extends(before, after) && VerdictOf(before, q) == Flaky
    ensures VerdictOf(after, q) == if SomeMixedCleared(after, q) then Cleared else Flaky
    ensures (forall c :: c in after.clears ==> c.caseId != q.caseId) ==> VerdictOf(after, q) == Flaky
  {
    var candidate :| MixedCandidate(before, q, candidate);
    MixedCandidatesGrow(before, after, q, candidate);
  }

  /** As coded CLEARED is absorbing too: no later observation, however red, brings FLAKY back. */
  lemma ClearedIsForEver(before: Ledger, after: Ledger, q: Query)
    requires Extends(before, after) && VerdictOf(before, q) == Cleared
    ensures VerdictOf(after, q) == Cleared
  {
    var candidate :| MixedCandidate(before, q, candidate) && ClearedCandidate(before, q, candidate);
    MixedCandidatesGrow(before, after, q, candidate);
    var clear :| clear in before.clears && clear.caseId == q.caseId && clear.flakyCandidate == candidate;
    assert clear in after.clears;
    assert ClearedCandidate(after, q, candidate);
  }

  // --------------------------------------------- the rule the comment states, for comparison

  ghost predicate SomeMixedUncleared(l: Ledger, q: Query) {
    exists candidate :: MixedCandidate(l, q, candidate) && !ClearedCandidate(l, q, candidate)
  }

  /** A clear applies only to the candidate it names, so every mixed candidate needs its own. */
  ghost function PerCandidateVerdict(l: Ledger, q: Query): Verdict {
    if SomeMixed(l, q) then (if SomeMixedUncleared(l, q) then Flaky else Cleared) else VerdictOf(l, q)
  }

  /** The code meets that rule exactly when the case has not both a cleared and an uncleared mixed candidate. */
  lemma CodeMeetsRuleExactly(l: Ledger, q: Query)
    ensures VerdictOf(l, q) == PerCandidateVerdict(l, q) <==> !(SomeMixedCleared(l, q) && SomeMixedUncleared(l, q))
  {
  }

  /** Two flaky candidates, one cleared: the code says CLEARED, the rule says FLAKY. */
  lemma OneClearHidesAnother(caseId: string, fixture: string, fixed: string, broken: string, fix: string, why: string)
    requires fixed != broken
    ensures var l := Ledger([Observation(caseId, fixed, fixture, Pass), Observation(caseId, fixed, fixture, Fail),
                             Observation(caseId, broken, fixture, Pass), Observation(caseId, broken, fixture, Fail)],
                            [Clear(caseId, fixed, fix, why)]);
            var q := Query(caseId, None, None);
            VerdictOf(l, q) == Cleared && PerCandidateVerdict(l, q) == Flaky
  {
    var l := Ledger([Observation(caseId, fixed, fixture, Pass), Observation(caseId, fixed, fixture, Fail),
                     Observation(caseId, broken, fixture, Pass), Observation(caseId, broken, fixture, Fail)],
                    [Clear(caseId, fixed, fix, why)]);
    var q := Query(caseId, None, None);
    assert l.observations[0] in l.observations && l.observations[1] in l.observations;
    assert l.observations[2] in l.observations && l.observations[3] in l.observations;
    assert Mixed(l, q, fixed, fixture) && Mixed(l, q, broken, fixture);
    assert MixedCandidate(l, q, fixed) && MixedCandidate(l, q, broken);
    assert l.clears[0] in l.clears;
    assert ClearedCandidate(l, q, fixed) && !ClearedCandidate(l, q, broken);
  }

  /**
   * Under the per-candidate rule a clear releases its own candidate only: a case stays FLAKY as
   * long as any mixed candidate has no clear, whatever is appended for the others.
   */
  lemma RuleKeepsUnclearedFlaky(before: Ledger, after: Ledger, q: Query, candidate: string)
    requires Extends(before, after) && MixedCandidate(before, q, candidate)
    requires forall c :: c in after.clears ==> !(c.caseId == q.caseId && c.flakyCandidate == candidate)
    ensures PerCandidateVerdict(before, q) == Flaky && PerCandidateVerdict(after, q) == Flaky
  {
    MixedCandidatesGrow(before, after, q, candidate);
    assert !ClearedCandidate(after, q, candidate);
    assert !ClearedCandidate(before, q, candidate);
  }

  /** Two candidates with two different results are no flake: a case with no mixed triple is red if any run was. */
  lemma DisagreeingCandidatesAreNotFlaky(l: Ledger, q: Query)
    requires !SomeMixed(l, q)
    ensures VerdictOf(l, q) == StableFail <==> Saw(l, q, Fail)
    ensures VerdictOf(l, q) == StablePass <==> Saw(l, q, Pass) && !Saw(l, q, Fail)
  {
  }

  // ------------------------------------------------------------------- reading the ledger

  /** A JSON value where the ledger expects a string: `None` when it is anything else. */
  type Text = Option<string>

  datatype RawEvidence = NoEvidence | Evidence(path: Text, sha256: Text)

  datatype RawObservation = NotAnObject | Fields(caseId: Text, candidate: Text, fixture: Text, outcome: Text)

  datatype RawClear =
    | NotAClear
    | ClearFields(caseId: Text, flakyCandidate: Text, newCandidate: Text, causalFix: Text, evidence: RawEvidence)

  datatype LedgerFile =
    | Missing
    | Unreadable
    | NotALedger
    | Contents(observations: Option<seq<RawObservation>>, clears: Option<seq<RawClear>>)

  datatype Problem = LedgerProblem | ObservationProblem(index: nat) | ClearProblem(index: nat)

  predicate Usable(text: Text) { text.Some? && text.value != "" }

  predicate UsableObservation(raw: RawObservation) {
    && raw.Fields? && Usable(raw.caseId) && Usable(raw.candidate) && Usable(raw.fixture)
    && (raw.outcome == Some("PASS") || raw.outcome == Some("FAIL"))
  }

  function ObservationOf(raw: RawObservation): Observation
    requires UsableObservation(raw)
  {
    Observation(raw.caseId.value, raw.candidate.value, raw.fixture.value, if raw.outcome == Some("PASS") then Pass else Fail)
  }

  function ForwardSlashes(path: string): string {
    if path == "" then "" else [if path[0] == '\\' then '/' else path[0]] + ForwardSlashes(path[1..])
  }

  /** The file the evidence names exists and hashes to what is recorded. */
  predicate EvidenceHolds(files: map<string, string>, evidence: RawEvidence) {
    && evidence.Evidence? && Usable(evidence.path) && ForwardSlashes(evidence.path.value) in files
    && evidence.sha256 == Some(files[ForwardSlashes(evidence.path.value)]) && |evidence.sha256.value| == 64
  }

  /** A clear counts when it names another candidate, a causal fix, and evidence that holds. */
  predicate UsableClear(files: map<string, string>, raw: RawClear) {
    && raw.ClearFields? && Usable(raw.caseId) && Usable(raw.flakyCandidate) && Usable(raw.newCandidate)
    && Usable(raw.causalFix) && raw.flakyCandidate != raw.newCandidate && EvidenceHolds(files, raw.evidence)
  }

  function ClearOf(raw: RawClear): Clear
    requires raw.ClearFields? && raw.caseId.Some? && raw.flakyCandidate.Some? && raw.newCandidate.Some? && raw.causalFix.Some?
  {
    Clear(raw.caseId.value, raw.flakyCandidate.value, raw.newCandidate.value, raw.causalFix.value)
  }

  /** The entry's faults join the problem list; it counts only if it has none. */
  method ValidateObservation(raw: RawObservation, index: nat, problems: seq<Problem>)
    returns (ok: bool, grown: seq<Problem>)
    ensures ok <==> UsableObservation(raw)
    ensures problems <= grown && (ok <==> grown == problems)
    ensures forall p :: p in grown <==> p in problems || (!ok && p == ObservationProblem(index))
  {
    grown := problems;
    if raw.NotAnObject? {
      return false, grown + [ObservationProblem(index)];
    }
    ok := true;
    var fields := [raw.caseId, raw.candidate, raw.fixture, raw.outcome];
    for i := 0 to |fields|
      invariant problems <= grown && (ok <==> grown == problems)
      invariant forall p :: p in grown <==> p in problems || (!ok && p == ObservationProblem(index))
      invariant ok <==> forall j :: 0 <= j < i ==> Usable(fields[j])
    {
      if !Usable(fields[i]) {
        grown := grown + [ObservationProblem(index)];
        ok := false;
      }
    }
    assert ok <==> Usable(fields[0]) && Usable(fields[1]) && Usable(fields[2]) && Usable(fields[3]);
    if raw.outcome != Some("PASS") && raw.outcome != Some("FAIL") {
      grown := grown + [ObservationProblem(index)];
      ok := false;
    }
  }

  method ValidateClear(raw: RawClear, index: nat, files: map<string, string>, problems: seq<Problem>)
    returns (ok: bool, grown: seq<Problem>)
    ensures ok <==> UsableClear(files, raw)
    ensures problems <= grown && (ok <==> grown == problems)
    ensures forall p :: p in grown <==> p in problems || (!ok && p == ClearProblem(index))
  {
    grown := problems;
    var problem := ClearProblem(index);
    if raw.NotAClear? {
      return false, grown + [problem];
    }
    ok := true;
    var fields := [raw.caseId, raw.flakyCandidate, raw.newCandidate, raw.causalFix];
    for i := 0 to |fields|
      invariant problems <= grown && (ok <==> grown == problems)
      invariant forall p :: p in grown <==> p in problems || (!ok && p == problem)
      invariant ok <==> forall j :: 0 <= j < i ==> Usable(fields[j])
    {
      if !Usable(fields[i]) {
        grown := grown + [problem];
        ok := false;
      }
    }
    assert ok <==> Usable(fields[0]) && Usable(fields[1]) && Usable(fields[2]) && Usable(fields[3]);
    if raw.flakyCandidate == raw.newCandidate {
      grown := grown + [problem];
      ok := false;
    }
    if !EvidenceHolds(files, raw.evidence) {
      grown := grown + [problem];
      ok := false;
    }
  }

  function UsableObservations(raws: seq<RawObservation>): seq<Observation> {
    if raws == [] then []
    else
      var last := raws[|raws| - 1];
      UsableObservations(raws[..|raws| - 1]) + (if UsableObservation(last) then [ObservationOf(last)] else [])
  }

  function UsableClears(files: map<string, string>, raws: seq<RawClear>): seq<Clear> {
    if raws == [] then []
    else
      var last := raws[|raws| - 1];
      UsableClears(files, raws[..|raws| - 1]) + (if UsableClear(files, last) then [ClearOf(last)] else [])
  }

  /** What counts of a ledger file: its usable entries, in order. */
  function LedgerIn(files: map<string, string>, file: LedgerFile): Ledger {
    match file
    case Contents(observations, clears) =>
      Ledger(if observations.Some? then UsableObservations(observations.value) else [],
             if clears.Some? then UsableClears(files, clears.value) else [])
    case _ => Ledger([], [])
  }

  /** Nothing in the ledger was unusable. */
  predicate Sound(files: map<string, string>, file: LedgerFile) {
    match file
    case Missing => true
    case Unreadable => false
    case NotALedger => false
    case Contents(observations, clears) =>
      && observations.Some? && (forall raw :: raw in observations.value ==> UsableObservation(raw))
      && clears.Some? && (forall raw :: raw in clears.value ==> UsableClear(files, raw))
  }

  /** What each problem names: the file or one of its two lists, or the entry at that index. */
  predicate Faulty(files: map<string, string>, file: LedgerFile, p: Problem) {
    match p
    case LedgerProblem => !file.Missing? && (!file.Contents? || file.observations.None? || file.clears.None?)
    case ObservationProblem(i) =>
      file.Contents? && file.observations.Some? && i < |file.observations.value| && !UsableObservation(file.observations.value[i])
    case ClearProblem(i) =>
      file.Contents? && file.clears.Some? && i < |file.clears.value| && !UsableClear(files, file.clears.value[i])
  }

  lemma SoundHasNoFault(files: map<string, string>, file: LedgerFile)
    ensures Sound(files, file) <==> forall p :: !Faulty(files, file, p)
  {
    if forall p :: !Faulty(files, file, p) {
      assert !Faulty(files, file, LedgerProblem);
      if file.Contents? {
        forall raw | raw in file.observations.value ensures UsableObservation(raw) {
          var i :| 0 <= i < |file.observations.value| && file.observations.value[i] == raw;
          assert !Faulty(files, file, ObservationProblem(i));
        }
        forall raw | raw in file.clears.value ensures UsableClear(files, raw) {
          var i :| 0 <= i < |file.clears.value| && file.clears.value[i] == raw;
          assert !Faulty(files, file, ClearProblem(i));
        }
      }
    }
  }

  method LoadObservations(raws: seq<RawObservation>, problems: seq<Problem>)
    returns (observations: seq<Observation>, grown: seq<Problem>)
    ensures observations == UsableObservations(raws)
    ensures forall p :: p in grown <==>
              p in problems || (p.ObservationProblem? && p.index < |raws| && !UsableObservation(raws[p.index]))
  {
    observations, grown := [], problems;
    for i := 0 to |raws|
      invariant observations == UsableObservations(raws[..i])
      invariant forall p :: p in grown <==>
                  p in problems || (p.ObservationProblem? && p.index < i && !UsableObservation(raws[p.index]))
    {
      assert raws[..i + 1][..i] == raws[..i];
      var ok;
      ok, grown := ValidateObservation(raws[i], i, grown);
      if ok {
        observations := observations + [ObservationOf(raws[i])];
      }
    }
    assert raws[..|raws|] == raws;
  }

  method LoadClears(raws: seq<RawClear>, files: map<string, string>, problems: seq<Problem>)
    returns (clears: seq<Clear>, grown: seq<Problem>)
    ensures clears == UsableClears(files, raws)
    ensures forall p :: p in grown <==>
              p in problems || (p.ClearProblem? && p.index < |raws| && !UsableClear(files, raws[p.index]))
  {
    clears, grown := [], problems;
    for i := 0 to |raws|
      invariant clears == UsableClears(files, raws[..i])
      invariant forall p :: p in grown <==>
                  p in problems || (p.ClearProblem? && p.index < i && !UsableClear(files, raws[p.index]))
    {
      assert raws[..i + 1][..i] == raws[..i];
      var ok;
      ok, grown := ValidateClear(raws[i], i, files, grown);
      if ok {
        clears := clears + [ClearOf(raws[i])];
      }
    }
    assert raws[..|raws|] == raws;
  }

  /** Reading the ledger: the usable entries in order, and a problem for everything else. */
  method LoadLedger(file: LedgerFile, files: map<string, string>) returns (l: Ledger, problems: seq<Problem>)
    ensures problems == [] <==> Sound(files, file)
    ensures l == LedgerIn(files, file)
    ensures forall p :: p in problems <==> Faulty(files, file, p)
  {
    SoundHasNoFault(files, file);
    if file.Missing? {
      return Ledger([], []), [];
    }
    if !file.Contents? {
      problems := [LedgerProblem];
      assert problems[0] == LedgerProblem;
      return Ledger([], []), problems;
    }
    problems := [];
    var observations, clears := [], [];
    if file.observations.None? {
      problems := problems + [LedgerProblem];
    } else {
      observations, problems := LoadObservations(file.observations.value, problems);
    }
    if file.clears.None? {
      problems := problems + [LedgerProblem];
    } else {
      clears, problems := LoadClears(file.clears.value, files, problems);
    }
    assert forall p :: p in problems <==> Faulty(files, file, p);
    assert problems != [] ==> problems[0] in problems;
    l := Ledger(observations, clears);
  }

  /** No ledger that loads can clear a case with its own flaky candidate, or without evidence that holds. */
  lemma {:induction false} LoadedClearsAreExpensive(files: map<string, string>, raws: seq<RawClear>, clear: Clear)
    requires clear in UsableClears(files, raws)
    ensures clear.flakyCandidate != clear.newCandidate
    ensures exists i :: 0 <= i < |raws| && UsableClear(files, raws[i]) && ClearOf(raws[i]) == clear
  {
    var last := raws[|raws| - 1];
    if UsableClear(files, last) && ClearOf(last) == clear {
    } else {
      LoadedClearsAreExpensive(files, raws[..|raws| - 1], clear);
    }
  }

  /** The text the ledger writes an outcome as. */
  function Written(outcome: Outcome): string { if outcome.Pass? then "PASS" else "FAIL" }

  /** A raw entry that reads as this observation: its fields and its outcome, none of them empty. */
  predicate ReadsAs(raw: RawObservation, o: Observation) {
    && raw == Fields(Some(o.caseId), Some(o.candidate), Some(o.fixture), Some(Written(o.outcome)))
    && o.caseId != "" && o.candidate != "" && o.fixture != ""
  }

  lemma UsableReads(raw: RawObservation)
    ensures UsableObservation(raw) <==> ReadsAs(raw, Observation(
              if raw.Fields? && raw.caseId.Some? then raw.caseId.value else "",
              if raw.Fields? && raw.candidate.Some? then raw.candidate.value else "",
              if raw.Fields? && raw.fixture.Some? then raw.fixture.value else "",
              if raw.Fields? && raw.outcome == Some("PASS") then Pass else Fail))
    ensures UsableObservation(raw) ==> forall o :: ReadsAs(raw, o) <==> ObservationOf(raw) == o
  {
    assert "PASS"[0] != "FAIL"[0];
  }

  /** What is loaded is what is written: an observation counts exactly if some entry spells it out. */
  lemma {:induction false} LoadedObservationsExactly(raws: seq<RawObservation>, o: Observation)
    ensures o in UsableObservations(raws) <==> exists raw :: raw in raws && ReadsAs(raw, o)
  {
    if raws != [] {
      var init, last := raws[..|raws| - 1], raws[|raws| - 1];
      LoadedObservationsExactly(init, o);
      assert raws == init + [last];
      UsableReads(last);
      if UsableObservation(last) {
        assert ReadsAs(last, o) <==> ObservationOf(last) == o;
      } else if ReadsAs(last, o) {
        assert UsableObservation(last);
      }
    }
  }

  /** A path with its backslashes turned over, character by character. */
  lemma {:induction false} ForwardSlashesEach(path: string, i: nat)
    requires i < |path|
    ensures |ForwardSlashes(path)| == |path|
    ensures ForwardSlashes(path)[i] == if path[i] == '\\' then '/' else path[i]
  {
    if |path| > 1 {
      ForwardSlashesEach(path[1..], if i > 0 then i - 1 else 0);
    }
  }

  /**
   * A clear counts exactly if some entry spells it out with another candidate to clear it by, a
   * cause, and evidence whose file is there with the digest that was recorded.
   */
  lemma {:induction false} LoadedClearsExactly(files: map<string, string>, raws: seq<RawClear>, c: Clear)
    ensures c in UsableClears(files, raws) <==>
            && c.caseId != "" && c.flakyCandidate != "" && c.newCandidate != "" && c.causalFix != ""
            && c.flakyCandidate != c.newCandidate
            && exists path: string, sha256: string :: path != "" && |sha256| == 64
                 && ClearFields(Some(c.caseId), Some(c.flakyCandidate), Some(c.newCandidate), Some(c.causalFix),
                                Evidence(Some(path), Some(sha256))) in raws
                 && ForwardSlashes(path) in files && files[ForwardSlashes(path)] == sha256
  {
    if raws != [] {
      var init, last := raws[..|raws| - 1], raws[|raws| - 1];
      LoadedClearsExactly(files, init, c);
      assert raws == init + [last];
      if UsableClear(files, last) && ClearOf(last) == c {
        var path, sha256 := last.evidence.path.value, last.evidence.sha256.value;
        assert last == ClearFields(Some(c.caseId), Some(c.flakyCandidate), Some(c.newCandidate), Some(c.causalFix),
                                   Evidence(Some(path), Some(sha256)));
      }
    }
  }

  /** The cases whose verdict is FLAKY, in the order they were asked about. */
  method FlakyCases(l: Ledger, caseIds: seq<string>) returns (flaky: seq<string>)
    ensures forall c :: c in flaky <==> c in caseIds && VerdictOf(l, Query(c, None, None)) == Flaky
  {
    flaky := [];
    for i := 0 to |caseIds|
      invariant forall c :: c in flaky <==> c in caseIds[..i] && VerdictOf(l, Query(c, None, None)) == Flaky
    {
      var r := StabilityOf(l, Query(caseIds[i], None, None));
      assert caseIds[..i + 1] == caseIds[..i] + [caseIds[i]];
      if r.verdict == Flaky {
        flaky := flaky + [caseIds[i]];
      }
    }
    assert caseIds[..|caseIds|] == caseIds;
  }
}
