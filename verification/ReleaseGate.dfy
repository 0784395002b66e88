/**
 * The release decision: nine checks over the acceptance record, the lock and the stability
 * ledger, every one of them run, and a candidate released only if all of them pass.
 */
module ReleaseGate {
  import opened Wrappers
  import opened Stability
  import opened VerifySpec

  /** An allowlist entry applies while a setting of the lock has the value it names. */
  datatype Condition = Condition(section: string, key: string, expected: bool)

  const BLOCKED_EXTERNAL_ALLOWLIST: map<string, Condition> :=
    map["IPY-08" := Condition("runtime_authorization", "live_provider_budget_authorized", false)]

  const ASSEMBLED_PRODUCT_LAYERS := {"T2", "T3", "T4", "T6"}

  datatype Lock = NoLock | UnreadableLock | Lock(identity: Text, settings: map<(string, string), bool>)

  predicate LockConditionHolds(settings: map<(string, string), bool>, c: Condition) {
    (c.section, c.key) in settings && settings[(c.section, c.key)] == c.expected
  }

  datatype CheckName =
    | SpecPasses | IdentityFresh | CandidateRecorded | NoFail | NoFlaky | NoneUnrun
    | NoInvalidated | NoStaleEvidence | OnlyAllowlistedBlocked | AssembledEvidence

  datatype Check = Check(name: CheckName, passed: bool)

  /** Everything the decision reads: the record, the lock, the ledger, the files and the rederived identity. */
  datatype Inputs = Inputs(
    spec: SpecFile,
    familyOrder: seq<string>,
    lock: Lock,
    ledger: LedgerFile,
    files: map<string, string>,
    recomputed: Option<string>,
    candidate: Option<string>)

  ghost predicate CanRun(i: Inputs) {
    && i.lock.Lock? && i.spec.Spec? && i.spec.cases.Some? && Ordered(i.familyOrder, i.spec.familyCounts)
  }

  function Cases(i: Inputs): seq<Case>
    requires i.spec.Spec? && i.spec.cases.Some?
  {
    i.spec.cases.value
  }

  // ------------------------------------------------------------- what each check asks

  predicate HasStatus(cases: seq<Case>, status: string) { exists c :: c in cases && Is(c, status) }

  predicate MandatoryWith(cases: seq<Case>, status: string) { exists c :: c in cases && c.mandatory && Is(c, status) }

  predicate Authorized(c: Case, settings: map<(string, string), bool>) {
    c.id.Some? && c.id.value in BLOCKED_EXTERNAL_ALLOWLIST
    && LockConditionHolds(settings, BLOCKED_EXTERNAL_ALLOWLIST[c.id.value])
  }

  predicate CarriesIdentity(c: Case, recorded: Text) {
    c.evidence.Entries? && exists e :: e in c.evidence.entries && e.Entry? && e.identity == recorded
  }

  predicate Assembled(c: Case, recorded: Text) {
    c.layer.Some? && c.layer.value in ASSEMBLED_PRODUCT_LAYERS && Is(c, "PASS") && CarriesIdentity(c, recorded)
  }

  /** The ledger holds an uncleared mixed verdict for a case of the record. */
  ghost predicate LedgerFlaky(cases: seq<Case>, l: Ledger) {
    exists c :: c in cases && c.id.Some? && VerdictOf(l, Query(c.id.value, None, None)) == Flaky
  }

  predicate BlockedAreAuthorized(cases: seq<Case>, settings: map<(string, string), bool>) {
    forall c :: c in cases && Is(c, "BLOCKED_EXTERNAL") ==> Authorized(c, settings)
  }

  predicate SomeAssembled(cases: seq<Case>, recorded: Text) { exists c :: c in cases && Assembled(c, recorded) }

  ghost predicate Stable(i: Inputs)
    requires i.spec.Spec? && i.spec.cases.Some?
  {
    Sound(i.files, i.ledger) && !HasStatus(Cases(i), "FLAKY") && !LedgerFlaky(Cases(i), LedgerOf(i))
  }

  function LedgerOf(i: Inputs): Ledger { LedgerIn(i.files, i.ledger) }

  /** What each check finds; `rederived` is whether the identity could be recomputed at all. */
  datatype Findings = Findings(
    specPasses: bool,
    rederived: bool,
    identityFresh: bool,
    candidateRecorded: bool,
    noFail: bool,
    noFlaky: bool,
    noneUnrun: bool,
    noInvalidated: bool,
    noStaleEvidence: bool,
    onlyAllowlistedBlocked: bool,
    assembledEvidence: bool)

  ghost function FindingsOf(i: Inputs): Findings
    requires CanRun(i)
  {
    var cases, recorded := Cases(i), i.lock.identity;
    Findings(RecordSound(i.spec.familyCounts, i.familyOrder, cases, i.files, recorded),
             i.recomputed.Some?, i.recomputed.Some? && i.recomputed == recorded,
             i.candidate.None? || i.candidate == recorded,
             !HasStatus(cases, "FAIL"), Stable(i),
             !MandatoryWith(cases, "NOT_RUN") && !MandatoryWith(cases, "RUNNING"), !HasStatus(cases, "INVALIDATED"),
             !SomeCaseStale(cases, |cases|, i.files), BlockedAreAuthorized(cases, i.lock.settings),
             SomeAssembled(cases, recorded))
  }

  predicate Passes(f: Findings, name: CheckName) {
    match name
    case SpecPasses => f.specPasses
    case IdentityFresh => f.identityFresh
    case CandidateRecorded => f.candidateRecorded
    case NoFail => f.noFail
    case NoFlaky => f.noFlaky
    case NoneUnrun => f.noneUnrun
    case NoInvalidated => f.noInvalidated
    case NoStaleEvidence => f.noStaleEvidence
    case OnlyAllowlistedBlocked => f.onlyAllowlistedBlocked
    case AssembledEvidence => f.assembledEvidence
  }

  /** The failures that are reported as a check but not as a blocker. */
  predicate Silent(f: Findings, name: CheckName) {
    name == SpecPasses || (name == IdentityFresh && !f.rederived)
  }

  /** What each check asks of the record, the lock and the candidate: the checks on statuses. */
  lemma StatusChecksExactly(i: Inputs)
    requires CanRun(i)
    ensures var f, cases := FindingsOf(i), i.spec.cases.value;
            && (Passes(f, NoFail) <==> forall c :: c in cases ==> c.status != Some("FAIL"))
            && (Passes(f, NoInvalidated) <==> forall c :: c in cases ==> c.status != Some("INVALIDATED"))
            && (Passes(f, NoneUnrun) <==>
                  forall c :: c in cases && c.mandatory ==> c.status != Some("NOT_RUN") && c.status != Some("RUNNING"))
            && (Passes(f, NoFlaky) <==>
                  && Sound(i.files, i.ledger)
                  && (forall c :: c in cases ==> c.status != Some("FLAKY"))
                  && (forall c :: c in cases && c.id.Some? ==>
                        VerdictOf(LedgerIn(i.files, i.ledger), Query(c.id.value, None, None)) != Flaky))
  {
  }

  /** The checks on identity: the tree, the lock and the candidate asked for name one thing. */
  lemma IdentityChecksExactly(i: Inputs)
    requires CanRun(i)
    ensures var f := FindingsOf(i);
            && (Passes(f, IdentityFresh) <==> i.recomputed.Some? && i.lock.identity == i.recomputed)
            && (Passes(f, CandidateRecorded) <==> i.candidate.None? || i.lock.identity == i.candidate)
  {
  }

  /** The checks that repeat what the record was validated for: all of it, and that no evidence is stale. */
  lemma RecordChecksExactly(i: Inputs)
    requires CanRun(i)
    ensures var f, cases := FindingsOf(i), i.spec.cases.value;
            && (Passes(f, SpecPasses) <==> RecordSound(i.spec.familyCounts, i.familyOrder, cases, i.files, i.lock.identity))
            && (Passes(f, NoStaleEvidence) <==> forall k :: 0 <= k < |cases| ==> !CaseStale(cases[k], i.files))
  {
  }

  /** A case may be blocked only as IPY-08, and only while the lock says that no live provider budget is authorized. */
  lemma BlockedCheckExactly(i: Inputs)
    requires CanRun(i)
    ensures var authorized := ("runtime_authorization", "live_provider_budget_authorized");
            Passes(FindingsOf(i), OnlyAllowlistedBlocked) <==>
            forall c :: c in i.spec.cases.value && c.status == Some("BLOCKED_EXTERNAL") ==>
              c.id == Some("IPY-08") && authorized in i.lock.settings && i.lock.settings[authorized] == false
  {
    forall c: Case
      ensures Authorized(c, i.lock.settings) <==>
              c.id == Some("IPY-08") && ("runtime_authorization", "live_provider_budget_authorized") in i.lock.settings
              && i.lock.settings[("runtime_authorization", "live_provider_budget_authorized")] == false
    {
    }
  }

  /** One passing case of the assembled product must carry evidence filed under the lock's identity. */
  lemma AssembledCheckExactly(i: Inputs)
    requires CanRun(i)
    ensures Passes(FindingsOf(i), AssembledEvidence) <==>
            exists c :: c in i.spec.cases.value && c.status == Some("PASS")
                        && c.layer in {Some("T2"), Some("T3"), Some("T4"), Some("T6")} && c.evidence.Entries?
                        && exists e :: e in c.evidence.entries && e.Entry? && e.identity == i.lock.identity
  {
  }

  // --------------------------------------------------------------------- the decision

  /** The checks in the order they are run; the candidate check is recorded only when it fails. */
  const ORDER := [SpecPasses, IdentityFresh, CandidateRecorded, NoFail, NoFlaky, NoneUnrun, NoInvalidated,
                  NoStaleEvidence, OnlyAllowlistedBlocked, AssembledEvidence]

  /** What the first n checks record when they come out like this, and the blockers they raise. */
  ghost function Recorded(f: Findings, n: nat): seq<Check>
    requires n <= |ORDER|
  {
    if n == 0 then []
    else
      var name := ORDER[n - 1];
      Recorded(f, n - 1)
      + (if name == CandidateRecorded && Passes(f, name) then [] else [Check(name, Passes(f, name))])
  }

  ghost function Blocked(f: Findings, n: nat): seq<CheckName>
    requires n <= |ORDER|
  {
    if n == 0 then []
    else
      var name := ORDER[n - 1];
      Blocked(f, n - 1) + (if !Passes(f, name) && !Silent(f, name) then [name] else [])
  }

  /** A check is recorded as it came out, and the blockers are the failed checks that are not silent. */
  lemma {:induction false} RecordedSays(f: Findings, n: nat, check: Check)
    requires n <= |ORDER|
    ensures check in Recorded(f, n) ==> check.passed == Passes(f, check.name)
    ensures check.name in Blocked(f, n) <==>
              Check(check.name, false) in Recorded(f, n) && !Silent(f, check.name)
  {
    if n > 0 {
      RecordedSays(f, n - 1, check);
    }
  }

  /**
   * The whole record of a decision: every check is recorded as it came out, the candidate check
   * only when it fails; every failure blocks but that of the first check, and of an identity that
   * could not be recomputed at all.
   */
  lemma DecisionRecordsExactly(f: Findings, name: CheckName)
    ensures Check(name, true) in Recorded(f, |ORDER|) <==> Passes(f, name) && name != CandidateRecorded
    ensures Check(name, false) in Recorded(f, |ORDER|) <==> !Passes(f, name)
    ensures name in Blocked(f, |ORDER|) <==>
              !Passes(f, name) && name != SpecPasses && (name == IdentityFresh ==> f.rederived)
  {
    RecordedWithin(f, |ORDER|, name);
    RecordedSays(f, |ORDER|, Check(name, false));
    var _ := PlaceOf(name);
  }

  /** A check is recorded once its place in the order has come. */
  lemma {:induction false} RecordedWithin(f: Findings, n: nat, name: CheckName)
    requires n <= |ORDER|
    ensures Check(name, true) in Recorded(f, n) <==> Passes(f, name) && name != CandidateRecorded && PlaceOf(name) < n
    ensures Check(name, false) in Recorded(f, n) <==> !Passes(f, name) && PlaceOf(name) < n
  {
    if n > 0 {
      RecordedWithin(f, n - 1, name);
      PlacesAreTheirs(n - 1);
    }
  }

  lemma PlacesAreTheirs(k: nat)
    requires k < |ORDER|
    ensures PlaceOf(ORDER[k]) == k
  {
  }

  /** All recorded checks passed exactly if all did. */
  lemma {:induction false} AllRecordedPassed(f: Findings, n: nat)
    requires n <= |ORDER|
    ensures (forall check :: check in Recorded(f, n) ==> check.passed) <==> FirstPass(f, n)
  {
    if n > 0 {
      AllRecordedPassed(f, n - 1);
      var name := ORDER[n - 1];
      if !(name == CandidateRecorded && Passes(f, name)) {
        LastPassed(Recorded(f, n - 1), Check(name, Passes(f, name)));
      }
    }
  }

  lemma {:induction false} PassingNeverBlocks(f: Findings, n: nat)
    requires n <= |ORDER| && FirstPass(f, n)
    ensures Blocked(f, n) == []
  {
    if n > 0 {
      PassingNeverBlocks(f, n - 1);
    }
  }

  /** The first n checks pass. */
  predicate FirstPass(f: Findings, n: nat)
    requires n <= |ORDER|
  {
    n == 0 || (FirstPass(f, n - 1) && Passes(f, ORDER[n - 1]))
  }

  lemma {:induction false} FirstPassEach(f: Findings, n: nat, k: nat)
    requires k < n <= |ORDER| && FirstPass(f, n)
    ensures Passes(f, ORDER[k])
  {
    if k < n - 1 {
      FirstPassEach(f, n - 1, k);
    }
  }

  lemma {:induction false} AllPassFirst(f: Findings, n: nat)
    requires n <= |ORDER| && AllPass(f)
    ensures FirstPass(f, n)
  {
    if n > 0 {
      AllPassFirst(f, n - 1);
    }
  }

  lemma LastPassed(before: seq<Check>, last: Check)
    ensures (forall check :: check in before + [last] ==> check.passed) <==>
              (forall check :: check in before ==> check.passed) && last.passed
  {
    assert last in before + [last];
  }

  function PlaceOf(name: CheckName): (k: nat)
    ensures k < |ORDER| && ORDER[k] == name
  {
    match name
    case SpecPasses => 0
    case IdentityFresh => 1
    case CandidateRecorded => 2
    case NoFail => 3
    case NoFlaky => 4
    case NoneUnrun => 5
    case NoInvalidated => 6
    case NoStaleEvidence => 7
    case OnlyAllowlistedBlocked => 8
    case AssembledEvidence => 9
  }

  predicate AllPass(f: Findings) { forall name :: Passes(f, name) }

  /** Every check has its place in the order, so all of them pass exactly if those run do. */
  lemma AllPassInOrder(f: Findings)
    ensures AllPass(f) <==> FirstPass(f, |ORDER|)
  {
    if FirstPass(f, |ORDER|) {
      forall name ensures Passes(f, name) {
        FirstPassEach(f, |ORDER|, PlaceOf(name));
      }
    }
    if AllPass(f) {
      AllPassFirst(f, |ORDER|);
    }
  }

  class ReleaseDecision {
    var releasable: bool
    var cannotRun: bool
    var identityFresh: bool
    var checks: seq<Check>
    var blockers: seq<CheckName>
    /** How many of the checks have been run. */
    ghost var ran: nat

    constructor ()
      ensures !releasable && !cannotRun && !identityFresh && checks == [] && blockers == [] && ran == 0
    {
      releasable, cannotRun, identityFresh, checks, blockers, ran := false, false, false, [], [], 0;
    }

    ghost predicate Ran(f: Findings)
      reads this
    {
      ran <= |ORDER| && checks == Recorded(f, ran) && blockers == Blocked(f, ran)
    }

    /** One check's outcome joins the record; a failure that blocks joins the blockers too. */
    method Record(f: Findings, name: CheckName)
      requires Ran(f) && ran < |ORDER| && name == ORDER[ran]
      modifies this`checks, this`blockers, this`ran
      ensures Ran(f) && ran == old(ran) + 1
    {
      if !(name == CandidateRecorded && Passes(f, name)) {
        checks := checks + [Check(name, Passes(f, name))];
      }
      if !Passes(f, name) && !Silent(f, name) {
        blockers := blockers + [name];
      }
      ran := ran + 1;
    }

    method RunIdentity(f: Findings)
      requires Ran(f) && ran == 0
      modifies this`checks, this`blockers, this`ran
      ensures Ran(f) && ran == 3
    {
      Record(f, SpecPasses);
      Record(f, IdentityFresh);
      Record(f, CandidateRecorded);
    }

    method RunStatuses(f: Findings)
      requires Ran(f) && ran == 3
      modifies this`checks, this`blockers, this`ran
      ensures Ran(f) && ran == 7
    {
      Record(f, NoFail);
      Record(f, NoFlaky);
      Record(f, NoneUnrun);
      Record(f, NoInvalidated);
    }

    method RunEvidence(f: Findings)
      requires Ran(f) && ran == 7
      modifies this`checks, this`blockers, this`ran
      ensures Ran(f) && ran == 10
    {
      Record(f, NoStaleEvidence);
      Record(f, OnlyAllowlistedBlocked);
      Record(f, AssembledEvidence);
    }

    /** All the checks in order, none short-circuiting another, then the verdict. */
    method RunChecks(f: Findings)
      requires Ran(f) && ran == 0
      modifies this
      ensures Ran(f) && ran == |ORDER| && cannotRun == old(cannotRun) && identityFresh == f.identityFresh
      ensures releasable <==> AllPass(f)
    {
      identityFresh := f.identityFresh;
      RunIdentity(f);
      RunStatuses(f);
      RunEvidence(f);
      Conclude(f);
    }

    method Conclude(ghost f: Findings)
      requires Ran(f) && ran == |ORDER|
      modifies this`releasable
      ensures releasable <==> AllPass(f)
    {
      var allPassed := AllPassed(checks);
      releasable := blockers == [] && allPassed;
      AllRecordedPassed(f, ran);
      AllPassInOrder(f);
      if allPassed {
        PassingNeverBlocks(f, ran);
      }
    }
  }

  method AnyStatus(cases: seq<Case>, status: string) returns (found: bool)
    ensures found == HasStatus(cases, status)
  {
    for i := 0 to |cases|
      invariant forall j :: 0 <= j < i ==> !Is(cases[j], status)
    {
      if Is(cases[i], status) {
        assert cases[i] in cases;
        return true;
      }
    }
    return false;
  }

  method AnyMandatory(cases: seq<Case>, status: string) returns (found: bool)
    ensures found == MandatoryWith(cases, status)
  {
    for i := 0 to |cases|
      invariant forall j :: 0 <= j < i ==> !(cases[j].mandatory && Is(cases[j], status))
    {
      if cases[i].mandatory && Is(cases[i], status) {
        assert cases[i] in cases;
        return true;
      }
    }
    return false;
  }

  method AllBlockedAuthorized(cases: seq<Case>, settings: map<(string, string), bool>) returns (ok: bool)
    ensures ok == BlockedAreAuthorized(cases, settings)
  {
    ok := true;
    for i := 0 to |cases|
      invariant ok <==> forall j :: 0 <= j < i && Is(cases[j], "BLOCKED_EXTERNAL") ==> Authorized(cases[j], settings)
    {
      var c := cases[i];
      if Is(c, "BLOCKED_EXTERNAL") {
        if !(c.id.Some? && c.id.value in BLOCKED_EXTERNAL_ALLOWLIST) {
          ok := false;
        } else if !LockConditionHolds(settings, BLOCKED_EXTERNAL_ALLOWLIST[c.id.value]) {
          ok := false;
        }
      }
    }
  }

  method AnyAssembled(cases: seq<Case>, recorded: Text) returns (found: bool)
    ensures found == SomeAssembled(cases, recorded)
  {
    for i := 0 to |cases|
      invariant forall j :: 0 <= j < i ==> !Assembled(cases[j], recorded)
    {
      if Assembled(cases[i], recorded) {
        assert cases[i] in cases;
        return true;
      }
    }
    return false;
  }

  method AnyLedgerFlaky(cases: seq<Case>, l: Ledger) returns (found: bool)
    ensures found <==> LedgerFlaky(cases, l)
  {
    var caseIds := [];
    for i := 0 to |cases|
      invariant forall id :: id in caseIds <==> exists j :: 0 <= j < i && cases[j].id == Some(id)
    {
      if cases[i].id.Some? {
        caseIds := caseIds + [cases[i].id.value];
      }
    }
    var flaky := FlakyCases(l, caseIds);
    found := flaky != [];
    if found {
      var j :| 0 <= j < |cases| && cases[j].id == Some(flaky[0]);
      assert flaky[0] in flaky && cases[j] in cases;
    } else {
      forall c | c in cases && c.id.Some? ensures VerdictOf(l, Query(c.id.value, None, None)) != Flaky {
        var j :| 0 <= j < |cases| && cases[j] == c;
        assert c.id.value in caseIds;
      }
    }
  }

  /** The ledger is sound, no case is FLAKY by its status, and none by the ledger. */
  method IsStable(i: Inputs) returns (stable: bool)
    requires CanRun(i)
    ensures stable == Stable(i)
  {
    var ledger, ledgerProblems := LoadLedger(i.ledger, i.files);
    var specFlaky := AnyStatus(Cases(i), "FLAKY");
    var ledgerFlaky := AnyLedgerFlaky(Cases(i), ledger);
    return ledgerProblems == [] && !specFlaky && !ledgerFlaky;
  }

  /** Every check is evaluated, whatever the others find. */
  method Evaluate(i: Inputs, problems: seq<SpecProblem>) returns (f: Findings)
    requires CanRun(i)
    requires problems == [] <==> RecordSound(i.spec.familyCounts, i.familyOrder, Cases(i), i.files, i.lock.identity)
    requires AnyStale(problems) == SomeCaseStale(Cases(i), |Cases(i)|, i.files)
    ensures f == FindingsOf(i)
  {
    var cases, recorded := Cases(i), i.lock.identity;
    var failed := AnyStatus(cases, "FAIL");
    var stable := IsStable(i);
    var notRun := AnyMandatory(cases, "NOT_RUN");
    var running := AnyMandatory(cases, "RUNNING");
    var invalidated := AnyStatus(cases, "INVALIDATED");
    var authorized := AllBlockedAuthorized(cases, i.lock.settings);
    var assembled := AnyAssembled(cases, recorded);
    f := Findings(problems == [], i.recomputed.Some?, i.recomputed.Some? && i.recomputed == recorded,
                  i.candidate.None? || i.candidate == recorded, !failed, stable, !notRun && !running, !invalidated,
                  !AnyStale(problems), authorized, assembled);
  }

  /**
   * Run every release check and return one decision: nothing short-circuits once the inputs can be
   * read, and the candidate is releasable exactly when every check passes.
   */
  method Decide(i: Inputs) returns (decision: ReleaseDecision)
    requires i.spec.Spec? ==> Ordered(i.familyOrder, i.spec.familyCounts)
    ensures fresh(decision)
    ensures decision.cannotRun <==> !CanRun(i)
    ensures CanRun(i) ==> decision.Ran(FindingsOf(i)) && decision.ran == |ORDER|
    ensures CanRun(i) ==> decision.identityFresh == FindingsOf(i).identityFresh
    ensures decision.releasable <==> CanRun(i) && AllPass(FindingsOf(i))
  {
    decision := new ReleaseDecision();
    if !i.lock.Lock? {
      decision.cannotRun := true;
      return;
    }
    var validation := ValidateEverything(i.spec, i.familyOrder, i.files, i.lock.identity);
    if validation.CannotRun? {
      decision.cannotRun := true;
      return;
    }
    var f := Evaluate(i, validation.problems);
    decision.RunChecks(f);
  }

  method AllPassed(checks: seq<Check>) returns (all: bool)
    ensures all <==> forall check :: check in checks ==> check.passed
  {
    for k := 0 to |checks|
      invariant forall j :: 0 <= j < k ==> checks[j].passed
    {
      if !checks[k].passed {
        assert checks[k] in checks;
        return false;
      }
    }
    return true;
  }

  // ------------------------------------------------------------------- what READY says

  /** A mandatory case passed on evidence that holds, or is blocked with an allowlist entry that still applies. */
  predicate Answered(c: Case, i: Inputs)
    requires i.lock.Lock?
  {
    || (Is(c, "PASS") && c.evidence.Entries? && c.evidence.entries != []
        && EntriesHold(c.evidence.entries, |c.evidence.entries|, i.files, i.lock.identity))
    || (Is(c, "BLOCKED_EXTERNAL") && Authorized(c, i.lock.settings))
  }

  /** What a reader may conclude from READY. */
  ghost predicate Ready(i: Inputs)
    requires CanRun(i)
  {
    var cases := Cases(i);
    && RecordSound(i.spec.familyCounts, i.familyOrder, cases, i.files, i.lock.identity)
    && i.lock.identity.Some? && i.recomputed == i.lock.identity
    && (i.candidate.None? || i.candidate == i.lock.identity)
    && (forall k :: 0 <= k < |cases| ==>
          !Is(cases[k], "FAIL") && !Is(cases[k], "FLAKY") && !Is(cases[k], "INVALIDATED")
          && (cases[k].mandatory || Is(cases[k], "BLOCKED_EXTERNAL") ==> Answered(cases[k], i)))
    && Sound(i.files, i.ledger) && !LedgerFlaky(cases, LedgerOf(i))
    && SomeAssembled(cases, i.lock.identity)
  }

  lemma SoundCaseIsAnswered(i: Inputs, k: nat)
    requires CanRun(i) && AllPass(FindingsOf(i)) && k < |Cases(i)| && Cases(i)[k].mandatory
    ensures Answered(Cases(i)[k], i)
  {
    var c, f := Cases(i)[k], FindingsOf(i);
    assert c in Cases(i);
    assert Passes(f, SpecPasses) && Passes(f, NoFail) && Passes(f, NoFlaky) && Passes(f, NoneUnrun);
    assert Passes(f, NoInvalidated) && Passes(f, OnlyAllowlistedBlocked);
    assert WellShaped(c, i.spec.familyCounts) && EvidenceHoldsFor(c, i.files, i.lock.identity);
  }

  lemma PassingMeansReady(i: Inputs)
    requires CanRun(i) && AllPass(FindingsOf(i))
    ensures Ready(i)
  {
    var cases, f := Cases(i), FindingsOf(i);
    assert Passes(f, SpecPasses) && Passes(f, IdentityFresh) && Passes(f, CandidateRecorded) && Passes(f, NoFlaky);
    assert Passes(f, NoFail) && Passes(f, NoInvalidated) && Passes(f, OnlyAllowlistedBlocked) && Passes(f, AssembledEvidence);
    forall k | 0 <= k < |cases|
      ensures !Is(cases[k], "FAIL") && !Is(cases[k], "FLAKY") && !Is(cases[k], "INVALIDATED")
      ensures cases[k].mandatory || Is(cases[k], "BLOCKED_EXTERNAL") ==> Answered(cases[k], i)
    {
      assert cases[k] in cases;
      if cases[k].mandatory {
        SoundCaseIsAnswered(i, k);
      }
    }
  }

  /** Evidence that holds is never stale: the stale-evidence check can only repeat the first one. */
  lemma SoundRecordIsNotStale(i: Inputs)
    requires CanRun(i) && FindingsOf(i).specPasses
    ensures FindingsOf(i).noStaleEvidence
  {
    var cases := Cases(i);
    forall k | 0 <= k < |cases| ensures !CaseStale(cases[k], i.files) {
      assert EvidenceHoldsFor(cases[k], i.files, i.lock.identity);
    }
  }

  lemma ReadyMeansPassing(i: Inputs)
    requires CanRun(i) && Ready(i)
    ensures AllPass(FindingsOf(i))
  {
    var cases, f := Cases(i), FindingsOf(i);
    SoundRecordIsNotStale(i);
    forall c | c in cases
      ensures !Is(c, "FAIL") && !Is(c, "FLAKY") && !Is(c, "INVALIDATED")
      ensures c.mandatory ==> !Is(c, "NOT_RUN") && !Is(c, "RUNNING")
      ensures Is(c, "BLOCKED_EXTERNAL") ==> Authorized(c, i.lock.settings)
    {
      var k :| 0 <= k < |cases| && cases[k] == c;
    }
  }

  /** READY is exactly this reading of the record, the lock and the ledger, and nothing weaker. */
  lemma ReadyExactly(i: Inputs)
    requires CanRun(i)
    ensures AllPass(FindingsOf(i)) <==> Ready(i)
  {
    if AllPass(FindingsOf(i)) {
      PassingMeansReady(i);
    }
    if Ready(i) {
      ReadyMeansPassing(i);
    }
  }

  /** In a ready record the ids are unique and the one case that may be blocked is the allowlisted one. */
  lemma ReadyRecordShape(i: Inputs, j: nat, k: nat)
    requires CanRun(i) && Ready(i) && j < k < |Cases(i)|
    ensures Cases(i)[j].id != Cases(i)[k].id
    ensures Is(Cases(i)[k], "BLOCKED_EXTERNAL") ==>
              Cases(i)[k].id == Some("IPY-08") && !Is(Cases(i)[j], "BLOCKED_EXTERNAL")
  {
    var cases := Cases(i);
    assert Is(cases[k], "BLOCKED_EXTERNAL") ==> Answered(cases[k], i);
    assert Is(cases[j], "BLOCKED_EXTERNAL") ==> Answered(cases[j], i);
  }

  /** A case of the record that the ledger saw both green and red on one candidate blocks until it is cleared. */
  lemma MixedCaseBlocks(i: Inputs, c: Case, candidate: string, fixture: string)
    requires CanRun(i) && c in Cases(i) && c.id.Some?
    requires Mixed(LedgerOf(i), Query(c.id.value, None, None), candidate, fixture)
    requires forall clear :: clear in LedgerOf(i).clears ==> clear.caseId != c.id.value
    ensures !AllPass(FindingsOf(i))
  {
    assert MixedCandidate(LedgerOf(i), Query(c.id.value, None, None), candidate);
    assert !Passes(FindingsOf(i), NoFlaky);
  }
}
