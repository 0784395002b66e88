/**
 * Checking the acceptance record: family counts, case shape, evidence, and the agreement of each
 * status with its artifacts.  Every checker appends what it finds to one list of problems.
 */
module VerifySpec {
  import opened Wrappers
  import opened Stability

  datatype Entry = NotAnEntry | Entry(path: Text, sha256: Text, identity: Text, deploymentIdentity: Text)

  datatype Evidence = NotAList | Entries(entries: seq<Entry>)

  datatype Case = Case(id: Text, status: Text, mandatory: bool, layer: Text, evidence: Evidence, note: string)

  datatype SpecFile = NoSpec | UnreadableSpec | Spec(familyCounts: map<string, int>, cases: Option<seq<Case>>)

  datatype SpecProblem =
    | FamilyTotal | FamilyPrefix(prefix: string)
    | NoId | DuplicateId(id: Text) | BadStatus(id: Text) | NotApplicable(id: Text) | BadPrefix(id: Text)
    | EvidenceNotAList(id: Text) | PassWithoutEvidence(id: Text) | EntryNotAnObject(id: Text) | EntryWithoutPath(id: Text)
    | NotRepoRelative(id: Text) | OutsideRoot(id: Text) | FileMissing(id: Text) | NoUsableHash(id: Text)
    | HashMismatch(id: Text) | OtherIdentity(id: Text)
    | NonVerdictWithEvidence(id: Text) | Unexplained(id: Text)

  const VOCABULARY := {"NOT_RUN", "RUNNING", "PASS", "FAIL", "BLOCKED_EXTERNAL", "NOT_APPLICABLE", "FLAKY", "INVALIDATED"}
  const VERDICT_STATUSES := {"PASS", "FAIL", "FLAKY"}
  const NON_VERDICT_STATUSES := {"NOT_RUN", "BLOCKED_EXTERNAL", "RUNNING"}
  const EVIDENCE_ROOT := "qualification/results/"

  predicate StatusIn(c: Case, statuses: set<string>) { c.status.Some? && c.status.value in statuses }

  predicate Is(c: Case, status: string) { c.status == Some(status) }

  /** The text before the first separator, or all of it. */
  function Before(s: string, separator: char): string {
    if s == "" || s[0] == separator then "" else [s[0]] + Before(s[1..], separator)
  }

  function PrefixOf(c: Case): string { Before(if c.id.Some? then c.id.value else "?", '-') }

  /** It ends where the separator first stands. */
  lemma {:induction false} BeforeExactly(s: string, separator: char)
    ensures Before(s, separator) <= s && separator !in Before(s, separator)
    ensures |Before(s, separator)| == |s| || s[|Before(s, separator)|] == separator
  {
    if s != "" && s[0] != separator {
      BeforeExactly(s[1..], separator);
    }
  }

  /** A case's family: its id up to the first dash, all of an id without one. */
  lemma FamilyExactly(c: Case)
    requires c.id.Some?
    ensures PrefixOf(c) <= c.id.value && '-' !in PrefixOf(c)
    ensures PrefixOf(c) == c.id.value || c.id.value[|PrefixOf(c)|] == '-'
  {
    BeforeExactly(c.id.value, '-');
  }

  // ---------------------------------------------------------------- the problem list

  predicate IsStale(p: SpecProblem) { p.FileMissing? || p.HashMismatch? }

  predicate AnyStale(problems: seq<SpecProblem>) {
    problems != [] && (IsStale(problems[|problems| - 1]) || AnyStale(problems[..|problems| - 1]))
  }

  /** Problems were only appended, none exactly if all was clean, and stale ones exactly if some evidence was. */
  ghost predicate Appended(problems: seq<SpecProblem>, grown: seq<SpecProblem>, clean: bool, stale: bool) {
    && problems <= grown && (|grown| == |problems| <==> clean)
    && (AnyStale(grown) <==> AnyStale(problems) || stale)
  }

  lemma AppendOne(problems: seq<SpecProblem>, grown: seq<SpecProblem>, clean: bool, stale: bool, p: SpecProblem)
    requires Appended(problems, grown, clean, stale)
    ensures Appended(problems, grown + [p], false, stale || IsStale(p))
  {
    assert (grown + [p])[..|grown|] == grown;
  }

  lemma AppendedThen(a: seq<SpecProblem>, b: seq<SpecProblem>, c: seq<SpecProblem>,
                     clean1: bool, stale1: bool, clean2: bool, stale2: bool)
    requires Appended(a, b, clean1, stale1) && Appended(b, c, clean2, stale2)
    ensures Appended(a, c, clean1 && clean2, stale1 || stale2)
  {
  }

  lemma {:induction false} AnyStaleHas(problems: seq<SpecProblem>)
    ensures AnyStale(problems) <==> exists p :: p in problems && IsStale(p)
  {
    if problems != [] {
      AnyStaleHas(problems[..|problems| - 1]);
      assert problems == problems[..|problems| - 1] + [problems[|problems| - 1]];
    }
  }

  lemma AppendAll(problems: seq<SpecProblem>, more: seq<SpecProblem>)
    ensures Appended(problems, problems + more, more == [], AnyStale(more))
  {
    AnyStaleHas(problems);
    AnyStaleHas(more);
    AnyStaleHas(problems + more);
  }

  /** The problem, if the fault is there. */
  function When(fault: bool, p: SpecProblem): seq<SpecProblem> { if fault then [p] else [] }

  // ---------------------------------------------------------------------- family counts

  function Sum(counts: map<string, int>, keys: seq<string>): int
    requires forall k :: k in keys ==> k in counts
  {
    if keys == [] then 0 else Sum(counts, keys[..|keys| - 1]) + counts[keys[|keys| - 1]]
  }

  function WithPrefix(cases: seq<Case>, prefix: string): nat {
    if cases == [] then 0
    else WithPrefix(cases[..|cases| - 1], prefix) + (if PrefixOf(cases[|cases| - 1]) == prefix then 1 else 0)
  }

  /** What is declared adds up to the number of cases, prefix by prefix. */
  ghost predicate CountsAgree(counts: map<string, int>, order: seq<string>, cases: seq<Case>)
    requires forall k :: k in order ==> k in counts
  {
    counts == map[]
    || (Sum(counts, order) == |cases| && forall k :: k in order ==> counts[k] == WithPrefix(cases, k))
  }

  /** The declared counts in the order the record lists them: each family once. */
  ghost predicate Ordered(order: seq<string>, counts: map<string, int>) {
    && (forall k :: k in order <==> k in counts)
    && (forall i, j :: 0 <= i < j < |order| ==> order[i] != order[j])
  }

  method CountPrefix(cases: seq<Case>, prefix: string) returns (n: nat)
    ensures n == WithPrefix(cases, prefix)
  {
    n := 0;
    for i := 0 to |cases|
      invariant n == WithPrefix(cases[..i], prefix)
    {
      assert cases[..i + 1][..i] == cases[..i];
      if PrefixOf(cases[i]) == prefix {
        n := n + 1;
      }
    }
    assert cases[..|cases|] == cases;
  }

  /** The first n declared families have as many cases as they say. */
  predicate FamiliesAgree(counts: map<string, int>, order: seq<string>, cases: seq<Case>, n: nat)
    requires n <= |order| && forall k :: k in order ==> k in counts
  {
    n == 0 || (FamiliesAgree(counts, order, cases, n - 1) && counts[order[n - 1]] == WithPrefix(cases, order[n - 1]))
  }

  lemma {:induction false} FamiliesAgreeEach(counts: map<string, int>, order: seq<string>, cases: seq<Case>, n: nat)
    requires n <= |order| && forall k :: k in order ==> k in counts
    ensures FamiliesAgree(counts, order, cases, n) <==> forall i :: 0 <= i < n ==> counts[order[i]] == WithPrefix(cases, order[i])
  {
    if n > 0 {
      FamiliesAgreeEach(counts, order, cases, n - 1);
    }
  }

  /** The families whose declared count is off, and the total if it is. */
  predicate FamilyFault(counts: map<string, int>, order: seq<string>, cases: seq<Case>, p: SpecProblem)
    requires forall k :: k in order ==> k in counts
  {
    match p
    case FamilyTotal => counts != map[] && Sum(counts, order) != |cases|
    case FamilyPrefix(prefix) => prefix in order && counts[prefix] != WithPrefix(cases, prefix)
    case _ => false
  }

  method CheckFamilyCounts(counts: map<string, int>, order: seq<string>, cases: seq<Case>, problems: seq<SpecProblem>)
    returns (grown: seq<SpecProblem>)
    requires Ordered(order, counts)
    ensures Appended(problems, grown, CountsAgree(counts, order, cases), false)
    ensures forall p :: p in grown <==> p in problems || FamilyFault(counts, order, cases, p)
  {
    grown := problems;
    if counts == map[] {
      return;
    }
    var total := CountDeclared(counts, order);
    if total != |cases| {
      AppendOne(problems, grown, true, false, FamilyTotal);
      grown := grown + [FamilyTotal];
    }
    ghost var before := grown;
    grown := CheckPrefixes(counts, order, cases, grown);
    AppendedThen(problems, before, grown, total == |cases|, false, FamiliesAgree(counts, order, cases, |order|), false);
    FamiliesAgreeEach(counts, order, cases, |order|);
  }

  method CountDeclared(counts: map<string, int>, order: seq<string>) returns (total: int)
    requires forall k :: k in order ==> k in counts
    ensures total == Sum(counts, order)
  {
    total := 0;
    for i := 0 to |order|
      invariant total == Sum(counts, order[..i])
    {
      assert order[..i + 1][..i] == order[..i];
      total := total + counts[order[i]];
    }
    assert order[..|order|] == order;
  }

  method CheckPrefixes(counts: map<string, int>, order: seq<string>, cases: seq<Case>, problems: seq<SpecProblem>)
    returns (grown: seq<SpecProblem>)
    requires forall k :: k in order ==> k in counts
    ensures Appended(problems, grown, FamiliesAgree(counts, order, cases, |order|), false)
    ensures forall p :: p in grown <==>
              p in problems || (p.FamilyPrefix? && p.prefix in order && counts[p.prefix] != WithPrefix(cases, p.prefix))
  {
    grown := problems;
    for i := 0 to |order|
      invariant Appended(problems, grown, FamiliesAgree(counts, order, cases, i), false)
      invariant forall p :: p in grown <==>
                  p in problems || (p.FamilyPrefix? && p.prefix in order[..i] && counts[p.prefix] != WithPrefix(cases, p.prefix))
    {
      assert order[..i + 1] == order[..i] + [order[i]];
      var actual := CountPrefix(cases, order[i]);
      if actual != counts[order[i]] {
        AppendOne(problems, grown, FamiliesAgree(counts, order, cases, i), false, FamilyPrefix(order[i]));
        grown := grown + [FamilyPrefix(order[i])];
      }
    }
    assert order[..|order|] == order;
  }

  // ------------------------------------------------------------------------ case shape

  predicate WellShaped(c: Case, counts: map<string, int>) {
    && Usable(c.id) && StatusIn(c, VOCABULARY) && !Is(c, "NOT_APPLICABLE") && PrefixOf(c) in counts
  }

  /** Every case has a usable id of a declared family that no earlier case has, and a status that may stand. */
  ghost predicate ShapesAgree(counts: map<string, int>, cases: seq<Case>) {
    && (forall i :: 0 <= i < |cases| ==> WellShaped(cases[i], counts))
    && (forall i, j :: 0 <= i < j < |cases| ==> cases[i].id != cases[j].id)
  }

  /** The ids that cases before this one have used up. */
  function IdsBefore(cases: seq<Case>, i: nat): set<string>
    requires i <= |cases|
  {
    set j | 0 <= j < i && Usable(cases[j].id) :: cases[j].id.value
  }

  /** What may be wrong with one case's id, status and family, and what is then reported. */
  predicate ShapeFault(c: Case, counts: map<string, int>, seen: set<string>, p: SpecProblem) {
    if !Usable(c.id) then p == NoId
    else match p
      case DuplicateId(id) => id == c.id && c.id.value in seen
      case BadStatus(id) => id == c.id && !StatusIn(c, VOCABULARY)
      case NotApplicable(id) => id == c.id && Is(c, "NOT_APPLICABLE")
      case BadPrefix(id) => id == c.id && PrefixOf(c) !in counts
      case _ => false
  }

  predicate SomeShapeFault(cases: seq<Case>, n: nat, counts: map<string, int>, p: SpecProblem)
    requires n <= |cases|
  {
    exists i :: 0 <= i < n && ShapeFault(cases[i], counts, IdsBefore(cases, i), p)
  }

  lemma ShapeFaultsExtend(cases: seq<Case>, i: nat, counts: map<string, int>)
    requires i < |cases|
    ensures IdsBefore(cases, i + 1) == IdsBefore(cases, i) + (if Usable(cases[i].id) then {cases[i].id.value} else {})
    ensures forall p :: SomeShapeFault(cases, i + 1, counts, p) <==>
              SomeShapeFault(cases, i, counts, p) || ShapeFault(cases[i], counts, IdsBefore(cases, i), p)
  {
  }

  method CheckShapes(counts: map<string, int>, cases: seq<Case>, problems: seq<SpecProblem>) returns (grown: seq<SpecProblem>)
    ensures Appended(problems, grown, ShapesAgree(counts, cases), false)
    ensures forall p :: p in grown <==> p in problems || SomeShapeFault(cases, |cases|, counts, p)
  {
    grown := problems;
    var seen: set<string> := {};
    for i := 0 to |cases|
      invariant seen == IdsBefore(cases, i) && ShapesChecked(counts, cases, i, problems, grown)
    {
      ghost var before := grown;
      grown := CheckShape(cases[i], counts, seen, grown);
      ShapesCheckedNext(counts, cases, i, problems, before);
      ShapeFaultsExtend(cases, i, counts);
      if Usable(cases[i].id) {
        seen := seen + {cases[i].id.value};
      }
    }
    assert cases[..|cases|] == cases;
  }

  /** The problems of the first n cases have been appended, and no others. */
  ghost predicate ShapesChecked(counts: map<string, int>, cases: seq<Case>, n: nat, problems: seq<SpecProblem>,
                                grown: seq<SpecProblem>)
    requires n <= |cases|
  {
    && Appended(problems, grown, ShapesAgree(counts, cases[..n]), false)
    && forall p :: p in grown <==> p in problems || SomeShapeFault(cases, n, counts, p)
  }

  lemma ShapesCheckedNext(counts: map<string, int>, cases: seq<Case>, i: nat, problems: seq<SpecProblem>, grown: seq<SpecProblem>)
    requires i < |cases| && ShapesChecked(counts, cases, i, problems, grown)
    ensures ShapesChecked(counts, cases, i + 1, problems, grown + ShapeProblems(cases[i], counts, IdsBefore(cases, i)))
  {
    var seen := IdsBefore(cases, i);
    var more := ShapeProblems(cases[i], counts, seen);
    ShapesExtend(counts, cases, i, seen);
    ShapeFaultsExtend(cases, i, counts);
    ShapeProblemsAre(cases[i], counts, seen);
    ShapesAreNeverStale(cases[i], counts, seen);
    AppendAll(grown, more);
    AppendedThen(problems, grown, grown + more, ShapesAgree(counts, cases[..i]), false, more == [], false);
    forall p ensures p in grown + more <==> p in problems || SomeShapeFault(cases, i + 1, counts, p) {
      assert p in more <==> ShapeFault(cases[i], counts, seen, p);
    }
  }

  /** One case's problems in the order they are reported. */
  function ShapeProblems(c: Case, counts: map<string, int>, seen: set<string>): seq<SpecProblem> {
    if !Usable(c.id) then [NoId]
    else When(c.id.value in seen, DuplicateId(c.id)) + When(!StatusIn(c, VOCABULARY), BadStatus(c.id))
         + When(Is(c, "NOT_APPLICABLE"), NotApplicable(c.id)) + When(PrefixOf(c) !in counts, BadPrefix(c.id))
  }

  lemma ShapeProblemsAre(c: Case, counts: map<string, int>, seen: set<string>)
    ensures forall p :: p in ShapeProblems(c, counts, seen) <==> ShapeFault(c, counts, seen, p)
    ensures ShapeProblems(c, counts, seen) == [] <==> WellShaped(c, counts) && c.id.value !in seen
  {
  }

  lemma ShapesAreNeverStale(c: Case, counts: map<string, int>, seen: set<string>)
    ensures !AnyStale(ShapeProblems(c, counts, seen))
  {
    ShapeProblemsAre(c, counts, seen);
    AnyStaleHas(ShapeProblems(c, counts, seen));
  }

  method CheckShape(c: Case, counts: map<string, int>, seen: set<string>, problems: seq<SpecProblem>)
    returns (grown: seq<SpecProblem>)
    ensures grown == problems + ShapeProblems(c, counts, seen)
  {
    grown := problems;
    if !Usable(c.id) {
      return grown + [NoId];
    }
    if c.id.value in seen {
      grown := grown + [DuplicateId(c.id)];
    }
    if !StatusIn(c, VOCABULARY) {
      grown := grown + [BadStatus(c.id)];
    }
    if Is(c, "NOT_APPLICABLE") {
      grown := grown + [NotApplicable(c.id)];
    }
    if PrefixOf(c) !in counts {
      grown := grown + [BadPrefix(c.id)];
    }
  }

  /** One more case is in order exactly when it is well shaped and its id is new. */
  lemma ShapesExtend(counts: map<string, int>, cases: seq<Case>, i: nat, seen: set<string>)
    requires i < |cases|
    requires forall id :: id in seen <==> id != "" && exists j :: 0 <= j < i && cases[j].id == Some(id)
    ensures ShapesAgree(counts, cases[..i + 1]) <==>
              ShapesAgree(counts, cases[..i]) && WellShaped(cases[i], counts) && cases[i].id.value !in seen
  {
    var before, after := cases[..i], cases[..i + 1];
    assert forall k :: 0 <= k < i ==> after[k] == before[k] == cases[k];
    assert after[i] == cases[i];
    if ShapesAgree(counts, after) {
      assert forall k :: 0 <= k < i ==> after[k].id != after[i].id;
      assert WellShaped(after[i], counts);
      forall k | 0 <= k < i ensures WellShaped(before[k], counts) {
        assert WellShaped(after[k], counts);
      }
    }
    if ShapesAgree(counts, before) && WellShaped(cases[i], counts) && cases[i].id.value !in seen {
      forall k | 0 <= k <= i ensures WellShaped(after[k], counts) {
        if k < i {
          assert WellShaped(before[k], counts);
        }
      }
    }
  }

  // -------------------------------------------------------------------------- evidence

  predicate RepoRelative(path: string) { !("/" <= path) && ':' !in Before(path, '/') }

  /** The identity an entry was filed under, when it records one. */
  function FiledUnder(e: Entry): Text
    requires e.Entry?
  {
    if Usable(e.identity) then e.identity else e.deploymentIdentity
  }

  predicate ForeignIdentity(e: Entry, identity: Text)
    requires e.Entry?
  {
    FiledUnder(e).Some? && Usable(identity) && FiledUnder(e) != identity
  }

  predicate PathHolds(path: string, sha256: Text, files: map<string, string>) {
    && RepoRelative(path) && EVIDENCE_ROOT <= path && path in files
    && sha256 == Some(files[path]) && |files[path]| == 64
  }

  /** The file an entry names exists, at a path that begins with the evidence root, and hashes to what is recorded. */
  predicate EntryHolds(e: Entry, files: map<string, string>, identity: Text) {
    && e.Entry? && Usable(e.path) && PathHolds(ForwardSlashes(e.path.value), e.sha256, files)
    && !ForeignIdentity(e, identity)
  }

  /** Asking for the evidence root already asks for a repository-relative path. */
  lemma UnderRootIsRelative(path: string)
    requires EVIDENCE_ROOT <= path
    ensures RepoRelative(path)
  {
    BeforeIsPrefix(path, "qualification", '/');
  }

  lemma {:induction false} BeforeIsPrefix(path: string, head: string, separator: char)
    requires head + [separator] <= path && separator !in head
    ensures Before(path, separator) == head
  {
    if head != "" {
      assert path[0] == head[0] && head[0] in head;
      assert head[1..] + [separator] <= path[1..];
      BeforeIsPrefix(path[1..], head[1..], separator);
    }
  }

  /** The file an entry names is missing, or is not the one recorded. */
  predicate EntryStale(e: Entry, files: map<string, string>) {
    && e.Entry? && Usable(e.path)
    && (ForwardSlashes(e.path.value) !in files
        || (e.sha256.Some? && |e.sha256.value| == 64 && e.sha256.value != files[ForwardSlashes(e.path.value)]))
  }

  /** What may be wrong with one entry, and what is then reported: a missing file ends the examination. */
  predicate EntryFault(id: Text, e: Entry, files: map<string, string>, identity: Text, p: SpecProblem) {
    if e.NotAnEntry? then p == EntryNotAnObject(id)
    else if !Usable(e.path) then p == EntryWithoutPath(id)
    else FaultAt(id, e, ForwardSlashes(e.path.value), files, identity, p)
  }

  predicate FaultAt(id: Text, e: Entry, path: string, files: map<string, string>, identity: Text, p: SpecProblem)
    requires e.Entry?
  {
    match p
    case NotRepoRelative(x) => x == id && !RepoRelative(path)
    case OutsideRoot(x) => x == id && !(EVIDENCE_ROOT <= path)
    case FileMissing(x) => x == id && path !in files
    case NoUsableHash(x) => x == id && path in files && (e.sha256.None? || |e.sha256.value| != 64)
    case HashMismatch(x) =>
      x == id && path in files && e.sha256.Some? && |e.sha256.value| == 64 && files[path] != e.sha256.value
    case OtherIdentity(x) => x == id && path in files && ForeignIdentity(e, identity)
    case _ => false
  }

  /** Whose identity an entry speaks for: its own field first, and only a usable recorded identity is compared. */
  lemma ForeignExactly(e: Entry, identity: Text)
    requires e.Entry?
    ensures ForeignIdentity(e, identity) <==>
            && identity.Some? && identity != Some("")
            && (if e.identity.Some? && e.identity != Some("") then e.identity != identity
                else e.deploymentIdentity.Some? && e.deploymentIdentity != identity)
  {
  }

  /** A path is relative to the repository if it does not start at a root, and names no drive or scheme before its first slash. */
  lemma RelativeExactly(path: string)
    ensures RepoRelative(path) <==>
            && (path == "" || path[0] != '/')
            && forall i :: 0 <= i < |path| && path[i] == ':' ==> exists j :: 0 <= j < i && path[j] == '/'
  {
    BeforeExactly(path, '/');
    var head := Before(path, '/');
    assert head == path[..|head|];
    if |head| < |path| && ':' !in head && path[0] != '/' {
      forall i | 0 <= i < |path| && path[i] == ':' ensures exists j :: 0 <= j < i && path[j] == '/' {
        assert i > |head|;
        assert path[|head|] == '/';
      }
    }
  }

  /** An entry holds exactly if nothing is wrong with it, and is stale exactly if its file is missing or another. */
  lemma HoldsExactly(id: Text, e: Entry, files: map<string, string>, identity: Text)
    ensures EntryHolds(e, files, identity) <==> forall p :: !EntryFault(id, e, files, identity, p)
    ensures EntryStale(e, files) <==>
              EntryFault(id, e, files, identity, FileMissing(id)) || EntryFault(id, e, files, identity, HashMismatch(id))
  {
    if e.NotAnEntry? {
      assert EntryFault(id, e, files, identity, EntryNotAnObject(id));
    } else if !Usable(e.path) {
      assert EntryFault(id, e, files, identity, EntryWithoutPath(id));
    } else {
      HoldsAtExactly(id, e, ForwardSlashes(e.path.value), files, identity);
      assert forall p :: EntryFault(id, e, files, identity, p) <==> FaultAt(id, e, ForwardSlashes(e.path.value), files, identity, p);
    }
  }

  lemma HoldsAtExactly(id: Text, e: Entry, path: string, files: map<string, string>, identity: Text)
    requires e.Entry?
    ensures PathHolds(path, e.sha256, files) && !ForeignIdentity(e, identity) <==> forall p :: !FaultAt(id, e, path, files, identity, p)
  {
    if forall p :: !FaultAt(id, e, path, files, identity, p) {
      assert !FaultAt(id, e, path, files, identity, NotRepoRelative(id)) && !FaultAt(id, e, path, files, identity, OutsideRoot(id));
      assert !FaultAt(id, e, path, files, identity, FileMissing(id)) && !FaultAt(id, e, path, files, identity, NoUsableHash(id));
      assert !FaultAt(id, e, path, files, identity, HashMismatch(id)) && !FaultAt(id, e, path, files, identity, OtherIdentity(id));
    }
  }

  predicate SomeEntryFault(id: Text, entries: seq<Entry>, n: nat, files: map<string, string>, identity: Text, p: SpecProblem)
    requires n <= |entries|
  {
    exists i :: 0 <= i < n && EntryFault(id, entries[i], files, identity, p)
  }

  /** One entry's problems in the order they are reported. */
  function EntryProblems(id: Text, e: Entry, files: map<string, string>, identity: Text): seq<SpecProblem> {
    if e.NotAnEntry? then [EntryNotAnObject(id)]
    else if !Usable(e.path) then [EntryWithoutPath(id)]
    else ProblemsAt(id, e, ForwardSlashes(e.path.value), files, identity)
  }

  function ProblemsAt(id: Text, e: Entry, path: string, files: map<string, string>, identity: Text): seq<SpecProblem>
    requires e.Entry?
  {
    PathProblems(id, path) + (if path !in files then [FileMissing(id)] else FileProblems(id, e, files[path], identity))
  }

  function PathProblems(id: Text, path: string): seq<SpecProblem> {
    When(!RepoRelative(path), NotRepoRelative(id)) + When(!(EVIDENCE_ROOT <= path), OutsideRoot(id))
  }

  /** The problems of an entry whose file is there, with this digest. */
  function FileProblems(id: Text, e: Entry, digest: string, identity: Text): seq<SpecProblem>
    requires e.Entry?
  {
    var usable := e.sha256.Some? && |e.sha256.value| == 64;
    When(!usable, NoUsableHash(id)) + When(usable && e.sha256.value != digest, HashMismatch(id))
    + When(ForeignIdentity(e, identity), OtherIdentity(id))
  }

  lemma PathProblemsAre(id: Text, path: string)
    ensures forall p :: p in PathProblems(id, path) <==>
              (p == NotRepoRelative(id) && !RepoRelative(path)) || (p == OutsideRoot(id) && !(EVIDENCE_ROOT <= path))
    ensures PathProblems(id, path) == [] <==> RepoRelative(path) && EVIDENCE_ROOT <= path
  {
  }

  lemma FileProblemsAre(id: Text, e: Entry, digest: string, identity: Text)
    requires e.Entry?
    ensures forall p :: p in FileProblems(id, e, digest, identity) <==>
              || (p == NoUsableHash(id) && (e.sha256.None? || |e.sha256.value| != 64))
              || (p == HashMismatch(id) && e.sha256.Some? && |e.sha256.value| == 64 && digest != e.sha256.value)
              || (p == OtherIdentity(id) && ForeignIdentity(e, identity))
    ensures FileProblems(id, e, digest, identity) == [] <==>
              e.sha256 == Some(digest) && |digest| == 64 && !ForeignIdentity(e, identity)
  {
  }

  lemma ProblemAtIs(id: Text, e: Entry, path: string, files: map<string, string>, identity: Text, p: SpecProblem)
    requires e.Entry?
    ensures p in ProblemsAt(id, e, path, files, identity) <==> FaultAt(id, e, path, files, identity, p)
  {
    PathProblemsAre(id, path);
    if path in files {
      FileProblemsAre(id, e, files[path], identity);
    }
  }

  lemma NoProblemAt(id: Text, e: Entry, path: string, files: map<string, string>, identity: Text)
    requires e.Entry?
    ensures ProblemsAt(id, e, path, files, identity) == [] <==> PathHolds(path, e.sha256, files) && !ForeignIdentity(e, identity)
  {
    PathProblemsAre(id, path);
    if path in files {
      FileProblemsAre(id, e, files[path], identity);
    }
  }

  lemma EntryProblemsAre(id: Text, e: Entry, files: map<string, string>, identity: Text)
    ensures forall p :: p in EntryProblems(id, e, files, identity) <==> EntryFault(id, e, files, identity, p)
    ensures EntryProblems(id, e, files, identity) == [] <==> EntryHolds(e, files, identity)
  {
    if e.Entry? && Usable(e.path) {
      var path := ForwardSlashes(e.path.value);
      NoProblemAt(id, e, path, files, identity);
      forall p ensures p in EntryProblems(id, e, files, identity) <==> EntryFault(id, e, files, identity, p) {
        ProblemAtIs(id, e, path, files, identity, p);
      }
    }
  }

  lemma StaleProblemsAre(id: Text, e: Entry, files: map<string, string>, identity: Text)
    ensures AnyStale(EntryProblems(id, e, files, identity)) <==> EntryStale(e, files)
  {
    EntryProblemsAre(id, e, files, identity);
    AnyStaleHas(EntryProblems(id, e, files, identity));
    if EntryStale(e, files) {
      assert EntryFault(id, e, files, identity, FileMissing(id)) || EntryFault(id, e, files, identity, HashMismatch(id));
    }
  }

  method CheckEntry(id: Text, e: Entry, files: map<string, string>, identity: Text, problems: seq<SpecProblem>)
    returns (grown: seq<SpecProblem>)
    ensures Appended(problems, grown, EntryHolds(e, files, identity), EntryStale(e, files))
    ensures forall p :: p in grown <==> p in problems || EntryFault(id, e, files, identity, p)
  {
    EntryProblemsAre(id, e, files, identity);
    StaleProblemsAre(id, e, files, identity);
    AppendAll(problems, EntryProblems(id, e, files, identity));
    grown := ExamineEntry(id, e, files, identity, problems);
  }

  method ExamineEntry(id: Text, e: Entry, files: map<string, string>, identity: Text, problems: seq<SpecProblem>)
    returns (grown: seq<SpecProblem>)
    ensures grown == problems + EntryProblems(id, e, files, identity)
  {
    if e.NotAnEntry? {
      return problems + [EntryNotAnObject(id)];
    }
    if !Usable(e.path) {
      return problems + [EntryWithoutPath(id)];
    }
    grown := ExamineAt(id, e, ForwardSlashes(e.path.value), files, identity, problems);
  }

  method ExamineAt(id: Text, e: Entry, path: string, files: map<string, string>, identity: Text, problems: seq<SpecProblem>)
    returns (grown: seq<SpecProblem>)
    requires e.Entry?
    ensures grown == problems + ProblemsAt(id, e, path, files, identity)
  {
    grown := ExaminePath(id, path, problems);
    if path !in files {
      return grown + [FileMissing(id)];
    }
    grown := ExamineFile(id, e, files[path], identity, grown);
  }

  method ExaminePath(id: Text, path: string, problems: seq<SpecProblem>) returns (grown: seq<SpecProblem>)
    ensures grown == problems + PathProblems(id, path)
  {
    grown := problems;
    if !RepoRelative(path) {
      grown := grown + [NotRepoRelative(id)];
    }
    if !(EVIDENCE_ROOT <= path) {
      grown := grown + [OutsideRoot(id)];
    }
  }

  method ExamineFile(id: Text, e: Entry, digest: string, identity: Text, problems: seq<SpecProblem>)
    returns (grown: seq<SpecProblem>)
    requires e.Entry?
    ensures grown == problems + FileProblems(id, e, digest, identity)
  {
    grown := problems;
    if !(e.sha256.Some? && |e.sha256.value| == 64) {
      grown := grown + [NoUsableHash(id)];
    } else if digest != e.sha256.value {
      grown := grown + [HashMismatch(id)];
    }
    if ForeignIdentity(e, identity) {
      grown := grown + [OtherIdentity(id)];
    }
  }

  /** The first n entries hold; some of the first n entries is stale. */
  predicate EntriesHold(entries: seq<Entry>, n: nat, files: map<string, string>, identity: Text)
    requires n <= |entries|
    ensures EntriesHold(entries, n, files, identity) <==> forall i :: 0 <= i < n ==> EntryHolds(entries[i], files, identity)
  {
    n == 0 || (EntriesHold(entries, n - 1, files, identity) && EntryHolds(entries[n - 1], files, identity))
  }

  predicate SomeStale(entries: seq<Entry>, n: nat, files: map<string, string>)
    requires n <= |entries|
    ensures SomeStale(entries, n, files) <==> exists i :: 0 <= i < n && EntryStale(entries[i], files)
  {
    n > 0 && (SomeStale(entries, n - 1, files) || EntryStale(entries[n - 1], files))
  }

  predicate EvidenceHoldsFor(c: Case, files: map<string, string>, identity: Text) {
    && c.evidence.Entries? && !(Is(c, "PASS") && c.evidence.entries == [])
    && EntriesHold(c.evidence.entries, |c.evidence.entries|, files, identity)
  }

  predicate CaseStale(c: Case, files: map<string, string>) {
    c.evidence.Entries? && SomeStale(c.evidence.entries, |c.evidence.entries|, files)
  }

  predicate EvidenceFault(c: Case, files: map<string, string>, identity: Text, p: SpecProblem) {
    if c.evidence.NotAList? then p == EvidenceNotAList(c.id)
    else
      || (p == PassWithoutEvidence(c.id) && c.status == Some("PASS") && c.evidence.entries == [])
      || SomeEntryFault(c.id, c.evidence.entries, |c.evidence.entries|, files, identity, p)
  }

  method CheckEvidenceOf(c: Case, files: map<string, string>, identity: Text, problems: seq<SpecProblem>)
    returns (grown: seq<SpecProblem>)
    ensures Appended(problems, grown, EvidenceHoldsFor(c, files, identity), CaseStale(c, files))
    ensures forall p :: p in grown <==> p in problems || EvidenceFault(c, files, identity, p)
  {
    grown := problems;
    if c.evidence.NotAList? {
      AppendOne(problems, grown, true, false, EvidenceNotAList(c.id));
      return grown + [EvidenceNotAList(c.id)];
    }
    var entries := c.evidence.entries;
    ghost var backed := !(Is(c, "PASS") && entries == []);
    if Is(c, "PASS") && entries == [] {
      AppendOne(problems, grown, true, false, PassWithoutEvidence(c.id));
      grown := grown + [PassWithoutEvidence(c.id)];
    }
    for i := 0 to |entries|
      invariant Appended(problems, grown, backed && EntriesHold(entries, i, files, identity), SomeStale(entries, i, files))
      invariant forall p :: p in grown <==>
                  || p in problems || (!backed && p == PassWithoutEvidence(c.id))
                  || SomeEntryFault(c.id, entries, i, files, identity, p)
    {
      ghost var before := grown;
      grown := CheckEntry(c.id, entries[i], files, identity, grown);
      AppendedThen(problems, before, grown, backed && EntriesHold(entries, i, files, identity), SomeStale(entries, i, files),
                   EntryHolds(entries[i], files, identity), EntryStale(entries[i], files));
    }
  }

  predicate AllEvidenceHolds(cases: seq<Case>, n: nat, files: map<string, string>, identity: Text)
    requires n <= |cases|
    ensures AllEvidenceHolds(cases, n, files, identity) <==>
              forall i :: 0 <= i < n ==> EvidenceHoldsFor(cases[i], files, identity)
  {
    n == 0 || (AllEvidenceHolds(cases, n - 1, files, identity) && EvidenceHoldsFor(cases[n - 1], files, identity))
  }

  predicate SomeCaseStale(cases: seq<Case>, n: nat, files: map<string, string>)
    requires n <= |cases|
    ensures SomeCaseStale(cases, n, files) <==> exists i :: 0 <= i < n && CaseStale(cases[i], files)
  {
    n > 0 && (SomeCaseStale(cases, n - 1, files) || CaseStale(cases[n - 1], files))
  }

  predicate SomeEvidenceFault(cases: seq<Case>, n: nat, files: map<string, string>, identity: Text, p: SpecProblem)
    requires n <= |cases|
  {
    exists i :: 0 <= i < n && EvidenceFault(cases[i], files, identity, p)
  }

  method CheckEvidence(cases: seq<Case>, files: map<string, string>, identity: Text, problems: seq<SpecProblem>)
    returns (grown: seq<SpecProblem>)
    ensures Appended(problems, grown, AllEvidenceHolds(cases, |cases|, files, identity), SomeCaseStale(cases, |cases|, files))
    ensures forall p :: p in grown <==> p in problems || SomeEvidenceFault(cases, |cases|, files, identity, p)
  {
    grown := problems;
    for i := 0 to |cases|
      invariant Appended(problems, grown, AllEvidenceHolds(cases, i, files, identity), SomeCaseStale(cases, i, files))
      invariant forall p :: p in grown <==> p in problems || SomeEvidenceFault(cases, i, files, identity, p)
    {
      ghost var before := grown;
      grown := CheckEvidenceOf(cases[i], files, identity, grown);
      AppendedThen(problems, before, grown, AllEvidenceHolds(cases, i, files, identity), SomeCaseStale(cases, i, files),
                   EvidenceHoldsFor(cases[i], files, identity), CaseStale(cases[i], files));
    }
  }

  // ---------------------------------------------------------------- status and artifacts

  predicate HasEvidence(c: Case) { c.evidence.NotAList? || c.evidence.entries != [] }

  /** A non-verdict carries no evidence; a FAIL or a FLAKY says why. */
  predicate Coherent(c: Case) {
    && !(StatusIn(c, NON_VERDICT_STATUSES) && HasEvidence(c))
    && (StatusIn(c, VERDICT_STATUSES) && !Is(c, "PASS") ==> c.note != "" || HasEvidence(c))
  }

  predicate AllCoherent(cases: seq<Case>, n: nat)
    requires n <= |cases|
    ensures AllCoherent(cases, n) <==> forall i :: 0 <= i < n ==> Coherent(cases[i])
  {
    n == 0 || (AllCoherent(cases, n - 1) && Coherent(cases[n - 1]))
  }

  /** A status and its artifacts at odds, as it is reported. */
  predicate CoherenceFault(c: Case, p: SpecProblem) {
    match p
    case NonVerdictWithEvidence(id) => id == c.id && HasEvidence(c) && StatusIn(c, NON_VERDICT_STATUSES)
    case Unexplained(id) => id == c.id && !HasEvidence(c) && c.note == "" && StatusIn(c, VERDICT_STATUSES) && !Is(c, "PASS")
    case _ => false
  }

  predicate SomeCoherenceFault(cases: seq<Case>, n: nat, p: SpecProblem)
    requires n <= |cases|
  {
    exists i :: 0 <= i < n && CoherenceFault(cases[i], p)
  }

  /** The words behind the checks on a status: the vocabulary, its verdicts and what is not one. */
  lemma StatusWords(c: Case)
    ensures StatusIn(c, VOCABULARY) <==>
              c.status in {Some("NOT_RUN"), Some("RUNNING"), Some("PASS"), Some("FAIL"), Some("BLOCKED_EXTERNAL"),
                           Some("NOT_APPLICABLE"), Some("FLAKY"), Some("INVALIDATED")}
    ensures StatusIn(c, NON_VERDICT_STATUSES) <==> c.status in {Some("NOT_RUN"), Some("BLOCKED_EXTERNAL"), Some("RUNNING")}
    ensures StatusIn(c, VERDICT_STATUSES) && !Is(c, "PASS") <==> c.status in {Some("FAIL"), Some("FLAKY")}
  {
    StatusLiteral(c, "PASS", "FAIL");
    StatusLiteral(c, "PASS", "FLAKY");
  }

  lemma StatusLiteral(c: Case, a: string, b: string)
    requires a != b
    ensures !(Is(c, a) && Is(c, b))
  {
  }

  /** An incoherent case: evidence under a status that is no verdict, or a red verdict with neither note nor evidence. */
  lemma IncoherentExactly(c: Case)
    ensures Coherent(c) <==>
            && (c.status in {Some("NOT_RUN"), Some("BLOCKED_EXTERNAL"), Some("RUNNING")} ==> c.evidence == Entries([]))
            && (c.status in {Some("FAIL"), Some("FLAKY")} ==> c.note != "" || c.evidence != Entries([]))
  {
    StatusWords(c);
  }

  method CheckCoherence(cases: seq<Case>, problems: seq<SpecProblem>) returns (grown: seq<SpecProblem>)
    ensures Appended(problems, grown, AllCoherent(cases, |cases|), false)
    ensures forall p :: p in grown <==> p in problems || SomeCoherenceFault(cases, |cases|, p)
  {
    grown := problems;
    for i := 0 to |cases|
      invariant Appended(problems, grown, AllCoherent(cases, i), false)
      invariant forall p :: p in grown <==> p in problems || SomeCoherenceFault(cases, i, p)
    {
      var c := cases[i];
      if StatusIn(c, NON_VERDICT_STATUSES) && HasEvidence(c) {
        AppendOne(problems, grown, AllCoherent(cases, i), false, NonVerdictWithEvidence(c.id));
        grown := grown + [NonVerdictWithEvidence(c.id)];
      }
      if StatusIn(c, VERDICT_STATUSES) && !Is(c, "PASS") {
        if c.note == "" && !HasEvidence(c) {
          AppendOne(problems, grown, |grown| == |problems|, false, Unexplained(c.id));
          grown := grown + [Unexplained(c.id)];
        }
      }
    }
  }

  // ------------------------------------------------------------------- all the checks

  datatype Validation = CannotRun | Validated(problems: seq<SpecProblem>)

  ghost predicate RecordSound(counts: map<string, int>, order: seq<string>, cases: seq<Case>,
                              files: map<string, string>, identity: Text)
    requires Ordered(order, counts)
  {
    && CountsAgree(counts, order, cases) && ShapesAgree(counts, cases)
    && AllEvidenceHolds(cases, |cases|, files, identity) && AllCoherent(cases, |cases|)
  }

  /** Every problem there is with a record, and no other. */
  predicate Fault(counts: map<string, int>, order: seq<string>, cases: seq<Case>, files: map<string, string>,
                  identity: Text, p: SpecProblem)
    requires forall k :: k in order ==> k in counts
  {
    || FamilyFault(counts, order, cases, p)
    || SomeShapeFault(cases, |cases|, counts, p)
    || SomeEvidenceFault(cases, |cases|, files, identity, p)
    || SomeCoherenceFault(cases, |cases|, p)
  }

  /**
   * Every check runs, whatever the others found: the list is empty exactly when the record is
   * sound, and it names stale evidence exactly when some case has it.
   */
  method ValidateEverything(spec: SpecFile, order: seq<string>, files: map<string, string>, identity: Text)
    returns (r: Validation)
    requires spec.Spec? ==> Ordered(order, spec.familyCounts)
    ensures r.CannotRun? <==> !spec.Spec? || spec.cases.None?
    ensures r.Validated? ==>
              (r.problems == [] <==> RecordSound(spec.familyCounts, order, spec.cases.value, files, identity))
    ensures r.Validated? ==>
              (AnyStale(r.problems) <==> SomeCaseStale(spec.cases.value, |spec.cases.value|, files))
    ensures r.Validated? ==>
              forall p :: p in r.problems <==> Fault(spec.familyCounts, order, spec.cases.value, files, identity, p)
  {
    if !spec.Spec? || spec.cases.None? {
      return CannotRun;
    }
    var cases, counts := spec.cases.value, spec.familyCounts;
    var p1 := CheckFamilyCounts(counts, order, cases, []);
    var p2 := CheckShapes(counts, cases, p1);
    var p3 := CheckEvidence(cases, files, identity, p2);
    var p4 := CheckCoherence(cases, p3);
    AppendedThen([], p1, p2, CountsAgree(counts, order, cases), false, ShapesAgree(counts, cases), false);
    AppendedThen([], p2, p3, CountsAgree(counts, order, cases) && ShapesAgree(counts, cases), false,
                 AllEvidenceHolds(cases, |cases|, files, identity), SomeCaseStale(cases, |cases|, files));
    AppendedThen([], p3, p4, CountsAgree(counts, order, cases) && ShapesAgree(counts, cases)
                             && AllEvidenceHolds(cases, |cases|, files, identity), SomeCaseStale(cases, |cases|, files),
                 AllCoherent(cases, |cases|), false);
    return Validated(p4);
  }
}
