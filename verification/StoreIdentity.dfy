/**
 * How processes that open one store root agree on its realm, and likewise on its cursor key:
 * read, create exclusively, reread on losing.  Creating the file and writing its text are
 * separate steps, any process may fail or crash between them, and nobody ever rewrites the file.
 * The realm accepts any non-empty identity, the key only one of at least 43 characters.
 */
module StoreIdentity {
  import opened Wrappers

  const MIN_REALM_CHARS: nat := 1
  const MIN_CURSOR_KEY_CHARS: nat := 43

  /**
   * What the file holds: the first `written` of the `total` characters its creator meant to
   * write, or text that was there already, with the identity that text parses to, if any.
   */
  datatype File =
    | Absent
    | Prefix(identity: string, written: nat, total: nat)
    | Foreign(claim: Option<string>)

  /** The identity a reader finds.  A record's text is one JSON object and a final newline. */
  function Parsed(file: File, minChars: nat): Option<string> {
    match file
    case Absent => None
    case Prefix(identity, written, total) =>
      if written + 1 >= total && |identity| >= minChars then Some(identity) else None
    case Foreign(claim) => if claim.Some? && |claim.value| >= minChars then claim else None
  }

  datatype Process =
    | SawAbsent(mint: string)
    | Writing(mint: string)
    | LostRace
    | Returned(identity: string)
    | Refused
    | Crashed

  /** One root's file and every call that was ever started on it. */
  datatype World = World(file: File, calls: map<nat, Process>)

  datatype Event =
    | FirstRead(p: nat, mint: string)
    | ReadFails(p: nat)
    | CreateExclusively(p: nat, total: nat)
    | CreateFails(p: nat)
    | WriteSome(p: nat, count: nat)
    | FinishWrite(p: nat)
    | WriteFails(p: nat)
    | Reread(p: nat)
    | Crash(p: nat)

  function Move(w: World, p: nat, next: Process): World {
    w.(calls := w.calls[p := next])
  }

  /** One step; an event that the call is not ready for changes nothing. */
  function Step(w: World, minChars: nat, e: Event): World {
    match e
    case FirstRead(p, mint) =>
      if p in w.calls || |mint| < minChars then w
      else if w.file.Absent? then Move(w, p, SawAbsent(mint))
      else if Parsed(w.file, minChars).Some? then Move(w, p, Returned(Parsed(w.file, minChars).value))
      else Move(w, p, Refused)
    case ReadFails(p) =>
      if p in w.calls && !w.calls[p].LostRace? then w else Move(w, p, Refused)
    case CreateExclusively(p, total) =>
      if !(p in w.calls && w.calls[p].SawAbsent?) || total < 2 then w
      else if w.file.Absent? then Move(w, p, Writing(w.calls[p].mint)).(file := Prefix(w.calls[p].mint, 0, total))
      else Move(w, p, LostRace)
    case CreateFails(p) =>
      if p in w.calls && w.calls[p].SawAbsent? then Move(w, p, Refused) else w
    case WriteSome(p, count) =>
      if p in w.calls && w.calls[p].Writing? && w.file.Prefix? && w.file.written + count <= w.file.total
      then w.(file := w.file.(written := w.file.written + count))
      else w
    case FinishWrite(p) =>
      if p in w.calls && w.calls[p].Writing? && w.file.Prefix? && w.file.written == w.file.total
      then Move(w, p, Returned(w.calls[p].mint))
      else w
    case WriteFails(p) =>
      if p in w.calls && w.calls[p].Writing? then Move(w, p, Refused) else w
    case Reread(p) =>
      if !(p in w.calls && w.calls[p].LostRace?) then w
      else if Parsed(w.file, minChars).Some? then Move(w, p, Returned(Parsed(w.file, minChars).value))
      else Move(w, p, Refused)
    case Crash(p) =>
      if p in w.calls && (w.calls[p].Returned? || w.calls[p].Refused?) then w else Move(w, p, Crashed)
  }

  function Run(w: World, minChars: nat, events: seq<Event>): World
    decreases |events|
  {
    if events == [] then w else Run(Step(w, minChars, events[0]), minChars, events[1..])
  }

  /** A run takes its events one after the other, the last one last. */
  lemma {:induction false} RunTakesEvents(w: World, minChars: nat, events: seq<Event>, last: Event)
    ensures Run(w, minChars, []) == w
    ensures Run(w, minChars, events + [last]) == Step(Run(w, minChars, events), minChars, last)
    decreases |events|
  {
    var all := events + [last];
    if events == [] {
      assert all[1..] == [];
    } else {
      assert all[0] == events[0] && all[1..] == events[1..] + [last];
      RunTakesEvents(Step(w, minChars, events[0]), minChars, events[1..], last);
    }
  }

  /** At most one call is writing, it writes the identity it minted, and every answer is the file's. */
  ghost predicate Agreed(w: World, minChars: nat) {
    && (forall p :: p in w.calls && w.calls[p].Returned? ==> Parsed(w.file, minChars) == Some(w.calls[p].identity))
    && (forall p :: p in w.calls && w.calls[p].Writing? ==> w.file.Prefix? && w.file.identity == w.calls[p].mint)
    && (forall p, q :: p in w.calls && q in w.calls && w.calls[p].Writing? && w.calls[q].Writing? ==> p == q)
    && (forall p :: p in w.calls && (w.calls[p].Writing? || w.calls[p].SawAbsent?) ==> |w.calls[p].mint| >= minChars)
  }

  /** The file only ever grows towards the text its creator set out to write. */
  predicate Extends(before: File, after: File) {
    match before
    case Absent => true
    case Prefix(identity, written, total) =>
      after.Prefix? && after.identity == identity && after.total == total && after.written >= written
    case Foreign(_) => after == before
  }

  lemma StepKeepsAgreed(w: World, minChars: nat, e: Event)
    requires Agreed(w, minChars)
    ensures Agreed(Step(w, minChars, e), minChars) && Extends(w.file, Step(w, minChars, e).file)
  {
  }

  /**
   * Over every interleaving of any number of calls, with failures and crashes anywhere, two calls
   * that return an identity return the same one, and it is the one on disk.
   */
  lemma {:induction false} RunsKeepAgreed(w: World, minChars: nat, events: seq<Event>)
    requires Agreed(w, minChars)
    ensures Agreed(Run(w, minChars, events), minChars) && Extends(w.file, Run(w, minChars, events).file)
    decreases |events|
  {
    if events != [] {
      StepKeepsAgreed(w, minChars, events[0]);
      RunsKeepAgreed(Step(w, minChars, events[0]), minChars, events[1..]);
    }
  }

  lemma EveryCallAgrees(file: File, minChars: nat, events: seq<Event>, p: nat, q: nat)
    requires var w := Run(World(file, map[]), minChars, events);
             p in w.calls && q in w.calls && w.calls[p].Returned? && w.calls[q].Returned?
    ensures var w := Run(World(file, map[]), minChars, events);
            && w.calls[p].identity == w.calls[q].identity && Parsed(w.file, minChars) == Some(w.calls[p].identity)
            && |w.calls[p].identity| >= minChars
  {
    RunsKeepAgreed(World(file, map[]), minChars, events);
  }

  /** Once a reader could find an identity, every later reader finds that one: restarts change nothing. */
  lemma StoredIdentityIsForever(w: World, minChars: nat, events: seq<Event>)
    requires Agreed(w, minChars) && Parsed(w.file, minChars).Some?
    ensures Parsed(Run(w, minChars, events).file, minChars) == Parsed(w.file, minChars)
  {
    RunsKeepAgreed(w, minChars, events);
  }

  /** The file exists, carries no readable identity, and whoever was writing it is gone. */
  ghost predicate Abandoned(w: World, minChars: nat) {
    !w.file.Absent? && Parsed(w.file, minChars).None? && forall p :: p in w.calls ==> !w.calls[p].Writing?
  }

  /** A half-written or malformed file yields refusals for ever, and is never replaced by a second identity. */
  lemma {:induction false} AbandonedOnlyRefuses(w: World, minChars: nat, events: seq<Event>, p: nat)
    requires Agreed(w, minChars) && Abandoned(w, minChars)
    ensures var after := Run(w, minChars, events);
            && after.file == w.file && Abandoned(after, minChars)
            && (p in after.calls ==> !after.calls[p].Returned?)
    decreases |events|
  {
    if events != [] {
      StepKeepsAgreed(w, minChars, events[0]);
      AbandonedOnlyRefuses(Step(w, minChars, events[0]), minChars, events[1..], p);
    }
  }

  /**
   * The loser of the race does not always get the winner's identity: it does exactly when the
   * winner has written all of its text but the final newline by the time of the reread.
   */
  lemma LoserReturnsExactly(w: World, minChars: nat, p: nat)
    requires Agreed(w, minChars) && p in w.calls && w.calls[p].LostRace? && w.file.Prefix? && |w.file.identity| >= minChars
    ensures Step(w, minChars, Reread(p)).calls[p]
         == if w.file.written + 1 >= w.file.total then Returned(w.file.identity) else Refused
  {
  }

  /** Two calls race: the loser rereads an empty file and is refused, the winner returns. */
  lemma LoserMayBeRefused(minChars: nat, mine: string, yours: string, total: nat)
    requires |mine| >= minChars && |yours| >= minChars && total >= 2
    ensures var bothRead := Step(Step(World(Absent, map[]), minChars, FirstRead(0, mine)), minChars, FirstRead(1, yours));
            var raced := Step(Step(bothRead, minChars, CreateExclusively(0, total)), minChars, CreateExclusively(1, total));
            var lost := Step(raced, minChars, Reread(1));
            var won := Step(Step(lost, minChars, WriteSome(0, total)), minChars, FinishWrite(0));
            won.calls == map[0 := Returned(mine), 1 := Refused]
  {
  }

  predicate Finished(call: Process) { call.Returned? || call.Refused? || call.Crashed? }

  /**
   * An event is about one call: no other call moves.  Only a creation that finds no file and the
   * write of the one who created it touch the file, and no event reopens a finished call.
   */
  lemma EventsAreLocal(w: World, minChars: nat, e: Event, q: nat)
    requires Agreed(w, minChars)
    ensures var after := Step(w, minChars, e);
            && (q != e.p ==> (q in after.calls <==> q in w.calls) && (q in w.calls ==> after.calls[q] == w.calls[q]))
            && (q in w.calls ==> q in after.calls && (Finished(w.calls[q]) ==> after.calls[q] == w.calls[q]))
            && (after.file != w.file ==>
                  || (e.CreateExclusively? && w.file.Absent? && e.p in w.calls && w.calls[e.p].SawAbsent?
                      && after.file == Prefix(w.calls[e.p].mint, 0, e.total) && after.calls[e.p] == Writing(w.calls[e.p].mint))
                  || (e.WriteSome? && e.p in w.calls && w.calls[e.p].Writing? && after.calls == w.calls
                      && after.file == Prefix(w.calls[e.p].mint, w.file.written + e.count, w.file.total)))
  {
  }

  /** Over any run: a finished call keeps its answer, and no more is ever written than was meant. */
  lemma {:induction false} FinishedIsFinal(w: World, minChars: nat, events: seq<Event>, q: nat)
    requires Agreed(w, minChars) && q in w.calls && Finished(w.calls[q])
    requires w.file.Prefix? ==> w.file.written <= w.file.total
    ensures var after := Run(w, minChars, events);
            && q in after.calls && after.calls[q] == w.calls[q]
            && (after.file.Prefix? ==> after.file.written <= after.file.total)
    decreases |events|
  {
    if events != [] {
      EventsAreLocal(w, minChars, events[0], q);
      StepKeepsAgreed(w, minChars, events[0]);
      FinishedIsFinal(Step(w, minChars, events[0]), minChars, events[1..], q);
    }
  }

  /** Every way to fail is open to the call it belongs to, and to no other; a failure leaves the file alone. */
  lemma FailureExactly(w: World, minChars: nat, p: nat)
    ensures var none := p !in w.calls;
            && Step(w, minChars, ReadFails(p))
                 == (if none || w.calls[p].LostRace? then World(w.file, w.calls[p := Refused]) else w)
            && Step(w, minChars, CreateFails(p))
                 == (if !none && w.calls[p].SawAbsent? then World(w.file, w.calls[p := Refused]) else w)
            && Step(w, minChars, WriteFails(p))
                 == (if !none && w.calls[p].Writing? then World(w.file, w.calls[p := Refused]) else w)
            && Step(w, minChars, Crash(p))
                 == (if none || !Finished(w.calls[p]) then World(w.file, w.calls[p := Crashed]) else w)
  {
    if p in w.calls && w.calls[p] == Crashed {
      assert w.calls[p := Crashed] == w.calls;
    }
  }

  /** The race as it is run: who creates is writing, who finds the file created has lost, who wrote it all returns. */
  lemma RaceExactly(w: World, minChars: nat, p: nat, total: nat, count: nat)
    requires p in w.calls && total >= 2
    ensures w.calls[p].SawAbsent? ==>
              Step(w, minChars, CreateExclusively(p, total))
              == (if w.file.Absent? then World(Prefix(w.calls[p].mint, 0, total), w.calls[p := Writing(w.calls[p].mint)])
                  else World(w.file, w.calls[p := LostRace]))
    ensures w.calls[p].Writing? && w.file.Prefix? && w.file.written + count <= w.file.total ==>
              Step(w, minChars, WriteSome(p, count))
              == World(Prefix(w.file.identity, w.file.written + count, w.file.total), w.calls)
    ensures w.calls[p].Writing? && w.file.Prefix? ==>
              (Step(w, minChars, FinishWrite(p)) == World(w.file, w.calls[p := Returned(w.calls[p].mint)])
               <==> w.file.written == w.file.total)
  {
  }

  /** The file holds this identity: text that was there already, or a record complete but for its newline. */
  predicate Records(file: File, identity: string) {
    || file == Foreign(Some(identity))
    || (file.Prefix? && file.identity == identity && file.written + 1 >= file.total)
  }

  /**
   * Opening a store that exists: the first read returns the identity the file records, whatever
   * the call minted for itself, and refuses a file that records none of sufficient length.
   */
  lemma ExistingIdentityIsReturned(w: World, minChars: nat, p: nat, mint: string)
    requires p !in w.calls && |mint| >= minChars && !w.file.Absent?
    ensures forall identity :: Records(w.file, identity) && |identity| >= minChars ==>
              Step(w, minChars, FirstRead(p, mint)) == World(w.file, w.calls[p := Returned(identity)])
    ensures (forall identity :: Records(w.file, identity) ==> |identity| < minChars) ==>
              Step(w, minChars, FirstRead(p, mint)) == World(w.file, w.calls[p := Refused])
  {
    if w.file.Foreign? && w.file.claim.Some? {
      assert Records(w.file, w.file.claim.value);
    } else if w.file.Prefix? && w.file.written + 1 >= w.file.total {
      assert Records(w.file, w.file.identity);
    }
  }

  /** The same file read as a realm and as a key: a text one character short of a key is still a realm. */
  lemma ShortKeysAreRefused(text: string, mint: string, p: nat)
    requires |mint| >= MIN_CURSOR_KEY_CHARS && 0 < |text|
    ensures var w := World(Foreign(Some(text)), map[]);
            && Step(w, MIN_REALM_CHARS, FirstRead(p, mint)).calls == map[p := Returned(text)]
            && Step(w, MIN_CURSOR_KEY_CHARS, FirstRead(p, mint)).calls == map[p := if |text| >= 43 then Returned(text) else Refused]
  {
  }

  /** A restart changes nothing: once any call has returned an identity, every later call's first read returns it too. */
  lemma RestartsReturnTheSame(file: File, minChars: nat, events: seq<Event>, later: seq<Event>, q: nat, p: nat, mint: string)
    requires var w := Run(World(file, map[]), minChars, events);
             && q in w.calls && w.calls[q].Returned?
             && p !in Run(w, minChars, later).calls && |mint| >= minChars
    ensures var w := Run(World(file, map[]), minChars, events);
            var after := Run(w, minChars, later);
            Step(after, minChars, FirstRead(p, mint)) == World(after.file, after.calls[p := Returned(w.calls[q].identity)])
  {
    var w := Run(World(file, map[]), minChars, events);
    RunsKeepAgreed(World(file, map[]), minChars, events);
    StoredIdentityIsForever(w, minChars, later);
  }

  /** A call that meets no file and is left alone returns what it minted. */
  lemma LoneCallSucceeds(w: World, minChars: nat, p: nat, mint: string, total: nat)
    requires w.file.Absent? && p !in w.calls && |mint| >= minChars && total >= 2
    ensures var read := Step(w, minChars, FirstRead(p, mint));
            var created := Step(read, minChars, CreateExclusively(p, total));
            var written := Step(created, minChars, WriteSome(p, total));
            Step(written, minChars, FinishWrite(p)).calls[p] == Returned(mint)
  {
  }
}
