/**
 * Captures, collector sweeps and time, interleaved one atomic step after another: a capture's
 * lookup, publication, commit and checkpoint are separate steps with failures and crashes between
 * them, and a sweep works from a snapshot of the references that may be out of date.
 */
module CaptureRuns {
  import opened Wrappers
  import opened Bytes
  import opened ArtifactStore
  import opened Capture

  datatype Report = ReportedDurable | ReportedOrphaned | ReportedMissing | NoReport

  datatype Phase =
    | LookedUp(observation: string)
    | Published(observation: string, content: seq<Byte>, putAt: int)
    | Committed(observation: string, content: seq<Byte>)
    | Over(observation: string, content: seq<Byte>, result: Report)

  /** A sweep's view: the references it was given, when they were read, and its own clock reading. */
  datatype Sweep = Sweep(referenced: set<Ref>, takenAt: int, startedAt: Option<int>)

  /** How long a commit may take, how old a snapshot may be when its sweep starts, and the grace window. */
  datatype Timing = Timing(latency: nat, staleness: nat, graceMs: int)

  datatype World = World(
    now: int,
    store: Store,
    log: Log,
    captures: map<nat, Phase>,
    sweeps: map<nat, Sweep>,
    published: set<nat>,
    committed: set<nat>)

  datatype Event =
    | Begin(k: nat, observation: string)
    | Put(k: nat, content: seq<Byte>, kept: bool, ctime: int)
    | PutOverQuota(k: nat)
    | PutThrows(k: nat)
    | Commit(k: nat)
    | CommitFails(k: nat)
    | Checkpoint(k: nat, fails: bool)
    | Crash(k: nat)
    | Tick(to: int)
    | TakeSnapshot(g: nat)
    | StartSweep(g: nat)
    | SweepOne(g: nat, digest: Digest)
    | SetPinned(ref: Ref, pin: bool)

  predicate InPhase(w: World, k: nat, published: bool) {
    k in w.captures && if published then w.captures[k].Published? else w.captures[k].LookedUp?
  }

  function Ended(w: World, k: nat, content: seq<Byte>, result: Report): World
    requires k in w.captures
  {
    w.(captures := w.captures[k := Over(w.captures[k].observation, content, result)])
  }

  /** One step; an event that is not due changes nothing. */
  function Step(w: World, t: Timing, e: Event): World {
    match e
    case Begin(k, observation) =>
      if k in w.captures then w
      else if observation in w.log.byObservation
      then w.(captures := w.captures[k := Over(observation, [], NoReport)])
      else w.(captures := w.captures[k := LookedUp(observation)])
    case Put(k, content, kept, ctime) =>
      if !InPhase(w, k, false) then w
      else w.(store := Publish(w.store, content, kept, w.now, ctime),
              captures := w.captures[k := Published(w.captures[k].observation, content, w.now)],
              published := w.published + {k})
    case PutOverQuota(k) => if InPhase(w, k, false) then Ended(w, k, [], ReportedMissing) else w
    case PutThrows(k) => if InPhase(w, k, false) then Ended(w, k, [], NoReport) else w
    case Commit(k) =>
      if !InPhase(w, k, true) then w
      else
        var c := w.captures[k];
        w.(log := CommitTo(w.log, c.observation, Artifact(Hash(c.content)), Hash(c.content)),
           captures := w.captures[k := Committed(c.observation, c.content)],
           committed := w.committed + {k})
    case CommitFails(k) => if InPhase(w, k, true) then Ended(w, k, w.captures[k].content, ReportedOrphaned) else w
    case Checkpoint(k, fails) =>
      if k in w.captures && w.captures[k].Committed? then Ended(w, k, w.captures[k].content, ReportedDurable) else w
    case Crash(k) =>
      if k !in w.captures || w.captures[k].Over? then w
      else Ended(w, k, if w.captures[k].LookedUp? then [] else w.captures[k].content, NoReport)
    case Tick(to) => if to >= w.now then w.(now := to) else w
    case TakeSnapshot(g) => w.(sweeps := w.sweeps[g := Sweep(w.log.committed, w.now, None)])
    case StartSweep(g) =>
      if g in w.sweeps && w.sweeps[g].startedAt.None?
      then w.(sweeps := w.sweeps[g := w.sweeps[g].(startedAt := Some(w.now))]) else w
    case SweepOne(g, d) =>
      if g in w.sweeps && w.sweeps[g].startedAt.Some?
      then w.(store := SweepEntry(w.store, w.sweeps[g].referenced, t.graceMs, w.sweeps[g].startedAt.value, d)) else w
    case SetPinned(ref, pin) =>
      w.(store := w.store.(pinned := if pin then w.store.pinned + {ref} else w.store.pinned - {ref}))
  }

  function Run(w: World, t: Timing, events: seq<Event>): World
    decreases |events|
  {
    if events == [] then w else Run(Step(w, t, events[0]), t, events[1..])
  }

  /** A run takes its events one after the other, the last one last. */
  lemma {:induction false} RunTakesEvents(w: World, t: Timing, events: seq<Event>, last: Event)
    ensures Run(w, t, []) == w
    ensures Run(w, t, events + [last]) == Step(Run(w, t, events), t, last)
    decreases |events|
  {
    var all := events + [last];
    if events == [] {
      assert all[1..] == [];
    } else {
      assert all[0] == events[0] && all[1..] == events[1..] + [last];
      RunTakesEvents(Step(w, t, events[0]), t, events[1..], last);
    }
  }

  // ------------------------------------------------ a capture and a sweep left alone

  /** A capture up to its publication, nothing else happening. */
  function PutAlone(w: World, t: Timing, k: nat, observation: string, content: seq<Byte>, kept: bool, ctime: int): World {
    Step(Step(w, t, Begin(k, observation)), t, Put(k, content, kept, ctime))
  }

  /**
   * The four steps of a capture with nothing in between do to store and log what the capture as
   * one call does: publish, commit one row, report durable; or publish and report orphaned; or
   * leave both alone when the quota or another failure stops the publication.
   */
  lemma AloneIsOneCall(w: World, t: Timing, k: nat, observation: string, content: seq<Byte>, kept: bool, ctime: int, fails: bool)
    requires k !in w.captures && observation !in w.log.byObservation
    ensures var put := PutAlone(w, t, k, observation, content, kept, ctime);
            var digest := Hash(content);
            && put == w.(store := Publish(w.store, content, kept, w.now, ctime), published := w.published + {k},
                         captures := w.captures[k := Published(observation, content, w.now)])
            && Step(put, t, CommitFails(k))
                 == put.(captures := w.captures[k := Over(observation, content, ReportedOrphaned)])
            && Step(Step(put, t, Commit(k)), t, Checkpoint(k, fails))
                 == put.(log := CommitTo(w.log, observation, Artifact(digest), digest), committed := w.committed + {k},
                         captures := w.captures[k := Over(observation, content, ReportedDurable)])
    ensures var begun := Step(w, t, Begin(k, observation));
            && Step(begun, t, PutOverQuota(k)) == w.(captures := w.captures[k := Over(observation, [], ReportedMissing)])
            && Step(begun, t, PutThrows(k)) == w.(captures := w.captures[k := Over(observation, [], NoReport)])
  {
    Overwritten(w.captures, k, LookedUp(observation), Published(observation, content, w.now));
    Overwritten(w.captures, k, LookedUp(observation), Over(observation, [], ReportedMissing));
    Overwritten(w.captures, k, LookedUp(observation), Over(observation, [], NoReport));
    Overwritten(w.captures, k, Published(observation, content, w.now), Over(observation, content, ReportedOrphaned));
    Overwritten(w.captures, k, Published(observation, content, w.now), Committed(observation, content));
    Overwritten(w.captures, k, Committed(observation, content), Over(observation, content, ReportedDurable));
  }

  lemma Overwritten(captures: map<nat, Phase>, k: nat, first: Phase, second: Phase)
    ensures captures[k := first][k := second] == captures[k := second]
  {
  }

  /** An id the log already has is refused at the lookup: the capture is over, and nothing was written. */
  lemma KnownIdIsRefused(w: World, t: Timing, k: nat, observation: string)
    requires k !in w.captures && observation in w.log.byObservation
    ensures Step(w, t, Begin(k, observation)) == w.(captures := w.captures[k := Over(observation, [], NoReport)])
  {
  }

  /** Whatever a crash interrupts stays as far as it had come, and is never reported. */
  lemma CrashKeepsWhatWasDone(w: World, t: Timing, k: nat)
    requires k in w.captures && !w.captures[k].Over?
    ensures var after := Step(w, t, Crash(k));
            && after == w.(captures := after.captures) && after.captures.Keys == w.captures.Keys
            && after.captures[k].Over? && after.captures[k].result == NoReport
            && after.captures[k].observation == w.captures[k].observation
            && after.captures[k].content == (if w.captures[k].LookedUp? then [] else w.captures[k].content)
            && forall j :: j in w.captures && j != k ==> after.captures[j] == w.captures[j]
  {
    assert w.captures[k := Over(w.captures[k].observation, [], NoReport)].Keys == w.captures.Keys;
  }

  /** A sweep works with the references of its snapshot and the clock of its start, however late it gets to an entry. */
  lemma SweepKeepsItsView(w: World, t: Timing, g: nat, later: World, digest: Digest)
    requires later.sweeps == Step(Step(w, t, TakeSnapshot(g)), t, StartSweep(g)).sweeps
    ensures Step(later, t, SweepOne(g, digest))
         == later.(store := SweepEntry(later.store, w.log.committed, t.graceMs, w.now, digest))
    ensures Step(later, t, StartSweep(g)) == later
  {
  }

  /** Pins, the clock and a snapshot: each changes its own part and no other. */
  lemma HousekeepingExactly(w: World, t: Timing, g: nat, ref: Ref, to: int)
    ensures Step(w, t, SetPinned(ref, true)) == w.(store := w.store.(pinned := w.store.pinned + {ref}))
    ensures Step(w, t, SetPinned(ref, false)) == w.(store := w.store.(pinned := w.store.pinned - {ref}))
    ensures Step(w, t, Tick(to)) == w.(now := if to < w.now then w.now else to)
    ensures Step(w, t, TakeSnapshot(g)) == w.(sweeps := w.sweeps[g := Sweep(w.log.committed, w.now, None)])
  {
  }

  /** A step out of turn changes nothing: a capture's phases come in order, and a sweep starts once. */
  lemma OutOfTurnChangesNothing(w: World, t: Timing, e: Event)
    requires match e
             case Begin(k, _) => k in w.captures
             case Put(k, _, _, _) => k !in w.captures || !w.captures[k].LookedUp?
             case PutOverQuota(k) => k !in w.captures || !w.captures[k].LookedUp?
             case PutThrows(k) => k !in w.captures || !w.captures[k].LookedUp?
             case Commit(k) => k !in w.captures || !w.captures[k].Published?
             case CommitFails(k) => k !in w.captures || !w.captures[k].Published?
             case Checkpoint(k, _) => k !in w.captures || !w.captures[k].Committed?
             case Crash(k) => k !in w.captures || w.captures[k].Over?
             case Tick(to) => to <= w.now
             case StartSweep(g) => g !in w.sweeps || w.sweeps[g].startedAt.Some?
             case SweepOne(g, _) => g !in w.sweeps || w.sweeps[g].startedAt.None?
             case _ => false
    ensures Step(w, t, e) == w
  {
  }

  // -------------------------------------------------------------- honest outcomes

  /** What a capture reported against what it did. */
  ghost predicate Honest(w: World, k: nat)
    requires k in w.captures
  {
    match w.captures[k]
    case LookedUp(_) => k !in w.published && k !in w.committed
    case Published(_, _, _) => k in w.published && k !in w.committed
    case Committed(_, _) => k in w.published && k in w.committed
    case Over(_, _, result) =>
      result.NoReport?
      || ((result.ReportedDurable? <==> k in w.committed)
          && (result.ReportedOrphaned? <==> k in w.published && k !in w.committed)
          && (result.ReportedMissing? <==> k !in w.published))
  }

  ghost predicate AllHonest(w: World) {
    && (forall k :: k in w.captures ==> Honest(w, k))
    && w.published <= w.captures.Keys && w.committed <= w.published
  }

  lemma StepKeepsHonest(w: World, t: Timing, e: Event)
    requires AllHonest(w)
    ensures AllHonest(Step(w, t, e))
  {
  }

  /** Over every run each capture's phase and report say which of its own steps it took. */
  lemma {:induction false} RunsStayHonest(w: World, t: Timing, events: seq<Event>)
    requires AllHonest(w)
    ensures AllHonest(Run(w, t, events))
    decreases |events|
  {
    if events != [] {
      StepKeepsHonest(w, t, events[0]);
      RunsStayHonest(Step(w, t, events[0]), t, events[1..]);
    }
  }

  function Fresh(hostBacked: bool, now: int): World {
    World(now, Store(hostBacked, map[], map[], {}, map[], map[]), Log(map[], {}, 0), map[], map[], {}, {})
  }

  // ------------------------------------------- what the log and the disk hold of it

  function ContentOf(c: Phase): seq<Byte> { if c.LookedUp? then [] else c.content }

  predicate CommittedAs(w: World, k: nat, observation: string) {
    k in w.committed && k in w.captures && w.captures[k].observation == observation
  }

  ghost predicate CommittedUnder(w: World, observation: string) {
    exists k :: CommittedAs(w, k, observation)
  }

  predicate PublishedAs(w: World, k: nat, d: Digest) {
    k in w.published && k in w.captures && Hash(ContentOf(w.captures[k])) == d
  }

  ghost predicate PublishedContent(w: World, d: Digest) {
    exists k :: PublishedAs(w, k, d)
  }

  ghost predicate CommittedContent(w: World, d: Digest) {
    exists k :: k in w.committed && PublishedAs(w, k, d)
  }

  /** The row of an id refers to what one of the captures that committed under it captured. */
  ghost predicate RowIsACommit(w: World, observation: string) {
    observation in w.log.byObservation ==>
      exists k :: CommittedAs(w, k, observation)
                  && w.log.byObservation[observation].sha256 == Hash(ContentOf(w.captures[k]))
  }

  /** The log's rows are the commits that were made, its referenced set their contents. */
  ghost predicate LogIsTrue(w: World) {
    && (forall o :: o in w.log.byObservation <==> CommittedUnder(w, o))
    && (forall o :: RowIsACommit(w, o))
    && (forall r :: r in w.log.committed <==> r.Artifact? && CommittedContent(w, r.digest))
  }

  /** The objects on disk are the contents that were published; each is indexed, or retired with a tombstone. */
  ghost predicate DiskIsTrue(w: World) {
    && (forall d :: d in w.store.files <==> PublishedContent(w, d))
    && (forall d :: d in w.store.files ==> d in w.store.index || Artifact(d) in w.store.tombstones)
    && (forall d :: d in w.store.index ==> d in w.store.files)
  }

  /** What a capture has committed or published it keeps: no later step touches its id or its content. */
  lemma CapturesKeepTheirOwn(w: World, t: Timing, e: Event, k: nat)
    requires AllHonest(w) && k in w.captures
    ensures var after := Step(w, t, e);
            && k in after.captures && after.captures[k].observation == w.captures[k].observation
            && (k in w.published ==> k in after.published && ContentOf(after.captures[k]) == ContentOf(w.captures[k]))
            && (k in w.committed ==> k in after.committed)
  {
    assert Honest(w, k);
  }

  predicate Commits(w: World, e: Event) { e.Commit? && InPhase(w, e.k, true) }

  predicate Puts(w: World, e: Event) { e.Put? && InPhase(w, e.k, false) }

  lemma CommitsGrow(w: World, t: Timing, e: Event, k: nat, o: string)
    requires AllHonest(w)
    ensures CommittedAs(Step(w, t, e), k, o) <==>
              CommittedAs(w, k, o) || (Commits(w, e) && e.k == k && w.captures[k].observation == o)
  {
    if k in w.captures {
      CapturesKeepTheirOwn(w, t, e, k);
    }
  }

  lemma PutsGrow(w: World, t: Timing, e: Event, k: nat, d: Digest)
    requires AllHonest(w)
    ensures PublishedAs(Step(w, t, e), k, d) <==> PublishedAs(w, k, d) || (Puts(w, e) && e.k == k && Hash(e.content) == d)
    ensures k in Step(w, t, e).committed && PublishedAs(Step(w, t, e), k, d) <==>
              (k in w.committed && PublishedAs(w, k, d))
              || (Commits(w, e) && e.k == k && Hash(w.captures[k].content) == d)
  {
    if k in w.captures {
      CapturesKeepTheirOwn(w, t, e, k);
      assert Honest(w, k);
    }
  }

  lemma RowsFollowCommits(w: World, t: Timing, e: Event, o: string)
    requires AllHonest(w) && LogIsTrue(w)
    ensures var after := Step(w, t, e);
            (o in after.log.byObservation <==> CommittedUnder(after, o)) && RowIsACommit(after, o)
  {
    var after := Step(w, t, e);
    forall k ensures CommittedAs(after, k, o) <==>
                       CommittedAs(w, k, o) || (Commits(w, e) && e.k == k && w.captures[k].observation == o) {
      CommitsGrow(w, t, e, k, o);
    }
    if Commits(w, e) && w.captures[e.k].observation == o {
      assert CommittedAs(after, e.k, o);
    } else if o in w.log.byObservation {
      assert RowIsACommit(w, o);
      var k :| CommittedAs(w, k, o) && w.log.byObservation[o].sha256 == Hash(ContentOf(w.captures[k]));
      CapturesKeepTheirOwn(w, t, e, k);
      assert CommittedAs(after, k, o);
    }
  }

  lemma ReferencesFollowCommits(w: World, t: Timing, e: Event, d: Digest)
    requires AllHonest(w) && LogIsTrue(w)
    ensures Artifact(d) in Step(w, t, e).log.committed <==> CommittedContent(Step(w, t, e), d)
  {
    var after := Step(w, t, e);
    forall k ensures k in after.committed && PublishedAs(after, k, d) <==>
                       (k in w.committed && PublishedAs(w, k, d))
                       || (Commits(w, e) && e.k == k && Hash(w.captures[k].content) == d) {
      PutsGrow(w, t, e, k, d);
    }
  }

  lemma StepKeepsLogTrue(w: World, t: Timing, e: Event)
    requires AllHonest(w) && LogIsTrue(w)
    ensures LogIsTrue(Step(w, t, e))
  {
    var after := Step(w, t, e);
    forall o ensures (o in after.log.byObservation <==> CommittedUnder(after, o)) && RowIsACommit(after, o) {
      RowsFollowCommits(w, t, e, o);
    }
    forall r ensures r in after.log.committed <==> r.Artifact? && CommittedContent(after, r.digest) {
      if r.Artifact? {
        ReferencesFollowCommits(w, t, e, r.digest);
      }
    }
  }

  lemma StepKeepsDiskTrue(w: World, t: Timing, e: Event)
    requires AllHonest(w) && DiskIsTrue(w)
    ensures DiskIsTrue(Step(w, t, e))
  {
    var after := Step(w, t, e);
    forall d ensures PublishedContent(after, d) <==> PublishedContent(w, d) || (Puts(w, e) && Hash(e.content) == d) {
      forall k ensures PublishedAs(after, k, d) <==> PublishedAs(w, k, d) || (Puts(w, e) && e.k == k && Hash(e.content) == d) {
        PutsGrow(w, t, e, k, d);
      }
      if Puts(w, e) && Hash(e.content) == d {
        assert PublishedAs(after, e.k, d);
      }
    }
  }

  /** Over every run the log holds exactly the commits made and the disk exactly the contents published. */
  lemma {:induction false} RunsStayTrue(w: World, t: Timing, events: seq<Event>)
    requires AllHonest(w) && LogIsTrue(w) && DiskIsTrue(w)
    ensures var after := Run(w, t, events); AllHonest(after) && LogIsTrue(after) && DiskIsTrue(after)
    decreases |events|
  {
    if events != [] {
      StepKeepsHonest(w, t, events[0]);
      StepKeepsLogTrue(w, t, events[0]);
      StepKeepsDiskTrue(w, t, events[0]);
      RunsStayTrue(Step(w, t, events[0]), t, events[1..]);
    }
  }

  predicate Reported(w: World, k: nat) {
    k in w.captures && w.captures[k].Over? && !w.captures[k].result.NoReport?
  }

  /** Another capture has committed under this one's observation id. */
  ghost predicate RivalCommitted(w: World, k: nat)
    requires k in w.captures
  {
    exists j :: j != k && CommittedAs(w, j, w.captures[k].observation)
  }

  /**
   * Every report against the log, for every run from an empty store: `durable` says the id has a
   * row and its content is referenced; any other report says that a row the id may have is a rival
   * capture's.  So where no rival committed under the id, `durable` is exactly having a row.
   */
  lemma ReportsMatchTheLog(hostBacked: bool, now: int, t: Timing, events: seq<Event>, k: nat)
    requires Reported(Run(Fresh(hostBacked, now), t, events), k)
    ensures var w := Run(Fresh(hostBacked, now), t, events);
            var o, result := w.captures[k].observation, w.captures[k].result;
            && (result.ReportedDurable? ==>
                  o in w.log.byObservation && Artifact(Hash(w.captures[k].content)) in w.log.committed)
            && (!result.ReportedDurable? ==> (o in w.log.byObservation <==> RivalCommitted(w, k)))
            && (!RivalCommitted(w, k) ==>
                  (result.ReportedDurable? <==> o in w.log.byObservation)
                  && (o in w.log.byObservation ==> w.log.byObservation[o].sha256 == Hash(w.captures[k].content)))
  {
    var w := Run(Fresh(hostBacked, now), t, events);
    RunsStayTrue(Fresh(hostBacked, now), t, events);
    var o := w.captures[k].observation;
    assert Honest(w, k) && RowIsACommit(w, o);
    if w.captures[k].result.ReportedDurable? {
      assert CommittedAs(w, k, o) && PublishedAs(w, k, Hash(w.captures[k].content));
    } else if CommittedUnder(w, o) {
      var j :| CommittedAs(w, j, o);
      assert j != k;
    }
  }

  /**
   * What a capture reported is what it did, and for a capture whose id no other capture uses it is
   * what the log says: `durable` exactly if the id has a row.
   */
  lemma ReportsAreHonest(hostBacked: bool, now: int, t: Timing, events: seq<Event>, k: nat)
    requires Reported(Run(Fresh(hostBacked, now), t, events), k)
    ensures var w := Run(Fresh(hostBacked, now), t, events);
            && (w.captures[k].result.ReportedDurable? <==> k in w.committed)
            && (w.captures[k].result.ReportedOrphaned? <==> k in w.published && k !in w.committed)
            && (w.captures[k].result.ReportedMissing? <==> k !in w.published)
            && ((forall j :: j in w.captures && j != k ==> w.captures[j].observation != w.captures[k].observation) ==>
                  (w.captures[k].result.ReportedDurable? <==> w.captures[k].observation in w.log.byObservation))
  {
    var w := Run(Fresh(hostBacked, now), t, events);
    RunsStayHonest(Fresh(hostBacked, now), t, events);
    ReportsMatchTheLog(hostBacked, now, t, events, k);
    assert Honest(w, k);
  }

  /**
   * Every report against the disk: `durable` and `orphaned` say the content is an object there,
   * indexed or since collected under a tombstone; `orphaned` says it is referenced only if another
   * capture committed the same content; and whatever is on disk after a `missing`, another wrote.
   */
  lemma ReportsMatchTheDisk(hostBacked: bool, now: int, t: Timing, events: seq<Event>, k: nat)
    requires Reported(Run(Fresh(hostBacked, now), t, events), k)
    ensures var w := Run(Fresh(hostBacked, now), t, events);
            var d, result := Hash(w.captures[k].content), w.captures[k].result;
            && (!result.ReportedMissing? ==>
                  d in w.store.files && (d in w.store.index || Artifact(d) in w.store.tombstones))
            && (result.ReportedOrphaned? ==>
                  (Artifact(d) in w.log.committed <==> exists j :: j != k && j in w.committed && PublishedAs(w, j, d)))
            && (result.ReportedMissing? ==>
                  forall f :: f in w.store.files <==> exists j :: j != k && PublishedAs(w, j, f))
  {
    var w := Run(Fresh(hostBacked, now), t, events);
    RunsStayTrue(Fresh(hostBacked, now), t, events);
    var d := Hash(w.captures[k].content);
    assert Honest(w, k);
    if !w.captures[k].result.ReportedMissing? {
      assert PublishedAs(w, k, d);
    } else {
      forall f ensures f in w.store.files <==> exists j :: j != k && PublishedAs(w, j, f) {
        if f in w.store.files {
          var j :| PublishedAs(w, j, f);
          assert j != k;
        }
      }
    }
    if w.captures[k].result.ReportedOrphaned? && Artifact(d) in w.log.committed {
      var j :| j in w.committed && PublishedAs(w, j, d);
      assert j != k;
    }
  }

  /**
   * A checkpoint that fails changes nothing of the outcome: the capture reports `durable` as after
   * one that succeeds, its row stands, and nothing is taken back.
   */
  lemma FailedCheckpointIsDurable(hostBacked: bool, now: int, t: Timing, events: seq<Event>, k: nat)
    requires var w := Run(Fresh(hostBacked, now), t, events); k in w.captures && w.captures[k].Committed?
    ensures var w := Run(Fresh(hostBacked, now), t, events);
            var after := Step(w, t, Checkpoint(k, true));
            && after == Step(w, t, Checkpoint(k, false))
            && Reported(after, k) && after.captures[k].result.ReportedDurable?
            && after.captures[k].observation in after.log.byObservation && after.log == w.log && after.store == w.store
  {
    var w := Run(Fresh(hostBacked, now), t, events);
    RunsStayTrue(Fresh(hostBacked, now), t, events);
    assert Honest(w, k) && CommittedAs(w, k, w.captures[k].observation);
  }

  // ------------------------------------------------------- references never change hands

  /** The capture has looked its id up and not yet committed. */
  predicate Pending(w: World, k: nat) {
    k in w.captures && (w.captures[k].LookedUp? || w.captures[k].Published?)
  }

  /** The capture committed, whether or not it lived to say so. */
  predicate Promised(w: World, k: nat) {
    k in w.committed && k in w.captures
  }

  /** No capture begins under an observation id that another pending capture is using. */
  ghost predicate UnsharedStep(w: World, e: Event) {
    e.Begin? ==> forall k :: Pending(w, k) ==> w.captures[k].observation != e.observation
  }

  ghost predicate UnsharedRun(w: World, t: Timing, events: seq<Event>)
    decreases |events|
  {
    events == [] || (UnsharedStep(w, events[0]) && UnsharedRun(Step(w, t, events[0]), t, events[1..]))
  }

  /** The log's row for every finished capture is that capture's, and no one can still overwrite it. */
  ghost predicate Owned(w: World) {
    && (forall k :: k in w.committed ==> k in w.captures && !Pending(w, k))
    && (forall k :: Pending(w, k) ==> w.captures[k].observation !in w.log.byObservation)
    && (forall j, k :: Pending(w, j) && Pending(w, k) && w.captures[j].observation == w.captures[k].observation ==> j == k)
    && (forall k :: Promised(w, k) ==>
          (w.captures[k].observation in w.log.byObservation
           && w.log.byObservation[w.captures[k].observation].sha256 == Hash(w.captures[k].content)))
  }

  ghost predicate RowsKept(before: Log, after: Log) {
    forall o :: o in before.byObservation ==>
      o in after.byObservation && after.byObservation[o] == before.byObservation[o]
  }

  lemma StepKeepsOwned(w: World, t: Timing, e: Event)
    requires Owned(w) && UnsharedStep(w, e)
    ensures Owned(Step(w, t, e)) && RowsKept(w.log, Step(w, t, e).log)
  {
    if e.Commit? {
      CommitKeepsOwned(w, t, e);
    } else if e.Begin? {
      BeginKeepsOwned(w, t, e);
    } else {
      OtherStepsKeepOwned(w, t, e);
    }
  }

  lemma CommitKeepsOwned(w: World, t: Timing, e: Event)
    requires Owned(w) && e.Commit?
    ensures Owned(Step(w, t, e)) && RowsKept(w.log, Step(w, t, e).log)
  {
  }

  lemma BeginKeepsOwned(w: World, t: Timing, e: Event)
    requires Owned(w) && UnsharedStep(w, e) && e.Begin?
    ensures Owned(Step(w, t, e)) && RowsKept(w.log, Step(w, t, e).log)
  {
  }

  lemma OtherStepsKeepOwned(w: World, t: Timing, e: Event)
    requires Owned(w) && !e.Commit? && !e.Begin?
    ensures Owned(Step(w, t, e)) && RowsKept(w.log, Step(w, t, e).log)
  {
  }

  /** No step of the run changes any row that is there. */
  ghost predicate NeverOverwrites(w: World, t: Timing, events: seq<Event>)
    decreases |events|
  {
    events == [] || (RowsKept(w.log, Step(w, t, events[0]).log) && NeverOverwrites(Step(w, t, events[0]), t, events[1..]))
  }

  /** A committed observation id never changes its reference, as long as pending captures share no id. */
  lemma {:induction false} ReferencesNeverChange(w: World, t: Timing, events: seq<Event>)
    requires Owned(w) && UnsharedRun(w, t, events)
    ensures Owned(Run(w, t, events)) && RowsKept(w.log, Run(w, t, events).log) && NeverOverwrites(w, t, events)
    decreases |events|
  {
    if events != [] {
      StepKeepsOwned(w, t, events[0]);
      ReferencesNeverChange(Step(w, t, events[0]), t, events[1..]);
    }
  }

  // ------------------------------------------------------- exactly when a row changes

  /** Event ids are handed out in order: no row is from the future. */
  ghost predicate RowsAreNumbered(log: Log) {
    forall o :: o in log.byObservation ==> log.byObservation[o].eventId <= log.sequence
  }

  /** The step commits a published capture under an id that already has a row. */
  predicate Overwrites(w: World, e: Event) {
    Commits(w, e) && w.captures[e.k].observation in w.log.byObservation
  }

  /** A step keeps every row exactly unless it commits under an id that has one. */
  lemma RowsKeptExactly(w: World, t: Timing, e: Event)
    requires RowsAreNumbered(w.log)
    ensures RowsKept(w.log, Step(w, t, e).log) <==> !Overwrites(w, e)
    ensures RowsAreNumbered(Step(w, t, e).log)
  {
    if Overwrites(w, e) {
      var o := w.captures[e.k].observation;
      assert Step(w, t, e).log.byObservation[o].eventId == w.log.sequence + 1;
    }
  }

  /** Some step of the run commits under this id. */
  predicate CommitsUnder(w: World, t: Timing, events: seq<Event>, o: string)
    decreases |events|
  {
    events != []
    && ((Commits(w, events[0]) && w.captures[events[0].k].observation == o)
        || CommitsUnder(Step(w, t, events[0]), t, events[1..], o))
  }

  lemma {:induction false} RowsOnlyAge(w: World, t: Timing, events: seq<Event>, o: string)
    requires RowsAreNumbered(w.log) && o in w.log.byObservation
    ensures var after := Run(w, t, events).log;
            o in after.byObservation && after.byObservation[o].eventId >= w.log.byObservation[o].eventId
    decreases |events|
  {
    if events != [] {
      RowsKeptExactly(w, t, events[0]);
      RowsOnlyAge(Step(w, t, events[0]), t, events[1..], o);
    }
  }

  /** Over a whole run a committed id has the reference it had exactly unless some step commits under it again. */
  lemma {:induction false} ReferenceKeptExactly(w: World, t: Timing, events: seq<Event>, o: string)
    requires RowsAreNumbered(w.log) && o in w.log.byObservation
    ensures var after := Run(w, t, events).log;
            o in after.byObservation
            && (after.byObservation[o] == w.log.byObservation[o] <==> !CommitsUnder(w, t, events, o))
    decreases |events|
  {
    RowsOnlyAge(w, t, events, o);
    if events != [] {
      var next := Step(w, t, events[0]);
      RowsKeptExactly(w, t, events[0]);
      if Commits(w, events[0]) && w.captures[events[0].k].observation == o {
        assert next.log.byObservation[o].eventId > w.log.byObservation[o].eventId;
        RowsOnlyAge(next, t, events[1..], o);
      } else {
        ReferenceKeptExactly(next, t, events[1..], o);
      }
    }
  }

  ghost predicate OneCommitPerId(w: World) {
    forall j, k :: (j in w.committed && k in w.committed && j in w.captures && k in w.captures
                    && w.captures[j].observation == w.captures[k].observation) ==> j == k
  }

  /** A step leaves one commit per id exactly if it found that and does not overwrite. */
  lemma StepKeepsOneCommit(w: World, t: Timing, e: Event)
    requires AllHonest(w) && LogIsTrue(w)
    ensures OneCommitPerId(Step(w, t, e)) <==> OneCommitPerId(w) && !Overwrites(w, e)
  {
    var after := Step(w, t, e);
    forall k, o ensures CommittedAs(after, k, o) <==>
                          CommittedAs(w, k, o) || (Commits(w, e) && e.k == k && w.captures[k].observation == o) {
      CommitsGrow(w, t, e, k, o);
    }
    CommitsAreDistinct(w);
    CommitsAreDistinct(after);
    if Commits(w, e) {
      assert Honest(w, e.k);
      var o := w.captures[e.k].observation;
      assert CommittedAs(after, e.k, o);
    }
  }

  lemma CommitsAreDistinct(w: World)
    ensures OneCommitPerId(w) <==> forall j, k, o :: CommittedAs(w, j, o) && CommittedAs(w, k, o) ==> j == k
  {
    if forall j, k, o :: CommittedAs(w, j, o) && CommittedAs(w, k, o) ==> j == k {
      forall j, k | j in w.committed && k in w.committed && j in w.captures && k in w.captures
                    && w.captures[j].observation == w.captures[k].observation
        ensures j == k
      {
        assert CommittedAs(w, j, w.captures[j].observation) && CommittedAs(w, k, w.captures[j].observation);
      }
    }
  }

  lemma {:induction false} OverwritesAreSecondCommits(w: World, t: Timing, events: seq<Event>)
    requires AllHonest(w) && LogIsTrue(w) && RowsAreNumbered(w.log)
    ensures OneCommitPerId(Run(w, t, events)) <==> OneCommitPerId(w) && NeverOverwrites(w, t, events)
    decreases |events|
  {
    if events != [] {
      StepKeepsOneCommit(w, t, events[0]);
      RowsKeptExactly(w, t, events[0]);
      StepKeepsHonest(w, t, events[0]);
      StepKeepsLogTrue(w, t, events[0]);
      OverwritesAreSecondCommits(Step(w, t, events[0]), t, events[1..]);
    }
  }

  /**
   * Over every run from an empty store: no committed reference ever changes if and only if no two
   * captures committed under one observation id.
   */
  lemma ReferencesChangeExactly(hostBacked: bool, now: int, t: Timing, events: seq<Event>)
    ensures NeverOverwrites(Fresh(hostBacked, now), t, events) <==> OneCommitPerId(Run(Fresh(hostBacked, now), t, events))
  {
    OverwritesAreSecondCommits(Fresh(hostBacked, now), t, events);
  }

  /** Where pending captures share no id, `durable` is exactly having a row and no rival. */
  lemma UnsharedReportsAreExact(hostBacked: bool, now: int, t: Timing, events: seq<Event>, k: nat)
    requires UnsharedRun(Fresh(hostBacked, now), t, events) && Reported(Run(Fresh(hostBacked, now), t, events), k)
    ensures var w := Run(Fresh(hostBacked, now), t, events);
            w.captures[k].result.ReportedDurable? <==>
              w.captures[k].observation in w.log.byObservation && !RivalCommitted(w, k)
  {
    var w := Run(Fresh(hostBacked, now), t, events);
    ReferencesNeverChange(Fresh(hostBacked, now), t, events);
    ReferencesChangeExactly(hostBacked, now, t, events);
    ReportsMatchTheLog(hostBacked, now, t, events, k);
    RunsStayHonest(Fresh(hostBacked, now), t, events);
    assert Honest(w, k);
  }

  /**
   * Two published captures that share an id are the race the log cannot refuse: whichever commits
   * second takes the row, and the first one's `durable` observation resolves to other bytes.
   */
  lemma SharedIdIsOverwritten(w: World, t: Timing, j: nat, k: nat)
    requires j != k && InPhase(w, j, true) && InPhase(w, k, true)
    requires w.captures[j].observation == w.captures[k].observation && w.captures[j].content != w.captures[k].content
    ensures var o := w.captures[j].observation;
            var first := Step(w, t, Commit(j));
            var both := Step(first, t, Commit(k));
            && Promised(both, j) && o in first.log.byObservation && o in both.log.byObservation
            && first.log.byObservation[o].sha256 == Hash(w.captures[j].content)
            && both.log.byObservation[o].sha256 == Hash(w.captures[k].content)
            && ResolveReference(both.store, both.log, o) != Ok(w.captures[j].content)
  {
    var both := Step(Step(w, t, Commit(j)), t, Commit(k));
    ResolvedIsWhatWasCommitted(both.store, both.log, w.captures[j].observation, w.captures[k].content);
  }

  /** Two captures look one id up before either commits; both publish, both commit, both succeed. */
  function SharedIdRace(o: string, a: seq<Byte>, b: seq<Byte>, ctime: int): seq<Event> {
    [Begin(0, o)] + ([Begin(1, o)] + ([Put(0, a, false, ctime)] + ([Put(1, b, false, ctime)]
    + ([Commit(0)] + ([Checkpoint(0, false)] + ([Commit(1)] + []))))))
  }

  /**
   * The race is reachable from an empty store, whatever the two contents: capture 0 reports
   * `durable`, and its observation then resolves to what capture 1 captured.
   */
  lemma SharedIdRaceIsReachable(hostBacked: bool, now: int, t: Timing, o: string, a: seq<Byte>, b: seq<Byte>)
    requires a != b
    ensures var w := Run(Fresh(hostBacked, now), t, SharedIdRace(o, a, b, now));
            && Reported(w, 0) && w.captures[0] == Over(o, a, ReportedDurable) && 1 in w.committed
            && ResolveReference(w.store, w.log, o) == Ok(b)
  {
    var commits := [Commit(0)] + ([Checkpoint(0, false)] + ([Commit(1)] + []));
    var w0 := Fresh(hostBacked, now);
    var w1 := Step(w0, t, Begin(0, o));
    var w2 := Step(w1, t, Begin(1, o));
    var w3 := Step(w2, t, Put(0, a, false, now));
    var w4 := Step(w3, t, Put(1, b, false, now));
    RunCons(w0, t, Begin(0, o), [Begin(1, o)] + ([Put(0, a, false, now)] + ([Put(1, b, false, now)] + commits)));
    RunCons(w1, t, Begin(1, o), [Put(0, a, false, now)] + ([Put(1, b, false, now)] + commits));
    RunCons(w2, t, Put(0, a, false, now), [Put(1, b, false, now)] + commits);
    RunCons(w3, t, Put(1, b, false, now), commits);
    BothCommit(w4, t, o, a, b, commits);
  }

  lemma BothCommit(w: World, t: Timing, o: string, a: seq<Byte>, b: seq<Byte>, commits: seq<Event>)
    requires 0 in w.captures && w.captures[0].Published? && w.captures[0].observation == o && w.captures[0].content == a
    requires 1 in w.captures && w.captures[1].Published? && w.captures[1].observation == o && w.captures[1].content == b
    requires Held(w.store, Artifact(Hash(b)))
    requires commits == [Commit(0)] + ([Checkpoint(0, false)] + ([Commit(1)] + []))
    ensures var after := Run(w, t, commits);
            && Reported(after, 0) && after.captures[0] == Over(o, a, ReportedDurable) && 1 in after.committed
            && ResolveReference(after.store, after.log, o) == Ok(b)
  {
    var first := Step(w, t, Commit(0));
    var durable := Step(first, t, Checkpoint(0, false));
    var both := Step(durable, t, Commit(1));
    RunCons(w, t, Commit(0), [Checkpoint(0, false)] + ([Commit(1)] + []));
    RunCons(first, t, Checkpoint(0, false), [Commit(1)] + []);
    RunCons(durable, t, Commit(1), []);
    HeldResolves(both.store, both.log, o, b);
  }

  /** A row whose object is held resolves to the content of its digest. */
  lemma HeldResolves(store: Store, log: Log, o: string, content: seq<Byte>)
    requires o in log.byObservation && log.byObservation[o].artifact == Artifact(log.byObservation[o].sha256)
    requires log.byObservation[o].sha256 == Hash(content) && Held(store, Artifact(Hash(content)))
    ensures ResolveReference(store, log, o) == Ok(content)
  {
    var d := Hash(content);
    assert store.files[d].content == content;
    IntactReadsAsPublished(store, content, 0, store.index[d].bytes);
    WholeSlice(content, store.index[d].bytes);
  }

  // ------------------------------------------------------------------ the grace window

  /** The bounds a run keeps: commits are prompt, and a sweep starts soon after its snapshot. */
  ghost predicate TimelyStep(w: World, t: Timing, e: Event) {
    && (e.Tick? ==> forall k :: InPhase(w, k, true) ==> e.to <= w.captures[k].putAt + t.latency)
    && (e.StartSweep? && e.g in w.sweeps ==> w.now - w.sweeps[e.g].takenAt <= t.staleness)
  }

  ghost predicate TimelyRun(w: World, t: Timing, events: seq<Event>)
    decreases |events|
  {
    events == [] || (TimelyStep(w, t, events[0]) && TimelyRun(Step(w, t, events[0]), t, events[1..]))
  }

  /** An entry too young for any sweep that does not know it is referenced. */
  predicate Recent(s: Store, ref: Ref, since: int) {
    ref.Artifact? && ref.digest in s.index && s.index[ref.digest].publishedAt >= since
  }

  ghost predicate FilesHash(s: Store) {
    forall d :: d in s.files ==> Hash(s.files[d].content) == d
  }

  /** Nothing a capture has published, or the log refers to, has been collected. */
  ghost predicate NothingLost(w: World, t: Timing) {
    && FilesHash(w.store) && LogSound(w.log)
    && (forall r :: r in w.log.committed ==> Held(w.store, r))
    && (forall k :: InPhase(w, k, true) ==>
          (Held(w.store, Artifact(Hash(w.captures[k].content)))
           && Recent(w.store, Artifact(Hash(w.captures[k].content)), w.captures[k].putAt)
           && w.captures[k].putAt <= w.now <= w.captures[k].putAt + t.latency))
  }

  /** Each sweep's snapshot names every reference, except those to entries younger than it. */
  ghost predicate SweepsAreCareful(w: World, t: Timing) {
    && (forall g :: g in w.sweeps ==>
          (w.sweeps[g].takenAt <= w.now
           && (w.sweeps[g].startedAt.Some? ==>
                 w.sweeps[g].takenAt <= w.sweeps[g].startedAt.value <= w.now
                 && w.sweeps[g].startedAt.value - w.sweeps[g].takenAt <= t.staleness)))
    && (forall g, r :: g in w.sweeps && r in w.log.committed ==>
          r in w.sweeps[g].referenced || Recent(w.store, r, w.sweeps[g].takenAt - t.latency))
  }

  ghost predicate Safe(w: World, t: Timing) {
    NothingLost(w, t) && SweepsAreCareful(w, t)
  }

  lemma PublishHolds(s: Store, content: seq<Byte>, kept: bool, now: int, ctime: int, ref: Ref)
    requires FilesHash(s)
    ensures var after := Publish(s, content, kept, now, ctime);
            && FilesHash(after) && Held(after, Artifact(Hash(content))) && Recent(after, Artifact(Hash(content)), now)
            && (Held(s, ref) ==> Held(after, ref))
  {
  }

  lemma PublishKeepsRecent(s: Store, content: seq<Byte>, kept: bool, now: int, ctime: int, ref: Ref, since: int)
    requires Recent(s, ref, since) && since <= now
    ensures Recent(Publish(s, content, kept, now, ctime), ref, since)
  {
  }

  lemma PutKeepsSafe(w: World, t: Timing, e: Event)
    requires Safe(w, t) && e.Put?
    ensures Safe(Step(w, t, e), t)
  {
    if InPhase(w, e.k, false) {
      var after := Step(w, t, e);
      forall r ensures Held(w.store, r) ==> Held(after.store, r) {
        PublishHolds(w.store, e.content, e.kept, w.now, e.ctime, r);
      }
      forall r, since | since <= w.now && Recent(w.store, r, since) ensures Recent(after.store, r, since) {
        PublishKeepsRecent(w.store, e.content, e.kept, w.now, e.ctime, r, since);
      }
    }
  }

  /** The heart of the matter: with the window longer than latency and staleness, a sweep passes by what matters. */
  lemma SweepSparesReferenced(w: World, t: Timing, g: nat, d: Digest)
    requires Safe(w, t) && t.latency + t.staleness < t.graceMs && g in w.sweeps && w.sweeps[g].startedAt.Some?
    requires Collectable(w.store, w.sweeps[g].referenced, t.graceMs, w.sweeps[g].startedAt.value, d)
    ensures Artifact(d) !in w.log.committed
    ensures forall k :: InPhase(w, k, true) ==> Hash(w.captures[k].content) != d
  {
  }

  lemma SweepKeepsSafe(w: World, t: Timing, e: Event)
    requires Safe(w, t) && t.latency + t.staleness < t.graceMs && e.SweepOne?
    ensures Safe(Step(w, t, e), t)
  {
    if e.g in w.sweeps && w.sweeps[e.g].startedAt.Some?
       && Collectable(w.store, w.sweeps[e.g].referenced, t.graceMs, w.sweeps[e.g].startedAt.value, e.digest)
    {
      SweepSparesReferenced(w, t, e.g, e.digest);
      var after := Step(w, t, e);
      forall r | r != Artifact(e.digest) ensures Held(w.store, r) ==> Held(after.store, r) {
      }
      forall r, since | r != Artifact(e.digest) && Recent(w.store, r, since) ensures Recent(after.store, r, since) {
      }
    }
  }

  lemma CommitKeepsSafe(w: World, t: Timing, e: Event)
    requires Safe(w, t) && e.Commit?
    ensures Safe(Step(w, t, e), t)
  {
  }

  lemma ClockAndSnapshotsKeepSafe(w: World, t: Timing, e: Event)
    requires Safe(w, t) && TimelyStep(w, t, e) && (e.Tick? || e.TakeSnapshot? || e.StartSweep?)
    ensures Safe(Step(w, t, e), t)
  {
  }

  lemma PinsKeepSafe(w: World, t: Timing, e: Event)
    requires Safe(w, t) && e.SetPinned?
    ensures Safe(Step(w, t, e), t)
  {
  }

  lemma OtherStepsKeepSafe(w: World, t: Timing, e: Event)
    requires Safe(w, t)
    requires e.Begin? || e.PutOverQuota? || e.PutThrows? || e.CommitFails? || e.Checkpoint? || e.Crash?
    ensures Safe(Step(w, t, e), t)
  {
  }

  /**
   * If commit latency plus snapshot staleness is below the grace window, no run of captures,
   * failures, crashes and sweeps ever removes an entry that is or becomes referenced.
   */
  lemma {:induction false} TimelyRunsStaySafe(w: World, t: Timing, events: seq<Event>)
    requires Safe(w, t) && t.latency + t.staleness < t.graceMs && TimelyRun(w, t, events)
    ensures Safe(Run(w, t, events), t)
    decreases |events|
  {
    if events != [] {
      if events[0].Put? {
        PutKeepsSafe(w, t, events[0]);
      } else if events[0].SweepOne? {
        SweepKeepsSafe(w, t, events[0]);
      } else if events[0].Commit? {
        CommitKeepsSafe(w, t, events[0]);
      } else if events[0].Tick? || events[0].TakeSnapshot? || events[0].StartSweep? {
        ClockAndSnapshotsKeepSafe(w, t, events[0]);
      } else if events[0].SetPinned? {
        PinsKeepSafe(w, t, events[0]);
      } else {
        OtherStepsKeepSafe(w, t, events[0]);
      }
      TimelyRunsStaySafe(Step(w, t, events[0]), t, events[1..]);
    }
  }

  /**
   * Every committed observation always resolves to exactly the bytes its capture published, also
   * when that capture was cut off before it could report.
   */
  lemma DurableResolvesToItsBytes(hostBacked: bool, now: int, t: Timing, events: seq<Event>, k: nat)
    requires t.latency + t.staleness < t.graceMs
    requires TimelyRun(Fresh(hostBacked, now), t, events) && UnsharedRun(Fresh(hostBacked, now), t, events)
    requires k in Run(Fresh(hostBacked, now), t, events).committed
    ensures var w := Run(Fresh(hostBacked, now), t, events);
            && k in w.captures && (w.captures[k].Committed? || w.captures[k].Over?)
            && ResolveReference(w.store, w.log, w.captures[k].observation) == Ok(w.captures[k].content)
  {
    var w := Run(Fresh(hostBacked, now), t, events);
    RunsStayHonest(Fresh(hostBacked, now), t, events);
    assert Honest(w, k) && Promised(w, k);
    TimelyRunsStaySafe(Fresh(hostBacked, now), t, events);
    ReferencesNeverChange(Fresh(hostBacked, now), t, events);
    var o, content := w.captures[k].observation, w.captures[k].content;
    assert o in w.log.byObservation && Held(w.store, w.log.byObservation[o].artifact);
    HeldResolves(w.store, w.log, o, content);
  }

  /** In such runs reconciliation never finds a referenced object missing from the index. */
  lemma SafeMeansReconciled(w: World, t: Timing)
    requires Safe(w, t)
    ensures forall r :: r in w.log.committed ==> r.Artifact? && r.digest in w.store.index
  {
  }

  /** Publish at once, snapshot just before a slow commit, start sweeping as late as allowed. */
  function SlowCommit(t: Timing, now: int, o: string, content: seq<Byte>): seq<Event> {
    [Begin(0, o)] + ([Put(0, content, false, now)] + ([Tick(now + t.latency)] + ([TakeSnapshot(0)]
    + ([Commit(0)] + ([Checkpoint(0, false)] + ([Tick(now + t.latency + t.staleness)]
    + ([StartSweep(0)] + ([SweepOne(0, Hash(content))] + []))))))))
  }

  lemma RunCons(w: World, t: Timing, e: Event, rest: seq<Event>)
    ensures Run(w, t, [e] + rest) == Run(Step(w, t, e), t, rest)
    ensures TimelyRun(w, t, [e] + rest) <==> TimelyStep(w, t, e) && TimelyRun(Step(w, t, e), t, rest)
    ensures UnsharedRun(w, t, [e] + rest) <==> UnsharedStep(w, e) && UnsharedRun(Step(w, t, e), t, rest)
  {
    assert ([e] + rest)[1..] == rest;
  }

  /** The bound is exact: a window no longer than latency plus staleness loses a durable observation. */
  lemma ShortWindowLosesData(hostBacked: bool, now: int, t: Timing, o: string, content: seq<Byte>)
    requires t.graceMs <= t.latency + t.staleness
    ensures var w, events := Fresh(hostBacked, now), SlowCommit(t, now, o, content);
            && TimelyRun(w, t, events) && UnsharedRun(w, t, events) && Promised(Run(w, t, events), 0)
            && ResolveReference(Run(w, t, events).store, Run(w, t, events).log, o) == Err(IntegrityError)
  {
    var swept := [SweepOne(0, Hash(content))] + [];
    var started := [StartSweep(0)] + swept;
    var late := [Tick(now + t.latency + t.staleness)] + started;
    var checkpointed := [Checkpoint(0, false)] + late;
    var committed := [Commit(0)] + checkpointed;
    var snapped := [TakeSnapshot(0)] + committed;
    var slow := [Tick(now + t.latency)] + snapped;
    var put := [Put(0, content, false, now)] + slow;
    var w0 := Fresh(hostBacked, now);
    var w1 := Step(w0, t, Begin(0, o));
    var w2 := Step(w1, t, Put(0, content, false, now));
    RunCons(w0, t, Begin(0, o), put);
    RunCons(w1, t, Put(0, content, false, now), slow);
    SlowCommitTail(w2, t, now, o, content, slow);
  }

  lemma SlowCommitTail(w2: World, t: Timing, now: int, o: string, content: seq<Byte>, slow: seq<Event>)
    requires t.graceMs <= t.latency + t.staleness && w2.now == now
    requires w2.captures == map[0 := Published(o, content, now)] && w2.sweeps == map[]
    requires w2.log == Log(map[], {}, 0) && w2.store.pinned == {}
    requires Hash(content) in w2.store.index && w2.store.index[Hash(content)].publishedAt == now
    requires slow == [Tick(now + t.latency)] + ([TakeSnapshot(0)] + ([Commit(0)] + ([Checkpoint(0, false)]
                     + ([Tick(now + t.latency + t.staleness)] + ([StartSweep(0)] + ([SweepOne(0, Hash(content))] + []))))))
    ensures TimelyRun(w2, t, slow) && UnsharedRun(w2, t, slow) && Promised(Run(w2, t, slow), 0)
    ensures ResolveReference(Run(w2, t, slow).store, Run(w2, t, slow).log, o) == Err(IntegrityError)
  {
    var swept := [SweepOne(0, Hash(content))] + [];
    var late := [Tick(now + t.latency + t.staleness)] + ([StartSweep(0)] + swept);
    var checkpointed := [Checkpoint(0, false)] + late;
    var committed := [Commit(0)] + checkpointed;
    var snapped := [TakeSnapshot(0)] + committed;
    var w3 := Step(w2, t, Tick(now + t.latency));
    var w4 := Step(w3, t, TakeSnapshot(0));
    var w5 := Step(w4, t, Commit(0));
    var w6 := Step(w5, t, Checkpoint(0, false));
    RunCons(w2, t, Tick(now + t.latency), snapped);
    RunCons(w3, t, TakeSnapshot(0), committed);
    RunCons(w4, t, Commit(0), checkpointed);
    RunCons(w5, t, Checkpoint(0, false), late);
    LateSweep(w6, t, now, o, content, late);
  }

  lemma LateSweep(w6: World, t: Timing, now: int, o: string, content: seq<Byte>, late: seq<Event>)
    requires t.graceMs <= t.latency + t.staleness && w6.now == now + t.latency
    requires w6.captures == map[0 := Over(o, content, ReportedDurable)] && 0 in w6.committed
    requires w6.sweeps == map[0 := Sweep({}, now + t.latency, None)] && w6.store.pinned == {}
    requires o in w6.log.byObservation && w6.log.byObservation[o].artifact == Artifact(Hash(content))
    requires Hash(content) in w6.store.index && w6.store.index[Hash(content)].publishedAt == now
    requires late == [Tick(now + t.latency + t.staleness)] + ([StartSweep(0)] + ([SweepOne(0, Hash(content))] + []))
    ensures TimelyRun(w6, t, late) && UnsharedRun(w6, t, late) && Promised(Run(w6, t, late), 0)
    ensures ResolveReference(Run(w6, t, late).store, Run(w6, t, late).log, o) == Err(IntegrityError)
  {
    var swept := [SweepOne(0, Hash(content))] + [];
    var w7 := Step(w6, t, Tick(now + t.latency + t.staleness));
    var w8 := Step(w7, t, StartSweep(0));
    RunCons(w6, t, Tick(now + t.latency + t.staleness), [StartSweep(0)] + swept);
    RunCons(w7, t, StartSweep(0), swept);
    RunCons(w8, t, SweepOne(0, Hash(content)), []);
  }
}
