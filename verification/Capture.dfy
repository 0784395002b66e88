/**
 * Capturing a file in the reconcilable order, the Session reference log, and the two ways a
 * committed reference is looked at afterwards: resolving it and reconciling the whole store.
 */
module Capture {
  import opened Wrappers
  import opened Bytes
  import opened ArtifactStore

  // ---------------------------------------------------------------- the reference log

  datatype Reference = Reference(artifact: Ref, sha256: Digest, eventId: nat)

  datatype Log = Log(byObservation: map<string, Reference>, committed: set<Ref>, sequence: nat)

  function CommitTo(log: Log, observationId: string, artifact: Ref, sha256: Digest): Log {
    Log(log.byObservation[observationId := Reference(artifact, sha256, log.sequence + 1)],
        log.committed + {artifact}, log.sequence + 1)
  }

  /** The log's map and set tell one story: what an observation refers to is a referenced artifact. */
  ghost predicate LogSound(log: Log) {
    forall o :: o in log.byObservation ==>
      log.byObservation[o].artifact in log.committed
      && log.byObservation[o].artifact == Artifact(log.byObservation[o].sha256)
  }

  class InMemorySessionReferenceLog {
    var byObservation: map<string, Reference>
    var committed: set<Ref>
    var sequence: nat
    var failNextCommit: bool

    function State(): Log
      reads this
    {
      Log(byObservation, committed, sequence)
    }

    constructor ()
      ensures State() == Log(map[], {}, 0) && !failNextCommit
    {
      byObservation, committed, sequence, failNextCommit := map[], {}, 0, false;
    }

    method Commit(observationId: string, artifact: Ref, sha256: Digest) returns (eventId: Option<nat>)
      modifies this
      ensures !failNextCommit && eventId.None? == old(failNextCommit)
      ensures State() == if eventId.None? then old(State()) else CommitTo(old(State()), observationId, artifact, sha256)
      ensures eventId.Some? ==> eventId.value == sequence
    {
      if failNextCommit {
        failNextCommit := false;
        return None;
      }
      sequence := sequence + 1;
      byObservation := byObservation[observationId := Reference(artifact, sha256, sequence)];
      committed := committed + {artifact};
      return Some(sequence);
    }
  }

  // ------------------------------------------------------------------------- capture

  datatype Source = NoSuchTarget | NotAFile | RegularFile(size: Option<nat>)

  datatype Range = Range(offset: int, length: Option<int>)

  datatype Recovery = NoRecovery | Refetch

  datatype Stage = NativeAcquisition | Retention

  datatype Gap = Gap(stage: Stage, recovery: Recovery)

  datatype Completeness = CompleteWithinRequest | Partial

  datatype ReferenceState = Durable(eventId: nat) | Orphaned | Missing

  datatype Outcome = Outcome(artifact: Option<Ref>, bytes: nat, state: ReferenceState, completeness: Completeness, gaps: seq<Gap>)

  /** What the environment does during one capture: the bytes read, and which of its calls fail. */
  datatype Environment = Environment(
    source: Source,
    chunks: seq<seq<Byte>>,
    putFailure: Option<Code>,
    keepsObject: bool,
    checkpointFails: bool,
    now: int,
    ctime: int)

  /** How many bytes the request implied, when that is known at all. */
  function ExpectedBytes(sourceSize: Option<nat>, range: Option<Range>): Option<int> {
    match range
    case None => if sourceSize.Some? then Some(sourceSize.value) else None
    case Some(Range(offset, length)) =>
      if length.Some? then length
      else if sourceSize.Some? then Some(Max(0, sourceSize.value - offset))
      else None
  }

  /** The range that was named reaches past the end of the source. */
  predicate ExceedsSource(sourceSize: Option<nat>, range: Option<Range>) {
    && range.Some? && sourceSize.Some?
    && range.value.offset + (if range.value.length.Some? then range.value.length.value else 0) > sourceSize.value
  }

  predicate IsShort(sourceSize: Option<nat>, range: Option<Range>, received: nat) {
    ExpectedBytes(sourceSize, range).Some? && received < ExpectedBytes(sourceSize, range).value
  }

  function AcquisitionGaps(sourceSize: Option<nat>, range: Option<Range>, received: nat): seq<Gap> {
    if IsShort(sourceSize, range, received)
    then [Gap(NativeAcquisition, if ExceedsSource(sourceSize, range) then NoRecovery else Refetch)]
    else []
  }

  /** The outcome says bytes were lost in acquisition: partial, with one such gap, first in the list. */
  ghost predicate SaysLost(o: Outcome, recovery: Recovery) {
    && o.completeness == Partial && |o.gaps| > 0 && o.gaps[0] == Gap(NativeAcquisition, recovery)
    && forall k :: 1 <= k < |o.gaps| ==> o.gaps[k].stage == Retention
  }

  ghost predicate SaysComplete(o: Outcome) {
    && o.completeness == CompleteWithinRequest && forall k :: 0 <= k < |o.gaps| ==> o.gaps[k].stage == Retention
  }

  /** The bytes a source of this size holds inside a range. */
  function HeldInRange(size: nat, range: Range): int
    requires range.offset >= 0
  {
    var end := if range.length.Some? then Min(size, range.offset + range.length.value) else size;
    Max(0, end - range.offset)
  }

  lemma HeldIsTheSlice(content: seq<Byte>, range: Range)
    requires range.offset >= 0 && (range.length.Some? ==> range.length.value >= 0)
    ensures HeldInRange(|content|, range)
         == |Slice(content, range.offset, if range.length.Some? then range.length.value else |content|)|
  {
  }

  /**
   * Against a reader that delivers exactly what the source holds in the range, a loss is recorded
   * exactly when a named, non-empty range overhangs the source, and it is never called refetchable.
   */
  lemma FaithfulReaderGaps(size: nat, range: Range)
    requires range.offset >= 0 && (range.length.Some? ==> range.length.value >= 0)
    ensures AcquisitionGaps(Some(size), Some(range), HeldInRange(size, range))
         == if range.length.Some? && range.length.value > 0 && range.offset + range.length.value > size
            then [Gap(NativeAcquisition, NoRecovery)] else []
  {
  }

  /** The loss recorded for what arrived, and how complete the capture is called. */
  method MeasureLoss(sourceSize: Option<nat>, range: Option<Range>, received: nat)
    returns (gaps: seq<Gap>, completeness: Completeness)
    ensures gaps == AcquisitionGaps(sourceSize, range, received)
    ensures completeness == Partial <==> IsShort(sourceSize, range, received)
  {
    gaps := [];
    var expected := ExpectedBytes(sourceSize, range);
    var shortBy := if expected.None? then 0 else expected.value - received;
    if shortBy > 0 {
      gaps := gaps + [Gap(NativeAcquisition, if ExceedsSource(sourceSize, range) then NoRecovery else Refetch)];
    }
    completeness := if shortBy <= 0 then CompleteWithinRequest else Partial;
  }

  /** When what arrived is too little, and whether asking again could help. */
  lemma LossExactly(sourceSize: Option<nat>, range: Option<Range>, received: nat)
    ensures var gaps := AcquisitionGaps(sourceSize, range, received);
            && (IsShort(sourceSize, range, received) <==>
                  || (range.None? && sourceSize.Some? && received < sourceSize.value)
                  || (range.Some? && range.value.length.Some? && received < range.value.length.value)
                  || (range.Some? && range.value.length.None? && sourceSize.Some?
                      && received < sourceSize.value - range.value.offset))
            && (!IsShort(sourceSize, range, received) ==> gaps == [])
            && (IsShort(sourceSize, range, received) ==>
                  gaps == [Gap(NativeAcquisition,
                               if range.Some? && range.value.length.Some? && sourceSize.Some?
                                  && range.value.offset + range.value.length.value > sourceSize.value
                               then NoRecovery else Refetch)])
  {
  }

  /**
   * A capture that throws leaves store and log alone.  One that returns says `durable` exactly
   * when the reference was committed, `orphaned` exactly when the object was published and the
   * commit failed, and `missing` exactly when the quota refused it; a failed checkpoint changes
   * only the gap list.  What is published is called partial exactly when fewer bytes arrived than
   * the request implied: the whole file, the length it named, or the rest of the file from its
   * offset.  A loss can be refetched unless the named length overhangs the source.
   */
  method CaptureFile(store: AttachmentArtifactStore, log: InMemorySessionReferenceLog, observationId: string,
                     range: Option<Range>, env: Environment)
    returns (r: Result<Outcome, Code>)
    modifies store, log
    ensures var content := Concat(env.chunks);
            var published := Publish(old(store.State()), content, env.keepsObject, env.now, env.ctime);
            match r
            case Err(code) =>
              && store.State() == old(store.State()) && log.State() == old(log.State())
              && (|| (!env.source.RegularFile? && code == NotFound)
                  || (env.source.RegularFile? && observationId in old(log.byObservation) && code == AlreadyCommitted)
                  || (env.source.RegularFile? && observationId !in old(log.byObservation)
                      && |content| <= store.quotaBytes && env.putFailure == Some(code) && code != QuotaExceeded))
            case Ok(outcome) =>
              && env.source.RegularFile? && observationId !in old(log.byObservation)
              && match outcome.state
                 case Missing =>
                   && store.State() == old(store.State()) && log.State() == old(log.State())
                   && (|content| > store.quotaBytes || env.putFailure == Some(QuotaExceeded))
                   && outcome == Outcome(None, 0, Missing, Partial, [Gap(Retention, NoRecovery)])
                 case Orphaned =>
                   && env.putFailure.None? && |content| <= store.quotaBytes && old(log.failNextCommit)
                   && store.State() == published && log.State() == old(log.State())
                   && outcome.artifact == Some(Artifact(Hash(content)))
                   && outcome.gaps == AcquisitionGaps(env.source.size, range, |content|) + [Gap(Retention, NoRecovery)]
                 case Durable(eventId) =>
                   && env.putFailure.None? && |content| <= store.quotaBytes && !old(log.failNextCommit)
                   && store.State() == published && eventId == log.sequence
                   && log.State() == CommitTo(old(log.State()), observationId, Artifact(Hash(content)), Hash(content))
                   && outcome.artifact == Some(Artifact(Hash(content)))
                   && outcome.gaps == AcquisitionGaps(env.source.size, range, |content|)
                                      + (if env.checkpointFails then [Gap(Retention, NoRecovery)] else [])
    ensures r.Ok? && !r.value.state.Missing? ==>
              r.value.bytes == |Concat(env.chunks)| <= store.quotaBytes
              && (r.value.completeness == Partial <==> IsShort(env.source.size, range, |Concat(env.chunks)|))
    ensures r.Ok? && !r.value.state.Missing? && range.None? && env.source.size.Some? ==>
              if |Concat(env.chunks)| < env.source.size.value then SaysLost(r.value, Refetch) else SaysComplete(r.value)
    ensures r.Ok? && !r.value.state.Missing? && range.Some? && range.value.length.Some? ==>
              if |Concat(env.chunks)| >= range.value.length.value then SaysComplete(r.value)
              else if env.source.size.Some? && range.value.offset + range.value.length.value > env.source.size.value
              then SaysLost(r.value, NoRecovery)
              else SaysLost(r.value, Refetch)
    ensures r.Ok? && !r.value.state.Missing? && range.Some? && range.value.length.None? && env.source.size.Some? ==>
              if |Concat(env.chunks)| < env.source.size.value - range.value.offset then SaysLost(r.value, Refetch)
              else SaysComplete(r.value)
    ensures r.Ok? && !r.value.state.Missing? && env.source.size.None? && (range.None? || range.value.length.None?) ==>
              SaysComplete(r.value)
  {
    if !env.source.RegularFile? {
      return Err(NotFound);
    }
    if observationId in log.byObservation {
      return Err(AlreadyCommitted);
    }
    var published, received := store.Put(env.chunks, env.putFailure, env.keepsObject, env.now, env.ctime);
    if published.Err? {
      if published.error == QuotaExceeded {
        return Ok(Outcome(None, 0, Missing, Partial, [Gap(Retention, NoRecovery)]));
      }
      return Err(published.error);
    }
    var gaps, completeness := MeasureLoss(env.source.size, range, received);
    LossExactly(env.source.size, range, received);
    var artifact := published.value;
    var eventId := log.Commit(observationId, artifact, artifact.digest);
    if eventId.None? {
      return Ok(Outcome(Some(artifact), received, ReferenceState.Orphaned, completeness, gaps + [Gap(Retention, NoRecovery)]));
    }
    if env.checkpointFails {
      gaps := gaps + [Gap(Retention, NoRecovery)];
    }
    return Ok(Outcome(Some(artifact), received, Durable(eventId.value), completeness, gaps));
  }

  // ------------------------------------------------------------- resolve and reconcile

  /** Resolving a committed reference back to bytes. */
  function ResolveReference(store: Store, log: Log, observationId: string): Result<seq<Byte>, Code> {
    if observationId !in log.byObservation then Err(Code.Orphaned)
    else
      var reference := log.byObservation[observationId];
      if reference.artifact.NotARef? then Err(NotFound)
      else if reference.artifact.digest !in store.index then Err(IntegrityError)
      else match OpenRange(store, reference.artifact, 0, store.index[reference.artifact.digest].bytes)
        case Err(code) => Err(code)
        case Ok(bytes) => if Hash(bytes) != reference.sha256 then Err(IntegrityError) else Ok(bytes)
  }

  /** Whatever happened to the disk, the bytes resolved are the ones whose digest was committed. */
  lemma ResolvedIsWhatWasCommitted(store: Store, log: Log, observationId: string, content: seq<Byte>)
    requires observationId in log.byObservation && log.byObservation[observationId].sha256 == Hash(content)
    ensures ResolveReference(store, log, observationId).Ok? ==> ResolveReference(store, log, observationId).value == content
  {
  }

  /** Present, intact and not retired. */
  predicate Held(s: Store, ref: Ref) {
    ref.Artifact? && ref !in s.tombstones && ref.digest in s.index && Intact(s, ref.digest)
  }

  /** A reference resolves exactly when its object is held, or when it is the empty object and still indexed. */
  lemma ResolvesExactly(store: Store, log: Log, observationId: string)
    requires LogSound(log) && observationId in log.byObservation
    ensures var ref := log.byObservation[observationId].artifact;
            ResolveReference(store, log, observationId).Ok? <==>
            && ref !in store.tombstones && ref.digest in store.index
            && (Intact(store, ref.digest)
                || (ref.digest == Hash([]) && store.index[ref.digest].bytes == 0)
                || (store.hostBacked && ReadsAsHashed(store, ref.digest)))
  {
    var ref := log.byObservation[observationId].artifact;
    if ref.digest in store.index && ref.digest in store.files {
      var content := store.files[ref.digest].content;
      WholeSlice(content, store.index[ref.digest].bytes);
    }
  }

  /**
   * Why a reference does not resolve: `orphaned` exactly if none was committed under the id,
   * `not found` exactly if its object is indexed yet retired, an integrity error for the rest.
   */
  lemma RefusalExactly(store: Store, log: Log, observationId: string, code: Code)
    requires LogSound(log) && ResolveReference(store, log, observationId) == Err(code)
    ensures code in {Code.Orphaned, NotFound, IntegrityError}
    ensures code == Code.Orphaned <==> observationId !in log.byObservation
    ensures code == NotFound <==>
              observationId in log.byObservation
              && var ref := log.byObservation[observationId].artifact; ref in store.tombstones && ref.digest in store.index
  {
  }

  /** Where text that is no reference was logged, resolving finds nothing, whatever the store holds. */
  lemma NoReferenceIsNotFound(store: Store, log: Log, observationId: string)
    requires observationId in log.byObservation && log.byObservation[observationId].artifact.NotARef?
    ensures ResolveReference(store, log, observationId) == Err(NotFound)
  {
  }

  /** On the direct arm a longer file passes when its recorded prefix still hashes right. */
  predicate ReadsAsHashed(s: Store, d: Digest)
    requires d in s.index
  {
    d in s.files && Hash(Slice(s.files[d].content, 0, s.index[d].bytes)) == d
  }

  /** Orphans are what is indexed but unreferenced, errors what is referenced but not indexed. */
  method ReconcileStore(store: AttachmentArtifactStore, log: InMemorySessionReferenceLog, listing: seq<Digest>)
    returns (orphans: seq<Ref>, integrityErrors: set<Ref>)
    requires Lists(listing, store.State())
    ensures forall ref :: ref in orphans <==> ref.Artifact? && ref.digest in store.index && ref !in log.committed
    ensures forall ref :: ref in integrityErrors <==>
              ref in log.committed && !(ref.Artifact? && ref.digest in store.index)
  {
    var present: set<Ref> := {};
    orphans := [];
    for i := 0 to |listing|
      invariant forall ref :: ref in present <==> ref.Artifact? && ref.digest in listing[..i]
      invariant forall ref :: ref in orphans <==> ref in present && ref !in log.committed
    {
      present := present + {Artifact(listing[i])};
      if Artifact(listing[i]) !in log.committed {
        orphans := orphans + [Artifact(listing[i])];
      }
    }
    forall d ensures d in listing[..|listing|] <==> d in store.index {
      VisitedIsPrefix(listing, |listing|, d);
    }
    var remaining := log.committed;
    integrityErrors := {};
    while remaining != {}
      invariant remaining <= log.committed
      invariant forall ref :: ref in integrityErrors <==> ref in log.committed && ref !in remaining && ref !in present
      decreases remaining
    {
      var artifact :| artifact in remaining;
      if artifact !in present {
        integrityErrors := integrityErrors + {artifact};
      }
      remaining := remaining - {artifact};
    }
  }
}
