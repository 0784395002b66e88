/**
 * The artifact store over a mounted provider: publication, the two arms of a range read, the
 * verification memo, retirement and grace collection.  SHA-256 is an ideal hash: a digest
 * that is a hash at all determines the bytes it was taken over.
 */
module ArtifactStore {
  import opened Wrappers
  import opened Bytes

  datatype Digest = Sha256(of: seq<Byte>) | NotAHash(hex: nat)

  function Hash(content: seq<Byte>): Digest { Sha256(content) }

  /** A reference string: one of this store's, or text that is not a reference. */
  datatype Ref = Artifact(digest: Digest) | NotARef(text: string)

  datatype Code =
    | NotFound | Corrupt | QuotaExceeded | WriteFailed | IntegrityError | Orphaned
    | AlreadyCommitted | Stalled | CursorInvalid | ScopeDenied | RealmDenied

  datatype Entry = Entry(bytes: nat, publishedAt: int)

  /** An object file as `stat` and a full read see it; anyone may rewrite it. */
  datatype File = File(content: seq<Byte>, mtime: int, ctime: int)

  datatype Stamp = Stamp(size: nat, mtime: int, ctime: int)

  function StampOf(file: File): Stamp { Stamp(|file.content|, file.mtime, file.ctime) }

  datatype Expected = Expected(sha256: Digest, bytes: nat)

  datatype Reason = ExplicitDelete | AbsentAtDelete | GraceGcOrphan

  datatype Store = Store(
    hostBacked: bool,
    index: map<Digest, Entry>,
    tombstones: map<Ref, Reason>,
    pinned: set<Ref>,
    verified: map<Ref, Stamp>,
    files: map<Digest, File>)

  /** What the provider's verifying stream accepts: the recorded length and the addressed digest. */
  predicate Intact(s: Store, d: Digest)
    requires d in s.index
  {
    d in s.files && |s.files[d].content| == s.index[d].bytes && Hash(s.files[d].content) == d
  }

  // ------------------------------------------------------------------ range reads

  /** The direct arm: the window alone is read; only a window that is the whole object is hashed. */
  function DirectRange(s: Store, d: Digest, offset: nat, length: nat): Result<seq<Byte>, Code>
    requires d in s.index
  {
    if d !in s.files then Err(IntegrityError)
    else
      var bytes := Slice(s.files[d].content, offset, length);
      if offset == 0 && |bytes| >= s.index[d].bytes && Hash(bytes) != d then Err(IntegrityError)
      else Ok(bytes)
  }

  /** The streamed arm: the whole object is read and verified, the window kept. */
  function StreamedRange(s: Store, d: Digest, offset: nat, length: nat): Result<seq<Byte>, Code>
    requires d in s.index
  {
    if Intact(s, d) then Ok(Slice(s.files[d].content, offset, length)) else Err(IntegrityError)
  }

  function OpenRange(s: Store, ref: Ref, offset: nat, length: nat): Result<seq<Byte>, Code> {
    if ref in s.tombstones || ref.NotARef? then Err(NotFound)
    else if length == 0 then Ok([])
    else if ref.digest !in s.index then Err(IntegrityError)
    else if s.hostBacked then DirectRange(s, ref.digest, offset, length)
    else StreamedRange(s, ref.digest, offset, length)
  }

  /**
   * The two arms return the same thing exactly when the object is intact, or when its damage
   * shows in a window that covers the whole recorded length, the one window that is hashed.
   */
  lemma ArmsAgreeExactly(s: Store, d: Digest, offset: nat, length: nat)
    requires d in s.index && d in s.files
    ensures DirectRange(s, d, offset, length) == StreamedRange(s, d, offset, length) <==>
            || Intact(s, d)
            || (offset == 0 && Min(length, |s.files[d].content|) >= s.index[d].bytes
                && Hash(Slice(s.files[d].content, 0, length)) != d)
  {
    WholeSlice(s.files[d].content, length);
  }

  lemma WholeSlice(content: seq<Byte>, length: nat)
    ensures length >= |content| ==> Slice(content, 0, length) == content
  {
  }

  /** An intact object reads as its published bytes' window, over either arm. */
  lemma IntactReadsAsPublished(s: Store, content: seq<Byte>, offset: nat, length: nat)
    requires Hash(content) in s.index && Intact(s, Hash(content)) && Artifact(Hash(content)) !in s.tombstones
    ensures OpenRange(s, Artifact(Hash(content)), offset, length) == Ok(Slice(content, offset, length))
  {
    ArmsAgreeExactly(s, Hash(content), offset, length);
  }

  class IoCounters {
    var artifactBytesRead: nat
    var artifactReads: nat
    constructor ()
      ensures artifactBytesRead == artifactReads == 0
    {
      artifactBytesRead, artifactReads := 0, 0;
    }
  }

  // ------------------------------------------------------------ identity and its memo

  /** The identity check as it would be with no memo: every call hashes. */
  function Recheck(s: Store, ref: Ref, expected: Expected): Result<(), Code> {
    if ref in s.tombstones || ref.NotARef? then Err(NotFound)
    else if ref.digest != expected.sha256 || ref.digest !in s.index then Err(IntegrityError)
    else if !s.hostBacked then if Intact(s, ref.digest) then Ok(()) else Err(IntegrityError)
    else if ref.digest !in s.files || |s.files[ref.digest].content| != expected.bytes then Err(IntegrityError)
    else if Hash(s.files[ref.digest].content) != expected.sha256 then Err(IntegrityError)
    else Ok(())
  }

  /** The check reaches the digest: everything before the hash passed, on a host-backed store. */
  predicate ReachesHash(s: Store, ref: Ref, expected: Expected) {
    && ref !in s.tombstones && ref.Artifact? && ref.digest == expected.sha256 && ref.digest in s.index
    && s.hostBacked && ref.digest in s.files && |s.files[ref.digest].content| == expected.bytes
  }

  predicate MemoHit(s: Store, ref: Ref) {
    ref.Artifact? && ref.digest in s.files && ref in s.verified && s.verified[ref] == StampOf(s.files[ref.digest])
  }

  /** The check as coded: a remembered stamp skips the hash, a passed hash is remembered. */
  function Check(s: Store, ref: Ref, expected: Expected): (Result<(), Code>, Store) {
    if !ReachesHash(s, ref, expected) then (Recheck(s, ref, expected), s)
    else if MemoHit(s, ref) then (Ok(()), s)
    else if Hash(s.files[ref.digest].content) != expected.sha256 then (Err(IntegrityError), s)
    else (Ok(()), s.(verified := s.verified[ref := StampOf(s.files[ref.digest])]))
  }

  /** On a host-backed store the check passes exactly under these conditions. */
  lemma RecheckPassesExactly(s: Store, ref: Ref, expected: Expected)
    requires s.hostBacked
    ensures Recheck(s, ref, expected).Ok? <==>
            && ref.Artifact? && ref !in s.tombstones && ref.digest in s.index && ref.digest in s.files
            && ref.digest == expected.sha256 == Hash(s.files[ref.digest].content)
            && |s.files[ref.digest].content| == expected.bytes
  {
  }

  /**
   * Without a host path the provider compares against the index entry and the caller's byte
   * count is never looked at: the two routes agree exactly when the three lengths do.
   */
  lemma StreamedCheckIgnoresExpectedBytes(s: Store, ref: Ref, expected: Expected)
    requires ref.Artifact? && ref !in s.tombstones && ref.digest == expected.sha256
    requires ref.digest in s.index && ref.digest in s.files && Hash(s.files[ref.digest].content) == ref.digest
    ensures Recheck(s.(hostBacked := false), ref, expected).Ok? == Recheck(s.(hostBacked := true), ref, expected).Ok?
       <==> (s.index[ref.digest].bytes == |s.files[ref.digest].content|) == (expected.bytes == |s.files[ref.digest].content|)
  {
  }

  /** A one-byte object checked as if it had two bytes: verified by streaming, refused by its host path. */
  lemma StreamingAcceptsAWrongCount()
    ensures var ref, expected := Artifact(Hash([1])), Expected(Hash([1]), 2);
            var streamed := Publish(Store(false, map[], map[], {}, map[], map[]), [1], false, 0, 0);
            && Recheck(streamed, ref, expected) == Ok(())
            && Recheck(streamed.(hostBacked := true), ref, expected) == Err(IntegrityError)
  {
  }

  // ------------------------------------------------------------------- grace collection

  predicate Collectable(s: Store, referenced: set<Ref>, graceMs: int, now: int, d: Digest) {
    && d in s.index && Artifact(d) !in referenced && Artifact(d) !in s.pinned
    && now - s.index[d].publishedAt >= graceMs
  }

  /** One entry's check and removal. */
  function SweepEntry(s: Store, referenced: set<Ref>, graceMs: int, now: int, d: Digest): Store {
    if Collectable(s, referenced, graceMs, now, d)
    then s.(index := s.index - {d}, tombstones := s.tombstones[Artifact(d) := GraceGcOrphan])
    else s
  }

  datatype SkipReason = Referenced | Pinned | WithinGrace

  datatype Skipped = Skipped(artifact: Ref, reason: SkipReason)

  // ----------------------------------------------------------------------- publication

  /** Publishing: the provider keeps an object it already holds or writes it anew. */
  function Publish(s: Store, content: seq<Byte>, kept: bool, now: int, ctime: int): Store {
    var d := Hash(content);
    s.(index := s.index[d := Entry(|content|, now)],
       tombstones := s.tombstones - {Artifact(d)},
       files := if kept && d in s.files then s.files else s.files[d := File(content, now, ctime)])
  }

  function Retire(s: Store, ref: Ref): Store
    requires ref.Artifact?
  {
    s.(index := s.index - {ref.digest},
       tombstones := s.tombstones[ref := if ref.digest in s.index then ExplicitDelete else AbsentAtDelete],
       verified := s.verified - {ref})
  }

  // ------------------------------------------------------------------------- the object

  class AttachmentArtifactStore {
    const hostBacked: bool
    const quotaBytes: nat
    var index: map<Digest, Entry>
    var tombstones: map<Ref, Reason>
    var pinned: set<Ref>
    var verified: map<Ref, Stamp>
    var files: map<Digest, File>

    function State(): Store
      reads this
    {
      Store(hostBacked, index, tombstones, pinned, verified, files)
    }

    constructor (hostBacked: bool, quotaBytes: nat, index: map<Digest, Entry>, files: map<Digest, File>)
      ensures State() == Store(hostBacked, index, map[], {}, map[], files) && this.quotaBytes == quotaBytes
    {
      this.hostBacked, this.quotaBytes, this.index, this.files := hostBacked, quotaBytes, index, files;
      tombstones, pinned, verified := map[], {}, map[];
    }

    /**
     * Streaming to an immutable object with the quota enforced during the stream: the provider
     * is never handed more than the quota, and a stream within it is published whole.
     */
    method Put(chunks: seq<seq<Byte>>, failure: Option<Code>, kept: bool, now: int, ctime: int)
      returns (r: Result<Ref, Code>, passed: nat)
      modifies this
      ensures passed <= quotaBytes
      ensures r == if |Concat(chunks)| > quotaBytes then Err(QuotaExceeded)
                   else if failure.Some? then Err(failure.value)
                   else Ok(Artifact(Hash(Concat(chunks))))
      ensures r.Ok? ==> passed == |Concat(chunks)|
      ensures State() == if r.Ok? then Publish(old(State()), Concat(chunks), kept, now, ctime) else old(State())
    {
      var streamed: seq<Byte> := [];
      for i := 0 to |chunks|
        invariant streamed == Concat(chunks[..i]) && |streamed| <= quotaBytes
        invariant State() == old(State())
      {
        assert chunks[..i + 1] == chunks[..i] + [chunks[i]];
        ConcatAppend(chunks[..i], chunks[i]);
        if |streamed| + |chunks[i]| > quotaBytes {
          ConcatGrows(chunks, i + 1);
          return Err(QuotaExceeded), |streamed|;
        }
        streamed := streamed + chunks[i];
      }
      assert chunks[..|chunks|] == chunks;
      passed := |streamed|;
      if failure.Some? {
        return Err(failure.value), passed;
      }
      var d := Hash(streamed);
      if !(kept && d in files) {
        files := files[d := File(streamed, now, ctime)];
      }
      index := index[d := Entry(|streamed|, now)];
      tombstones := tombstones - {Artifact(d)};
      r := Ok(Artifact(d));
    }

    method Stat(ref: Ref) returns (r: Result<Option<nat>, Code>)
      ensures r == if ref.NotARef? then Err(NotFound)
                   else Ok(if ref.digest in index then Some(index[ref.digest].bytes) else None)
    {
      if ref.NotARef? {
        return Err(NotFound);
      }
      return Ok(if ref.digest in index then Some(index[ref.digest].bytes) else None);
    }

    /**
     * A range read over whichever arm the provider allows, for every way the provider may cut
     * its stream into chunks; the counters show the window for the direct arm and the whole
     * object for the streamed one.
     */
    method ReadRange(ref: Ref, offset: nat, length: nat, counters: IoCounters, chunks: seq<seq<Byte>>)
      returns (r: Result<seq<Byte>, Code>)
      requires ref.Artifact? && ref.digest in files ==> Concat(chunks) == files[ref.digest].content
      modifies counters
      ensures r == OpenRange(State(), ref, offset, length)
      ensures r.Ok? && length > 0 ==>
                counters.artifactBytesRead - old(counters.artifactBytesRead)
                == if hostBacked then |r.value| else |files[ref.digest].content|
      ensures r.Ok? && length > 0 ==>
                counters.artifactReads - old(counters.artifactReads) == if hostBacked then 1 else |chunks|
    {
      if ref in tombstones || ref.NotARef? {
        return Err(NotFound);
      }
      if length == 0 {
        return Ok([]);
      }
      if ref.digest !in index {
        return Err(IntegrityError);
      }
      if hostBacked {
        if ref.digest !in files {
          return Err(IntegrityError);
        }
        var bytes := Slice(files[ref.digest].content, offset, length);
        counters.artifactBytesRead := counters.artifactBytesRead + |bytes|;
        counters.artifactReads := counters.artifactReads + 1;
        if offset == 0 && |bytes| >= index[ref.digest].bytes && Hash(bytes) != ref.digest {
          return Err(IntegrityError);
        }
        return Ok(bytes);
      }
      if ref.digest !in files {
        return Err(IntegrityError);
      }
      var window := StreamRange(chunks, offset, length, counters);
      if |files[ref.digest].content| != index[ref.digest].bytes || Hash(files[ref.digest].content) != ref.digest {
        return Err(IntegrityError);
      }
      return Ok(window);
    }

    /** The streaming fallback's window extraction. */
    method StreamRange(chunks: seq<seq<Byte>>, offset: nat, length: nat, counters: IoCounters) returns (window: seq<Byte>)
      modifies counters
      ensures window == Slice(Concat(chunks), offset, length)
      ensures counters.artifactBytesRead == old(counters.artifactBytesRead) + |Concat(chunks)|
      ensures counters.artifactReads == old(counters.artifactReads) + |chunks|
    {
      window := [];
      var position, produced := 0, 0;
      for i := 0 to |chunks|
        invariant position == |Concat(chunks[..i])| && produced == |window|
        invariant window == Slice(Concat(chunks[..i]), offset, length)
        invariant counters.artifactBytesRead == old(counters.artifactBytesRead) + position
        invariant counters.artifactReads == old(counters.artifactReads) + i
      {
        var chunk := chunks[i];
        counters.artifactBytesRead := counters.artifactBytesRead + |chunk|;
        counters.artifactReads := counters.artifactReads + 1;
        WindowGrows(chunks, i, offset, length);
        var end := position + |chunk|;
        if end > offset && produced < length {
          var start := Max(0, offset - position);
          var take := Min(|chunk| - start, length - produced);
          window := window + chunk[start..start + take];
          produced := produced + take;
        }
        position := end;
      }
      assert chunks[..|chunks|] == chunks;
    }

    method AssertObjectIdentity(ref: Ref, expected: Expected) returns (r: Result<(), Code>)
      modifies this`verified
      ensures (r, State()) == Check(old(State()), ref, expected)
    {
      if ref in tombstones || ref.NotARef? {
        return Err(NotFound);
      }
      var d := ref.digest;
      if d != expected.sha256 || d !in index {
        return Err(IntegrityError);
      }
      if !hostBacked {
        return if d in files && |files[d].content| == index[d].bytes && Hash(files[d].content) == d
               then Ok(()) else Err(IntegrityError);
      }
      if d !in files || |files[d].content| != expected.bytes {
        return Err(IntegrityError);
      }
      var stamp := StampOf(files[d]);
      if ref in verified && verified[ref] == stamp {
        return Ok(());
      }
      if Hash(files[d].content) != expected.sha256 {
        return Err(IntegrityError);
      }
      verified := verified[ref := stamp];
      return Ok(());
    }

    method Remove(ref: Ref) returns (r: Result<bool, Code>)
      modifies this
      ensures r == if ref.NotARef? then Err(NotFound) else Ok(ref.digest in old(index))
      ensures State() == if ref.NotARef? then old(State()) else Retire(old(State()), ref)
    {
      if ref.NotARef? {
        return Err(NotFound);
      }
      var existed := ref.digest in index;
      index := index - {ref.digest};
      tombstones := tombstones[ref := if existed then ExplicitDelete else AbsentAtDelete];
      verified := verified - {ref};
      return Ok(existed);
    }

    method SetPinned(ref: Ref, pin: bool)
      modifies this`pinned
      ensures State() == old(State()).(pinned := if pin then old(pinned) + {ref} else old(pinned) - {ref})
    {
      pinned := if pin then pinned + {ref} else pinned - {ref};
    }

    method SweepOne(referenced: set<Ref>, graceMs: int, now: int, d: Digest) returns (kept: Option<SkipReason>)
      requires d in index
      modifies this`index, this`tombstones
      ensures State() == SweepEntry(old(State()), referenced, graceMs, now, d)
      ensures kept == KeptBecause(old(State()), referenced, graceMs, now, d)
    {
      if Artifact(d) in referenced {
        return Some(Referenced);
      } else if Artifact(d) in pinned {
        return Some(Pinned);
      } else if now - index[d].publishedAt < graceMs {
        return Some(WithinGrace);
      }
      index := index - {d};
      tombstones := tombstones[Artifact(d) := GraceGcOrphan];
      return None;
    }

    /**
     * The sweep over the index directory, in whatever order it lists: exactly the unreferenced,
     * unpinned entries older than the grace window go, each leaving a tombstone; every other
     * entry is reported with the first reason that kept it.
     */
    method CollectGarbage(listing: seq<Digest>, referenced: set<Ref>, graceMs: int, now: int)
      returns (collected: seq<Ref>, skipped: seq<Skipped>)
      requires Lists(listing, State())
      modifies this`index, this`tombstones
      ensures SweptSoFar(old(State()), State(), referenced, graceMs, now, old(index).Keys)
      ensures Reported(old(State()), referenced, graceMs, now, old(index).Keys, collected, skipped)
    {
      collected, skipped := [], [];
      ghost var before := State();
      for i := 0 to |listing|
        invariant State() == SweepFirst(before, referenced, graceMs, now, listing, i)
        invariant (collected, skipped) == ReportFirst(before, referenced, graceMs, now, listing, i)
      {
        NextAsBefore(before, referenced, graceMs, now, listing, i);
        var kept := SweepOne(referenced, graceMs, now, listing[i]);
        if kept.Some? {
          skipped := skipped + [Skipped(Artifact(listing[i]), kept.value)];
        } else {
          collected := collected + [Artifact(listing[i])];
        }
      }
      SweepIsExact(before, referenced, graceMs, now, listing);
      ReportIsExact(before, referenced, graceMs, now, listing);
    }
  }

  /** What the directory lists: every entry of the index, once. */
  ghost predicate Lists(listing: seq<Digest>, s: Store) {
    && (forall i, j :: 0 <= i < j < |listing| ==> listing[i] != listing[j])
    && Visited(listing, |listing|) == s.index.Keys
  }

  function Visited(listing: seq<Digest>, n: nat): set<Digest>
    requires n <= |listing|
  {
    if n == 0 then {} else Visited(listing, n - 1) + {listing[n - 1]}
  }

  lemma {:induction false} VisitedIsPrefix(listing: seq<Digest>, n: nat, d: Digest)
    requires n <= |listing|
    ensures d in Visited(listing, n) <==> d in listing[..n]
  {
    if n > 0 {
      VisitedIsPrefix(listing, n - 1, d);
      assert listing[..n] == listing[..n - 1] + [listing[n - 1]];
    }
  }

  /** The store after the first n listed entries were checked, one at a time. */
  function SweepFirst(before: Store, referenced: set<Ref>, graceMs: int, now: int, listing: seq<Digest>, n: nat): Store
    requires n <= |listing|
  {
    if n == 0 then before
    else SweepEntry(SweepFirst(before, referenced, graceMs, now, listing, n - 1), referenced, graceMs, now, listing[n - 1])
  }

  function ReportFirst(before: Store, referenced: set<Ref>, graceMs: int, now: int, listing: seq<Digest>, n: nat)
    : (seq<Ref>, seq<Skipped>)
    requires n <= |listing|
  {
    if n == 0 then ([], [])
    else
      var d := listing[n - 1];
      var (collected, skipped) := ReportFirst(before, referenced, graceMs, now, listing, n - 1);
      match KeptBecause(SweepFirst(before, referenced, graceMs, now, listing, n - 1), referenced, graceMs, now, d)
      case Some(why) => (collected, skipped + [Skipped(Artifact(d), why)])
      case None => (collected + [Artifact(d)], skipped)
  }

  /** One digest's fate after n entries were checked: decided by the state before the sweep alone. */
  lemma {:induction false} SweptAt(before: Store, referenced: set<Ref>, graceMs: int, now: int,
                                   listing: seq<Digest>, n: nat, d: Digest)
    requires Lists(listing, before) && n <= |listing|
    ensures var s := SweepFirst(before, referenced, graceMs, now, listing, n);
            && s == before.(index := s.index, tombstones := s.tombstones)
            && (d in s.index <==> d in before.index && !Gone(before, referenced, graceMs, now, Visited(listing, n), d))
            && (d in s.index ==> s.index[d] == before.index[d])
  {
    if n > 0 {
      SweptAt(before, referenced, graceMs, now, listing, n - 1, d);
      NextIsUnvisited(before, listing, n - 1);
    }
  }

  /** The next entry is still as it was before the sweep, and so is the reason to keep it. */
  lemma NextAsBefore(before: Store, referenced: set<Ref>, graceMs: int, now: int, listing: seq<Digest>, n: nat)
    requires Lists(listing, before) && n < |listing|
    ensures var s, d := SweepFirst(before, referenced, graceMs, now, listing, n), listing[n];
            && d in s.index && d in before.index && d !in Visited(listing, n)
            && KeptBecause(s, referenced, graceMs, now, d) == KeptBecause(before, referenced, graceMs, now, d)
            && (Collectable(s, referenced, graceMs, now, d) <==> Collectable(before, referenced, graceMs, now, d))
  {
    NextIsUnvisited(before, listing, n);
    SweptAt(before, referenced, graceMs, now, listing, n, listing[n]);
  }

  lemma {:induction false} TombstoneAt(before: Store, referenced: set<Ref>, graceMs: int, now: int,
                                       listing: seq<Digest>, n: nat, ref: Ref)
    requires Lists(listing, before) && n <= |listing|
    ensures var s := SweepFirst(before, referenced, graceMs, now, listing, n);
            if ref.Artifact? && Gone(before, referenced, graceMs, now, Visited(listing, n), ref.digest)
            then ref in s.tombstones && s.tombstones[ref] == GraceGcOrphan
            else ((ref in s.tombstones <==> ref in before.tombstones)
                  && (ref in s.tombstones ==> s.tombstones[ref] == before.tombstones[ref]))
  {
    if n > 0 {
      TombstoneAt(before, referenced, graceMs, now, listing, n - 1, ref);
      NextAsBefore(before, referenced, graceMs, now, listing, n - 1);
    }
  }

  lemma {:induction false} ReportAt(before: Store, referenced: set<Ref>, graceMs: int, now: int,
                                    listing: seq<Digest>, n: nat, ref: Ref, skip: Skipped)
    requires Lists(listing, before) && n <= |listing|
    ensures var (collected, skipped) := ReportFirst(before, referenced, graceMs, now, listing, n);
            && (ref in collected <==>
                  ref.Artifact? && Gone(before, referenced, graceMs, now, Visited(listing, n), ref.digest))
            && (skip in skipped <==>
                  && skip.artifact.Artifact? && skip.artifact.digest in Visited(listing, n)
                  && skip.artifact.digest in before.index
                  && KeptBecause(before, referenced, graceMs, now, skip.artifact.digest) == Some(skip.reason))
  {
    if n > 0 {
      ReportAt(before, referenced, graceMs, now, listing, n - 1, ref, skip);
      NextAsBefore(before, referenced, graceMs, now, listing, n - 1);
    }
  }

  /** Checking the entries one at a time amounts to checking them all against the state before. */
  lemma SweepIsExact(before: Store, referenced: set<Ref>, graceMs: int, now: int, listing: seq<Digest>)
    requires Lists(listing, before)
    ensures SweptSoFar(before, SweepFirst(before, referenced, graceMs, now, listing, |listing|), referenced, graceMs, now,
                       before.index.Keys)
  {
    forall d: Digest {
      SweptAt(before, referenced, graceMs, now, listing, |listing|, d);
    }
    forall ref: Ref {
      TombstoneAt(before, referenced, graceMs, now, listing, |listing|, ref);
    }
  }

  lemma ReportIsExact(before: Store, referenced: set<Ref>, graceMs: int, now: int, listing: seq<Digest>)
    requires Lists(listing, before)
    ensures var (collected, skipped) := ReportFirst(before, referenced, graceMs, now, listing, |listing|);
            Reported(before, referenced, graceMs, now, before.index.Keys, collected, skipped)
  {
    var (collected, skipped) := ReportFirst(before, referenced, graceMs, now, listing, |listing|);
    forall ref
      ensures ref in collected <==>
        ref.Artifact? && Gone(before, referenced, graceMs, now, before.index.Keys, ref.digest)
    {
      ReportAt(before, referenced, graceMs, now, listing, |listing|, ref, Skipped(ref, Pinned));
    }
    forall skip: Skipped {
      ReportAt(before, referenced, graceMs, now, listing, |listing|, skip.artifact, skip);
    }
  }

  lemma NextIsUnvisited(before: Store, listing: seq<Digest>, n: nat)
    requires Lists(listing, before) && n < |listing|
    ensures listing[n] !in Visited(listing, n) && listing[n] in before.index
  {
    VisitedIsPrefix(listing, n, listing[n]);
    VisitedIsPrefix(listing, |listing|, listing[n]);
  }

  function KeptBecause(s: Store, referenced: set<Ref>, graceMs: int, now: int, d: Digest): Option<SkipReason> {
    if Artifact(d) in referenced then Some(Referenced)
    else if Artifact(d) in s.pinned then Some(Pinned)
    else if d in s.index && now - s.index[d].publishedAt < graceMs then Some(WithinGrace)
    else None
  }

  ghost predicate Gone(before: Store, referenced: set<Ref>, graceMs: int, now: int, visited: set<Digest>, d: Digest) {
    d in visited && Collectable(before, referenced, graceMs, now, d)
  }

  /**
   * The sweep after visiting these entries: exactly the collectable ones are gone, each leaving
   * a tombstone; all other entries, tombstones and fields are as they were.
   */
  ghost predicate SweptSoFar(before: Store, s: Store, referenced: set<Ref>, graceMs: int, now: int, visited: set<Digest>) {
    && s == before.(index := s.index, tombstones := s.tombstones)
    && (forall d :: d in s.index <==> d in before.index && !Gone(before, referenced, graceMs, now, visited, d))
    && (forall d :: d in s.index ==> s.index[d] == before.index[d])
    && (forall d :: Gone(before, referenced, graceMs, now, visited, d) ==>
          Artifact(d) in s.tombstones && s.tombstones[Artifact(d)] == GraceGcOrphan)
    && (forall ref: Ref :: !(ref.Artifact? && Gone(before, referenced, graceMs, now, visited, ref.digest)) ==>
          && (ref in s.tombstones <==> ref in before.tombstones)
          && (ref in s.tombstones ==> s.tombstones[ref] == before.tombstones[ref]))
  }

  /** The report after visiting these entries: the collected ones, and the first reason each other was kept. */
  ghost predicate Reported(before: Store, referenced: set<Ref>, graceMs: int, now: int, visited: set<Digest>,
                           collected: seq<Ref>, skipped: seq<Skipped>)
  {
    && (forall ref :: ref in collected <==>
          ref.Artifact? && Gone(before, referenced, graceMs, now, visited, ref.digest))
    && (forall skip :: skip in skipped <==>
          && skip.artifact.Artifact? && skip.artifact.digest in visited && skip.artifact.digest in before.index
          && KeptBecause(before, referenced, graceMs, now, skip.artifact.digest) == Some(skip.reason))
  }

  lemma {:induction false} ConcatGrows(chunks: seq<seq<Byte>>, i: nat)
    requires i <= |chunks|
    ensures |Concat(chunks[..i])| <= |Concat(chunks)|
    decreases |chunks| - i
  {
    if i == |chunks| {
      assert chunks[..i] == chunks;
    } else {
      assert chunks[..i + 1] == chunks[..i] + [chunks[i]];
      ConcatAppend(chunks[..i], chunks[i]);
      ConcatGrows(chunks, i + 1);
    }
  }

  /** The part of a chunk at this position that belongs to a window of which so much is produced. */
  function Kept(chunk: seq<Byte>, position: nat, produced: nat, offset: nat, length: nat): seq<Byte> {
    if position + |chunk| > offset && produced < length
    then var start := Max(0, offset - position);
         chunk[start..start + Min(|chunk| - start, length - produced)]
    else []
  }

  /** Appending a chunk to the stream extends the window by the chunk's part of it. */
  lemma SliceGrows(before: seq<Byte>, chunk: seq<Byte>, offset: nat, length: nat)
    ensures Slice(before + chunk, offset, length)
         == Slice(before, offset, length) + Kept(chunk, |before|, |Slice(before, offset, length)|, offset, length)
  {
  }

  lemma WindowGrows(chunks: seq<seq<Byte>>, i: nat, offset: nat, length: nat)
    requires i < |chunks|
    ensures var before, window := Concat(chunks[..i]), Slice(Concat(chunks[..i]), offset, length);
            && |Concat(chunks[..i + 1])| == |before| + |chunks[i]|
            && Slice(Concat(chunks[..i + 1]), offset, length)
               == window + Kept(chunks[i], |before|, |window|, offset, length)
  {
    assert chunks[..i + 1] == chunks[..i] + [chunks[i]];
    ConcatAppend(chunks[..i], chunks[i]);
    SliceGrows(Concat(chunks[..i]), chunks[i], offset, length);
  }

  // --------------------------------------------------------- the memo over whole runs

  /** What can happen to a store between two identity checks. */
  datatype MemoEvent =
    | Rewrite(digest: Digest, file: File)
    | Unlink(digest: Digest)
    | CheckIdentity(ref: Ref, expected: Expected)
    | PublishContent(content: seq<Byte>, kept: bool, now: int, ctime: int)
    | RetireRef(digest: Digest)
    | CollectEntry(digest: Digest, referenced: set<Ref>, graceMs: int, now: int)

  function StepStore(s: Store, e: MemoEvent): Store {
    match e
    case Rewrite(d, file) => s.(files := s.files[d := file])
    case Unlink(d) => s.(files := s.files - {d})
    case CheckIdentity(ref, expected) => Check(s, ref, expected).1
    case PublishContent(content, kept, now, ctime) => Publish(s, content, kept, now, ctime)
    case RetireRef(d) => Retire(s, Artifact(d))
    case CollectEntry(d, referenced, graceMs, now) => SweepEntry(s, referenced, graceMs, now, d)
  }

  /** Which content each object path has carried under each stamp. */
  type History = map<(Digest, Stamp), seq<Byte>>

  /** The file an event leaves at a path, if it writes one. */
  function Written(s: Store, e: MemoEvent): Option<(Digest, File)> {
    match e
    case Rewrite(d, file) => Some((d, file))
    case PublishContent(content, kept, now, ctime) =>
      if kept && Hash(content) in s.files then None else Some((Hash(content), File(content, now, ctime)))
    case _ => None
  }

  /** A path never shows one stamp over two contents: what ctime in the stamp is there for. */
  predicate FreshStamp(s: Store, h: History, e: MemoEvent) {
    var w := Written(s, e);
    w.Some? ==>
      var key := (w.value.0, StampOf(w.value.1));
      key in h ==> h[key] == w.value.1.content
  }

  function StepHistory(s: Store, h: History, e: MemoEvent): History {
    var w := Written(s, e);
    if w.Some? then h[(w.value.0, StampOf(w.value.1)) := w.value.1.content] else h
  }

  ghost predicate FreshStampRun(s: Store, h: History, events: seq<MemoEvent>)
    decreases |events|
  {
    events == [] || (FreshStamp(s, h, events[0])
                     && FreshStampRun(StepStore(s, events[0]), StepHistory(s, h, events[0]), events[1..]))
  }

  /** The history covers the files on disk, and a remembered stamp was of content that hashed right. */
  ghost predicate MemoSound(s: Store, h: History) {
    && (forall d :: d in s.files ==>
          ((d, StampOf(s.files[d])) in h && h[(d, StampOf(s.files[d]))] == s.files[d].content))
    && (forall ref :: ref in s.verified ==>
          (ref.Artifact? && (ref.digest, s.verified[ref]) in h && Hash(h[(ref.digest, s.verified[ref])]) == ref.digest))
  }

  lemma StepKeepsMemoSound(s: Store, h: History, e: MemoEvent)
    requires MemoSound(s, h) && FreshStamp(s, h, e)
    ensures MemoSound(StepStore(s, e), StepHistory(s, h, e))
  {
  }

  lemma SoundMemoAgrees(s: Store, h: History, ref: Ref, expected: Expected)
    requires MemoSound(s, h)
    ensures Check(s, ref, expected).0 == Recheck(s, ref, expected)
  {
  }

  /** Every check of the run answered what recomputing the digest would have answered. */
  ghost predicate ChecksAgree(s: Store, events: seq<MemoEvent>)
    decreases |events|
  {
    events == []
    || ((events[0].CheckIdentity? ==>
           Check(s, events[0].ref, events[0].expected).0 == Recheck(s, events[0].ref, events[0].expected))
        && ChecksAgree(StepStore(s, events[0]), events[1..]))
  }

  /**
   * Over every run of rewrites, unlinks, checks, removals, sweeps and republications in which no
   * path shows one stamp over two contents, the memo is invisible.
   */
  lemma {:induction false} MemoAgreesOverRuns(s: Store, h: History, events: seq<MemoEvent>)
    requires MemoSound(s, h) && FreshStampRun(s, h, events)
    ensures ChecksAgree(s, events)
    decreases |events|
  {
    if events != [] {
      if events[0].CheckIdentity? {
        SoundMemoAgrees(s, h, events[0].ref, events[0].expected);
      }
      StepKeepsMemoSound(s, h, events[0]);
      MemoAgreesOverRuns(StepStore(s, events[0]), StepHistory(s, h, events[0]), events[1..]);
    }
  }

  /** A same-length replacement under the same stamp is served: the condition on stamps is needed. */
  lemma RecurringStampDefeatsTheMemo(content: seq<Byte>, other: seq<Byte>, now: int, ctime: int)
    requires |other| == |content| && other != content
    ensures var empty := Store(true, map[], map[], {}, map[], map[]);
            var ref, expected := Artifact(Hash(content)), Expected(Hash(content), |content|);
            var published := Publish(empty, content, false, now, ctime);
            var checked := Check(published, ref, expected).1;
            var replaced := checked.(files := checked.files[Hash(content) := File(other, now, ctime)]);
            Check(replaced, ref, expected).0 == Ok(()) && Recheck(replaced, ref, expected) == Err(IntegrityError)
  {
  }
}
