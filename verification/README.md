# Daily-work data plane and release gate: a Dafny model

This project models the stateful core of `packages/dsh-daily-work/src` and of the release runners in
`qualification/runners`, and proves what their comments and design promise. Check it with
`dafny verify dfyconfig.toml` (Dafny 4.11).

Each module follows one component. Where the original updates an object or loops over an accumulator, the
model has a class or a method proved against a specification function; the promises are lemmas about that
function, and about whole runs of it where the promise is about runs.

| module | component |
|---|---|
| `Authorization` | the escaping printer and splitting parser of authorization references |
| `Capacity` | the host-wide ledger of child slots and its lifecycle listeners |
| `Counting`, `Admission` | a run's counts, its stated reasons, the budget, and the atomic reservation against record and ledger |
| `HostRuns`, `Reservations` | record and ledger moving together, and whose credit the reserved figure is |
| `ReadLimiter`, `MapBounded` | the FIFO read limiter and the bounded concurrent map, over all interleavings |
| `Bytes`, `Utf8Pages`, `Utf8Text`, `LineIndex` | the byte algorithms: UTF-8 paging, what valid UTF-8 encodes, and the chunked line index |
| `ArtifactStore` | publication, the two arms of a range read, the verification memo, removal and grace collection |
| `Paging`, `PageWalk` | cursors, the read order of `pages`, walking any provider, joining pages |
| `StoreIdentity` | agreement on the realm and on the cursor key through an exclusively created file |
| `Capture`, `CaptureRuns` | capture, commit, resolve and reconcile, alone and interleaved with sweeps and time |
| `Stability`, `VerifySpec`, `ReleaseGate` | the stability verdict, the checks of the acceptance record, the release decision |
| `Wrappers` | optional and fallible results |

## Assumptions

- SHA-256 is an ideal hash: `Sha256(content)` is injective, and text that is no hash of anything is a value of its own. The HMAC is ideal: in a run, a token that verifies under a store's key was minted by it (`MacHolds`).
- Code between two awaits is one atomic step. Inside one garbage-collection entry the check and the removal are one step; so are the identity check and the read of one page request.
- The in-memory index is the index directory; one process owns the store object.
- In `CaptureRuns` the provider does not corrupt objects and nobody calls `remove`; commit latency is the time from publication to commit, staleness the time from reading the references to the sweep's clock reading.
- Money is exact (`real`), not floating point. Texts compared only for equality are `string`s; `Authorization` works on UTF-16 code units.

## Where the code and its documentation differ

The model follows the code. `artifacts.ts` 3446-3454 takes a final bare CR for a CRLF (3425-3427 says otherwise);
2912-2929 reports `durable` when the checkpoint fails (2659-2661 says otherwise); 508-512 promises the loser of a
create race the winner's value, which 533-545 delivers only once it is written; 2484-2489 says a
cursor refusal is always step 1 and an integrity refusal step 4, and 2464-2466 that a reader cannot tell the two
records of a refusal apart, which four kinds of request contradict; the identity check ignores the caller's byte
count when there is no host path. `capacity.ts` 177 promises that occupancy never exceeds the capacity, which holds
exactly under the two conditions proved; `data-concurrency.ts` 177 and 183 lose a rejection with `undefined`.
`stability.py` 313-322 lets one clear settle a case with several mixed candidates
(314 says otherwise). `counting.ts` and `host.ts` gate a zero-cost request on an exhausted budget differently, a
completed task moved to `unknown` can take a run over its target and leave the host ledger without its slot, and a
task's credit can be taken from a sibling by releasing or retaining it twice (`host.ts` 2407-2409 says it cannot be).

## Model

| member | source | states |
|---|---|---|
| `CaptureRuns.TimelyRunsStaySafe` | packages/dsh-daily-work/src/artifacts.ts:1609-1665 | over every run of captures (failing at put or commit, crashing anywhere), snapshots, sweeps and pins: if commit latency + snapshot staleness < graceMs, no sweep removes an entry that is, or through a capture in flight becomes, referenced |
| `CaptureRuns.DurableResolvesToItsBytes` | packages/dsh-daily-work/src/artifacts.ts:3016-3061 | in every such run from an empty store in which pending captures share no id, each capture that committed, even one cut off before it reported, has its observation resolve to exactly the bytes it published |
| `CaptureRuns.ShortWindowLosesData` | packages/dsh-daily-work/src/artifacts.ts:1636-1660 | the bound is exact: for any graceMs <= latency + staleness a run within those bounds ends with a durable observation that resolves to `artifact-integrity-error` |
| `CaptureRuns.SweepSparesReferenced` | packages/dsh-daily-work/src/artifacts.ts:1636-1660 | what a sweep may collect is neither committed nor published by a capture that can still commit, although its snapshot may be out of date |
| `CaptureRuns.RunsStayTrue` | packages/dsh-daily-work/src/artifacts.ts:2668-2943 | every run keeps the log and the disk true: the ids with a row are those some capture committed under, each row one of those captures' contents, the referenced artifacts the committed contents, the objects on disk the published contents, each indexed or retired under a tombstone |
| `CaptureRuns.ReportsMatchTheLog` | packages/dsh-daily-work/src/artifacts.ts:2881-2943 | over every run from an empty store: a capture that reported `durable` has a row for its id and its content referenced; for any other report a row of that id is a rival capture's; where no rival committed under the id, `durable` is exactly having a row, and the row is its own content's |
| `CaptureRuns.ReportsMatchTheDisk` | packages/dsh-daily-work/src/artifacts.ts:2726-2907 | over every run from an empty store: after `durable` or `orphaned` the content is an object on disk, indexed or since collected under a tombstone; an orphaned content is referenced only if another capture committed it; after `missing` everything on disk was published by others |
| `CaptureRuns.ReportsAreHonest` | packages/dsh-daily-work/src/artifacts.ts:2668-2943 | each report is what the capture did, and for a capture whose id no other uses `durable` is exactly the id having a row |
| `CaptureRuns.UnsharedReportsAreExact` | packages/dsh-daily-work/src/artifacts.ts:2701-2707 | where pending captures share no id, `durable` is exactly the id having a row that no rival committed |
| `CaptureRuns.FailedCheckpointIsDurable` | packages/dsh-daily-work/src/artifacts.ts:2909-2929 | in every reachable state a checkpoint that fails has the outcome of one that succeeds: `durable` is reported, the row stands, nothing is taken back, against the comment at 2659-2661 |
| `CaptureRuns.ReferencesChangeExactly` | packages/dsh-daily-work/src/artifacts.ts:2696-2707 | over every run from an empty store no committed reference ever changes if and only if no two captures committed under one observation id |
| `CaptureRuns.ReferenceKeptExactly` | packages/dsh-daily-work/src/artifacts.ts:2560-2581 | over any run a committed id has the reference it had if and only if no step of the run commits a published capture under that id again |
| `CaptureRuns.RowsKeptExactly` | packages/dsh-daily-work/src/artifacts.ts:2560-2581 | a step keeps every row exactly unless it commits a published capture under an id that has one |
| `CaptureRuns.ReferencesNeverChange` | packages/dsh-daily-work/src/artifacts.ts:2701-2707 | so a run in which no capture begins under an id another pending capture is using changes no row at any step |
| `CaptureRuns.SharedIdRaceIsReachable` | packages/dsh-daily-work/src/artifacts.ts:2696-2707 | the excluded race as a run from an empty store, for any two contents: both captures look the id up, publish and commit, the first reports `durable`, and its observation resolves to the second one's bytes |
| `CaptureRuns.SharedIdIsOverwritten` | packages/dsh-daily-work/src/artifacts.ts:2696-2707 | from any state with two published captures of one id, whichever commits second takes the row and the first one's observation no longer resolves to its bytes |
| `CaptureRuns.SafeMeansReconciled` | packages/dsh-daily-work/src/artifacts.ts:3086-3128 | in a safe state every referenced artifact is indexed, so reconciliation has no integrity error to report |
| `CaptureRuns.AloneIsOneCall` | packages/dsh-daily-work/src/artifacts.ts:2668-2943 | the steps of a capture with nothing in between do to store and log exactly what the one call does, for each place it can end |
| `CaptureRuns.SweepKeepsItsView` | packages/dsh-daily-work/src/artifacts.ts:1609-1665 | however late a sweep gets to an entry, it judges it by the references of its snapshot and the clock reading of its start |
| `Capture.CaptureFile` | packages/dsh-daily-work/src/artifacts.ts:2668-2943 | one uninterrupted capture against the store and the log: the exact new state and outcome for each place it can fail; a throw changes nothing; what is published is `partial` with exactly one acquisition gap when fewer bytes arrived than the request implied (whole file, named length or open range), and otherwise complete with none |
| `Capture.LossExactly` | packages/dsh-daily-work/src/artifacts.ts:2820-2861 | what arrived is too little exactly if it is less than the whole file, than the length named, or than the rest of the file from an open range's offset, and never for an unknown size unless a length was named; the loss is refetchable unless the named length overhangs the source |
| `Capture.FaithfulReaderGaps` | packages/dsh-daily-work/src/artifacts.ts:2819-2861 | with a reader that delivers what the source holds, an acquisition gap is recorded exactly when a named non-empty range overhangs the source, and is then never `refetch` |
| `Capture.InMemorySessionReferenceLog.Commit` | packages/dsh-daily-work/src/artifacts.ts:2560-2581 | a commit adds one row, one referenced artifact and a fresh event id, or fails once and changes nothing else |
| `Capture.ResolvedIsWhatWasCommitted` | packages/dsh-daily-work/src/artifacts.ts:3016-3061 | whatever happened to the disk, bytes resolved for an observation are the ones whose digest was committed for it |
| `Capture.ResolvesExactly` | packages/dsh-daily-work/src/artifacts.ts:3016-3061 | when a committed reference resolves: not retired, indexed, and the object intact, or empty, or (direct arm only) a longer file whose recorded prefix still hashes right |
| `Capture.RefusalExactly` | packages/dsh-daily-work/src/artifacts.ts:3016-3061 | why one does not resolve: orphaned exactly if none was committed, not found exactly if indexed yet retired, an integrity error otherwise |
| `Capture.ReconcileStore` | packages/dsh-daily-work/src/artifacts.ts:3086-3128 | orphans are exactly the indexed, unreferenced artifacts; integrity errors exactly the referenced ones without an index entry |
| `ArtifactStore.AttachmentArtifactStore.Put` | packages/dsh-daily-work/src/artifacts.ts:1078-1141 | the provider is never handed more than the quota; success publishes the whole stream under its digest, refreshes the entry and lifts a tombstone; every failure leaves the store as it was |
| `ArtifactStore.AttachmentArtifactStore.Stat` | packages/dsh-daily-work/src/artifacts.ts:1143-1148 | the recorded size of an indexed object, nothing for an unindexed one, an error for text that is no reference |
| `ArtifactStore.AttachmentArtifactStore.ReadRange` | packages/dsh-daily-work/src/artifacts.ts:1193-1261 | the window over whichever arm applies, for every chunking; the counters grow by the window (direct) or by the whole object and its chunks (streamed) |
| `ArtifactStore.AttachmentArtifactStore.StreamRange` | packages/dsh-daily-work/src/artifacts.ts:1271-1315 | for every chunking of the stream the window extracted is the slice [offset, min(offset + length, n)), and every byte streamed is counted |
| `ArtifactStore.ArmsAgreeExactly` | packages/dsh-daily-work/src/artifacts.ts:1193-1261 | the two arms return the same exactly when the object is intact, or when its damage shows in a window covering the recorded length, the only one the direct arm hashes |
| `ArtifactStore.IntactReadsAsPublished` | packages/dsh-daily-work/src/artifacts.ts:1193-1315 | an intact, unretired object reads over either arm as the published content's window |
| `ArtifactStore.AttachmentArtifactStore.AssertObjectIdentity` | packages/dsh-daily-work/src/artifacts.ts:1363-1454 | the check with its memo: same answer and same remembered stamps as the specification `Check` |
| `ArtifactStore.RecheckPassesExactly` | packages/dsh-daily-work/src/artifacts.ts:1363-1454 | on a host-backed store the check passes exactly if there is no tombstone, the entry is present, the recorded digest is the addressed one, the size matches and the full hash matches |
| `ArtifactStore.StreamedCheckIgnoresExpectedBytes` | packages/dsh-daily-work/src/artifacts.ts:1395-1412 | without a host path the caller's byte count is never compared; the two routes agree exactly when the recorded and the expected length both are, or both are not, the object's actual one |
| `ArtifactStore.StreamingAcceptsAWrongCount` | packages/dsh-daily-work/src/artifacts.ts:1395-1412 | an object of one byte checked as having two is accepted by streaming and refused by its host path |
| `ArtifactStore.MemoAgreesOverRuns` | packages/dsh-daily-work/src/artifacts.ts:621-623 | over every run of rewrites, unlinks, identity checks, removals, sweeps and republications in which no path shows one stamp over two contents, each check answers what recomputing the digest would |
| `ArtifactStore.RecurringStampDefeatsTheMemo` | packages/dsh-daily-work/src/artifacts.ts:621-623 | the condition is needed: a same-length replacement under the same stamp is accepted though recomputing refuses it |
| `ArtifactStore.AttachmentArtifactStore.Remove` | packages/dsh-daily-work/src/artifacts.ts:1557-1576 | removal drops entry and memo, leaves a tombstone with its reason, and reports whether an entry existed |
| `ArtifactStore.AttachmentArtifactStore.SetPinned` | packages/dsh-daily-work/src/artifacts.ts:1582-1586 | pinning and unpinning change the pin set by that one reference |
| `ArtifactStore.AttachmentArtifactStore.CollectGarbage` | packages/dsh-daily-work/src/artifacts.ts:1609-1665 | for any listing order, exactly the unreferenced, unpinned entries past the window go and leave a tombstone; all else is unchanged; the report lists the collected and, for each kept entry, the first reason |
| `ArtifactStore.SweepIsExact` | packages/dsh-daily-work/src/artifacts.ts:1624-1663 | checking entries one after another against a changing index amounts to checking all of them against the state before the sweep |
| `Paging.PositionExactly` | packages/dsh-daily-work/src/artifacts.ts:2175-2271 | steps 1 to 4a yield a position exactly when the grant holds and the cursor, if any, is the very token this store mints for the same walk at that position |
| `Paging.ResumesOnlyTheSameWalk` | packages/dsh-daily-work/src/artifacts.ts:2175-2271 | field by field: a cursor handed out with a page is placed for another request, on any host, exactly when key, realm, observation id, schema version, digest, grant revision, acquisition time, scope and effective query are the same and the grant is live; the place is where the page ended |
| `Paging.JoinedPagesAreOfOneWalk` | packages/dsh-daily-work/src/artifacts.ts:2072-2316 | two served pages joined by a cursor agree in every one of those fields, and adjoin |
| `Paging.ForeignCursorIsRefused` | packages/dsh-daily-work/src/artifacts.ts:1864-1933 | the refusal of a genuine cursor that differs: another realm is `realm` denied, another schema invalid at `parse`, another scope a denial and any other field an invalid cursor at `reference` |
| `Paging.RunsKeepChains` | packages/dsh-daily-work/src/artifacts.ts:2072-2316 | over every run with any number of observations and an ideal MAC, every minted cursor and every served offset other than 0 continues an earlier page of the very same walk |
| `Paging.EveryPageContinuesItsWalk` | packages/dsh-daily-work/src/artifacts.ts:2072-2316 | in every run of a store that has minted nothing yet, each served offset is 0 or the end of an earlier, unexhausted page of the same walk |
| `Paging.AcceptedWasMinted` | packages/dsh-daily-work/src/artifacts.ts:1791-1933 | an accepted cursor was minted earlier under identical realm, observation, revision, representation, query, scope, digest, schema and watermark, at the end of an unexhausted page |
| `Paging.RevocationIsPermanent` | packages/dsh-daily-work/src/observations.ts:616-635 | grant revisions only grow, so once a scope's grant has moved past a revision no later request of any run is served under that revision |
| `Paging.DefaultRunsStayAligned` | packages/dsh-daily-work/src/artifacts.ts:2079-2082 | when every query is the default and every read is full, each served offset is a whole number of pages |
| `Paging.EveryOffsetIsAligned` | packages/dsh-daily-work/src/artifacts.ts:2079-2082 | in every such run from a fresh store each served offset is a multiple of its page size |
| `Paging.DefaultQueryInjective` | packages/dsh-daily-work/src/artifacts.ts:2079-2082 | the default queries of two page sizes never coincide |
| `Paging.DefaultQueryIsItsText` | packages/dsh-daily-work/src/artifacts.ts:2079-2082 | a request without a query pages under `bytes:` and its page size in decimal: the text reads back as that number |
| `Paging.SuppliedQueryBreaksAlignment` | packages/dsh-daily-work/src/artifacts.ts:2079-2082 | the default text is not reserved: a caller who supplies another size's default query makes a default walk resume off its grid |
| `Paging.MintedCursorIsServed` | packages/dsh-daily-work/src/artifacts.ts:2072-2316 | while the grant holds and the object is intact, a minted cursor is accepted and yields the page at its position, truncated only by how much the read delivers |
| `Paging.PagesServeTheArtifact` | packages/dsh-daily-work/src/artifacts.ts:2267-2316 | with a sound memo no byte of another object is served: the page is a piece of the content the descriptor's digest is of, from the page's offset on |
| `Paging.StepsAgreeExactly` | packages/dsh-daily-work/src/artifacts.ts:2484-2502 | the step the sink records and the step derived from the code disagree exactly for a genuine cursor (or none) under a live grant when the page size is below 1, a binding other than the scope is foreign, the object is retired or the reference none, or the object passes its identity check and fails the read |
| `Paging.SoundStoresNeverSlip` | packages/dsh-daily-work/src/artifacts.ts:2274-2296 | with a sound memo and true recorded lengths the last of these cases does not arise |
| `Paging.BadPageSizeIsRecordedTwice` | packages/dsh-daily-work/src/artifacts.ts:2232-2237 | a page size of zero: recorded as `reference` and as `parse` |
| `Paging.ForeignQueryIsRecordedTwice` | packages/dsh-daily-work/src/artifacts.ts:2246-2256 | a genuine cursor resumed under another query: recorded as `reference` and as `parse` |
| `Paging.RetiredObjectIsRecordedTwice` | packages/dsh-daily-work/src/artifacts.ts:2274-2284 | a removed object: recorded as `identity` and as `read` |
| `Paging.SlippedObjectIsRecordedTwice` | packages/dsh-daily-work/src/artifacts.ts:2286-2296 | an object replaced under a remembered stamp: recorded as `read` and as `identity` |
| `Paging.PagesAlwaysServeTheArtifact` | packages/dsh-daily-work/src/artifacts.ts:2267-2316 | over every run of requests, grant changes, identity checks, removals, sweeps, republications and rewrites in which no path shows one stamp over two contents, every page served is its descriptor's content at its offset |
| `Paging.ArtifactStorePageProvider.Next` | packages/dsh-daily-work/src/artifacts.ts:2421-2431 | one call on the store object equals the specification `Pages`; of the store only the remembered stamps may change |
| `PageWalk.WalkPages` | packages/dsh-daily-work/src/artifacts.ts:2364-2408 | for an arbitrary provider each page answers the previous cursor, accepted offsets strictly increase from above -1, page and byte counts are those of the pages seen, and the walk ends for exactly the reason given |
| `PageWalk.WalkIsDetermined` | packages/dsh-daily-work/src/artifacts.ts:2364-2408 | pages seen and ending are determined by provider, page budget and consumer: no other walk meets the same description |
| `PageWalk.StoreWalkDelivers` | packages/dsh-daily-work/src/artifacts.ts:2364-2408 | over an immutable artifact, whatever its reads deliver, the joined pages are a prefix of the content; the walk finishes exactly when they are all of it, and otherwise stalls, which happens exactly when the last read of a non-empty artifact was empty |
| `PageWalk.FullWalkCost` | packages/dsh-daily-work/src/artifacts.ts:2286-2315 | with full reads the walk takes max(1, ceil(n / maxBytes)) pages and reads n bytes |
| `PageWalk.JoinPages` | packages/dsh-daily-work/src/artifacts.ts:3524-3539 | the pages' bytes in order if they add up to the declared size, `artifact-corrupt` otherwise |
| `StoreIdentity.RunsKeepAgreed` | packages/dsh-daily-work/src/artifacts.ts:523-588 | N calls in any interleaving of read, exclusive create, partial writes, failures, crashes and rereads: at most one writer, every returned identity is the one on disk, and the file only ever grows towards its creator's text |
| `StoreIdentity.EveryCallAgrees` | packages/dsh-daily-work/src/artifacts.ts:523-545 | starting from any file, any two calls that return an identity return the same one (realm: at least 1 character, key: at least 43) |
| `StoreIdentity.StoredIdentityIsForever` | packages/dsh-daily-work/src/artifacts.ts:648-689 | once a reader could find an identity, every later reader finds that one |
| `StoreIdentity.ExistingIdentityIsReturned` | packages/dsh-daily-work/src/artifacts.ts:523-526 | the first read of a file that exists returns the identity it records, whole or but for the final newline, whatever the call minted, and refuses exactly when it records none of sufficient length |
| `StoreIdentity.RestartsReturnTheSame` | packages/dsh-daily-work/src/artifacts.ts:648-652 | after any run in which some call returned an identity, and any further run, the first read of a new call returns that identity |
| `StoreIdentity.EventsAreLocal` | packages/dsh-daily-work/src/artifacts.ts:523-545 | no event moves another call or reopens a finished one, and only the creator and its writes touch the file |
| `StoreIdentity.FinishedIsFinal` | packages/dsh-daily-work/src/artifacts.ts:523-545 | over any run a finished call keeps its answer, and no more is written than was meant |
| `StoreIdentity.AbandonedOnlyRefuses` | packages/dsh-daily-work/src/artifacts.ts:553-588 | a half-written or malformed file with no writer left yields only refusals, for ever, and is never changed |
| `StoreIdentity.LoserReturnsExactly` | packages/dsh-daily-work/src/artifacts.ts:533-545 | the loser of the create race returns the winner's identity exactly if all of its text but the final newline is written by then, and is refused otherwise |
| `StoreIdentity.LoserMayBeRefused` | packages/dsh-daily-work/src/artifacts.ts:508-514 | a reachable race in which the winner returns and the loser is refused, where the comment promises it the winner's value |
| `StoreIdentity.LoneCallSucceeds` | packages/dsh-daily-work/src/artifacts.ts:523-545 | a call that meets no file and is left alone returns what it minted |
| `Utf8Pages.PageUtf8ByBytes` | packages/dsh-daily-work/src/artifacts.ts:3244-3274 | the generator's pages are those of the specification `PagesFrom`; a page size below 1 is refused |
| `Utf8Pages.PagesTile` | packages/dsh-daily-work/src/artifacts.ts:3244-3274 | for any bytes the pages are contiguous and non-empty and no interior page starts on a continuation byte |
| `Utf8Pages.TilesJoin` | packages/dsh-daily-work/src/artifacts.ts:3244-3274 | such pages concatenate to the buffer |
| `Utf8Pages.PagesOfValidTextAreGood` | packages/dsh-daily-work/src/artifacts.ts:3244-3274 | for valid UTF-8 every page is itself valid, is the longest whole-character prefix within maxBytes, and exceeds maxBytes only when it is exactly one character |
| `Utf8Pages.PagesValidIffContentValid` | packages/dsh-daily-work/src/artifacts.ts:3244-3274 | every page decodes on its own if and only if the whole buffer does |
| `Utf8Pages.BoundaryIffNotContinuation` | packages/dsh-daily-work/src/artifacts.ts:3272-3274 | in valid text a position is a character boundary exactly when no continuation byte stands there |
| `Utf8Text.ValidExactly` | packages/dsh-daily-work/src/artifacts.ts:3225-3244 | what validity means here: a buffer is valid exactly if it is the encoding, bit for bit, of some sequence of characters |
| `Utf8Text.CharIsEncoded` | packages/dsh-daily-work/src/artifacts.ts:3225-3244 | whatever the byte ranges recognise at the front of a buffer is the encoding of one character |
| `Utf8Text.EncodedIsAChar` | packages/dsh-daily-work/src/artifacts.ts:3225-3244 | and every encoded character is recognised with its exact length, whatever follows |
| `LineIndex.BuildLineIndex` | packages/dsh-daily-work/src/artifacts.ts:3393-3460 | for every chunk size and every pattern of short reads the index is the sampled split of what was scanned, each byte scanned once; a stride below 1 is refused |
| `LineIndex.IndexIsSampled` | packages/dsh-daily-work/src/artifacts.ts:3393-3460 | entry count is ceil(totalLines / stride), entry j is line j * stride, complete exactly if stride = 1 or totalLines <= 1 |
| `LineIndex.LinesSplitOnLf` | packages/dsh-daily-work/src/artifacts.ts:3393-3460 | the lines indexed are the content split on LF, each with its CRLF mark and the bytes a reader gets |
| `LineIndex.SplitIsUnique` | packages/dsh-daily-work/src/artifacts.ts:3393-3460 | there is only one such split: offsets, lengths and CRLF marks are determined by the content |
| `LineIndex.RebuildsExactlyUnlessBareCr` | packages/dsh-daily-work/src/artifacts.ts:3446-3454 | with stride 1 the lines and terminators rebuild the content if and only if it does not end in a bare CR, which the code takes for a CRLF against the comment at 3425-3427 |
| `LineIndex.IndexedLineReadsBack` | packages/dsh-daily-work/src/artifacts.ts:3483-3491 | reading an indexed line from an intact object returns exactly its bytes without terminator, with no cap on its length |
| `Capacity.CapKeptExactlyBySafeCalls` | packages/dsh-daily-work/src/capacity.ts:170-180 | from a state within the cap a step stays within it if and only if it neither uncovers several namers of a released child nor moves a task off its live child on a full host |
| `Capacity.CapOverRuns` | packages/dsh-daily-work/src/capacity.ts:170-180 | over whole runs `occupied` never exceeds the cap if and only if every call is safe in that sense |
| `Capacity.DisciplinedRunsKeepCap` | packages/dsh-daily-work/src/capacity.ts:388-457 | with distinct names and no renaming of a task whose child is live: occupied <= capacity throughout, names stay distinct, highWater is the true maximum and is within the cap |
| `Capacity.FreshHostKeepsCap` | packages/dsh-daily-work/src/capacity.ts:291-296 | the same from an empty ledger of any positive capacity |
| `Capacity.ExecutorsCountedOnce` | packages/dsh-daily-work/src/capacity.ts:319-341 | counting live children plus unbacked reservations equals counting reservations plus unreserved children: no executor is counted twice |
| `Capacity.StepMovesByDelta` | packages/dsh-daily-work/src/capacity.ts:319-457 | what each ledger operation adds to or takes from occupancy, read off the state before it |
| `Capacity.SharedNameBreaksCap` | packages/dsh-daily-work/src/capacity.ts:319-333 | distinct names are needed: two tasks name c1, it goes live, the host fills, it is released, and three of two slots are occupied |
| `Capacity.RenameOfLiveBreaksCap` | packages/dsh-daily-work/src/capacity.ts:430-441 | not renaming off a live child is needed: two of one slot, names distinct throughout |
| `Capacity.ReservationsNeverDeadlock` | packages/dsh-daily-work/src/capacity.ts:362-400 | from any ledger, full or not, reserved children materialize in any order, interleaved with releases, without a refusal and without raising occupancy |
| `Capacity.EveryReservationMaterializes` | packages/dsh-daily-work/src/capacity.ts:388-400 | after that every named child is live and occupancy is what it was |
| `Capacity.RejectedCreationLeavesNoTrace` | packages/dsh-daily-work/src/capacity.ts:591-620 | a refused creation followed by its disposal leaves every slot as it was if and only if the refused id was not already live |
| `Capacity.AdmittedMeansBounded` | packages/dsh-daily-work/src/capacity.ts:475-508 | no child beyond the depth ceiling or the cap is ever admitted |
| `Capacity.OnlyRootsAreIgnored` | packages/dsh-daily-work/src/capacity.ts:237-241 | an agent is ignored, and the ledger left alone, exactly if it has neither a subagent origin nor a depth |
| `Capacity.ChildVerdictExactly` | packages/dsh-daily-work/src/capacity.ts:470-480 | for every child: an invalid ceiling is an error that moves nothing, too deep exactly if its depth exceeds the ceiling, otherwise host full exactly if it is not live, no task named it and no slot is left, otherwise admitted; each refusal is counted as its kind |
| `Capacity.AdmittedIsLive` | packages/dsh-daily-work/src/capacity.ts:591-612 | an admitted child is live beside those that were; tasks and refusal counts stay, and the high-water mark moves only to the new occupancy |
| `Capacity.ReservingAgainMovesTheSlot` | packages/dsh-daily-work/src/capacity.ts:427-439 | reserving a task again asks for no room: the slot moves to the bucket, keeps its name unless given another, and is quarantined exactly if the bucket says so |
| `Capacity.ChildAdmissionGate.Open` | packages/dsh-daily-work/src/capacity.ts:285-296 | no gate for a capacity that is not a positive safe integer |
| `Capacity.ChildAdmissionGate.Classify` | packages/dsh-daily-work/src/capacity.ts:319-333 | the four tallies as cardinalities of the sets they name |
| `Capacity.ChildAdmissionGate.ReservationFor` | packages/dsh-daily-work/src/capacity.ts:409-414 | a task naming the child is found exactly if there is one |
| `Capacity.ChildAdmissionGate.AssertRoom` | packages/dsh-daily-work/src/capacity.ts:505-508 | refuses exactly on a full host, and counts the refusal |
| `Capacity.ChildAdmissionGate.ReserveChild` | packages/dsh-daily-work/src/capacity.ts:388-400 | the ledger step of a child going live, refused exactly when new, unnamed and the host is full |
| `Capacity.ChildAdmissionGate.ReserveTask` | packages/dsh-daily-work/src/capacity.ts:430-441 | the ledger step of a reservation, idempotent per id, refused exactly when new and the host is full |
| `Capacity.ChildAdmissionGate.ReleaseChild` | packages/dsh-daily-work/src/capacity.ts:450-452 | the child leaves the live map; tasks and marks stay |
| `Capacity.ChildAdmissionGate.ReleaseTask` | packages/dsh-daily-work/src/capacity.ts:455-457 | the reservation goes; live children and marks stay |
| `Capacity.ChildAdmissionGate.Created` | packages/dsh-daily-work/src/capacity.ts:591-612 | the created listener: depth first, then the slot |
| `Capacity.ChildAdmissionGate.Disposed` | packages/dsh-daily-work/src/capacity.ts:613-620 | the disposed listener releases the slot of that agent's id |
| `Capacity.TaskSlotHandle.SetChildId` | packages/dsh-daily-work/src/capacity.ts:521-540 | a handle writes through to the current entry, and does nothing once it is gone |
| `ReadLimiter.EveryRunKeepsInv` | packages/dsh-daily-work/src/data-concurrency.ts:69-141 | over every interleaving of arrivals and settlements, successful or not: active is the number of holders and <= limit, a queue means all slots are taken, grants follow arrivals, peak is the true maximum |
| `ReadLimiter.FreshLimiterRuns` | packages/dsh-daily-work/src/data-concurrency.ts:75-83 | the same for every run of a newly built limiter |
| `ReadLimiter.NewcomerNeverOvertakes` | packages/dsh-daily-work/src/data-concurrency.ts:115-126 | a newcomer is never granted a slot while anybody waits |
| `ReadLimiter.SettlementServesTheHead` | packages/dsh-daily-work/src/data-concurrency.ts:133-140 | settling a holder hands its slot to the longest waiter and to no one else |
| `ReadLimiter.IdleMeansAllSettled` | packages/dsh-daily-work/src/data-concurrency.ts:96-140 | no slot leaks: with no holder left nobody waits and everybody who arrived was served |
| `ReadLimiter.MostIsBounded` | packages/dsh-daily-work/src/data-concurrency.ts:128-131 | the peak of any run stays within the limit |
| `ReadLimiter.DataReadLimiter.Arrive` | packages/dsh-daily-work/src/data-concurrency.ts:115-126 | the object's admission equals the specification's, for granted and queued arrivals |
| `ReadLimiter.DataReadLimiter.Settle` | packages/dsh-daily-work/src/data-concurrency.ts:96-103 | the `finally` of a run equals the specification's release |
| `MapBounded.RunKeepsInv` | packages/dsh-daily-work/src/data-concurrency.ts:158-185 | over every schedule each index starts at most once, in order, and results, failure and workers are consistent with what has settled |
| `MapBounded.InFlightIsBounded` | packages/dsh-daily-work/src/data-concurrency.ts:166-181 | running bodies never exceed min(limit, n) |
| `MapBounded.RunsAreBounded` | packages/dsh-daily-work/src/data-concurrency.ts:158-185 | no schedule is longer than n plus the number of workers, by an explicit measure |
| `MapBounded.StuckOnlyWhenFinished` | packages/dsh-daily-work/src/data-concurrency.ts:158-185 | a state in which nothing can move is one where every worker has returned |
| `MapBounded.NothingStartsAfterFailure` | packages/dsh-daily-work/src/data-concurrency.ts:166-181 | after the first rejection no body starts and what will be thrown is settled |
| `MapBounded.ThrowsTheFirstExactly` | packages/dsh-daily-work/src/data-concurrency.ts:177 | the rejection thrown is the first in time if and only if that one is not nullish, or none is and the last is null like the first |
| `MapBounded.UndefinedRejectionIsLost` | packages/dsh-daily-work/src/data-concurrency.ts:183 | a rejection with `undefined` is lost: the call returns |
| `MapBounded.CompleteScheduleVerdict` | packages/dsh-daily-work/src/data-concurrency.ts:158-185 | for every complete schedule and non-nullish rejections: all started bodies settled; no rejection gives the sequential map in input order, any rejection throws the first in time |
| `MapBounded.BoundedMap.TakeNext` | packages/dsh-daily-work/src/data-concurrency.ts:167-171 | a worker's synchronous stretch between awaits, as the specification's step |
| `MapBounded.BoundedMap.SettleBody` | packages/dsh-daily-work/src/data-concurrency.ts:172-179 | storing a result or the first failure, then taking the next index, as one step |
| `Authorization.ParseUndoesFormat` | packages/dsh-daily-work/src/authorization.ts:133-184 | `parse(format(e)) = e` for every evidence with a non-empty action, whatever separators, equals signs or backslashes its values hold; with an empty action the reference is refused |
| `Authorization.FormatInjective` | packages/dsh-daily-work/src/authorization.ts:133-140 | no two such evidences share a reference |
| `Authorization.FormatNormalizes` | packages/dsh-daily-work/src/authorization.ts:133-184 | `parse(format(parse(r))) = parse(r)` for every accepted r |
| `Authorization.ParseAcceptsExactly` | packages/dsh-daily-work/src/authorization.ts:156-184 | which references are read as which evidence, both directions |
| `Authorization.UnescapeUndoesEscape` | packages/dsh-daily-work/src/authorization.ts:75-92 | unescaping an escaped value gives the value |
| `Authorization.EscapeValueIsOnePass` | packages/dsh-daily-work/src/authorization.ts:75-77 | the two successive replacements equal a one-pass escape |
| `Authorization.SplitUndoesJoin` | packages/dsh-daily-work/src/authorization.ts:103-122 | splitting escaped segments joined by separators gives the segments |
| `Authorization.MatchesOnlyItsCommand` | packages/dsh-daily-work/src/authorization.ts:195-198 | a printed reference matches a command exactly when its evidence names it |
| `Authorization.UnescapeValue` | packages/dsh-daily-work/src/authorization.ts:80-92 | the loop computes the specified unescaping |
| `Authorization.SplitFields` | packages/dsh-daily-work/src/authorization.ts:103-122 | the loop computes the specified split |
| `Authorization.FormatAuthorizationRef` | packages/dsh-daily-work/src/authorization.ts:133-140 | the pushes build the specified reference |
| `Authorization.ParseAuthorizationRef` | packages/dsh-daily-work/src/authorization.ts:156-184 | the map-filling loop computes the specified parse |
| `Counting.GateAgreesWithReason` | packages/dsh-daily-work/src/counting.ts:261-373 | for every record, liveness, ready count and cost: `mayAdmit` holds exactly when the stated reason is `insufficient_ready_tasks` or `slots_held_by_unconfirmed` |
| `Counting.MayAdmitExactly` | packages/dsh-daily-work/src/counting.ts:367-373 | on the record's own figures: an open gate means money left above the root's reserve before the request, and the request with the reserve within the ceiling |
| `Counting.ReasonExactly` | packages/dsh-daily-work/src/counting.ts:285-308 | each of the seven reasons is stated exactly when its condition on phase, halt, figures, occupancy and ready tasks holds |
| `Counting.EnteredExactlyFrom` | packages/dsh-daily-work/src/states.ts:118-139 | which states each state may be entered from: the transition table read the other way |
| `Counting.StaleCountsPartExactly` | packages/dsh-daily-work/src/counting.ts:261-373 | with counts of another record gate and reason part exactly when the run is open, not halted, has money left that the cost fits, the counts show a deficit, and it is in fact over its target |
| `Counting.CountRun` | packages/dsh-daily-work/src/counting.ts:158-242 | every counter is the number of tasks it names; deficit and overshoot are the clamped differences; the reason is the record's own |
| `Counting.HeldSlots` | packages/dsh-daily-work/src/counting.ts:143-149 | occupancy is the number of tasks in slot-holding states |
| `Counting.CountsConserve` | packages/dsh-daily-work/src/counting.ts:158-242 | tasks = held + completed + confirmed + cancelled; admitted = held + completed; overshoot - deficit = held - target with one of them zero |
| `Counting.ActivityWithinHeld` | packages/dsh-daily-work/src/counting.ts:172-210 | launching, active, stopping and unknown are disjoint parts of held; waiting is part of active |
| `Counting.SpendIsConserved` | packages/dsh-daily-work/src/record.ts:344-374 | a spend is recorded in full, the commitment moves by spend less release, and the run halts exactly on an actual above its covering estimate; the overage recorded is exactly the part above the covering estimate |
| `Counting.UnknownIsConserved` | packages/dsh-daily-work/src/record.ts:392-424 | retaining a reservation as unknown keeps the commitment; holding a new unknown raises it by the amount |
| `Admission.WorkService.TryReserveAdmission` | packages/dsh-daily-work/src/host.ts:1837-2151 | record and host ledger after every refusal, the host cap's refusal, a failed write and a grant: a refusal moves neither, not even the high-water mark |
| `Admission.WorkService.Transition` | packages/dsh-daily-work/src/host.ts:2174-2231 | illegal moves and failed writes change nothing; a legal one moves the record first and the host slot after it, even when the host refuses the slot |
| `Admission.WorkService.SyncSlotToState` | packages/dsh-daily-work/src/host.ts:2254-2283 | the slot operation each state maps to |
| `Admission.GrantedStaysWithin` | packages/dsh-daily-work/src/host.ts:1978-2082 | a granted reservation takes one slot and exactly its cost, and leaves held <= target and committed <= child ceiling |
| `Admission.GrantSparesTheReserve` | packages/dsh-daily-work/src/record.ts:285-292 | with money committed afterwards, a grant leaves spent, reserved, unknown and the root's reserve together within the ceiling |
| `Admission.BlockedExactlyByTheReserve` | packages/dsh-daily-work/src/host.ts:1989-1992 | a request that nothing else stands against is refused for money exactly when it would reach into the root's reserve |
| `Admission.ReserveIsNotForChildren` | packages/dsh-daily-work/src/host.ts:1989-1992 | a concrete run: seven of ten spent, three reserved for the root, a task of one is refused and of none granted |
| `Admission.MovedExactly` | packages/dsh-daily-work/src/host.ts:2174-2231 | what a movement leaves: one task's state, a tombstone when final, the cost spent in full, and the task's reservation given back exactly when told to or, untold, when final |
| `Admission.GatesDifferExactly` | packages/dsh-daily-work/src/host.ts:1915-2020 | for every request: reservation and `mayAdmit` differ exactly on an open, unhalted run below its target that the cost fits, when the request's own task is taken, tombstoned or stale and money is left, or is free and every unit is committed (so that the cost is zero) |
| `Admission.ZeroCostPartsTheGates` | packages/dsh-daily-work/src/host.ts:1988-2020 | the second case: a request costing nothing on a run with no money is granted by the reservation and refused by `mayAdmit` |
| `Admission.OnlyReopeningRaises` | packages/dsh-daily-work/src/states.ts:118-139 | of all legal transitions only completed to unknown raises occupancy |
| `Admission.TargetKeptExactly` | packages/dsh-daily-work/src/host.ts:1837-2231 | a step keeps held <= target exactly unless it reopens a completed task at a full target |
| `Admission.RunsKeepTarget` | packages/dsh-daily-work/src/host.ts:1837-2231 | a run keeps held <= target throughout if and only if it has no such step |
| `Admission.BudgetKeptExactly` | packages/dsh-daily-work/src/record.ts:285-292 | a step keeps committed <= child ceiling exactly if what it commits unchecked, spend above its release or a newly held unknown, fits the headroom |
| `Admission.StaleRevisionIsRefused` | packages/dsh-daily-work/src/host.ts:1928-1937 | of two requests decided at one generation the second is refused once the first is granted |
| `Admission.ReservationKeepsAgreement` | packages/dsh-daily-work/src/host.ts:1837-2151 | after a grant or a host refusal the host's task slots are exactly the record's slot-holding tasks |
| `Admission.FailedWriteGivesBack` | packages/dsh-daily-work/src/host.ts:2098-2126 | a write that fails after the take leaves the host's task slots as they were |
| `Admission.TransitionKeepsAgreementExactly` | packages/dsh-daily-work/src/host.ts:2174-2283 | a transition keeps that agreement exactly unless it reopens a completed task on a full host |
| `HostRuns.AgreementOverRuns` | packages/dsh-daily-work/src/host.ts:1837-2283 | over runs of reservations, transitions, failed writes and children coming and going, the host's task slots are the record's slot-holding tasks throughout if and only if no completed task is reopened on a full host |
| `HostRuns.ReopeningBreaksTargetAndLedger` | packages/dsh-daily-work/src/states.ts:118-139 | target one, capacity one: from an empty record and ledger a task completes, a second is admitted, the first comes into doubt; two slots are held and the host knows one |
| `HostRuns.HostStaysWithinCap` | packages/dsh-daily-work/src/capacity.ts:177 | the composed system, from an empty record and ledger: if each reservation names a child no slot names yet, the host stays within its cap throughout and highWater is the true maximum |
| `HostRuns.ServiceIsDisciplined` | packages/dsh-daily-work/src/host.ts:1837-2283 | under the same condition the ledger operations of any run are the ones the cap theorem asks for, also where record and ledger have come to disagree |
| `HostRuns.PerformAdmission` | packages/dsh-daily-work/src/host.ts:1837-2151 | the service's reservation is the joint step on record and ledger |
| `HostRuns.PerformTransition` | packages/dsh-daily-work/src/host.ts:2174-2231 | the service's transition is the joint step on record and ledger |
| `HostRuns.CallsMoveBothSides` | packages/dsh-daily-work/src/host.ts:1837-2151 | with room on both sides a granted task is in the record and in the ledger under its child's name, and a write that fails leaves neither |
| `Reservations.RunsStayAccounted` | packages/dsh-daily-work/src/record.ts:344-424 | over every run of reservations, transitions, spends and retentions `budget.reserved` is the sum of what the tasks have outstanding |
| `Reservations.CoverOverRuns` | packages/dsh-daily-work/src/host.ts:2174-2440 | each task's share stays within the cost it stands at, throughout a run, if and only if no step reserves a task anew that has credit outstanding and none draws more for a task than its share |
| `Reservations.CoverKeptExactly` | packages/dsh-daily-work/src/host.ts:2174-2440 | the same for one step |
| `Reservations.SpendIsCharged` | packages/dsh-daily-work/src/host.ts:2311-2342 | a spend on a task is charged in full and measured against that task's own cost, which is given back only if told to |
| `Reservations.UnknownStaysCommitted` | packages/dsh-daily-work/src/host.ts:2418-2440 | what is never learned moves, up to the task's cost and what is reserved, to the unknown; without a task it is added |
| `Reservations.ReservingAgainStrands` | packages/dsh-daily-work/src/host.ts:2064-2082 | a completed task reserved again and confirmed gives back one cost; the other stays reserved with no task to release it |
| `Reservations.ReleasingTwiceTakesASiblings` | packages/dsh-daily-work/src/host.ts:2188-2204 | a task released early and again when confirmed takes the second cost from its sibling |
| `Reservations.RetainingTwiceTakesASiblings` | packages/dsh-daily-work/src/host.ts:2402-2440 | a task retained as unknown twice moves its sibling's reservation, against the comment at 2407-2409 |
| `Stability.StabilityOf` | qualification/runners/stability.py:231-310 | the grouped, looping derivation gives the verdict defined on the ledger's entries alone, the matching outcomes with their counts, and, exactly when cleared, the first clear that names a mixed candidate |
| `Stability.FindClear` | qualification/runners/stability.py:313-322 | the first clear of the case that names a mixed candidate, none exactly if there is none |
| `Stability.DependsOnlyOnSets` | qualification/runners/stability.py:231-310 | two ledgers with the same sets of observations and clears give the same verdict |
| `Stability.MixedOnlyGrows` | qualification/runners/stability.py:264-267 | appending never removes a mixed triple, and a mixed case is FLAKY or CLEARED |
| `Stability.FlakyUntilCleared` | qualification/runners/stability.py:269-285 | after any appends a FLAKY case is CLEARED exactly if some clear names a mixed candidate, and stays FLAKY with no clear for it |
| `Stability.ClearedIsForEver` | qualification/runners/stability.py:313-322 | as coded CLEARED is absorbing, whatever is observed later |
| `Stability.CodeMeetsRuleExactly` | qualification/runners/stability.py:313-322 | the code gives the verdict its own comment (line 314) asks for exactly when the case has not both a cleared and an uncleared mixed candidate |
| `Stability.OneClearHidesAnother` | qualification/runners/stability.py:313-322 | a two-candidate ledger on which code and comment differ |
| `Stability.RuleKeepsUnclearedFlaky` | qualification/runners/stability.py:313-322 | requiring a clear per mixed candidate restores the intent: an uncleared one keeps the case FLAKY whatever is appended for others |
| `Stability.DisagreeingCandidatesAreNotFlaky` | qualification/runners/stability.py:287-310 | without a mixed triple the case is STABLE_FAIL exactly if any run failed |
| `Stability.VerdictByEntries` | qualification/runners/stability.py:231-310 | an entry that matches what was asked is never unobserved, a red one never stable-pass, and both outcomes of one triple make the case cleared, or flaky with no clear for that candidate |
| `Stability.VerdictHasEntries` | qualification/runners/stability.py:231-310 | and back: each verdict but unobserved rests on entries of that case, within the candidate and fixture asked for |
| `Stability.LoadLedger` | qualification/runners/stability.py:195-228 | the usable entries in order; no problem exactly if everything in the file was usable, and the problems name exactly the unusable lists and entries |
| `Stability.ValidateObservation` | qualification/runners/stability.py:124-138 | an observation counts exactly when its four fields are usable and its outcome is PASS or FAIL |
| `Stability.ValidateClear` | qualification/runners/stability.py:141-192 | a clear counts exactly when it names another candidate, a causal fix and evidence that exists and hashes |
| `Stability.LoadedClearsAreExpensive` | qualification/runners/stability.py:141-228 | every clear that loads stems from a usable entry and names two different candidates |
| `Stability.LoadedObservationsExactly` | qualification/runners/stability.py:124-138 | an observation counts exactly if some entry spells out its three names, none empty, and its outcome as PASS or FAIL |
| `Stability.LoadedClearsExactly` | qualification/runners/stability.py:141-192 | a clear counts exactly if some entry spells it out with another candidate, a cause, and evidence whose file is there with the 64-character digest recorded |
| `Stability.FlakyCases` | qualification/runners/stability.py:325-328 | the cases asked about whose verdict is FLAKY |
| `VerifySpec.ValidateEverything` | qualification/runners/verify-spec.py:294-344 | no problem exactly if the record is sound, and the problems reported are exactly the faults there are; a stale-evidence problem exactly if some case has missing or mismatched evidence; cannot run exactly if the spec cannot be read as cases |
| `VerifySpec.CheckFamilyCounts` | qualification/runners/verify-spec.py:168-186 | a problem exactly if declared counts do not add up or a prefix is off, one for the total and one for each such family |
| `VerifySpec.CheckShapes` | qualification/runners/verify-spec.py:189-221 | a problem exactly if an id is missing or repeated, a status is undeclared or NOT_APPLICABLE, or a prefix is undeclared, each named for its case |
| `VerifySpec.FamilyExactly` | qualification/runners/verify-spec.py:189-221 | a case's family is its id up to the first dash, or all of it |
| `VerifySpec.CheckEvidence` | qualification/runners/verify-spec.py:224-271 | a problem exactly if some PASS lacks evidence or some entry does not hold, each fault reported for its case; stale problems exactly for missing or mismatched files |
| `VerifySpec.CheckEntry` | qualification/runners/verify-spec.py:239-271 | one entry holds exactly if its recorded path begins with the evidence root (a test of the text, which a path with `..` segments passes), the file exists, hashes to what is recorded and was not filed under another identity |
| `VerifySpec.HoldsExactly` | qualification/runners/verify-spec.py:239-271 | an entry holds exactly if none of the eight faults is reported for it, and is stale exactly if its file is reported missing or mismatched |
| `VerifySpec.ForeignExactly` | qualification/runners/verify-spec.py:265-271 | an entry is filed under another identity exactly if the one it speaks for, its own field first, differs from a usable recorded one |
| `VerifySpec.RelativeExactly` | qualification/runners/verify-spec.py:249-255 | the repository-relative test: no leading slash, and every colon has a slash before it |
| `VerifySpec.CheckCoherence` | qualification/runners/verify-spec.py:274-291 | a problem exactly if a non-verdict carries evidence or a FAIL or FLAKY explains nothing |
| `VerifySpec.IncoherentExactly` | qualification/runners/verify-spec.py:274-291 | coherence by the words themselves: NOT_RUN, BLOCKED_EXTERNAL and RUNNING carry no evidence, FAIL and FLAKY carry a note or evidence |
| `VerifySpec.UnderRootIsRelative` | qualification/runners/verify-spec.py:249-255 | a path whose text begins with the evidence root is always repository-relative by the code's test: that check can only repeat the next |
| `ReleaseGate.Decide` | qualification/runners/release-gate.py:194-405 | every check runs; the checks and blockers recorded are those the findings call for; releasable exactly if every check passes |
| `ReleaseGate.ReadyExactly` | qualification/runners/release-gate.py:194-405 | READY is equivalent to: sound record, lock identity recomputed and requested, no FAIL, FLAKY or INVALIDATED case, every mandatory case PASS on evidence that holds or blocked with a live allowlist entry, sound ledger with no uncleared mixed case, assembled evidence at this identity |
| `ReleaseGate.StatusChecksExactly` | qualification/runners/release-gate.py:275-340 | checks 3 to 6 on the cases' own fields |
| `ReleaseGate.IdentityChecksExactly` | qualification/runners/release-gate.py:244-272 | the identity is fresh exactly if it could be recomputed and is the lock's; a candidate asked for must be the lock's |
| `ReleaseGate.BlockedCheckExactly` | qualification/runners/release-gate.py:356-378 | a case may be blocked only as IPY-08, and only while the lock says that no live provider budget is authorized |
| `ReleaseGate.AssembledCheckExactly` | qualification/runners/release-gate.py:380-404 | some PASS case of layer T2, T3, T4 or T6 carries evidence filed under the lock's identity |
| `ReleaseGate.DecisionRecordsExactly` | qualification/runners/release-gate.py:224-404 | every check is recorded as it came out, the candidate check only when it fails, and every failure blocks but that of check 1 and of an identity that could not be recomputed |
| `ReleaseGate.ReadyRecordShape` | qualification/runners/release-gate.py:92-102 | in a ready record no two cases share an id, and no case but the one allowlisted is blocked |
| `ReleaseGate.MixedCaseBlocks` | qualification/runners/release-gate.py:293-320 | a case the ledger saw green and red on one candidate, with no clear for it, is never released |
| `ReleaseGate.RecordedSays` | qualification/runners/release-gate.py:224-404 | each recorded check says how it came out; a name is a blocker exactly if its failed check is recorded and is not one of the two that raise none (check 1, and check 2 when the identity cannot be recomputed) |
| `ReleaseGate.SoundRecordIsNotStale` | qualification/runners/release-gate.py:342-354 | a record without problems has no stale evidence: check 7 can only repeat check 1 |
| `ReleaseGate.AllBlockedAuthorized` | qualification/runners/release-gate.py:356-378 | true exactly if every blocked case is allowlisted under a condition the lock still meets |
| `ReleaseGate.IsStable` | qualification/runners/release-gate.py:293-320 | check 4: sound ledger, no FLAKY status, no FLAKY ledger verdict |
| `ReleaseGate.AnyLedgerFlaky` | qualification/runners/release-gate.py:297-298 | true exactly if some case of the record has a FLAKY ledger verdict |

## Left out

- The refusal journal, message texts, rendering, command lines and console output; checks and refusals are values, not text.
- File system, git and HTTP calls, JSON and base64: files are maps, decoding is a case of a datatype, the recomputed identity is an input.
- Check 7 of the gate finds stale evidence by words in a problem's text; the model does so by the problem's kind, so a case id that contains those words is not captured. It cannot change the verdict, since any problem fails check 1.
- Values of a wrong JSON type where the runners would raise instead of report (a non-text case id, an unhashable status), and Python's equality of 0 and False in lock conditions.
- Fractional or non-finite page sizes, limits, strides and costs: integers and reals stand for them.
- A page request to a store whose realm cannot be read, which throws before any refusal is recorded.
- Aborts (`AbortSignal`), the host-fact claim check and media types of a capture, and the choice of a fresh observation id.
- The window between reading a range and hashing it, and two processes sharing one index directory with separate mirrors.
- The observed locking of `KvTable.update`: one reservation is one step; the outbox entry, capabilities and timestamps of a reservation are not recorded.
- Spends that name no task and the root's own spends: they draw on no reservation.
- Deleting the realm or key file from outside while calls run.
- The identity and manifest generators, the build and probe scripts, and the thin adapters around the host.
- PageWalk.WalkPages: takes a bound on the provider's offsets as a ghost argument, because over a provider whose offsets grow for ever the original loop never returns either.
- VerifySpec.ValidateEverything: takes the order in which the record lists its families as an argument, because a Dafny map has none.
- Capture.ReconcileStore: returns the integrity errors as a set of references; the placeholder ids the original attaches to each are constants.
- ArtifactStore.AttachmentArtifactStore.CollectGarbage: takes the directory listing as an argument that names every index entry once; files that are no entries are skipped by the original and are not listed here.
