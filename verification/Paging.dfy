/**
 * Paging an immutable artifact: the cursor a store mints, the order in which `pages` checks a
 * request before it reads a byte, the walk that drives a provider, and the join of its pages.
 * The MAC is ideal: a token verifies under a store's key only if that store minted it.
 */
module Paging {
  import opened Wrappers
  import opened Bytes
  import opened ArtifactStore

  datatype Authority = Authority(ownerScope: string, grantRevision: int)

  datatype Descriptor = Descriptor(
    id: string,
    schemaVersion: int,
    artifact: Ref,
    sha256: Digest,
    bytes: nat,
    acquiredAt: string,
    authority: Authority)

  /** What can move under a walk: the content digest and the grant revision. */
  datatype Revision = Revision(sha256: Digest, grantRevision: int)

  /** Everything a cursor binds besides its position. */
  datatype Bindings = Bindings(
    storeRealmId: string,
    artifactSha256: Digest,
    observationId: string,
    revision: Revision,
    representation: string,
    query: string,
    schemaVersion: int,
    ownerScope: string,
    watermark: string)

  datatype PageCursor = PageCursor(bound: Bindings, position: int)

  /** What a token's payload decodes to; an ill-typed one may still claim a realm. */
  datatype Payload = NotJson(text: string) | IllTyped(claimedRealm: Option<string>) | Fields(cursor: PageCursor)

  datatype Mac = Signed(key: nat, payload: Payload) | OtherMac(text: string)

  datatype Token = NotSeparated(text: string) | Parts(payload: Payload, mac: Mac)

  datatype Step = Parse | Realm | Reference | Identity | Read

  datatype Refusal = Refusal(code: Code, step: Step)

  datatype Request = Request(
    descriptor: Descriptor,
    maxBytes: int,
    cursor: Option<Token>,
    callerScope: string,
    query: Option<string>)

  datatype Page<C> = Page(bytes: seq<Byte>, offset: int, sha256: Digest, exhausted: bool, nextCursor: Option<C>)

  /** The serving side of a request: the store, its key and realm, and the live grant table. */
  datatype Host = Host(store: Store, key: Result<nat, Code>, realm: string, grants: map<string, int>)

  const REPRESENTATION := "bytes"

  function Decimal(n: nat): string {
    if n < 10 then ["0123456789"[n]] else Decimal(n / 10) + ["0123456789"[n % 10]]
  }

  function DefaultQuery(maxBytes: int): string {
    "bytes:" + (if maxBytes < 0 then "-" + Decimal(-maxBytes) else Decimal(maxBytes))
  }

  function QueryOf(q: Request): string {
    if q.query.Some? then q.query.value else DefaultQuery(q.maxBytes)
  }

  // ------------------------------------------------------------------ cursor authority

  function Mint(key: nat, cursor: PageCursor): Token {
    Parts(Fields(cursor), Signed(key, Fields(cursor)))
  }

  function Verify(key: nat, schemaVersion: int, token: Token): Result<PageCursor, Code> {
    if token.NotSeparated? || token.mac != Signed(key, token.payload) || !token.payload.Fields? then Err(CursorInvalid)
    else
      var cursor := token.payload.cursor;
      if cursor.bound.schemaVersion != schemaVersion || cursor.bound.storeRealmId == "" || cursor.position < 0
      then Err(CursorInvalid)
      else Ok(cursor)
  }

  /** The realm a token claims, read without its MAC having been checked. */
  function RealmClaimOf(token: Token): Option<string> {
    if token.NotSeparated? then None
    else match token.payload
      case NotJson(_) => None
      case IllTyped(claim) => claim
      case Fields(cursor) => Some(cursor.bound.storeRealmId)
  }

  function RefusalStepOf(code: Code): Step {
    match code
    case RealmDenied => Realm
    case CursorInvalid => Parse
    case ScopeDenied => Reference
    case IntegrityError => Identity
    case Corrupt => Identity
    case _ => Read
  }

  // ---------------------------------------------------------------------- one request

  /** The values a cursor is compared against, as the live request establishes them. */
  function Live(h: Host, q: Request): Bindings {
    Bindings(h.realm, q.descriptor.sha256, q.descriptor.id,
             Revision(q.descriptor.sha256, q.descriptor.authority.grantRevision),
             REPRESENTATION, QueryOf(q), q.descriptor.schemaVersion, q.callerScope, q.descriptor.acquiredAt)
  }

  /** Steps 1 and 2: parse and verify the token, then compare its realm. */
  function ReadCursor(h: Host, key: nat, q: Request): Result<Option<PageCursor>, Refusal> {
    if q.cursor.None? then Ok(None)
    else match Verify(key, q.descriptor.schemaVersion, q.cursor.value)
      case Err(code) =>
        var claim := RealmClaimOf(q.cursor.value);
        if claim.Some? && claim.value != h.realm then Err(Refusal(RealmDenied, Realm)) else Err(Refusal(code, Parse))
      case Ok(cursor) =>
        if cursor.bound.storeRealmId != h.realm then Err(Refusal(RealmDenied, Realm)) else Ok(Some(cursor))
  }

  predicate StillValid(grants: map<string, int>, authority: Authority) {
    authority.ownerScope in grants && grants[authority.ownerScope] == authority.grantRevision
  }

  /** Step 3: the descriptor under the live grant. */
  function ResolveGrant(h: Host, q: Request): Option<Refusal> {
    if q.descriptor.authority.ownerScope != q.callerScope then Some(Refusal(ScopeDenied, Reference))
    else if !StillValid(h.grants, q.descriptor.authority) then Some(Refusal(ScopeDenied, Reference))
    else if q.maxBytes < 1 then Some(Refusal(CursorInvalid, Reference))
    else None
  }

  /** Step 4a: the cursor's remaining bindings, in the order the code compares them. */
  function AssertBindings(h: Host, q: Request, cursor: PageCursor): Option<Refusal> {
    var live := Live(h, q);
    if cursor.bound.ownerScope != live.ownerScope then Some(Refusal(ScopeDenied, Reference))
    else if cursor.bound.representation != live.representation then Some(Refusal(CursorInvalid, Reference))
    else if cursor.bound.observationId != live.observationId then Some(Refusal(CursorInvalid, Reference))
    else if cursor.bound.revision != live.revision then Some(Refusal(CursorInvalid, Reference))
    else if cursor.bound.query != live.query then Some(Refusal(CursorInvalid, Reference))
    else if cursor.bound.artifactSha256 != live.artifactSha256 then Some(Refusal(CursorInvalid, Reference))
    else if cursor.bound.watermark != live.watermark then Some(Refusal(CursorInvalid, Reference))
    else None
  }

  /** Steps 1 to 4a: the position to serve, or the refusal. */
  function Position(h: Host, key: nat, q: Request): Result<int, Refusal> {
    match ReadCursor(h, key, q)
    case Err(refusal) => Err(refusal)
    case Ok(cursor) =>
      var denied := ResolveGrant(h, q);
      if denied.Some? then Err(denied.value)
      else if cursor.None? then Ok(0)
      else
        var unbound := AssertBindings(h, q, cursor.value);
        if unbound.Some? then Err(unbound.value) else Ok(cursor.value.position)
  }

  /**
   * A request is given a position exactly when its grant holds and its cursor, if it has one, is
   * the very token this store would mint for the same walk at that position.
   */
  lemma PositionExactly(h: Host, key: nat, q: Request, position: int)
    ensures Position(h, key, q) == Ok(position) <==>
            && q.descriptor.authority.ownerScope == q.callerScope
            && StillValid(h.grants, q.descriptor.authority)
            && q.maxBytes >= 1
            && (if q.cursor.None? then position == 0
                else && q.cursor.value == Mint(key, PageCursor(Live(h, q), position))
                     && position >= 0 && h.realm != "")
  {
  }

  function WindowLength(q: Request, position: int): (length: nat)
    requires q.maxBytes >= 1
  {
    Min(q.maxBytes, Max(0, q.descriptor.bytes - position))
  }

  function PageAt(h: Host, key: nat, q: Request, position: nat, bytes: seq<Byte>): Page<Token> {
    var end := position + |bytes|;
    Page(bytes, position, q.descriptor.sha256, end >= q.descriptor.bytes,
         if end >= q.descriptor.bytes then None else Some(Mint(key, PageCursor(Live(h, q), end))))
  }

  /** One call of `pages`, where the store's range read may deliver at most `cut` bytes. */
  function Pages(h: Host, q: Request, cut: nat): (Result<Page<Token>, Refusal>, Store) {
    if h.key.Err? then (Err(Refusal(h.key.error, RefusalStepOf(h.key.error))), h.store)
    else match Position(h, h.key.value, q)
      case Err(refusal) => (Err(refusal), h.store)
      case Ok(position) =>
        PositionExactly(h, h.key.value, q, position);
        var (checked, store) := Check(h.store, q.descriptor.artifact, Expected(q.descriptor.sha256, q.descriptor.bytes));
        if checked.Err? then (Err(Refusal(checked.error, Identity)), store)
        else match OpenRange(store, q.descriptor.artifact, position, WindowLength(q, position))
          case Err(code) => (Err(Refusal(code, Read)), store)
          case Ok(bytes) => (Ok(PageAt(h, h.key.value, q, position, Slice(bytes, 0, cut))), store)
  }

  // ------------------------------------------------------ the two records of a refusal

  /** The request carries no token, or one this store minted in this realm, for this schema. */
  predicate Genuine(h: Host, key: nat, q: Request) {
    q.cursor.None?
    || (q.cursor.value.Parts? && q.cursor.value.payload.Fields?
        && q.cursor.value.mac == Signed(key, q.cursor.value.payload)
        && q.cursor.value.payload.cursor.bound.schemaVersion == q.descriptor.schemaVersion
        && q.cursor.value.payload.cursor.bound.storeRealmId == h.realm != ""
        && q.cursor.value.payload.cursor.position >= 0)
  }

  predicate Granted(h: Host, q: Request) {
    q.descriptor.authority.ownerScope == q.callerScope && StillValid(h.grants, q.descriptor.authority)
  }

  function CursorOf(q: Request): Option<PageCursor> {
    if q.cursor.Some? && q.cursor.value.Parts? && q.cursor.value.payload.Fields? then Some(q.cursor.value.payload.cursor)
    else None
  }

  /**
   * The identity check passes and the direct range read does not: a window from the start that
   * covers the recorded length and does not hash to the address, under a remembered stamp or with
   * a recorded length shorter than the object.
   */
  predicate SlipsToRead(s: Store, ref: Ref, expected: Expected, offset: int, length: int) {
    && ReachesHash(s, ref, expected) && (MemoHit(s, ref) || Hash(s.files[ref.digest].content) == expected.sha256)
    && offset == 0 && length > 0
    && Min(length, |s.files[ref.digest].content|) >= s.index[ref.digest].bytes
    && Hash(Slice(s.files[ref.digest].content, 0, length)) != ref.digest
  }

  /** The page size is refused, or another binding of the cursor than its scope is. */
  predicate RefusedAsReference(h: Host, q: Request) {
    || q.maxBytes < 1
    || (CursorOf(q).Some? && CursorOf(q).value.bound.ownerScope == q.callerScope && CursorOf(q).value.bound != Live(h, q))
  }

  predicate BoundHere(h: Host, q: Request) {
    CursorOf(q).Some? ==> CursorOf(q).value.bound == Live(h, q)
  }

  /** The cursor's walk is this one and its object was retired, or the reference is none. */
  predicate RefusedAsRetired(h: Host, q: Request) {
    q.maxBytes >= 1 && BoundHere(h, q) && (q.descriptor.artifact in h.store.tombstones || q.descriptor.artifact.NotARef?)
  }

  predicate RefusedOnRead(h: Host, q: Request) {
    && q.maxBytes >= 1 && BoundHere(h, q)
    && var position := if CursorOf(q).Some? then CursorOf(q).value.position else 0;
       SlipsToRead(h.store, q.descriptor.artifact, Expected(q.descriptor.sha256, q.descriptor.bytes),
                   position, WindowLength(q, position))
  }

  /**
   * The two records of one refusal, the sink's step and the one derived from the code, disagree
   * exactly on these requests: genuine and granted, but with a bad page size or a foreign binding,
   * for a retired object, or for one that passes the identity check and fails the read.
   */
  lemma StepsAgreeExactly(h: Host, q: Request, cut: nat)
    ensures var r := Pages(h, q, cut).0;
            r.Err? && r.error.step != RefusalStepOf(r.error.code) <==>
            && h.key.Ok? && Genuine(h, h.key.value, q) && Granted(h, q)
            && (RefusedAsReference(h, q) || RefusedAsRetired(h, q) || RefusedOnRead(h, q))
  {
    if h.key.Ok? {
      ReadsGenuineCursors(h, h.key.value, q);
      if Position(h, h.key.value, q).Ok? {
        PlacedWhereBound(h, h.key.value, q);
        IdentityThenRead(h, q, Position(h, h.key.value, q).value);
      }
    }
  }

  lemma ReadsGenuineCursors(h: Host, key: nat, q: Request)
    ensures Genuine(h, key, q) ==> ReadCursor(h, key, q) == Ok(CursorOf(q))
    ensures !Genuine(h, key, q) ==>
              ReadCursor(h, key, q) in {Err(Refusal(RealmDenied, Realm)), Err(Refusal(CursorInvalid, Parse))}
  {
  }

  lemma PlacedWhereBound(h: Host, key: nat, q: Request)
    ensures Position(h, key, q).Ok? <==>
              Genuine(h, key, q) && Granted(h, q) && q.maxBytes >= 1 && BoundHere(h, q)
    ensures Position(h, key, q).Ok? ==>
              Position(h, key, q).value == if CursorOf(q).Some? then CursorOf(q).value.position else 0
  {
    ReadsGenuineCursors(h, key, q);
  }

  /** Once placed, a request is refused as retired, as failing its identity, or in the read it slipped to. */
  lemma IdentityThenRead(h: Host, q: Request, position: int)
    requires position >= 0 && q.maxBytes >= 1
    ensures var expected := Expected(q.descriptor.sha256, q.descriptor.bytes);
            var (checked, store) := Check(h.store, q.descriptor.artifact, expected);
            && (checked.Err? ==>
                  checked.error == if q.descriptor.artifact in h.store.tombstones || q.descriptor.artifact.NotARef?
                                   then NotFound else IntegrityError)
            && (q.descriptor.artifact in h.store.tombstones || q.descriptor.artifact.NotARef? ==> checked.Err?)
            && (checked.Ok? ==>
                  var read := OpenRange(store, q.descriptor.artifact, position, WindowLength(q, position));
                  && (read.Err? ==> read.error == IntegrityError)
                  && (read.Err? <==> SlipsToRead(h.store, q.descriptor.artifact, expected, position, WindowLength(q, position))))
            && (checked.Err? ==> !SlipsToRead(h.store, q.descriptor.artifact, expected, position, WindowLength(q, position)))
  {
  }

  /** With a sound memo and true recorded lengths nothing slips past the identity check to the read. */
  lemma SoundStoresNeverSlip(h: Host, history: History, q: Request)
    requires MemoSound(h.store, history)
    requires forall d :: d in h.store.index && d.Sha256? ==> h.store.index[d].bytes == |d.of|
    ensures !RefusedOnRead(h, q)
  {
    var ref := q.descriptor.artifact;
    if q.maxBytes >= 1 && ref.Artifact? && ref.digest in h.store.files {
      var position := if CursorOf(q).Some? then CursorOf(q).value.position else 0;
      if position >= 0 {
        WholeSlice(h.store.files[ref.digest].content, WindowLength(q, position));
      }
    }
  }

  /** A store that published one byte, and the observation of it. */
  function OneByteStore(): Store {
    Publish(Store(true, map[], map[], {}, map[], map[]), [1], false, 0, 0)
  }

  function OneByteHost(s: Store): Host { Host(s, Ok(7), "realm", map["team" := 1]) }

  function OneByte(): Descriptor {
    Descriptor("o", 1, Artifact(Hash([1])), Hash([1]), 1, "t", Authority("team", 1))
  }

  /** A page size of zero: the sink says `reference`, the code's step is `parse`. */
  lemma BadPageSizeIsRecordedTwice()
    ensures var q := Request(OneByte(), 0, None, "team", None);
            Pages(OneByteHost(OneByteStore()), q, 0).0 == Err(Refusal(CursorInvalid, Reference))
            && RefusalStepOf(CursorInvalid) == Parse
  {
  }

  /** A genuine cursor resumed under another query: again `reference` against `parse`. */
  lemma ForeignQueryIsRecordedTwice()
    ensures var h := OneByteHost(OneByteStore());
            var minted := Mint(7, PageCursor(Live(h, Request(OneByte(), 1, None, "team", Some("a"))), 0));
            Pages(h, Request(OneByte(), 1, Some(minted), "team", Some("b")), 0).0 == Err(Refusal(CursorInvalid, Reference))
  {
    var h := OneByteHost(OneByteStore());
    assert Live(h, Request(OneByte(), 1, None, "team", Some("a"))).query[0] == 'a';
  }

  /** A removed object: the sink says `identity`, the code's step is `read`. */
  lemma RetiredObjectIsRecordedTwice()
    ensures var removed := Retire(OneByteStore(), Artifact(Hash([1])));
            Pages(OneByteHost(removed), Request(OneByte(), 1, None, "team", None), 0).0 == Err(Refusal(NotFound, Identity))
            && RefusalStepOf(NotFound) == Read
  {
  }

  /** An object replaced under a remembered stamp: the sink says `read`, the code's step is `identity`. */
  lemma SlippedObjectIsRecordedTwice()
    ensures var d := Hash([1]);
            var checked := Check(OneByteStore(), Artifact(d), Expected(d, 1)).1;
            var replaced := checked.(files := checked.files[d := File([2], 0, 0)]);
            Pages(OneByteHost(replaced), Request(OneByte(), 1, None, "team", None), 0).0 == Err(Refusal(IntegrityError, Read))
            && RefusalStepOf(IntegrityError) == Identity
  {
    var one, two: seq<Byte> := [1], [2];
    assert one[0] != two[0] && Slice(two, 0, 1) == two;
  }

  /**
   * No byte of another object is ever handed back: with a sound memo, a page is a piece of the
   * content whose digest the descriptor records, starting at the page's offset.
   */
  lemma PagesServeTheArtifact(h: Host, history: History, q: Request, cut: nat)
    requires MemoSound(h.store, history) && Pages(h, q, cut).0.Ok?
    ensures q.descriptor.sha256.Sha256?
    ensures var page := Pages(h, q, cut).0.value;
            && page.offset >= 0 && q.maxBytes >= 1
            && page.bytes == Slice(Slice(q.descriptor.sha256.of, page.offset, WindowLength(q, page.offset)), 0, cut)
  {
    var expected := Expected(q.descriptor.sha256, q.descriptor.bytes);
    SoundMemoAgrees(h.store, history, q.descriptor.artifact, expected);
    PositionExactly(h, h.key.value, q, Position(h, h.key.value, q).value);
  }

  // --------------------------------------------------- what a cursor is bound to, field by field

  /** The query a request pages under, however it came to it: the one supplied, or its page size's own. */
  predicate SameQuery(q1: Request, q2: Request) {
    if q1.query.Some? && q2.query.Some? then q1.query == q2.query
    else if q1.query.Some? then q1.query.value == DefaultQuery(q2.maxBytes)
    else if q2.query.Some? then q2.query.value == DefaultQuery(q1.maxBytes)
    else DefaultQuery(q1.maxBytes) == DefaultQuery(q2.maxBytes)
  }

  /** The second request resumes the first: it presents the cursor that the first one's page came with. */
  predicate Resumes(h: Host, q1: Request, cut: nat, q2: Request) {
    && Pages(h, q1, cut).0.Ok? && Pages(h, q1, cut).0.value.nextCursor.Some?
    && q2.cursor == Pages(h, q1, cut).0.value.nextCursor
  }

  predicate SameObservation(d1: Descriptor, d2: Descriptor) {
    && d1.id == d2.id && d1.schemaVersion == d2.schemaVersion && d1.sha256 == d2.sha256
    && d1.authority.grantRevision == d2.authority.grantRevision && d1.acquiredAt == d2.acquiredAt
  }

  /**
   * A cursor handed out by one store is placed for another request, on the same or another host,
   * exactly when key and realm are the same, the observation is the same in every field that was
   * bound, scope and query are the same, and the grant is live; the place is where the page ended.
   */
  lemma ResumesOnlyTheSameWalk(h1: Host, q1: Request, cut: nat, h2: Host, key: nat, q2: Request)
    requires Resumes(h1, q1, cut, q2) && h1.realm != ""
    ensures Position(h2, key, q2).Ok? <==>
            && h1.key == Ok(key) && h1.realm == h2.realm
            && SameObservation(q1.descriptor, q2.descriptor)
            && q1.callerScope == q2.callerScope && SameQuery(q1, q2)
            && q2.descriptor.authority.ownerScope == q2.callerScope
            && StillValid(h2.grants, q2.descriptor.authority)
            && q2.maxBytes >= 1
    ensures Position(h2, key, q2).Ok? ==>
            Position(h2, key, q2).value == Pages(h1, q1, cut).0.value.offset + |Pages(h1, q1, cut).0.value.bytes|
  {
  }

  /** The same over whole requests: two pages joined by a cursor are of one walk, and adjoin. */
  lemma JoinedPagesAreOfOneWalk(h1: Host, q1: Request, cut1: nat, h2: Host, q2: Request, cut2: nat)
    requires Resumes(h1, q1, cut1, q2) && Pages(h2, q2, cut2).0.Ok?
    ensures q1.descriptor.id == q2.descriptor.id
    ensures q1.descriptor.sha256 == q2.descriptor.sha256
    ensures q1.descriptor.schemaVersion == q2.descriptor.schemaVersion
    ensures q1.descriptor.acquiredAt == q2.descriptor.acquiredAt
    ensures q1.descriptor.authority == q2.descriptor.authority
    ensures q1.callerScope == q2.callerScope && QueryOf(q1) == QueryOf(q2)
    ensures h1.realm == h2.realm && h1.key == h2.key
    ensures var first, second := Pages(h1, q1, cut1).0.value, Pages(h2, q2, cut2).0.value;
            second.offset == first.offset + |first.bytes| && second.sha256 == first.sha256
  {
    PositionExactly(h1, h1.key.value, q1, Pages(h1, q1, cut1).0.value.offset);
    PositionExactly(h2, h2.key.value, q2, Pages(h2, q2, cut2).0.value.offset);
  }

  /**
   * The refusal of a cursor this store did mint: another realm or schema is refused before the
   * grant is looked at; of the bindings only the scope is a denial, any other is an invalid cursor.
   */
  lemma ForeignCursorIsRefused(h1: Host, q1: Request, cut: nat, h2: Host, key: nat, q2: Request)
    requires Resumes(h1, q1, cut, q2) && h1.key == Ok(key) && h1.realm != ""
    ensures h1.realm != h2.realm ==> Position(h2, key, q2) == Err(Refusal(RealmDenied, Realm))
    ensures h1.realm == h2.realm && q1.descriptor.schemaVersion != q2.descriptor.schemaVersion ==>
              Position(h2, key, q2) == Err(Refusal(CursorInvalid, Parse))
    ensures h1.realm == h2.realm && q1.descriptor.schemaVersion == q2.descriptor.schemaVersion
            && Granted(h2, q2) && q2.maxBytes >= 1 ==>
              && (q1.callerScope != q2.callerScope ==> Position(h2, key, q2) == Err(Refusal(ScopeDenied, Reference)))
              && (q1.callerScope == q2.callerScope
                  && !(SameObservation(q1.descriptor, q2.descriptor) && SameQuery(q1, q2)) ==>
                    Position(h2, key, q2) == Err(Refusal(CursorInvalid, Reference)))
  {
  }

  // -------------------------------------------------------------- runs of one store's pager

  /** One page handed out: the walk it belongs to and the bytes it covered. */
  datatype Serving = Serving(walk: Bindings, maxBytes: int, offset: int, end: int, exhausted: bool)

  datatype Pager = Pager(host: Host, minted: set<PageCursor>, served: seq<Serving>)

  datatype PagerEvent = Ask(q: Request, cut: nat) | Bump(scope: string) | Touch(event: MemoEvent)

  function ServingOf(h: Host, q: Request, page: Page<Token>): Serving {
    Serving(Live(h, q), q.maxBytes, page.offset, page.offset + |page.bytes|, page.exhausted)
  }

  function StepPager(p: Pager, e: PagerEvent): Pager {
    match e
    case Bump(scope) =>
      var next := (if scope in p.host.grants then p.host.grants[scope] else 0) + 1;
      p.(host := p.host.(grants := p.host.grants[scope := next]))
    case Touch(event) => p.(host := p.host.(store := StepStore(p.host.store, event)))
    case Ask(q, cut) =>
      var (r, store) := Pages(p.host, q, cut);
      var after := p.(host := p.host.(store := store));
      if r.Err? then after
      else
        var serving := ServingOf(p.host, q, r.value);
        after.(minted := if r.value.nextCursor.None? then p.minted else p.minted + {PageCursor(serving.walk, serving.end)},
               served := p.served + [serving])
  }

  /** The ideal MAC: whoever asks, a token that verifies under the store's key was minted by it. */
  predicate MacHolds(p: Pager, e: PagerEvent) {
    e.Ask? && p.host.key.Ok? && e.q.cursor.Some? && e.q.cursor.value.Parts?
    && e.q.cursor.value.mac == Signed(p.host.key.value, e.q.cursor.value.payload) ==>
      e.q.cursor.value.payload.Fields? && e.q.cursor.value.payload.cursor in p.minted
  }

  ghost predicate MacRun(p: Pager, events: seq<PagerEvent>)
    decreases |events|
  {
    events == [] || (MacHolds(p, events[0]) && MacRun(StepPager(p, events[0]), events[1..]))
  }

  function RunPager(p: Pager, events: seq<PagerEvent>): Pager
    decreases |events|
  {
    if events == [] then p else RunPager(StepPager(p, events[0]), events[1..])
  }

  /** Among the first n pages there is an unexhausted one of this walk that ended here. */
  ghost predicate EndedBefore(served: seq<Serving>, n: nat, walk: Bindings, position: int)
    requires n <= |served|
  {
    exists i :: 0 <= i < n && served[i].walk == walk && served[i].end == position && !served[i].exhausted
  }

  ghost predicate Continued(served: seq<Serving>, j: nat)
    requires j < |served|
  {
    served[j].offset == 0 || EndedBefore(served, j, served[j].walk, served[j].offset)
  }

  /** Every minted cursor and every served offset continues an earlier page of the very same walk. */
  ghost predicate WalksAreChains(p: Pager) {
    && (forall cursor :: cursor in p.minted ==> EndedBefore(p.served, |p.served|, cursor.bound, cursor.position))
    && (forall j :: 0 <= j < |p.served| ==> Continued(p.served, j))
  }

  lemma ServedExtends(served: seq<Serving>, next: Serving, n: nat, walk: Bindings, position: int)
    requires n <= |served| && EndedBefore(served, n, walk, position)
    ensures EndedBefore(served + [next], n, walk, position) && EndedBefore(served + [next], |served| + 1, walk, position)
  {
    var i :| 0 <= i < n && served[i].walk == walk && served[i].end == position && !served[i].exhausted;
    assert (served + [next])[i] == served[i];
  }

  lemma ChainsExtend(p: Pager, next: Serving)
    requires WalksAreChains(p)
    requires next.offset == 0 || EndedBefore(p.served, |p.served|, next.walk, next.offset)
    ensures WalksAreChains(p.(served := p.served + [next]))
  {
    var served := p.served + [next];
    forall cursor | cursor in p.minted ensures EndedBefore(served, |served|, cursor.bound, cursor.position) {
      ServedExtends(p.served, next, |p.served|, cursor.bound, cursor.position);
    }
    forall j | 0 <= j < |served| ensures Continued(served, j) {
      if j < |p.served| {
        assert Continued(p.served, j);
        if served[j].offset != 0 {
          ServedExtends(p.served, next, j, served[j].walk, served[j].offset);
        }
      } else if next.offset != 0 {
        ServedExtends(p.served, next, |p.served|, next.walk, next.offset);
      }
    }
  }

  lemma StepKeepsChains(p: Pager, e: PagerEvent)
    requires WalksAreChains(p) && MacHolds(p, e)
    ensures WalksAreChains(StepPager(p, e))
  {
    if e.Ask? && Pages(p.host, e.q, e.cut).0.Ok? {
      var page := Pages(p.host, e.q, e.cut).0.value;
      var serving := ServingOf(p.host, e.q, page);
      PositionExactly(p.host, p.host.key.value, e.q, page.offset);
      ChainsExtend(p, serving);
      if page.nextCursor.Some? {
        MintKeepsChains(p.(served := p.served + [serving]), serving);
      }
    }
  }

  lemma MintKeepsChains(p: Pager, last: Serving)
    requires WalksAreChains(p) && |p.served| > 0 && p.served[|p.served| - 1] == last && !last.exhausted
    ensures WalksAreChains(p.(minted := p.minted + {PageCursor(last.walk, last.end)}))
  {
    assert EndedBefore(p.served, |p.served|, last.walk, last.end);
  }

  /**
   * Over every run of requests, grant changes and store events, with any number of observations
   * on one store: a served offset is 0 or the end of an earlier page of the same walk, and an
   * accepted cursor was minted under identical realm, observation, revision, query, scope,
   * digest and watermark.
   */
  lemma {:induction false} RunsKeepChains(p: Pager, events: seq<PagerEvent>)
    requires WalksAreChains(p) && MacRun(p, events)
    ensures WalksAreChains(RunPager(p, events))
    decreases |events|
  {
    if events != [] {
      StepKeepsChains(p, events[0]);
      RunsKeepChains(StepPager(p, events[0]), events[1..]);
    }
  }

  function FreshPager(h: Host): Pager { Pager(h, {}, []) }

  /** From a store that has minted nothing yet: each page served starts at 0 or where an earlier one of its walk ended. */
  lemma EveryPageContinuesItsWalk(h: Host, events: seq<PagerEvent>, j: nat)
    requires MacRun(FreshPager(h), events) && j < |RunPager(FreshPager(h), events).served|
    ensures Continued(RunPager(FreshPager(h), events).served, j)
  {
    RunsKeepChains(FreshPager(h), events);
  }

  lemma AcceptedWasMinted(p: Pager, q: Request, cut: nat)
    requires WalksAreChains(p) && MacHolds(p, Ask(q, cut)) && q.cursor.Some? && Pages(p.host, q, cut).0.Ok?
    ensures var cursor := PageCursor(Live(p.host, q), Pages(p.host, q, cut).0.value.offset);
            && q.cursor.value == Mint(p.host.key.value, cursor) && cursor in p.minted
            && EndedBefore(p.served, |p.served|, cursor.bound, cursor.position)
  {
    PositionExactly(p.host, p.host.key.value, q, Pages(p.host, q, cut).0.value.offset);
  }

  // --------------------------------------------------- what is served over a whole run

  function StepPagerHistory(p: Pager, history: History, e: PagerEvent): History {
    if e.Touch? then StepHistory(p.host.store, history, e.event) else history
  }

  /** Whatever rewrites the objects between requests never shows one stamp over two contents. */
  ghost predicate FreshStampPagerRun(p: Pager, history: History, events: seq<PagerEvent>)
    decreases |events|
  {
    events == []
    || ((events[0].Touch? ==> FreshStamp(p.host.store, history, events[0].event))
        && FreshStampPagerRun(StepPager(p, events[0]), StepPagerHistory(p, history, events[0]), events[1..]))
  }

  /** A page that is served is a piece of the content the descriptor's digest is of. */
  ghost predicate ServesTheArtifact(p: Pager, q: Request, cut: nat) {
    Pages(p.host, q, cut).0.Ok? ==>
      var page := Pages(p.host, q, cut).0.value;
      && q.descriptor.sha256.Sha256? && page.offset >= 0 && q.maxBytes >= 1
      && page.bytes == Slice(Slice(q.descriptor.sha256.of, page.offset, WindowLength(q, page.offset)), 0, cut)
  }

  ghost predicate AlwaysServesTheArtifact(p: Pager, events: seq<PagerEvent>)
    decreases |events|
  {
    events == []
    || ((events[0].Ask? ==> ServesTheArtifact(p, events[0].q, events[0].cut))
        && AlwaysServesTheArtifact(StepPager(p, events[0]), events[1..]))
  }

  lemma RequestsKeepMemoSound(h: Host, history: History, q: Request, cut: nat)
    requires MemoSound(h.store, history)
    ensures MemoSound(Pages(h, q, cut).1, history)
  {
    var expected := Expected(q.descriptor.sha256, q.descriptor.bytes);
    StepKeepsMemoSound(h.store, history, CheckIdentity(q.descriptor.artifact, expected));
  }

  /**
   * Over every run of requests, grant changes, identity checks, removals, sweeps and fresh-stamp
   * rewrites, every page ever served is its descriptor's content at its offset.
   */
  lemma {:induction false} PagesAlwaysServeTheArtifact(p: Pager, history: History, events: seq<PagerEvent>)
    requires MemoSound(p.host.store, history) && FreshStampPagerRun(p, history, events)
    ensures AlwaysServesTheArtifact(p, events)
    decreases |events|
  {
    if events != [] {
      match events[0] {
        case Ask(q, cut) =>
          RequestsKeepMemoSound(p.host, history, q, cut);
          if Pages(p.host, q, cut).0.Ok? {
            PagesServeTheArtifact(p.host, history, q, cut);
          }
        case Touch(event) => StepKeepsMemoSound(p.host.store, history, event);
        case Bump(_) =>
      }
      PagesAlwaysServeTheArtifact(StepPager(p, events[0]), StepPagerHistory(p, history, events[0]), events[1..]);
    }
  }

  // ----------------------------------------------------------------- revocation

  predicate Outdated(grants: map<string, int>, scope: string, revision: int) {
    scope in grants && grants[scope] > revision
  }

  /** Once a scope's grant has moved past a revision, no run ever serves that revision again. */
  lemma {:induction false} RevocationIsPermanent(p: Pager, events: seq<PagerEvent>, scope: string, revision: int, j: nat)
    requires Outdated(p.host.grants, scope, revision)
    requires |p.served| <= j < |RunPager(p, events).served|
    ensures var serving := RunPager(p, events).served[j];
            !(serving.walk.ownerScope == scope && serving.walk.revision.grantRevision == revision)
    decreases |events|
  {
    if events == [] {
      assert false;
    } else {
      var next := StepPager(p, events[0]);
      if j < |next.served| {
        PositionExactly(p.host, p.host.key.value, events[0].q, next.served[j].offset);
        ServedOnlyGrows(next, events[1..]);
      } else {
        RevocationIsPermanent(next, events[1..], scope, revision, j);
      }
    }
  }

  lemma {:induction false} ServedOnlyGrows(p: Pager, events: seq<PagerEvent>)
    ensures p.served <= RunPager(p, events).served
    decreases |events|
  {
    if events != [] {
      ServedOnlyGrows(StepPager(p, events[0]), events[1..]);
    }
  }

  // --------------------------------------------------------- alignment of default walks

  lemma {:induction false} DecimalInjective(m: nat, n: nat)
    requires Decimal(m) == Decimal(n)
    ensures m == n
    decreases m
  {
    DecimalLength(m);
    DecimalLength(n);
    if m >= 10 && n >= 10 {
      DecimalLast(m);
      DecimalLast(n);
      DecimalInjective(m / 10, n / 10);
    }
  }

  lemma DecimalLength(n: nat)
    ensures |Decimal(n)| >= 1
    ensures n >= 10 <==> |Decimal(n)| >= 2
  {
  }

  lemma DecimalLast(n: nat)
    requires n >= 10
    ensures |Decimal(n)| >= 1 && Decimal(n)[..|Decimal(n)| - 1] == Decimal(n / 10)
    ensures Decimal(n)[|Decimal(n)| - 1] == "0123456789"[n % 10]
  {
  }

  /** The number a row of digits reads as. */
  function Value(digits: string): int {
    if digits == "" then 0 else Value(digits[..|digits| - 1]) * 10 + (digits[|digits| - 1] as int - '0' as int)
  }

  /** What is printed is the number in decimal: it reads back, in digits, with no zero in front. */
  lemma {:induction false} DecimalReadsBack(n: nat)
    ensures Value(Decimal(n)) == n
    ensures forall c :: c in Decimal(n) ==> '0' <= c <= '9'
    ensures n > 0 ==> Decimal(n) != "" && Decimal(n)[0] != '0'
    decreases n
  {
    if n >= 10 {
      DecimalReadsBack(n / 10);
      DecimalLast(n);
      assert "0123456789"[n % 10] as int - '0' as int == n % 10;
    }
  }

  /** A page size left to itself pages under its own text. */
  lemma DefaultQueryIsItsText(q: Request)
    requires q.query == None && q.maxBytes >= 0
    ensures QueryOf(q)[..|QueryOf(q)| - |Decimal(q.maxBytes)|] == "bytes:"
    ensures Value(QueryOf(q)[6..]) == q.maxBytes
  {
    DecimalReadsBack(q.maxBytes);
    assert QueryOf(q)[6..] == Decimal(q.maxBytes);
  }

  lemma DefaultQueryInjective(m: int, n: int)
    requires m >= 0 && n >= 0 && DefaultQuery(m) == DefaultQuery(n)
    ensures m == n
  {
    assert DefaultQuery(m)[6..] == Decimal(m) && DefaultQuery(n)[6..] == Decimal(n);
    DecimalInjective(m, n);
  }

  predicate FullPage(q: Request, page: Page<Token>) {
    q.maxBytes >= 1 && |page.bytes| == WindowLength(q, page.offset)
  }

  /** Every request leaves the query to its default and every read that is served is full. */
  predicate DefaultAndFull(p: Pager, e: PagerEvent) {
    e.Ask? ==> (e.q.query.None? && (Pages(p.host, e.q, e.cut).0.Ok? ==> FullPage(e.q, Pages(p.host, e.q, e.cut).0.value)))
  }

  ghost predicate DefaultRun(p: Pager, events: seq<PagerEvent>)
    decreases |events|
  {
    events == []
    || (MacHolds(p, events[0]) && DefaultAndFull(p, events[0]) && DefaultRun(StepPager(p, events[0]), events[1..]))
  }

  ghost predicate IsMultiple(n: int, size: int) {
    exists k :: k * size == n
  }

  ghost predicate AlignedCursor(cursor: PageCursor, maxBytes: int) {
    maxBytes >= 1 && cursor.bound.query == DefaultQuery(maxBytes) && IsMultiple(cursor.position, maxBytes)
  }

  /** Every minted position and every served offset is a whole number of pages. */
  ghost predicate Aligned(p: Pager) {
    && (forall cursor :: cursor in p.minted ==> exists maxBytes :: AlignedCursor(cursor, maxBytes))
    && (forall j :: 0 <= j < |p.served| ==> p.served[j].maxBytes >= 1 && IsMultiple(p.served[j].offset, p.served[j].maxBytes))
  }

  lemma NextMultiple(position: int, size: int)
    requires IsMultiple(position, size)
    ensures IsMultiple(position + size, size)
  {
    var k :| k * size == position;
    assert (k + 1) * size == position + size;
  }

  lemma ZeroIsMultiple(size: int)
    ensures IsMultiple(0, size)
  {
    assert 0 * size == 0;
  }

  lemma AcceptedIsAligned(p: Pager, e: PagerEvent)
    requires Aligned(p) && MacHolds(p, e) && DefaultAndFull(p, e) && e.Ask? && Pages(p.host, e.q, e.cut).0.Ok?
    ensures IsMultiple(Pages(p.host, e.q, e.cut).0.value.offset, e.q.maxBytes)
  {
    var page := Pages(p.host, e.q, e.cut).0.value;
    PositionExactly(p.host, p.host.key.value, e.q, page.offset);
    ZeroIsMultiple(e.q.maxBytes);
    if e.q.cursor.Some? {
      var cursor := PageCursor(Live(p.host, e.q), page.offset);
      assert cursor in p.minted;
      var maxBytes :| AlignedCursor(cursor, maxBytes);
      DefaultQueryInjective(maxBytes, e.q.maxBytes);
    }
  }

  lemma AlignedExtends(p: Pager, after: Pager, next: Serving, cursors: set<PageCursor>)
    requires Aligned(p) && after.served == p.served + [next] && after.minted == p.minted + cursors
    requires next.maxBytes >= 1 && IsMultiple(next.offset, next.maxBytes)
    requires forall cursor :: cursor in cursors ==> AlignedCursor(cursor, next.maxBytes)
    ensures Aligned(after)
  {
    forall cursor | cursor in after.minted ensures exists maxBytes :: AlignedCursor(cursor, maxBytes) {
      if cursor in cursors {
        assert AlignedCursor(cursor, next.maxBytes);
      }
    }
  }

  /** The end of a full page that is not the last is aligned again. */
  lemma EndIsAligned(h: Host, q: Request, page: Page<Token>)
    requires FullPage(q, page) && IsMultiple(page.offset, q.maxBytes) && q.query.None?
    requires page.offset + |page.bytes| < q.descriptor.bytes
    ensures AlignedCursor(PageCursor(Live(h, q), page.offset + |page.bytes|), q.maxBytes)
  {
    NextMultiple(page.offset, q.maxBytes);
  }

  lemma StepKeepsAligned(p: Pager, e: PagerEvent)
    requires Aligned(p) && MacHolds(p, e) && DefaultAndFull(p, e)
    ensures Aligned(StepPager(p, e))
  {
    if e.Ask? && Pages(p.host, e.q, e.cut).0.Ok? {
      var page := Pages(p.host, e.q, e.cut).0.value;
      var serving := ServingOf(p.host, e.q, page);
      AcceptedIsAligned(p, e);
      if page.nextCursor.Some? {
        EndIsAligned(p.host, e.q, page);
        AlignedExtends(p, StepPager(p, e), serving, {PageCursor(serving.walk, serving.end)});
      } else {
        AlignedExtends(p, StepPager(p, e), serving, {});
      }
    }
  }

  /** With default queries and full reads, every offset ever served is a multiple of its page size. */
  lemma {:induction false} DefaultRunsStayAligned(p: Pager, events: seq<PagerEvent>)
    requires Aligned(p) && DefaultRun(p, events)
    ensures Aligned(RunPager(p, events))
    decreases |events|
  {
    if events != [] {
      StepKeepsAligned(p, events[0]);
      DefaultRunsStayAligned(StepPager(p, events[0]), events[1..]);
    }
  }

  lemma EveryOffsetIsAligned(h: Host, events: seq<PagerEvent>, j: nat)
    requires DefaultRun(FreshPager(h), events) && j < |RunPager(FreshPager(h), events).served|
    ensures var serving := RunPager(FreshPager(h), events).served[j]; IsMultiple(serving.offset, serving.maxBytes)
  {
    DefaultRunsStayAligned(FreshPager(h), events);
  }

  // ------------------------------------------------------------------- completeness

  /** The host can serve this observation: its grant holds and its object is present and intact. */
  predicate Servable(h: Host, d: Descriptor, content: seq<Byte>) {
    && h.key.Ok? && h.realm != "" && StillValid(h.grants, d.authority)
    && d.artifact == Artifact(Hash(content)) && d.sha256 == Hash(content) && d.bytes == |content|
    && d.artifact !in h.store.tombstones && Hash(content) in h.store.index
    && h.store.index[Hash(content)].bytes == |content|
    && Hash(content) in h.store.files && h.store.files[Hash(content)].content == content
  }

  /**
   * A minted cursor is accepted while the grant and the object are as they were, and the page it
   * yields is the one at its position.
   */
  lemma MintedCursorIsServed(h: Host, q: Request, content: seq<Byte>, position: nat, cut: nat)
    requires Servable(h, q.descriptor, content)
    requires q.callerScope == q.descriptor.authority.ownerScope && q.maxBytes >= 1
    requires if q.cursor.None? then position == 0
             else q.cursor.value == Mint(h.key.value, PageCursor(Live(h, q), position))
    ensures Pages(h, q, cut).0
         == Ok(PageAt(h, h.key.value, q, position, Slice(Slice(content, position, WindowLength(q, position)), 0, cut)))
  {
    PositionExactly(h, h.key.value, q, position);
    var store := Check(h.store, q.descriptor.artifact, Expected(q.descriptor.sha256, q.descriptor.bytes)).1;
    IntactReadsAsPublished(store, content, position, WindowLength(q, position));
  }

  /**
   * The default query is not reserved: a caller who supplies the text another page size would
   * default to can resume a default walk at an offset that is no multiple of its page size.
   */
  lemma SuppliedQueryBreaksAlignment(h: Host, d: Descriptor, content: seq<Byte>, size: int, other: int)
    requires Servable(h, d, content) && 1 <= size && 1 <= other < |content| && other % size != 0
    ensures var scope := d.authority.ownerScope;
            var first := Pages(h, Request(d, other, None, scope, Some(DefaultQuery(size))), |content|).0;
            && first.Ok? && first.value.nextCursor.Some?
            && var second := Pages(h, Request(d, size, first.value.nextCursor, scope, None), |content|).0;
               second.Ok? && second.value.offset == other
  {
    var scope := d.authority.ownerScope;
    var q := Request(d, other, None, scope, Some(DefaultQuery(size)));
    MintedCursorIsServed(h, q, content, 0, |content|);
    var resumed := Request(d, size, Some(Mint(h.key.value, PageCursor(Live(h, q), other))), scope, None);
    MintedCursorIsServed(h, resumed, content, other, |content|);
  }

  // ------------------------------------------------------------------- the provider

  /** Pages an immutable artifact of one store through `pages`. */
  class ArtifactStorePageProvider {
    const store: AttachmentArtifactStore

    constructor (store: AttachmentArtifactStore)
      ensures this.store == store
    {
      this.store := store;
    }

    /** One call: the identity check may remember a stamp, nothing else in the store moves. */
    method Next(q: Request, key: Result<nat, Code>, realm: string, grants: map<string, int>,
                counters: IoCounters, chunks: seq<seq<Byte>>)
      returns (r: Result<Page<Token>, Refusal>)
      requires q.descriptor.artifact.Artifact? && q.descriptor.artifact.digest in store.files ==>
                 Concat(chunks) == store.files[q.descriptor.artifact.digest].content
      modifies store`verified, counters
      ensures (r, store.State()) == Pages(Host(old(store.State()), key, realm, grants), q, Max(0, q.maxBytes))
    {
      ghost var h := Host(store.State(), key, realm, grants);
      if key.Err? {
        return Err(Refusal(key.error, RefusalStepOf(key.error)));
      }
      var placed := Position(Host(store.State(), key, realm, grants), key.value, q);
      if placed.Err? {
        return Err(placed.error);
      }
      PositionExactly(h, key.value, q, placed.value);
      var checked := store.AssertObjectIdentity(q.descriptor.artifact, Expected(q.descriptor.sha256, q.descriptor.bytes));
      if checked.Err? {
        return Err(Refusal(checked.error, Identity));
      }
      var read := store.ReadRange(q.descriptor.artifact, placed.value, WindowLength(q, placed.value), counters, chunks);
      if read.Err? {
        return Err(Refusal(read.error, Read));
      }
      assert |read.value| <= WindowLength(q, placed.value);
      assert Slice(read.value, 0, Max(0, q.maxBytes)) == read.value;
      r := Ok(PageAt(Host(store.State(), key, realm, grants), key.value, q, placed.value, read.value));
    }
  }
}
