/**
 * The walk over any page provider, with its stall guard; the join of the walked pages; and what
 * a walk over an immutable artifact delivers however short its reads are.
 */
module PageWalk {
  import opened Wrappers
  import opened Bytes
  import opened ArtifactStore
  import opened Paging

  datatype WalkEnd<+E> = Finished(exhausted: bool) | Stall | ProviderThrew(error: E)

  /** What a provider answers at its n-th call with this cursor: any behaviour at all. */
  type Provider<!C, +E> = (nat, Option<C>) -> Result<Page<C>, E>

  type Consumer<!C> = (Page<C>, nat) -> bool

  function CursorBefore<C>(seen: seq<Page<C>>, k: nat): Option<C>
    requires k <= |seen|
  {
    if k == 0 then None else seen[k - 1].nextCursor
  }

  function OffsetBefore<C>(seen: seq<Page<C>>, k: nat): int
    requires k <= |seen|
  {
    if k == 0 then -1 else seen[k - 1].offset
  }

  predicate HasRoom(maxPages: Option<int>, k: nat) {
    maxPages.None? || k < maxPages.value
  }

  predicate GoesOn<C>(page: Page<C>, k: nat, onPage: Consumer<C>) {
    onPage(page, k) && !page.exhausted && page.nextCursor.Some?
  }

  /** The k-th page was asked for with the previous page's cursor and lies strictly after it. */
  predicate Accepted<C(==), E(==)>(provider: Provider<C, E>, maxPages: Option<int>, seen: seq<Page<C>>, k: nat)
    requires k < |seen|
  {
    && HasRoom(maxPages, k)
    && provider(k, CursorBefore(seen, k)) == Ok(seen[k])
    && seen[k].offset > OffsetBefore(seen, k)
  }

  predicate Walking<C(==), E(==)>(provider: Provider<C, E>, maxPages: Option<int>, onPage: Consumer<C>, seen: seq<Page<C>>) {
    && (forall k :: 0 <= k < |seen| ==> Accepted(provider, maxPages, seen, k))
    && (forall k :: 0 <= k < |seen| - 1 ==> GoesOn(seen[k], k, onPage))
  }

  predicate WantsNext<C>(onPage: Consumer<C>, seen: seq<Page<C>>) {
    seen == [] || GoesOn(seen[|seen| - 1], |seen| - 1, onPage)
  }

  /** Why the walk ended after exactly these pages. */
  predicate EndsWith<C(==), E(==)>(provider: Provider<C, E>, maxPages: Option<int>, onPage: Consumer<C>,
                                   seen: seq<Page<C>>, end: WalkEnd<E>)
  {
    if !WantsNext(onPage, seen) then
      var last := seen[|seen| - 1];
      end == if !onPage(last, |seen| - 1) then Finished(false) else if last.exhausted then Finished(true) else Stall
    else if !HasRoom(maxPages, |seen|) then end == Finished(false)
    else match provider(|seen|, CursorBefore(seen, |seen|))
      case Err(e) => end == ProviderThrew(e)
      case Ok(page) => page.offset <= OffsetBefore(seen, |seen|) && end == Stall
  }

  function Joined<C>(pages: seq<Page<C>>): seq<Byte> {
    if pages == [] then [] else Joined(pages[..|pages| - 1]) + pages[|pages| - 1].bytes
  }

  lemma JoinedPush<C>(pages: seq<Page<C>>, page: Page<C>)
    ensures Joined(pages + [page]) == Joined(pages) + page.bytes
  {
    assert (pages + [page])[..|pages|] == pages;
  }

  /**
   * Driving a walk: for an arbitrary provider, accepted offsets strictly increase, each page is
   * the answer to the previous one's cursor, and the walk ends for exactly one reason.
   */
  method WalkPages<C(==,!new), E(==)>(provider: Provider<C, E>, maxPages: Option<int>, onPage: Consumer<C>, ghost bound: int)
    returns (seen: seq<Page<C>>, end: WalkEnd<E>, pages: nat, bytes: nat, lastPosition: int)
    requires forall n: nat, cursor: Option<C> :: provider(n, cursor).Ok? ==> provider(n, cursor).value.offset <= bound
    ensures Walking(provider, maxPages, onPage, seen) && EndsWith(provider, maxPages, onPage, seen, end)
    ensures pages == |seen| && bytes == |Joined(seen)| && lastPosition == OffsetBefore(seen, |seen|)
  {
    var cursor: Option<C> := None;
    seen, pages, bytes, lastPosition := [], 0, 0, -1;
    while true
      invariant Walking(provider, maxPages, onPage, seen) && WantsNext(onPage, seen)
      invariant pages == |seen| && bytes == |Joined(seen)| && lastPosition == OffsetBefore(seen, |seen|)
      invariant cursor == CursorBefore(seen, |seen|)
      decreases bound - lastPosition
    {
      if maxPages.Some? && pages >= maxPages.value {
        return seen, Finished(false), pages, bytes, lastPosition;
      }
      var answer := provider(pages, cursor);
      if answer.Err? {
        return seen, ProviderThrew(answer.error), pages, bytes, lastPosition;
      }
      var page := answer.value;
      assert provider(pages, cursor).value.offset <= bound;
      if page.offset <= lastPosition {
        return seen, Stall, pages, bytes, lastPosition;
      }
      WalkingPush(provider, maxPages, onPage, seen, page);
      JoinedPush(seen, page);
      seen := seen + [page];
      lastPosition := page.offset;
      pages := pages + 1;
      bytes := bytes + |page.bytes|;
      if !onPage(page, pages - 1) {
        return seen, Finished(false), pages, bytes, lastPosition;
      }
      if page.exhausted {
        return seen, Finished(true), pages, bytes, lastPosition;
      }
      cursor := page.nextCursor;
      if cursor.None? {
        return seen, Stall, pages, bytes, lastPosition;
      }
    }
  }

  lemma WalkingPush<C, E>(provider: Provider<C, E>, maxPages: Option<int>, onPage: Consumer<C>,
                          seen: seq<Page<C>>, page: Page<C>)
    requires Walking(provider, maxPages, onPage, seen) && WantsNext(onPage, seen) && HasRoom(maxPages, |seen|)
    requires provider(|seen|, CursorBefore(seen, |seen|)) == Ok(page) && page.offset > OffsetBefore(seen, |seen|)
    ensures Walking(provider, maxPages, onPage, seen + [page])
  {
    var next := seen + [page];
    forall k | 0 <= k < |next| ensures Accepted(provider, maxPages, next, k) {
      if k < |seen| {
        assert Accepted(provider, maxPages, seen, k);
      }
    }
  }

  /** The pages of a walk and its ending are determined: no two walks of one provider differ. */
  lemma WalkIsDetermined<C, E>(provider: Provider<C, E>, maxPages: Option<int>, onPage: Consumer<C>,
                               a: seq<Page<C>>, endA: WalkEnd<E>, b: seq<Page<C>>, endB: WalkEnd<E>)
    requires Walking(provider, maxPages, onPage, a) && EndsWith(provider, maxPages, onPage, a, endA)
    requires Walking(provider, maxPages, onPage, b) && EndsWith(provider, maxPages, onPage, b, endB)
    ensures a == b && endA == endB
  {
    if |a| <= |b| {
      WalksAgree(provider, maxPages, onPage, a, b, |a|);
      NoLongerWalk(provider, maxPages, onPage, a, endA, b);
    } else {
      WalksAgree(provider, maxPages, onPage, b, a, |b|);
      NoLongerWalk(provider, maxPages, onPage, b, endB, a);
    }
  }

  lemma {:induction false} WalksAgree<C, E>(provider: Provider<C, E>, maxPages: Option<int>, onPage: Consumer<C>,
                                            a: seq<Page<C>>, b: seq<Page<C>>, n: nat)
    requires Walking(provider, maxPages, onPage, a) && Walking(provider, maxPages, onPage, b) && n <= |a| && n <= |b|
    ensures a[..n] == b[..n]
  {
    if n > 0 {
      WalksAgree(provider, maxPages, onPage, a, b, n - 1);
      assert Accepted(provider, maxPages, a, n - 1) && Accepted(provider, maxPages, b, n - 1);
      if n > 1 {
        assert a[n - 2] == a[..n - 1][n - 2] == b[..n - 1][n - 2] == b[n - 2];
      }
      assert a[n - 1] == b[n - 1];
      assert a[..n] == a[..n - 1] + [a[n - 1]] && b[..n] == b[..n - 1] + [b[n - 1]];
    }
  }

  /** A walk that has ended is not a proper prefix of another. */
  lemma NoLongerWalk<C, E>(provider: Provider<C, E>, maxPages: Option<int>, onPage: Consumer<C>,
                           a: seq<Page<C>>, endA: WalkEnd<E>, b: seq<Page<C>>)
    requires a <= b && EndsWith(provider, maxPages, onPage, a, endA) && Walking(provider, maxPages, onPage, b)
    ensures a == b
  {
    var k := |a|;
    if k > 0 {
      assert a[k - 1] == b[k - 1];
    }
    if k < |b| {
      WalkingAt(provider, maxPages, onPage, b, k);
    }
  }

  lemma WalkingAt<C, E>(provider: Provider<C, E>, maxPages: Option<int>, onPage: Consumer<C>, seen: seq<Page<C>>, k: nat)
    requires Walking(provider, maxPages, onPage, seen) && k < |seen|
    ensures Accepted(provider, maxPages, seen, k) && (k > 0 ==> GoesOn(seen[k - 1], k - 1, onPage))
  {
  }

  /** Reassembly: the pages in order, or `artifact-corrupt` when they do not add up. */
  method JoinPages<C>(pages: seq<Page<C>>, expectedBytes: int) returns (r: Result<seq<Byte>, Code>)
    ensures r == if |Joined(pages)| == expectedBytes then Ok(Joined(pages)) else Err(Corrupt)
  {
    var total := 0;
    for i := 0 to |pages|
      invariant total == |Joined(pages[..i])|
    {
      assert pages[..i + 1] == pages[..i] + [pages[i]];
      JoinedPush(pages[..i], pages[i]);
      total := total + |pages[i].bytes|;
    }
    assert pages[..|pages|] == pages;
    if total != expectedBytes {
      return Err(Corrupt);
    }
    var out := new Byte[total];
    var offset := 0;
    for i := 0 to |pages|
      invariant 0 <= offset <= out.Length && out[..offset] == Joined(pages[..i])
    {
      PrefixIsShorter(pages, i + 1);
      assert pages[..i + 1] == pages[..i] + [pages[i]];
      JoinedPush(pages[..i], pages[i]);
      CopyInto(out, offset, pages[i].bytes);
      offset := offset + |pages[i].bytes|;
    }
    assert out[..] == out[..offset] && pages[..|pages|] == pages;
    return Ok(out[..]);
  }

  method CopyInto(out: array<Byte>, offset: nat, bytes: seq<Byte>)
    requires offset + |bytes| <= out.Length
    modifies out
    ensures out[..offset + |bytes|] == old(out[..offset]) + bytes
  {
    for i := 0 to |bytes|
      invariant out[..offset + i] == old(out[..offset]) + bytes[..i]
    {
      out[offset + i] := bytes[i];
    }
  }

  lemma {:induction false} PrefixIsShorter<C>(pages: seq<Page<C>>, n: nat)
    requires n <= |pages|
    ensures |Joined(pages[..n])| <= |Joined(pages)|
    decreases |pages| - n
  {
    if n < |pages| {
      assert pages[..n + 1] == pages[..n] + [pages[n]];
      JoinedPush(pages[..n], pages[n]);
      PrefixIsShorter(pages, n + 1);
    } else {
      assert pages[..n] == pages;
    }
  }

  // ------------------------------------------------------ a walk over one stored artifact

  /** Whatever else happens to the host between calls, it can serve the observation at each. */
  ghost predicate ServesAlong(world: nat -> Host, key: nat, realm: string, d: Descriptor, content: seq<Byte>) {
    forall n: nat :: Servable(world(n), d, content) && world(n).key == Ok(key) && world(n).realm == realm
  }

  /** The artifact's own provider, where the n-th range read delivers at most `cut(n)` bytes. */
  function StoreProvider(world: nat -> Host, q: Request, cut: nat -> nat): Provider<Token, Refusal> {
    (n: nat, cursor: Option<Token>) => Pages(world(n), q.(cursor := cursor), cut(n)).0
  }

  function ReadEverything(): Consumer<Token> { (page: Page<Token>, n: nat) => true }

  function PieceAt(q: Request, content: seq<Byte>, position: nat, cut: nat): seq<Byte>
    requires q.maxBytes >= 1
  {
    Slice(Slice(content, position, WindowLength(q, position)), 0, cut)
  }

  /** The walk so far delivered exactly the content's first bytes, and the next page continues there. */
  ghost predicate OnTrack(world: nat -> Host, key: nat, q: Request, cut: nat -> nat, content: seq<Byte>,
                          seen: seq<Page<Token>>, k: nat)
    requires q.maxBytes >= 1 && k <= |seen|
  {
    var read := |Joined(seen[..k])|;
    && read <= |content| && Joined(seen[..k]) == content[..read]
    && (k < |seen| ==> seen[k] == PageAt(world(0), key, q, read, PieceAt(q, content, read, cut(k))))
  }

  lemma AnswerAt(world: nat -> Host, key: nat, realm: string, q: Request, cut: nat -> nat, content: seq<Byte>,
                 n: nat, position: nat, cursor: Option<Token>)
    requires ServesAlong(world, key, realm, q.descriptor, content)
    requires q.callerScope == q.descriptor.authority.ownerScope && q.maxBytes >= 1
    requires if cursor.None? then position == 0
             else cursor.value == Mint(key, PageCursor(Live(world(0), q), position))
    ensures StoreProvider(world, q, cut)(n, cursor)
         == Ok(PageAt(world(0), key, q, position, PieceAt(q, content, position, cut(n))))
  {
    assert Servable(world(n), q.descriptor, content) && Servable(world(0), q.descriptor, content);
    MintedCursorIsServed(world(n), q.(cursor := cursor), content, position, cut(n));
  }

  lemma {:induction false} StaysOnTrack(world: nat -> Host, key: nat, realm: string, q: Request, cut: nat -> nat,
                                        content: seq<Byte>, seen: seq<Page<Token>>, k: nat)
    requires ServesAlong(world, key, realm, q.descriptor, content)
    requires q.callerScope == q.descriptor.authority.ownerScope && q.maxBytes >= 1
    requires Walking(StoreProvider(world, q, cut), None, ReadEverything(), seen) && k <= |seen|
    ensures OnTrack(world, key, q, cut, content, seen, k)
    ensures k > 0 ==> OnTrack(world, key, q, cut, content, seen, k - 1)
  {
    var provider := StoreProvider(world, q, cut);
    if k == 0 {
      if 0 < |seen| {
        assert Accepted(provider, None, seen, 0);
        AnswerAt(world, key, realm, q, cut, content, 0, 0, None);
      }
    } else {
      StaysOnTrack(world, key, realm, q, cut, content, seen, k - 1);
      JoinedAt(seen, k - 1);
      var before := |Joined(seen[..k - 1])|;
      PieceContinues(q, content, before, cut(k - 1));
      if k < |seen| {
        WalkingAt(provider, None, ReadEverything(), seen, k);
        AnswerAt(world, key, realm, q, cut, content, k, |Joined(seen[..k])|, seen[k - 1].nextCursor);
      }
    }
  }

  lemma JoinedAt<C>(seen: seq<Page<C>>, k: nat)
    requires k < |seen|
    ensures Joined(seen[..k + 1]) == Joined(seen[..k]) + seen[k].bytes
  {
    assert seen[..k + 1] == seen[..k] + [seen[k]];
    JoinedPush(seen[..k], seen[k]);
  }

  lemma PieceContinues(q: Request, content: seq<Byte>, position: nat, cut: nat)
    requires q.maxBytes >= 1 && q.descriptor.bytes == |content| && position <= |content|
    ensures var piece := PieceAt(q, content, position, cut);
            && |piece| == Min(cut, Min(q.maxBytes, |content| - position))
            && content[..position] + piece == content[..position + |piece|]
  {
  }

  /**
   * A walk over an immutable artifact, whatever its reads deliver, yields the content's bytes in
   * order, each once.  It finishes exactly when it has delivered all of them; otherwise its last
   * read was empty and the walk stalled.
   */
  lemma StoreWalkDelivers(world: nat -> Host, key: nat, realm: string, q: Request, cut: nat -> nat,
                          content: seq<Byte>, seen: seq<Page<Token>>, end: WalkEnd<Refusal>)
    requires ServesAlong(world, key, realm, q.descriptor, content)
    requires q.callerScope == q.descriptor.authority.ownerScope && q.maxBytes >= 1
    requires Walking(StoreProvider(world, q, cut), None, ReadEverything(), seen)
    requires EndsWith(StoreProvider(world, q, cut), None, ReadEverything(), seen, end)
    ensures |seen| > 0 && Joined(seen) <= content
    ensures end == if Joined(seen) == content then Finished(true) else Stall
    ensures end == Stall <==> cut(|seen| - 1) == 0 && content != []
  {
    FirstPageExists(world, key, realm, q, cut, content, seen, end);
    LastPage(world, key, realm, q, cut, content, seen);
    if !seen[|seen| - 1].exhausted {
      UnfinishedStalls(world, key, realm, q, cut, content, seen, end);
    }
  }

  lemma FirstPageExists(world: nat -> Host, key: nat, realm: string, q: Request, cut: nat -> nat,
                        content: seq<Byte>, seen: seq<Page<Token>>, end: WalkEnd<Refusal>)
    requires ServesAlong(world, key, realm, q.descriptor, content)
    requires q.callerScope == q.descriptor.authority.ownerScope && q.maxBytes >= 1
    requires EndsWith(StoreProvider(world, q, cut), None, ReadEverything(), seen, end)
    ensures seen != []
  {
    AnswerAt(world, key, realm, q, cut, content, 0, 0, None);
  }

  /** A walk that ends before the content does made no progress with its last read. */
  lemma UnfinishedStalls(world: nat -> Host, key: nat, realm: string, q: Request, cut: nat -> nat,
                         content: seq<Byte>, seen: seq<Page<Token>>, end: WalkEnd<Refusal>)
    requires ServesAlong(world, key, realm, q.descriptor, content)
    requires q.callerScope == q.descriptor.authority.ownerScope && q.maxBytes >= 1
    requires EndsWith(StoreProvider(world, q, cut), None, ReadEverything(), seen, end) && seen != []
    requires var last := seen[|seen| - 1];
             && !last.exhausted && last.offset + |last.bytes| == |Joined(seen)|
             && last.nextCursor == Some(Mint(key, PageCursor(Live(world(0), q), |Joined(seen)|)))
    ensures end == Stall && seen[|seen| - 1].bytes == []
  {
    AnswerAt(world, key, realm, q, cut, content, |seen|, |Joined(seen)|, seen[|seen| - 1].nextCursor);
  }

  /** A later page is only asked for before the end of the content. */
  lemma LastPageReached(world: nat -> Host, key: nat, realm: string, q: Request, cut: nat -> nat,
                        content: seq<Byte>, seen: seq<Page<Token>>, k: nat)
    requires ServesAlong(world, key, realm, q.descriptor, content)
    requires q.callerScope == q.descriptor.authority.ownerScope && q.maxBytes >= 1
    requires Walking(StoreProvider(world, q, cut), None, ReadEverything(), seen) && 0 < k < |seen|
    ensures seen[k].offset < |content|
  {
    StaysOnTrack(world, key, realm, q, cut, content, seen, k);
    JoinedAt(seen, k - 1);
    PieceContinues(q, content, |Joined(seen[..k - 1])|, cut(k - 1));
    WalkingAt(StoreProvider(world, q, cut), None, ReadEverything(), seen, k);
    assert Servable(world(0), q.descriptor, content);
  }

  lemma LastPage(world: nat -> Host, key: nat, realm: string, q: Request, cut: nat -> nat,
                 content: seq<Byte>, seen: seq<Page<Token>>)
    requires ServesAlong(world, key, realm, q.descriptor, content)
    requires q.callerScope == q.descriptor.authority.ownerScope && q.maxBytes >= 1
    requires Walking(StoreProvider(world, q, cut), None, ReadEverything(), seen) && seen != []
    ensures content != [] ==> seen[|seen| - 1].offset < |content|
    ensures var last := seen[|seen| - 1];
            && Joined(seen) <= content && last.offset + |last.bytes| == |Joined(seen)|
            && 0 <= last.offset && |last.bytes| == Min(cut(|seen| - 1), Min(q.maxBytes, |content| - last.offset))
            && (last.exhausted <==> Joined(seen) == content)
            && last.nextCursor == if last.exhausted then None
                                  else Some(Mint(key, PageCursor(Live(world(0), q), |Joined(seen)|)))
  {
    var n := |seen|;
    StaysOnTrack(world, key, realm, q, cut, content, seen, n);
    assert seen[..n] == seen;
    JoinedAt(seen, n - 1);
    PieceContinues(q, content, |Joined(seen[..n - 1])|, cut(n - 1));
    if n > 1 {
      LastPageReached(world, key, realm, q, cut, content, seen, n - 1);
    }
    assert Servable(world(0), q.descriptor, content);
  }

  /** With full reads the walk takes max(1, ceil(n / size)) pages and each byte is read once. */
  lemma FullWalkCost(world: nat -> Host, key: nat, realm: string, q: Request, cut: nat -> nat,
                     content: seq<Byte>, seen: seq<Page<Token>>, end: WalkEnd<Refusal>)
    requires ServesAlong(world, key, realm, q.descriptor, content)
    requires q.callerScope == q.descriptor.authority.ownerScope && q.maxBytes >= 1
    requires forall n: nat :: cut(n) >= q.maxBytes
    requires Walking(StoreProvider(world, q, cut), None, ReadEverything(), seen)
    requires EndsWith(StoreProvider(world, q, cut), None, ReadEverything(), seen, end)
    ensures end == Finished(true) && |Joined(seen)| == |content|
            && if content == [] then |seen| == 1 else IsCeil(|seen|, |content|, q.maxBytes)
  {
    StoreWalkDelivers(world, key, realm, q, cut, content, seen, end);
    var last := |seen| - 1;
    OffsetsAreMultiples(world, key, realm, q, cut, content, seen, last);
    JoinedAt(seen, last);
    assert seen[..last + 1] == seen;
    PieceContinues(q, content, last * q.maxBytes, cut(last));
    assert last * q.maxBytes + q.maxBytes == |seen| * q.maxBytes;
  }

  lemma {:induction false} OffsetsAreMultiples(world: nat -> Host, key: nat, realm: string, q: Request, cut: nat -> nat,
                                               content: seq<Byte>, seen: seq<Page<Token>>, k: nat)
    requires ServesAlong(world, key, realm, q.descriptor, content)
    requires q.callerScope == q.descriptor.authority.ownerScope && q.maxBytes >= 1
    requires forall n: nat :: cut(n) >= q.maxBytes
    requires Walking(StoreProvider(world, q, cut), None, ReadEverything(), seen) && k < |seen|
    ensures |Joined(seen[..k])| == k * q.maxBytes && OnTrack(world, key, q, cut, content, seen, k)
    ensures k > 0 ==> k * q.maxBytes < |content|
  {
    StaysOnTrack(world, key, realm, q, cut, content, seen, k);
    if k == 0 {
      assert seen[..0] == [];
    } else {
      OffsetsAreMultiples(world, key, realm, q, cut, content, seen, k - 1);
      JoinedAt(seen, k - 1);
      PieceContinues(q, content, (k - 1) * q.maxBytes, cut(k - 1));
      WalkingAt(StoreProvider(world, q, cut), None, ReadEverything(), seen, k);
      assert (k - 1) * q.maxBytes + q.maxBytes == k * q.maxBytes;
    }
  }
}
