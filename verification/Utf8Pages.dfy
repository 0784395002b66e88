/**
 * Splitting a buffer into pages at character boundaries, measured against the
 * well-formed byte sequences of section 4 of RFC 3629.
 */
module Utf8Pages {
  import opened Wrappers
  import opened Bytes

  predicate Continuation(b: Byte) { 0x80 <= b < 0xC0 }

  // ------------------------------------------------------------ well-formed UTF-8

  predicate Tail(b: Byte) { 0x80 <= b <= 0xBF }

  /** The length of the character s begins with, 0 when it begins with none. */
  function CharLength(s: seq<Byte>): (n: nat)
    ensures n <= |s| && n <= 4
  {
    if |s| >= 1 && s[0] <= 0x7F then 1
    else if |s| >= 2 && 0xC2 <= s[0] <= 0xDF && Tail(s[1]) then 2
    else if |s| >= 3 && Tail(s[2])
            && (|| (s[0] == 0xE0 && 0xA0 <= s[1] <= 0xBF)
                || (0xE1 <= s[0] <= 0xEC && Tail(s[1]))
                || (s[0] == 0xED && 0x80 <= s[1] <= 0x9F)
                || (0xEE <= s[0] <= 0xEF && Tail(s[1]))) then 3
    else if |s| >= 4 && Tail(s[2]) && Tail(s[3])
            && (|| (s[0] == 0xF0 && 0x90 <= s[1] <= 0xBF)
                || (0xF1 <= s[0] <= 0xF3 && Tail(s[1]))
                || (s[0] == 0xF4 && 0x80 <= s[1] <= 0x8F)) then 4
    else 0
  }

  predicate Valid(s: seq<Byte>) {
    s == [] || (CharLength(s) > 0 && Valid(s[CharLength(s)..]))
  }

  /** A character is one lead byte followed by continuation bytes. */
  lemma CharShape(s: seq<Byte>)
    requires CharLength(s) > 0
    ensures !Continuation(s[0])
    ensures forall i :: 1 <= i < CharLength(s) ==> Continuation(s[i])
  {
  }

  /** A character is decided by its own bytes: what follows does not matter. */
  lemma CharIsLocal(s: seq<Byte>, t: seq<Byte>)
    requires CharLength(s) > 0 && s[..CharLength(s)] <= t
    ensures CharLength(t) == CharLength(s)
  {
    assert forall i :: 0 <= i < CharLength(s) ==> t[i] == s[..CharLength(s)][i];
  }

  lemma CutCharIsNone(s: seq<Byte>, k: nat)
    requires 0 < k < CharLength(s)
    ensures CharLength(s[..k]) == 0
  {
  }

  lemma {:induction false} ValidConcat(a: seq<Byte>, b: seq<Byte>)
    requires Valid(a)
    ensures Valid(a + b) <==> Valid(b)
  {
    if a == [] {
      assert a + b == b;
    } else {
      var n := CharLength(a);
      assert a[..n] <= a + b;
      CharIsLocal(a, a + b);
      assert (a + b)[n..] == a[n..] + b;
      ValidConcat(a[n..], b);
    }
  }

  /** In valid text a position is a character boundary exactly when no continuation byte stands there. */
  lemma {:induction false} BoundaryIffNotContinuation(s: seq<Byte>, k: nat)
    requires Valid(s) && k <= |s|
    ensures (k == |s| || !Continuation(s[k])) <==> Valid(s[..k])
    ensures Valid(s[..k]) ==> Valid(s[k..])
  {
    if k == 0 {
      assert s[..k] == [] && s[k..] == s;
      if s != [] {
        CharShape(s);
      }
    } else {
      var n := CharLength(s);
      CharShape(s);
      if k < n {
        CutCharIsNone(s, k);
      } else {
        var rest := s[n..];
        BoundaryIffNotContinuation(rest, k - n);
        CharIsLocal(s, s[..k]);
        assert s[..k][n..] == rest[..k - n];
        assert s[k..] == rest[k - n..];
      }
    }
  }

  // ---------------------------------------------------------------------- paging

  /** Where the page that begins at offset ends: the splitter's two scans. */
  function WalkBack(content: seq<Byte>, offset: nat, end: nat): (e: nat)
    requires offset <= end < |content|
    ensures offset <= e <= end
    ensures e > offset ==> !Continuation(content[e])
    ensures forall i :: e < i <= end ==> Continuation(content[i])
  {
    if end > offset && Continuation(content[end]) then WalkBack(content, offset, end - 1) else end
  }

  function WalkForward(content: seq<Byte>, end: nat): (e: nat)
    requires end <= |content|
    ensures end <= e <= |content|
    ensures e < |content| ==> !Continuation(content[e])
    ensures forall i :: end <= i < e ==> Continuation(content[i])
    decreases |content| - end
  {
    if end < |content| && Continuation(content[end]) then WalkForward(content, end + 1) else end
  }

  function PageEnd(content: seq<Byte>, offset: nat, maxBytes: nat): (e: nat)
    requires offset < |content| && maxBytes >= 1
    ensures offset < e <= |content|
    ensures e == |content| || !Continuation(content[e])
  {
    var end := Min(offset + maxBytes, |content|);
    if end == |content| then end
    else
      var back := WalkBack(content, offset, end);
      if back > offset then back else WalkForward(content, end)
  }

  datatype Page = Page(offset: nat, bytes: seq<Byte>)

  function PagesFrom(content: seq<Byte>, offset: nat, maxBytes: nat): seq<Page>
    requires offset <= |content| && maxBytes >= 1
    decreases |content| - offset
  {
    if offset == |content| then []
    else
      var end := PageEnd(content, offset, maxBytes);
      [Page(offset, content[offset..end])] + PagesFrom(content, end, maxBytes)
  }

  method PageUtf8ByBytes(content: seq<Byte>, maxBytes: int) returns (r: Result<seq<Page>, string>)
    ensures r.Err? <==> maxBytes < 1
    ensures r.Ok? ==> r.value == PagesFrom(content, 0, maxBytes)
  {
    if maxBytes < 1 {
      return Err("pagination-cursor-invalid");
    }
    var pages: seq<Page> := [];
    var offset := 0;
    while offset < |content|
      invariant 0 <= offset <= |content|
      invariant PagesFrom(content, 0, maxBytes) == pages + PagesFrom(content, offset, maxBytes)
    {
      var end := Min(offset + maxBytes, |content|);
      if end < |content| {
        ghost var cut := end;
        while end > offset && Continuation(content[end])
          invariant offset <= end <= cut
          invariant WalkBack(content, offset, cut) == WalkBack(content, offset, end)
        {
          end := end - 1;
        }
        if end == offset {
          end := Min(offset + maxBytes, |content|);
          while end < |content| && Continuation(content[end])
            invariant cut <= end <= |content|
            invariant WalkForward(content, cut) == WalkForward(content, end)
          {
            end := end + 1;
          }
        }
      }
      pages := pages + [Page(offset, content[offset..end])];
      offset := end;
    }
    r := Ok(pages);
  }

  // ------------------------------------------------------------- any buffer at all

  function Bodies(pages: seq<Page>): seq<seq<Byte>> {
    if pages == [] then [] else [pages[0].bytes] + Bodies(pages[1..])
  }

  /**
   * Pages laid end to end from offset to the end of the buffer: none empty, each holding the
   * buffer's own bytes, and no cut inside the buffer standing before a continuation byte.
   */
  ghost predicate Tile(content: seq<Byte>, offset: nat, pages: seq<Page>)
    decreases |pages|
  {
    if pages == [] then offset == |content|
    else
      var end := offset + |pages[0].bytes|;
      && pages[0].offset == offset && pages[0].bytes != []
      && end <= |content| && pages[0].bytes == content[offset..end]
      && (end < |content| ==> !Continuation(content[end]))
      && Tile(content, end, pages[1..])
  }

  lemma {:induction false} PagesTile(content: seq<Byte>, offset: nat, maxBytes: nat)
    requires offset <= |content| && maxBytes >= 1
    ensures Tile(content, offset, PagesFrom(content, offset, maxBytes))
    decreases |content| - offset
  {
    if offset < |content| {
      PagesTile(content, PageEnd(content, offset, maxBytes), maxBytes);
    }
  }

  /** Whatever the bytes and the page size, the pages join to the buffer. */
  lemma {:induction false} TilesJoin(content: seq<Byte>, offset: nat, pages: seq<Page>)
    requires Tile(content, offset, pages)
    ensures offset <= |content| && Concat(Bodies(pages)) == content[offset..]
    decreases |pages|
  {
    if pages != [] {
      var end := offset + |pages[0].bytes|;
      TilesJoin(content, end, pages[1..]);
      assert content[offset..] == content[offset..end] + content[end..];
    }
  }

  // --------------------------------------------------------------------- valid text

  /**
   * What a page of valid text is: valid, the longest valid prefix of what remains that fits,
   * or, when not even one character fits, exactly that character.
   */
  ghost predicate GoodPage(remaining: seq<Byte>, page: seq<Byte>, maxBytes: nat) {
    && page != [] && page <= remaining && Valid(page)
    && (if |page| <= maxBytes
        then forall k :: |page| < k <= Min(maxBytes, |remaining|) ==> !Valid(remaining[..k])
        else |page| == CharLength(remaining))
  }

  /** A page that fits is the longest valid prefix that fits. */
  lemma FittingPageIsLongest(content: seq<Byte>, offset: nat, maxBytes: nat, k: nat)
    requires offset < |content| && maxBytes >= 1 && Valid(content[offset..])
    requires PageEnd(content, offset, maxBytes) < offset + k <= Min(offset + maxBytes, |content|)
    ensures !Valid(content[offset..][..k])
  {
    BoundaryIffNotContinuation(content[offset..], k);
  }

  /** A page that does not fit is the one character that stands there. */
  lemma OversizePageIsOneChar(content: seq<Byte>, offset: nat, maxBytes: nat)
    requires offset < |content| && maxBytes >= 1 && Valid(content[offset..])
    requires PageEnd(content, offset, maxBytes) > offset + maxBytes
    ensures PageEnd(content, offset, maxBytes) == offset + CharLength(content[offset..])
  {
    var s := content[offset..];
    var n := CharLength(s);
    var end := PageEnd(content, offset, maxBytes);
    assert forall i :: offset < i < end ==> Continuation(content[i]);
    CharShape(s);
    BoundaryIffNotContinuation(s, n);
    assert Valid(s[..n]) by {
      CharIsLocal(s, s[..n]);
      assert s[..n][n..] == [];
    }
    assert forall i :: 0 <= i < |s| ==> s[i] == content[offset + i];
  }

  lemma PageIsGood(content: seq<Byte>, offset: nat, maxBytes: nat)
    requires offset < |content| && maxBytes >= 1 && Valid(content[offset..])
    ensures var end := PageEnd(content, offset, maxBytes);
            GoodPage(content[offset..], content[offset..end], maxBytes) && Valid(content[end..])
  {
    var s := content[offset..];
    var end := PageEnd(content, offset, maxBytes);
    BoundaryIffNotContinuation(s, end - offset);
    assert s[..end - offset] == content[offset..end] && s[end - offset..] == content[end..];
    if end <= offset + maxBytes {
      forall k | end - offset < k <= Min(maxBytes, |s|)
        ensures !Valid(s[..k])
      {
        FittingPageIsLongest(content, offset, maxBytes, k);
      }
    } else {
      OversizePageIsOneChar(content, offset, maxBytes);
    }
  }

  /** Pages of valid text, one after the other, each taken greedily from what remains. */
  ghost predicate GoodPages(remaining: seq<Byte>, pages: seq<Page>, maxBytes: nat)
    decreases |pages|
  {
    if pages == [] then remaining == []
    else
      && GoodPage(remaining, pages[0].bytes, maxBytes)
      && GoodPages(remaining[|pages[0].bytes|..], pages[1..], maxBytes)
  }

  lemma {:induction false} PagesOfValidTextAreGood(content: seq<Byte>, offset: nat, maxBytes: nat)
    requires offset <= |content| && maxBytes >= 1 && Valid(content[offset..])
    ensures GoodPages(content[offset..], PagesFrom(content, offset, maxBytes), maxBytes)
    decreases |content| - offset
  {
    if offset < |content| {
      var end := PageEnd(content, offset, maxBytes);
      PageIsGood(content, offset, maxBytes);
      PagesOfValidTextAreGood(content, end, maxBytes);
      assert content[offset..][end - offset..] == content[end..];
      GoodPagesCons(content[offset..], Page(offset, content[offset..end]), PagesFrom(content, end, maxBytes), maxBytes);
    }
  }

  lemma GoodPagesCons(remaining: seq<Byte>, first: Page, rest: seq<Page>, maxBytes: nat)
    requires GoodPage(remaining, first.bytes, maxBytes)
    requires GoodPages(remaining[|first.bytes|..], rest, maxBytes)
    ensures GoodPages(remaining, [first] + rest, maxBytes)
  {
    assert ([first] + rest)[1..] == rest;
  }

  ghost predicate AllValid(pages: seq<Page>) {
    pages == [] || (Valid(pages[0].bytes) && AllValid(pages[1..]))
  }

  lemma {:induction false} GoodPagesAreValid(remaining: seq<Byte>, pages: seq<Page>, maxBytes: nat)
    requires GoodPages(remaining, pages, maxBytes)
    ensures AllValid(pages)
    decreases |pages|
  {
    if pages != [] {
      GoodPagesAreValid(remaining[|pages[0].bytes|..], pages[1..], maxBytes);
    }
  }

  lemma {:induction false} JoinOfValidIsValid(pages: seq<Page>)
    requires AllValid(pages)
    ensures Valid(Concat(Bodies(pages)))
  {
    if pages != [] {
      JoinOfValidIsValid(pages[1..]);
      ValidConcat(pages[0].bytes, Concat(Bodies(pages[1..])));
    }
  }

  /** Every page decodes on its own if and only if the whole buffer does. */
  lemma PagesValidIffContentValid(content: seq<Byte>, maxBytes: nat)
    requires maxBytes >= 1
    ensures AllValid(PagesFrom(content, 0, maxBytes)) <==> Valid(content)
  {
    var pages := PagesFrom(content, 0, maxBytes);
    assert content[0..] == content;
    PagesTile(content, 0, maxBytes);
    TilesJoin(content, 0, pages);
    if Valid(content) {
      PagesOfValidTextAreGood(content, 0, maxBytes);
      GoodPagesAreValid(content, pages, maxBytes);
    }
    if AllValid(pages) {
      JoinOfValidIsValid(pages);
    }
  }
}
