/**
 * The sparse line index: one chunked scan that remembers the byte before each LF, measured
 * against splitting the whole content on LF.
 */
module LineIndex {
  import opened Wrappers
  import opened Bytes
  import ArtifactStore

  datatype Entry = Entry(number: nat, offset: nat, length: int, crlf: bool)

  datatype Index = Index(entries: seq<Entry>, totalLines: nat, complete: bool, bytesScanned: nat)

  /** The first LF in [start, upTo), or upTo. */
  function NextLf(s: seq<Byte>, upTo: nat, start: nat): (k: nat)
    requires start <= upTo <= |s|
    ensures start <= k <= upTo
    ensures k < upTo ==> s[k] == LF
    ensures NoLf(s, start, k)
    decreases upTo - start
  {
    if start == upTo || s[start] == LF then start else NextLf(s, upTo, start + 1)
  }

  ghost predicate NoLf(s: seq<Byte>, from: nat, upTo: nat) {
    upTo <= |s| && forall i :: from <= i < upTo ==> s[i] != LF
  }

  predicate CrBefore(s: seq<Byte>, start: nat, end: nat)
    requires end <= |s|
  {
    end > start && s[end - 1] == CR
  }

  /** The line that begins at start, read up to end, reaching to `to` before its terminator. */
  function LineAt(s: seq<Byte>, number: nat, start: nat, end: nat, to: nat): Entry
    requires end <= |s|
  {
    var crlf := CrBefore(s, start, end);
    Entry(number, start, to - start - (if crlf then 1 else 0), crlf)
  }

  /**
   * Every line from start on, of an object of |s| bytes of which the first upTo were read: a
   * last fragment without an LF is a line too, and is taken to reach the object's declared end.
   */
  function Lines(s: seq<Byte>, upTo: nat, total: nat, start: nat, number: nat): seq<Entry>
    requires start <= upTo <= total <= |s|
    decreases upTo - start
  {
    if start >= total then []
    else
      var end := NextLf(s, upTo, start);
      if end == upTo then [LineAt(s, number, start, end, total)]
      else [LineAt(s, number, start, end, end)] + Lines(s, upTo, total, end + 1, number + 1)
  }

  predicate Sampled(e: Entry, stride: nat)
    requires stride >= 1
  {
    e.number >= 1 && (e.number - 1) % stride == 0
  }

  function Sample(lines: seq<Entry>, stride: nat): seq<Entry>
    requires stride >= 1
  {
    if lines == [] then []
    else Sample(lines[..|lines| - 1], stride)
         + if Sampled(lines[|lines| - 1], stride) then [lines[|lines| - 1]] else []
  }

  /** The index of an object of which the first upTo bytes were read. */
  function IndexOf(s: seq<Byte>, upTo: nat, stride: nat): Index
    requires upTo <= |s| && stride >= 1
  {
    var lines := Lines(s, upTo, |s|, 0, 1);
    Index(Sample(lines, stride), |lines|, |Sample(lines, stride)| == |lines|, upTo)
  }

  lemma SampleAppend(lines: seq<Entry>, e: Entry, stride: nat)
    requires stride >= 1
    ensures Sample(lines + [e], stride) == Sample(lines, stride) + if Sampled(e, stride) then [e] else []
    ensures |Sample(lines, stride)| <= |lines|
  {
    assert (lines + [e])[..|lines|] == lines;
    SampleAtMostAll(lines, stride);
  }

  lemma {:induction false} SampleAtMostAll(lines: seq<Entry>, stride: nat)
    requires stride >= 1
    ensures |Sample(lines, stride)| <= |lines|
  {
    if lines != [] {
      SampleAtMostAll(lines[..|lines| - 1], stride);
    }
  }

  /** The variables the scan updates. */
  datatype Scan = Scan(entries: seq<Entry>, lineNumber: nat, lineStart: nat, lastByte: int, complete: bool)

  /** The scan has passed the first `at` bytes and closed exactly the lines `done`. */
  ghost predicate Scanned(content: seq<Byte>, stride: nat, at: nat, scan: Scan, done: seq<Entry>) {
    && stride >= 1 && scan.lineNumber == |done| && LineStart(content, scan.lineStart)
    && done == Lines(content, scan.lineStart, scan.lineStart, 0, 1)
    && scan.entries == Sample(done, stride) && scan.complete == (|scan.entries| == |done|)
    && scan.lineStart <= at && NoLf(content, scan.lineStart, at)
    && scan.lastByte == if at > scan.lineStart then content[at - 1] as int else -1
  }

  predicate LineStart(content: seq<Byte>, cut: nat) {
    cut <= |content| && (cut == 0 || content[cut - 1] == LF)
  }

  lemma {:induction false} NextLfIsFirst(s: seq<Byte>, upTo: nat, start: nat, k: nat)
    requires start <= k <= upTo <= |s| && NoLf(s, start, k) && (k < upTo ==> s[k] == LF)
    ensures NextLf(s, upTo, start) == k
  {
  }

  /** Cutting at a line start splits the list of lines there. */
  lemma {:induction false} LinesSplit(s: seq<Byte>, start: nat, number: nat, cut: nat, upTo: nat, total: nat)
    requires start <= cut <= upTo <= total <= |s| && LineStart(s, cut)
    ensures Lines(s, upTo, total, start, number)
         == Lines(s, cut, cut, start, number)
            + Lines(s, upTo, total, cut, number + |Lines(s, cut, cut, start, number)|)
    decreases cut - start
  {
    if start < cut {
      var end := NextLf(s, cut, start);
      assert end < cut;
      NextLfIsFirst(s, upTo, start, end);
      LinesSplit(s, end + 1, number + 1, cut, upTo, total);
      var mine := Lines(s, cut, cut, end + 1, number + 1);
      HeadMoves(LineAt(s, number, start, end, end), mine, Lines(s, upTo, total, cut, number + 1 + |mine|));
    }
  }

  lemma HeadMoves(head: Entry, mine: seq<Entry>, rest: seq<Entry>)
    ensures [head] + (mine + rest) == ([head] + mine) + rest
  {
  }

  /** Reaching an LF closes the current line. */
  lemma CloseLine(s: seq<Byte>, lineStart: nat, end: nat, done: seq<Entry>)
    requires lineStart <= end < |s| && s[end] == LF && NoLf(s, lineStart, end)
    requires LineStart(s, lineStart) && done == Lines(s, lineStart, lineStart, 0, 1)
    ensures Lines(s, end + 1, end + 1, 0, 1) == done + [LineAt(s, |done| + 1, lineStart, end, end)]
  {
    LinesSplit(s, 0, 1, lineStart, end + 1, end + 1);
    NextLfIsFirst(s, end + 1, lineStart, end);
  }

  /** Where the scan stops, an unterminated fragment is the one line left. */
  lemma LastLine(s: seq<Byte>, lineStart: nat, upTo: nat, done: seq<Entry>)
    requires lineStart <= upTo <= |s| && NoLf(s, lineStart, upTo)
    requires LineStart(s, lineStart) && done == Lines(s, lineStart, lineStart, 0, 1)
    ensures Lines(s, upTo, |s|, 0, 1)
         == done + if lineStart < |s| then [LineAt(s, |done| + 1, lineStart, upTo, |s|)] else []
  {
    LinesSplit(s, 0, 1, lineStart, upTo, |s|);
    NextLfIsFirst(s, upTo, lineStart, upTo);
  }

  /**
   * The scan.  `read(offset, length)` is how many bytes the store hands back; a read of zero
   * bytes ends the scan early.
   */
  method BuildLineIndex(content: seq<Byte>, chunkBytes: nat, stride: int, read: (nat, nat) -> nat)
    returns (r: Result<Index, string>)
    requires forall offset, length :: read(offset, length) <= length
    ensures r.Err? <==> stride < 1
    ensures r.Ok? ==> r.value.bytesScanned <= |content| && r.value == IndexOf(content, r.value.bytesScanned, stride)
    ensures r.Ok? && chunkBytes >= 1 && (forall offset, length :: length >= 1 ==> read(offset, length) >= 1)
            ==> r.value == IndexOf(content, |content|, stride)
  {
    if stride < 1 {
      return Err("pagination-cursor-invalid");
    }
    var total := |content|;
    var scan := Scan([], 0, 0, -1, true);
    var offset, scanned := 0, 0;
    ghost var done: seq<Entry> := [];
    while offset < total
      invariant 0 <= offset <= total && scanned == offset
      invariant Scanned(content, stride, offset, scan, done)
    {
      var length := Min(chunkBytes, total - offset);
      var chunk := content[offset..offset + read(offset, length)];
      if |chunk| == 0 {
        break;
      }
      scanned := scanned + |chunk|;
      scan, done := ScanChunk(content, stride, offset, chunk, scan, done);
      offset := offset + |chunk|;
    }
    var index := CloseScan(content, stride, offset, scan, done);
    r := Ok(index);
  }

  method ScanChunk(ghost content: seq<Byte>, stride: nat, offset: nat, chunk: seq<Byte>, scan: Scan, ghost done: seq<Entry>)
    returns (next: Scan, ghost done': seq<Entry>)
    requires offset + |chunk| <= |content| && chunk == content[offset..offset + |chunk|]
    requires Scanned(content, stride, offset, scan, done)
    ensures Scanned(content, stride, offset + |chunk|, next, done')
  {
    next, done' := scan, done;
    for i := 0 to |chunk|
      invariant Scanned(content, stride, offset + i, next, done')
    {
      next, done' := ScanByte(content, stride, offset + i, chunk[i], next, done');
    }
  }

  /** A trailing fragment with no final LF is still a line. */
  method CloseScan(content: seq<Byte>, stride: nat, scanned: nat, scan: Scan, ghost done: seq<Entry>) returns (index: Index)
    requires scanned <= |content| && Scanned(content, stride, scanned, scan, done)
    ensures index == IndexOf(content, scanned, stride)
  {
    var final := scan;
    LastLine(content, scan.lineStart, scanned, done);
    if scan.lineStart < |content| {
      var last;
      last, final := PushLine(content, stride, scanned, |content|, scan, done);
    }
    index := Index(final.entries, final.lineNumber, final.complete, scanned);
  }

  method ScanByte(ghost content: seq<Byte>, stride: nat, at: nat, byte: Byte, scan: Scan, ghost done: seq<Entry>)
    returns (next: Scan, ghost done': seq<Entry>)
    requires at < |content| && byte == content[at]
    requires Scanned(content, stride, at, scan, done)
    ensures Scanned(content, stride, at + 1, next, done')
  {
    if byte != LF {
      return scan.(lastByte := byte as int), done;
    }
    var entry;
    entry, next := PushLine(content, stride, at, at, scan, done);
    CloseLine(content, scan.lineStart, at, done);
    done' := done + [entry];
    next := next.(lineStart := at + 1, lastByte := -1);
  }

  /** Numbering the current line, which reaches to `to`, and pushing it when the stride asks for it. */
  method PushLine(ghost content: seq<Byte>, stride: nat, ghost at: nat, to: nat, scan: Scan, ghost done: seq<Entry>)
    returns (entry: Entry, next: Scan)
    requires Scanned(content, stride, at, scan, done)
    ensures entry == LineAt(content, |done| + 1, scan.lineStart, at, to)
    ensures next.entries == Sample(done + [entry], stride) && next.lineNumber == |done| + 1
    ensures next.complete == (|next.entries| == |done| + 1)
    ensures next == Scan(next.entries, next.lineNumber, scan.lineStart, scan.lastByte, next.complete)
  {
    var lineNumber := scan.lineNumber + 1;
    var crlf := scan.lastByte == CR as int;
    entry := Entry(lineNumber, scan.lineStart, to - scan.lineStart - (if crlf then 1 else 0), crlf);
    SampleAppend(done, entry, stride);
    if (lineNumber - 1) % stride == 0 {
      next := scan.(lineNumber := lineNumber, entries := scan.entries + [entry]);
    } else {
      next := scan.(lineNumber := lineNumber, complete := false);
    }
  }

  // ------------------------------------------------------- what the index promises

  ghost predicate Numbered(lines: seq<Entry>, from: nat) {
    forall i :: 0 <= i < |lines| ==> lines[i].number == from + i
  }

  lemma {:induction false} LinesAreNumbered(s: seq<Byte>, start: nat, number: nat)
    requires start <= |s|
    ensures Numbered(Lines(s, |s|, |s|, start, number), number)
    decreases |s| - start
  {
    if start < |s| {
      var end := NextLf(s, |s|, start);
      if end < |s| {
        LinesAreNumbered(s, end + 1, number + 1);
      }
    }
  }

  lemma AtLeastOnce(a: int, d: int)
    requires a >= 1 && d >= 1
    ensures a * d >= d
  {
  }

  lemma QuotientIsUnique(q: int, r: int, k: int, e: int, d: int)
    requires q * d + r == k * d + e && 0 <= r < d && 0 <= e < d
    ensures r == e
  {
    assert (q - k) * d == e - r;
    if q > k {
      AtLeastOnce(q - k, d);
    } else if q < k {
      AtLeastOnce(k - q, d);
    }
  }

  lemma RemainderIsUnique(q: int, d: int, r: int, n: int)
    requires 0 <= r < d && n == q * d + r
    ensures n % d == r
  {
    QuotientIsUnique(q, r, n / d, n % d, d);
  }

  lemma CeilStep(k: int, n: int, d: int)
    requires d >= 1 && IsCeil(k, n, d)
    ensures n % d == 0 <==> n == k * d
    ensures IsCeil(if n % d == 0 then k + 1 else k, n + 1, d)
  {
    if n == k * d {
      RemainderIsUnique(k, d, 0, n);
    } else {
      assert (k - 1) * d == k * d - d;
      RemainderIsUnique(k - 1, d, n - (k - 1) * d, n);
    }
    assert (k + 1) * d == k * d + d;
  }

  /** Sampling n consecutive lines keeps ceil(n / stride) of them: lines 1, 1 + stride, and so on. */
  lemma {:induction false} SampleKeepsEveryStride(lines: seq<Entry>, stride: nat)
    requires stride >= 1 && Numbered(lines, 1)
    ensures IsCeil(|Sample(lines, stride)|, |lines|, stride)
    ensures forall j :: 0 <= j < |Sample(lines, stride)| ==>
              0 <= j * stride < |lines| && Sample(lines, stride)[j] == lines[j * stride]
  {
    var n := |lines| - 1;
    if n >= 0 {
      var front := lines[..n];
      SampleKeepsEveryStride(front, stride);
      var k := |Sample(front, stride)|;
      CeilStep(k, n, stride);
      assert lines[n].number - 1 == n;
      assert forall j :: 0 <= j < k ==> front[j * stride] == lines[j * stride];
    }
  }

  lemma TwiceAtLeast(a: int, d: int)
    requires a >= 0 && d >= 2
    ensures a * d >= 2 * a
  {
  }

  lemma StrideSkips(k: int, n: int, d: int)
    requires IsCeil(k, n, d) && d >= 2 && n >= 2
    ensures k != n
  {
    TwiceAtLeast(n - 1, d);
  }

  lemma FewLinesAreKept(k: int, n: int, d: int)
    requires IsCeil(k, n, d) && d >= 1 && 0 <= n <= 1 && k >= 0
    ensures k == n
  {
    if k >= 2 {
      AtLeastOnce(k - 1, d);
    }
  }

  /** The index of a whole scan: its size, which lines it holds, and when it holds them all. */
  lemma IndexIsSampled(content: seq<Byte>, stride: nat)
    requires stride >= 1
    ensures var index := IndexOf(content, |content|, stride);
            var lines := Lines(content, |content|, |content|, 0, 1);
            && index.totalLines == |lines| && Numbered(lines, 1)
            && IsCeil(|index.entries|, index.totalLines, stride)
            && (forall j :: 0 <= j < |index.entries| ==>
                  0 <= j * stride < |lines| && index.entries[j] == lines[j * stride])
            && (index.complete <==> stride == 1 || index.totalLines <= 1)
            && index.bytesScanned == |content|
  {
    var lines := Lines(content, |content|, |content|, 0, 1);
    LinesAreNumbered(content, 0, 1);
    SampleKeepsEveryStride(lines, stride);
    var k, n := |Sample(lines, stride)|, |lines|;
    if stride >= 2 && n >= 2 {
      StrideSkips(k, n, stride);
    } else if n <= 1 {
      FewLinesAreKept(k, n, stride);
    }
  }

  // ------------------------------------- against splitting the content on LF

  /** What `readLineBytes` returns for an entry: the window the entry names. */
  function LineBytes(content: seq<Byte>, e: Entry): seq<Byte> {
    if e.length < 0 then [] else Slice(content, e.offset, e.length)
  }

  function StripCr(s: seq<Byte>): seq<Byte> {
    if s != [] && s[|s| - 1] == CR then s[..|s| - 1] else s
  }

  /** The end of the line an entry names, its CR included. */
  function EndOf(e: Entry): int {
    e.offset + e.length + if e.crlf then 1 else 0
  }

  /** The piece from start to end holds no LF, one or the data's end follows, and e reads as it less one CR. */
  ghost predicate IsLine(content: seq<Byte>, start: nat, end: int, e: Entry) {
    && start <= end <= |content| && NoLf(content, start, end) && (end < |content| ==> content[end] == LF)
    && (e.crlf <==> CrBefore(content, start, end)) && e.length == end - start - (if e.crlf then 1 else 0)
    && LineBytes(content, e) == StripCr(content[start..end])
  }

  /** The lines are the content split on LF from start on, each beginning where the one before stopped. */
  ghost predicate SplitsOnLf(content: seq<Byte>, start: nat, lines: seq<Entry>)
    decreases |lines|
  {
    if lines == [] then start >= |content|
    else
      var e := lines[0];
      && e.offset == start < |content| && IsLine(content, start, EndOf(e), e)
      && SplitsOnLf(content, EndOf(e) + 1, lines[1..])
  }

  lemma LineReadsAsPiece(content: seq<Byte>, number: nat, start: nat, end: nat)
    requires start <= end <= |content| && NoLf(content, start, end) && (end < |content| ==> content[end] == LF)
    ensures EndOf(LineAt(content, number, start, end, end)) == end
    ensures IsLine(content, start, end, LineAt(content, number, start, end, end))
  {
    var piece := content[start..end];
    if end > start {
      assert piece[|piece| - 1] == content[end - 1];
      assert piece[..|piece| - 1] == content[start..end - 1];
    }
  }

  /** One step of the scan: the line that ends at the next LF, then the rest. */
  lemma LinesCons(s: seq<Byte>, start: nat, end: nat, number: nat)
    requires start < |s| && end == NextLf(s, |s|, start)
    ensures Lines(s, |s|, |s|, start, number)
         == [LineAt(s, number, start, end, end)]
            + if end < |s| then Lines(s, |s|, |s|, end + 1, number + 1) else []
  {
  }

  lemma SplitsCons(content: seq<Byte>, start: nat, e: Entry, rest: seq<Entry>)
    requires e.offset == start < |content| && IsLine(content, start, EndOf(e), e)
    requires SplitsOnLf(content, EndOf(e) + 1, rest)
    ensures SplitsOnLf(content, start, [e] + rest)
  {
    assert ([e] + rest)[1..] == rest;
  }

  /** The index of the whole content is the split on LF, line by line. */
  lemma {:induction false} LinesSplitOnLf(content: seq<Byte>, start: nat, number: nat)
    requires start <= |content|
    ensures SplitsOnLf(content, start, Lines(content, |content|, |content|, start, number))
    decreases |content| - start
  {
    if start < |content| {
      var end := NextLf(content, |content|, start);
      var rest := if end < |content| then Lines(content, |content|, |content|, end + 1, number + 1) else [];
      if end < |content| {
        LinesSplitOnLf(content, end + 1, number + 1);
      }
      LineReadsAsPiece(content, number, start, end);
      LinesCons(content, start, end, number);
      SplitsCons(content, start, LineAt(content, number, start, end, end), rest);
    }
  }

  /** Equal but for the line numbers. */
  ghost predicate SameLines(a: seq<Entry>, b: seq<Entry>) {
    |a| == |b| && (a == [] || (a[0].(number := 0) == b[0].(number := 0) && SameLines(a[1..], b[1..])))
  }

  /** There is only one way to split: the offsets, lengths and CRLF marks are determined. */
  lemma {:induction false} SplitIsUnique(content: seq<Byte>, start: nat, a: seq<Entry>, b: seq<Entry>)
    requires SplitsOnLf(content, start, a) && SplitsOnLf(content, start, b)
    ensures SameLines(a, b)
    decreases |a|
  {
    if a != [] {
      SameLine(content, start, a[0], b[0]);
      SplitIsUnique(content, EndOf(a[0]) + 1, a[1..], b[1..]);
    }
  }

  lemma SameLine(content: seq<Byte>, start: nat, d: Entry, e: Entry)
    requires d.offset == start == e.offset
    requires IsLine(content, start, EndOf(d), d) && IsLine(content, start, EndOf(e), e)
    ensures d.(number := 0) == e.(number := 0)
  {
  }

  // ------------------------------------------------------------ rebuilding the content

  /** The terminator a reader of the index infers for a line: none where the line ends the object. */
  function Terminator(total: nat, e: Entry): seq<Byte> {
    if e.offset + e.length == total then [] else if e.crlf then [CR, LF] else [LF]
  }

  function Rebuilt(content: seq<Byte>, lines: seq<Entry>): seq<Byte> {
    if lines == [] then []
    else LineBytes(content, lines[0]) + Terminator(|content|, lines[0]) + Rebuilt(content, lines[1..])
  }

  /** What the content ends in when nothing terminated its last line but a CR. */
  predicate EndsInBareCr(content: seq<Byte>) {
    content != [] && content[|content| - 1] == CR
  }

  function Extra(content: seq<Byte>): seq<Byte> {
    if EndsInBareCr(content) then [LF] else []
  }

  /** One line with its terminator is its stretch of the content, but for the bare CR at the end. */
  lemma RebuiltLine(content: seq<Byte>, start: nat, e: Entry)
    requires e.offset == start < |content| && IsLine(content, start, EndOf(e), e)
    ensures LineBytes(content, e) + Terminator(|content|, e)
         == if EndOf(e) < |content| then content[start..EndOf(e) + 1] else content[start..] + Extra(content)
  {
    var end := EndOf(e);
    assert LineBytes(content, e) == content[start..start + e.length];
    if e.crlf {
      assert content[end - 1] == CR;
    }
  }

  lemma JoinAtCut(s: seq<Byte>, start: nat, cut: nat, extra: seq<Byte>)
    requires start <= cut <= |s|
    ensures s[start..cut] + (s[cut..] + extra) == s[start..] + extra
  {
  }

  /** What the index rebuilds from a line start on. */
  function Rest(content: seq<Byte>, start: nat): seq<Byte> {
    if start < |content| then content[start..] + Extra(content) else []
  }

  lemma RestAtCut(content: seq<Byte>, start: nat, end: nat)
    requires start <= end < |content| && content[end] == LF
    ensures content[start..end + 1] + Rest(content, end + 1) == Rest(content, start)
  {
    JoinAtCut(content, start, end + 1, Extra(content));
  }

  lemma RebuiltStep(content: seq<Byte>, start: nat, e: Entry, later: seq<Byte>)
    requires e.offset == start < |content| && IsLine(content, start, EndOf(e), e)
    requires later == Rest(content, EndOf(e) + 1)
    ensures LineBytes(content, e) + Terminator(|content|, e) + later == Rest(content, start)
  {
    RebuiltLine(content, start, e);
    if EndOf(e) < |content| {
      RestAtCut(content, start, EndOf(e));
    }
  }

  lemma {:induction false} RebuiltFrom(content: seq<Byte>, start: nat, lines: seq<Entry>)
    requires SplitsOnLf(content, start, lines)
    ensures Rebuilt(content, lines) == Rest(content, start)
    decreases |lines|
  {
    if lines != [] {
      RebuiltFrom(content, EndOf(lines[0]) + 1, lines[1..]);
      RebuiltStep(content, start, lines[0], Rebuilt(content, lines[1..]));
    }
  }

  /**
   * With stride 1 the lines and their terminators rebuild the content if and only if it does
   * not end in a bare CR, which the index takes for the CR of a CRLF.
   */
  lemma RebuildsExactlyUnlessBareCr(content: seq<Byte>)
    ensures Rebuilt(content, IndexOf(content, |content|, 1).entries) == content <==> !EndsInBareCr(content)
  {
    LinesAreNumbered(content, 0, 1);
    SampleAll(Lines(content, |content|, |content|, 0, 1));
    LinesSplitOnLf(content, 0, 1);
    RebuiltFrom(content, 0, Lines(content, |content|, |content|, 0, 1));
    assert content[0..] == content;
    assert |content + [LF]| == |content| + 1;
  }

  lemma {:induction false} SampleAll(lines: seq<Entry>)
    requires forall i :: 0 <= i < |lines| ==> lines[i].number >= 1
    ensures Sample(lines, 1) == lines
  {
    if lines != [] {
      SampleAll(lines[..|lines| - 1]);
    }
  }

  /** Reading an indexed line from an intact object returns exactly the line's bytes, however long it is. */
  lemma IndexedLineReadsBack(store: ArtifactStore.Store, content: seq<Byte>, start: nat, e: Entry)
    requires e.offset == start && IsLine(content, start, EndOf(e), e)
    requires ArtifactStore.Hash(content) in store.index && ArtifactStore.Intact(store, ArtifactStore.Hash(content))
    requires ArtifactStore.Artifact(ArtifactStore.Hash(content)) !in store.tombstones
    ensures e.length >= 0
    ensures ArtifactStore.OpenRange(store, ArtifactStore.Artifact(ArtifactStore.Hash(content)), start, e.length)
         == Ok(StripCr(content[start..EndOf(e)]))
  {
    ArtifactStore.IntactReadsAsPublished(store, content, start, e.length);
  }
}
