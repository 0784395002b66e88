/** Octets, and the two vocabulary functions every byte algorithm here is measured by. */
module Bytes {
  newtype Byte = x: int | 0 <= x < 0x100

  const LF: Byte := 0x0A
  const CR: Byte := 0x0D

  function Min(a: int, b: int): int { if a < b then a else b }

  function Max(a: int, b: int): int { if a < b then b else a }

  /** k is ceil(n / d): the least number of steps of size d that cover n. */
  ghost predicate IsCeil(k: int, n: int, d: int) {
    (k - 1) * d < n <= k * d
  }

  /** The slice [offset, min(offset + length, |s|)), empty past the end. */
  function Slice(s: seq<Byte>, offset: nat, length: nat): (r: seq<Byte>)
    ensures |r| == Max(0, Min(length, |s| - offset))
  {
    if offset >= |s| then [] else s[offset..Min(offset + length, |s|)]
  }

  function Concat(parts: seq<seq<Byte>>): seq<Byte> {
    if parts == [] then [] else parts[0] + Concat(parts[1..])
  }

  lemma {:induction false} ConcatAppend(parts: seq<seq<Byte>>, last: seq<Byte>)
    ensures Concat(parts + [last]) == Concat(parts) + last
  {
    if parts == [] {
      assert parts + [last] == [last];
      assert Concat([last]) == last + Concat([]);
    } else {
      ConcatAppend(parts[1..], last);
      assert (parts + [last])[1..] == parts[1..] + [last];
    }
  }
}
