/**
 * What the byte ranges of well-formed UTF-8 are for: the encodings of characters, laid out as in
 * section 3 of RFC 3629.  A buffer counts as valid exactly if it is the encoding of some text.
 */
module Utf8Text {
  import opened Bytes
  import opened Utf8Pages

  /** The bytes the splitter's mask picks out: their two top bits are one and zero. */
  lemma ContinuationBits(b: Byte)
    ensures Continuation(b) <==> b / 0x40 == 2
  {
  }

  /** The characters there are: every number up to 10FFFF that is no surrogate. */
  predicate Scalar(c: int) { 0 <= c < 0xD800 || 0xE000 <= c <= 0x10FFFF }

  /** The low six bits as a continuation byte, and what is above them. */
  function Low(c: nat): Byte { (0x80 + c % 0x40) as Byte }

  function High(c: nat): nat { c / 0x40 }

  function EncodeChar(c: int): seq<Byte>
    requires Scalar(c)
  {
    if c < 0x80 then [c as Byte]
    else if c < 0x800 then [(0xC0 + High(c)) as Byte, Low(c)]
    else if c < 0x1_0000 then [(0xE0 + High(High(c))) as Byte, Low(High(c)), Low(c)]
    else [(0xF0 + High(High(High(c)))) as Byte, Low(High(High(c))), Low(High(c)), Low(c)]
  }

  function EncodeText(text: seq<int>): seq<Byte>
    requires forall c :: c in text ==> Scalar(c)
  {
    if text == [] then [] else EncodeChar(text[0]) + EncodeText(text[1..])
  }

  /** One more continuation byte's six bits. */
  function Shift(c: nat, b: Byte): nat
    requires Tail(b)
  {
    c * 0x40 + (b as int - 0x80)
  }

  lemma ShiftIsHighAndLow(c: nat, b: Byte)
    requires Tail(b)
    ensures High(Shift(c, b)) == c && Low(Shift(c, b)) == b
  {
  }

  lemma HighAndLowShift(c: nat)
    ensures Tail(Low(c)) && Shift(High(c), Low(c)) == c
  {
  }

  lemma TwoBytes(a: Byte, b: Byte)
    requires 0xC2 <= a <= 0xDF && Tail(b)
    ensures var c := Shift((a - 0xC0) as int, b); 0x80 <= c < 0x800 && EncodeChar(c) == [a, b]
  {
    ShiftIsHighAndLow((a - 0xC0) as int, b);
  }

  lemma ThreeBytes(a: Byte, b: Byte, d: Byte)
    requires 0xE0 <= a <= 0xEF && Tail(b) && Tail(d) && (a == 0xE0 ==> b >= 0xA0) && (a == 0xED ==> b <= 0x9F)
    ensures var c := Shift(Shift((a - 0xE0) as int, b), d); Scalar(c) && EncodeChar(c) == [a, b, d]
  {
    var top := Shift((a - 0xE0) as int, b);
    ShiftIsHighAndLow((a - 0xE0) as int, b);
    ShiftIsHighAndLow(top, d);
    assert 0x20 <= top < 0x400 && !(0x360 <= top < 0x380);
  }

  lemma FourBytes(a: Byte, b: Byte, d: Byte, e: Byte)
    requires 0xF0 <= a <= 0xF4 && Tail(b) && Tail(d) && Tail(e) && (a == 0xF0 ==> b >= 0x90) && (a == 0xF4 ==> b <= 0x8F)
    ensures var c := Shift(Shift(Shift((a - 0xF0) as int, b), d), e); Scalar(c) && EncodeChar(c) == [a, b, d, e]
  {
    var top := Shift((a - 0xF0) as int, b);
    ShiftIsHighAndLow((a - 0xF0) as int, b);
    ShiftIsHighAndLow(top, d);
    ShiftIsHighAndLow(Shift(top, d), e);
    assert 0x10 <= top <= 0x10F;
  }

  /** What a buffer begins with, if it is a character, is the encoding of one. */
  lemma CharIsEncoded(s: seq<Byte>)
    requires CharLength(s) > 0
    ensures exists c :: Scalar(c) && EncodeChar(c) == s[..CharLength(s)]
  {
    match CharLength(s)
    case 1 => assert EncodeChar(s[0] as int) == s[..1];
    case 2 => TwoAreEncoded(s);
    case 3 => ThreeAreEncoded(s);
    case 4 => FourAreEncoded(s);
  }

  lemma TwoAreEncoded(s: seq<Byte>)
    requires CharLength(s) == 2
    ensures exists c :: Scalar(c) && EncodeChar(c) == s[..2]
  {
    TwoBytes(s[0], s[1]);
    assert EncodeChar(Shift((s[0] - 0xC0) as int, s[1])) == s[..2];
  }

  lemma ThreeAreEncoded(s: seq<Byte>)
    requires CharLength(s) == 3
    ensures exists c :: Scalar(c) && EncodeChar(c) == s[..3]
  {
    ThreeBytes(s[0], s[1], s[2]);
    assert EncodeChar(Shift(Shift((s[0] - 0xE0) as int, s[1]), s[2])) == s[..3];
  }

  lemma FourAreEncoded(s: seq<Byte>)
    requires CharLength(s) == 4
    ensures exists c :: Scalar(c) && EncodeChar(c) == s[..4]
  {
    FourBytes(s[0], s[1], s[2], s[3]);
    assert EncodeChar(Shift(Shift(Shift((s[0] - 0xF0) as int, s[1]), s[2]), s[3])) == s[..4];
  }

  lemma ThreeByteLead(c: nat)
    requires 0x800 <= c < 0x1_0000 && Scalar(c)
    ensures var top := High(High(c)); var mid := High(c) % 0x40;
            top < 0x10 && (top == 0 ==> mid >= 0x20) && (top == 0xD ==> mid <= 0x1F)
  {
  }

  lemma FourByteLead(c: nat)
    requires 0x1_0000 <= c <= 0x10_FFFF
    ensures var top := High(High(High(c))); var mid := High(High(c)) % 0x40;
            top <= 4 && (top == 0 ==> mid >= 0x10) && (top == 4 ==> mid <= 0xF)
  {
  }

  /** And the encoding of a character is recognised as one, whatever follows it. */
  lemma EncodedIsAChar(c: int, rest: seq<Byte>)
    requires Scalar(c)
    ensures CharLength(EncodeChar(c) + rest) == |EncodeChar(c)|
  {
    if 0x800 <= c < 0x1_0000 {
      ThreeByteLead(c);
    } else if 0x1_0000 <= c {
      FourByteLead(c);
    }
  }

  /** A buffer is valid exactly if it is the encoding of some text. */
  lemma ValidExactly(s: seq<Byte>)
    ensures Valid(s) <==> exists text :: (forall c :: c in text ==> Scalar(c)) && EncodeText(text) == s
  {
    if Valid(s) {
      var _ := Decode(s);
    }
    if text :| (forall c :: c in text ==> Scalar(c)) && EncodeText(text) == s {
      EncodedIsValid(text);
    }
  }

  lemma {:induction false} Decode(s: seq<Byte>) returns (text: seq<int>)
    requires Valid(s)
    ensures (forall c :: c in text ==> Scalar(c)) && EncodeText(text) == s
  {
    if s == [] {
      return [];
    }
    var n := CharLength(s);
    CharIsEncoded(s);
    var c :| Scalar(c) && EncodeChar(c) == s[..n];
    var rest := Decode(s[n..]);
    text := [c] + rest;
    assert text[1..] == rest;
    assert s == s[..n] + s[n..];
  }

  lemma {:induction false} EncodedIsValid(text: seq<int>)
    requires forall c :: c in text ==> Scalar(c)
    ensures Valid(EncodeText(text))
  {
    if text != [] {
      var rest := EncodeText(text[1..]);
      EncodedIsAChar(text[0], rest);
      EncodedIsValid(text[1..]);
      assert EncodeText(text)[|EncodeChar(text[0])|..] == rest;
    }
  }
}
