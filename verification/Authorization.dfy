/**
 * The codec behind a run's `authorizationRef`: evidence is printed as escaped,
 * pipe-separated `key=value` fields and read back by a splitter that honours the
 * escape.  Text is a sequence of UTF-16 code units, so lone surrogates are covered.
 */
module Authorization {
  import opened Wrappers

  newtype CodeUnit = x: int | 0 <= x < 0x1_0000
  type Text = seq<CodeUnit>

  const BACKSLASH: CodeUnit := 92
  const PIPE: CodeUnit := 124
  const EQUALS: CodeUnit := 61

  function Ascii(s: string): Text
    requires forall i :: 0 <= i < |s| ==> s[i] < 128 as char
  {
    seq(|s|, i requires 0 <= i < |s| => s[i] as int as CodeUnit)
  }

  const PREFIX := Ascii("dsh-work-auth/1")
  const KIND := Ascii("kind")
  const ACTION := Ascii("action")
  const COMMAND_ID := Ascii("commandId")
  const COMMAND_NAME := Ascii("commandName")
  const COMMAND_ARGS := Ascii("commandArgs")
  const TURN_REF := Ascii("turnRef")

  datatype Kind = HumanCommand | UiAction | DirectHumanToolTurn {
    function Name(): Text {
      match this
      case HumanCommand => Ascii("human-command")
      case UiAction => Ascii("ui-action")
      case DirectHumanToolTurn => Ascii("direct-human-tool-turn")
    }
  }

  datatype Evidence = Evidence(
    kind: Kind,
    action: Text,
    commandId: Option<Text>,
    commandName: Option<Text>,
    commandArgs: Option<Text>,
    turnRef: Option<Text>)

  // ---------------------------------------------------------------- escaping

  /** `String.replace` with a global one-unit pattern. */
  function ReplaceEach(v: Text, target: CodeUnit, with: Text): Text {
    if v == [] then []
    else (if v[0] == target then with else [v[0]]) + ReplaceEach(v[1..], target, with)
  }

  /** The printer's escape: backslashes first, then pipes. */
  function EscapeValue(v: Text): Text {
    ReplaceEach(ReplaceEach(v, BACKSLASH, [BACKSLASH, BACKSLASH]), PIPE, [BACKSLASH, PIPE])
  }

  predicate Special(c: CodeUnit) {
    c == BACKSLASH || c == PIPE
  }

  /** The one-pass reading of the escape: every special unit gets one backslash. */
  function Escape(v: Text): Text {
    if v == [] then []
    else (if Special(v[0]) then [BACKSLASH, v[0]] else [v[0]]) + Escape(v[1..])
  }

  lemma {:induction false} ReplaceEachConcat(a: Text, b: Text, target: CodeUnit, with: Text)
    ensures ReplaceEach(a + b, target, with) == ReplaceEach(a, target, with) + ReplaceEach(b, target, with)
  {
    if a == [] {
      assert a + b == b;
    } else {
      ReplaceEachConcat(a[1..], b, target, with);
      assert (a + b)[1..] == a[1..] + b;
    }
  }

  /** Replacing backslashes before pipes never escapes an escape twice. */
  lemma {:induction false} EscapeValueIsOnePass(v: Text)
    ensures EscapeValue(v) == Escape(v)
  {
    if v != [] {
      var head := if v[0] == BACKSLASH then [BACKSLASH, BACKSLASH] else [v[0]];
      var tail := ReplaceEach(v[1..], BACKSLASH, [BACKSLASH, BACKSLASH]);
      ReplaceEachConcat(head, tail, PIPE, [BACKSLASH, PIPE]);
      EscapeValueIsOnePass(v[1..]);
      assert head[1..] == if v[0] == BACKSLASH then [BACKSLASH] else [];
      assert ReplaceEach(head, PIPE, [BACKSLASH, PIPE]) == if Special(v[0]) then [BACKSLASH, v[0]] else [v[0]];
    }
  }

  function Unescape(v: Text): Text {
    if v == [] then []
    else if v[0] == BACKSLASH && |v| > 1 then [v[1]] + Unescape(v[2..])
    else [v[0]] + Unescape(v[1..])
  }

  lemma {:induction false} UnescapeUndoesEscape(v: Text)
    ensures Unescape(Escape(v)) == v
  {
    if v != [] {
      UnescapeUndoesEscape(v[1..]);
      if Special(v[0]) {
        assert Escape(v)[2..] == Escape(v[1..]);
      } else {
        assert Escape(v)[1..] == Escape(v[1..]);
      }
    }
  }

  method UnescapeValue(v: Text) returns (out: Text)
    ensures out == Unescape(v)
  {
    out := [];
    var index := 0;
    while index < |v|
      invariant 0 <= index <= |v|
      invariant Unescape(v) == out + Unescape(v[index..])
    {
      var c := v[index];
      if c == BACKSLASH && index + 1 < |v| {
        index := index + 1;
        out := out + [v[index]];
      } else {
        out := out + [c];
      }
      index := index + 1;
    }
  }

  // --------------------------------------------------------------- splitting

  /** The splitter's meaning: `current` is the segment read so far. */
  function SplitFrom(ref: Text, current: Text): (parts: seq<Text>)
    ensures parts != []
  {
    if ref == [] then [current]
    else if ref[0] == BACKSLASH && |ref| > 1 then SplitFrom(ref[2..], current + ref[..2])
    else if ref[0] == PIPE then [current] + SplitFrom(ref[1..], [])
    else SplitFrom(ref[1..], current + [ref[0]])
  }

  method SplitFields(ref: Text) returns (parts: seq<Text>)
    ensures parts == SplitFrom(ref, [])
  {
    parts := [];
    var current: Text := [];
    var index := 0;
    while index < |ref|
      invariant 0 <= index <= |ref|
      invariant SplitFrom(ref, []) == parts + SplitFrom(ref[index..], current)
    {
      var c := ref[index];
      if c == BACKSLASH && index + 1 < |ref| {
        current := current + [c, ref[index + 1]];
        assert ref[index..][..2] == [c, ref[index + 1]];
        index := index + 1;
      } else if c == PIPE {
        parts := parts + [current];
        current := [];
      } else {
        current := current + [c];
      }
      index := index + 1;
    }
    parts := parts + [current];
  }

  function Join(parts: seq<Text>): Text
    requires parts != []
  {
    if |parts| == 1 then parts[0] else parts[0] + [PIPE] + Join(parts[1..])
  }

  function EscapeAll(raws: seq<Text>): (r: seq<Text>) {
    if raws == [] then [] else [Escape(raws[0])] + EscapeAll(raws[1..])
  }

  /** Escaped text never ends the segment it stands in, whatever follows it. */
  lemma {:induction false} SplitPassesEscaped(v: Text, rest: Text, current: Text)
    ensures SplitFrom(Escape(v) + rest, current) == SplitFrom(rest, current + Escape(v))
  {
    var whole := Escape(v) + rest;
    if v == [] {
      assert whole == rest && current + Escape(v) == current;
    } else {
      var head := if Special(v[0]) then [BACKSLASH, v[0]] else [v[0]];
      assert whole[|head|..] == Escape(v[1..]) + rest;
      assert whole[..|head|] == head;
      SplitPassesEscaped(v[1..], rest, current + head);
      assert current + head + Escape(v[1..]) == current + Escape(v);
    }
  }

  lemma {:induction false} SplitUndoesJoin(raws: seq<Text>)
    requires raws != []
    ensures SplitFrom(Join(EscapeAll(raws)), []) == EscapeAll(raws)
  {
    var first := Escape(raws[0]);
    if |raws| == 1 {
      SplitPassesEscaped(raws[0], [], []);
      assert first + [] == first && [] + first == first;
    } else {
      var rest := [PIPE] + Join(EscapeAll(raws[1..]));
      assert EscapeAll(raws)[1..] == EscapeAll(raws[1..]);
      assert Join(EscapeAll(raws)) == first + rest;
      SplitPassesEscaped(raws[0], rest, []);
      assert [] + first == first;
      assert rest[1..] == Join(EscapeAll(raws[1..]));
      SplitUndoesJoin(raws[1..]);
    }
  }

  // ----------------------------------------------------------------- fields

  /** What every field name satisfies: it holds nothing the reader treats specially. */
  ghost predicate IsKey(k: Text) {
    k != [] && forall i :: 0 <= i < |k| ==> !Special(k[i]) && k[i] != EQUALS
  }

  lemma KeysAreKeys()
    ensures IsKey(KIND) && IsKey(ACTION) && IsKey(COMMAND_ID)
    ensures IsKey(COMMAND_NAME) && IsKey(COMMAND_ARGS) && IsKey(TURN_REF)
    ensures IsKey(PREFIX)
  {
  }

  lemma KeysDiffer()
    ensures |KIND| == 4 && |ACTION| == 6 && |COMMAND_ID| == 9 && |TURN_REF| == 7
    ensures |COMMAND_NAME| == |COMMAND_ARGS| == 11 && COMMAND_NAME != COMMAND_ARGS
  {
    assert COMMAND_NAME[7] == 78 && COMMAND_ARGS[7] == 65;
  }

  lemma KindNamesDiffer(a: Kind, b: Kind)
    ensures a.Name() == b.Name() <==> a == b
  {
    assert |HumanCommand.Name()| == 13 && |UiAction.Name()| == 9 && |DirectHumanToolTurn.Name()| == 22;
  }

  function Segment(key: Text, value: Text): Text {
    key + [EQUALS] + EscapeValue(value)
  }

  function Optional(key: Text, value: Option<Text>): seq<(Text, Text)> {
    match value case None => [] case Some(v) => [(key, v)]
  }

  /** The fields the printer writes, in its fixed order, absent ones omitted. */
  function Pairs(e: Evidence): seq<(Text, Text)> {
    [(KIND, e.kind.Name()), (ACTION, e.action)]
    + Optional(COMMAND_ID, e.commandId) + Optional(COMMAND_NAME, e.commandName)
    + Optional(COMMAND_ARGS, e.commandArgs) + Optional(TURN_REF, e.turnRef)
  }

  function Segments(pairs: seq<(Text, Text)>): seq<Text> {
    if pairs == [] then [] else [Segment(pairs[0].0, pairs[0].1)] + Segments(pairs[1..])
  }

  function Format(e: Evidence): Text {
    Join([PREFIX] + Segments(Pairs(e)))
  }

  lemma TwoSegments(a: (Text, Text), b: (Text, Text))
    ensures Segments([a, b]) == [Segment(a.0, a.1), Segment(b.0, b.1)]
  {
    assert [a, b][1..] == [b];
    assert Segments([b]) == [Segment(b.0, b.1)] + Segments([]);
  }

  lemma {:induction false} SegmentsConcat(a: seq<(Text, Text)>, b: seq<(Text, Text)>)
    ensures Segments(a + b) == Segments(a) + Segments(b)
  {
    if a == [] {
      assert a + b == b;
    } else {
      SegmentsConcat(a[1..], b);
      assert (a + b)[1..] == a[1..] + b;
    }
  }

  method FormatAuthorizationRef(e: Evidence) returns (ref: Text)
    ensures ref == Format(e)
  {
    var pairs := [(KIND, e.kind.Name()), (ACTION, e.action)];
    var fields := [Segment(KIND, e.kind.Name()), Segment(ACTION, e.action)];
    TwoSegments(pairs[0], pairs[1]);
    fields := Push(fields, pairs, COMMAND_ID, e.commandId);
    pairs := pairs + Optional(COMMAND_ID, e.commandId);
    fields := Push(fields, pairs, COMMAND_NAME, e.commandName);
    pairs := pairs + Optional(COMMAND_NAME, e.commandName);
    fields := Push(fields, pairs, COMMAND_ARGS, e.commandArgs);
    pairs := pairs + Optional(COMMAND_ARGS, e.commandArgs);
    fields := Push(fields, pairs, TURN_REF, e.turnRef);
    ref := Join([PREFIX] + fields);
  }

  method Push(fields: seq<Text>, ghost pairs: seq<(Text, Text)>, key: Text, value: Option<Text>)
    returns (r: seq<Text>)
    requires fields == Segments(pairs)
    ensures r == Segments(pairs + Optional(key, value))
  {
    SegmentsConcat(pairs, Optional(key, value));
    r := if value.Some? then fields + [Segment(key, value.value)] else fields;
  }

  function IndexOf(s: Text, c: CodeUnit): (k: int)
    ensures -1 <= k < |s|
  {
    if s == [] then -1
    else if s[0] == c then 0
    else var k := IndexOf(s[1..], c); if k < 0 then -1 else k + 1
  }

  /** Reading the segments after the prefix into a map, refusing malformed or repeated ones. */
  function ReadFields(segments: seq<Text>, fields: map<Text, Text>): Option<map<Text, Text>> {
    if segments == [] then Some(fields)
    else
      var separator := IndexOf(segments[0], EQUALS);
      if separator <= 0 then None
      else
        var key := segments[0][..separator];
        if key in fields then None
        else ReadFields(segments[1..], fields[key := Unescape(segments[0][separator + 1..])])
  }

  function Get(fields: map<Text, Text>, key: Text): Option<Text> {
    if key in fields then Some(fields[key]) else None
  }

  function KindOf(name: Text): Option<Kind> {
    if name == HumanCommand.Name() then Some(HumanCommand)
    else if name == UiAction.Name() then Some(UiAction)
    else if name == DirectHumanToolTurn.Name() then Some(DirectHumanToolTurn)
    else None
  }

  function EvidenceOf(fields: map<Text, Text>): Option<Evidence> {
    if KIND !in fields || ACTION !in fields || fields[ACTION] == [] then None
    else match KindOf(fields[KIND])
      case None => None
      case Some(kind) =>
        Some(Evidence(kind, fields[ACTION], Get(fields, COMMAND_ID), Get(fields, COMMAND_NAME),
                      Get(fields, COMMAND_ARGS), Get(fields, TURN_REF)))
  }

  function Parse(ref: Text): Option<Evidence> {
    var segments := SplitFrom(ref, []);
    if segments[0] != PREFIX then None
    else match ReadFields(segments[1..], map[])
      case None => None
      case Some(fields) => EvidenceOf(fields)
  }

  method ParseAuthorizationRef(ref: Text) returns (r: Option<Evidence>)
    ensures r == Parse(ref)
  {
    var segments := SplitFields(ref);
    if segments[0] != PREFIX {
      return None;
    }
    var fields: map<Text, Text> := map[];
    for i := 1 to |segments|
      invariant ReadFields(segments[1..], map[]) == ReadFields(segments[i..], fields)
    {
      var segment := segments[i];
      var separator := IndexOf(segment, EQUALS);
      if separator <= 0 {
        return None;
      }
      var key := segment[..separator];
      var value := UnescapeValue(segment[separator + 1..]);
      if key in fields {
        return None;
      }
      fields := fields[key := value];
    }
    r := EvidenceOf(fields);
  }

  // ------------------------------------------------------------- round trip

  lemma {:induction false} KeySurvivesEscape(k: Text, v: Text)
    requires IsKey(k) || k == []
    ensures Escape(k + [EQUALS] + v) == k + [EQUALS] + Escape(v)
    ensures Escape(k) == k
  {
    var s := k + [EQUALS] + v;
    if k == [] {
      assert s[1..] == v;
    } else {
      KeySurvivesEscape(k[1..], v);
      assert s[1..] == k[1..] + [EQUALS] + v;
      assert k == [k[0]] + k[1..];
    }
  }

  lemma {:induction false} IndexOfSeparator(k: Text, v: Text)
    requires forall i :: 0 <= i < |k| ==> k[i] != EQUALS
    ensures IndexOf(k + [EQUALS] + v, EQUALS) == |k|
  {
    var s := k + [EQUALS] + v;
    if k != [] {
      IndexOfSeparator(k[1..], v);
      assert s[1..] == k[1..] + [EQUALS] + v;
    }
  }

  /** One printed field reads back as exactly its own entry. */
  lemma ReadOneField(key: Text, value: Text, rest: seq<Text>, fields: map<Text, Text>)
    requires IsKey(key) && key !in fields
    ensures ReadFields([Segment(key, value)] + rest, fields) == ReadFields(rest, fields[key := value])
  {
    var segment := Segment(key, value);
    EscapeValueIsOnePass(value);
    UnescapeUndoesEscape(value);
    IndexOfSeparator(key, EscapeValue(value));
    assert segment[..|key|] == key && segment[|key| + 1..] == EscapeValue(value);
    assert ([segment] + rest)[1..] == rest;
  }

  function Put(fields: map<Text, Text>, key: Text, value: Option<Text>): map<Text, Text> {
    if value.Some? then fields[key := value.value] else fields
  }

  /** The map the reader builds from printed evidence. */
  function FieldMap(e: Evidence): map<Text, Text> {
    Put(Put(Put(Put(map[KIND := e.kind.Name(), ACTION := e.action],
                    COMMAND_ID, e.commandId), COMMAND_NAME, e.commandName),
            COMMAND_ARGS, e.commandArgs), TURN_REF, e.turnRef)
  }

  lemma ReadOptional(key: Text, value: Option<Text>, rest: seq<Text>, fields: map<Text, Text>)
    requires IsKey(key) && key !in fields
    ensures ReadFields(Segments(Optional(key, value)) + rest, fields) == ReadFields(rest, Put(fields, key, value))
  {
    match value
    case None => assert Segments(Optional(key, value)) + rest == rest;
    case Some(v) =>
      assert Segments(Optional(key, value)) == [Segment(key, v)];
      ReadOneField(key, v, rest, fields);
  }

  /** The optional fields' segments, grouped so that each can be read off the front. */
  function OptionalSegments(e: Evidence): seq<Text> {
    Segments(Optional(COMMAND_ID, e.commandId)) + (Segments(Optional(COMMAND_NAME, e.commandName))
    + (Segments(Optional(COMMAND_ARGS, e.commandArgs)) + (Segments(Optional(TURN_REF, e.turnRef)) + [])))
  }

  lemma SegmentsOfPairs(e: Evidence)
    ensures Segments(Pairs(e))
         == [Segment(KIND, e.kind.Name())] + ([Segment(ACTION, e.action)] + OptionalSegments(e))
  {
    var o1, o2 := Optional(COMMAND_ID, e.commandId), Optional(COMMAND_NAME, e.commandName);
    var o3, o4 := Optional(COMMAND_ARGS, e.commandArgs), Optional(TURN_REF, e.turnRef);
    var base := [(KIND, e.kind.Name()), (ACTION, e.action)];
    TwoSegments(base[0], base[1]);
    SegmentsConcat(base, o1);
    SegmentsConcat(base + o1, o2);
    SegmentsConcat(base + o1 + o2, o3);
    SegmentsConcat(base + o1 + o2 + o3, o4);
  }

  lemma ReadOptionals(e: Evidence, m: map<Text, Text>)
    requires m.Keys == {KIND, ACTION}
    ensures ReadFields(OptionalSegments(e), m)
         == Some(Put(Put(Put(Put(m, COMMAND_ID, e.commandId), COMMAND_NAME, e.commandName),
                         COMMAND_ARGS, e.commandArgs), TURN_REF, e.turnRef))
  {
    KeysAreKeys();
    KeysDiffer();
    var s4 := Segments(Optional(TURN_REF, e.turnRef)) + [];
    var s3 := Segments(Optional(COMMAND_ARGS, e.commandArgs)) + s4;
    var s2 := Segments(Optional(COMMAND_NAME, e.commandName)) + s3;
    var m1 := Put(m, COMMAND_ID, e.commandId);
    var m2 := Put(m1, COMMAND_NAME, e.commandName);
    var m3 := Put(m2, COMMAND_ARGS, e.commandArgs);
    ReadOptional(COMMAND_ID, e.commandId, s2, m);
    ReadOptional(COMMAND_NAME, e.commandName, s3, m1);
    ReadOptional(COMMAND_ARGS, e.commandArgs, s4, m2);
    ReadOptional(TURN_REF, e.turnRef, [], m3);
  }

  lemma ReadPairs(e: Evidence)
    ensures ReadFields(Segments(Pairs(e)), map[]) == Some(FieldMap(e))
  {
    KeysAreKeys();
    KeysDiffer();
    SegmentsOfPairs(e);
    ReadOneField(KIND, e.kind.Name(), [Segment(ACTION, e.action)] + OptionalSegments(e), map[]);
    ReadOneField(ACTION, e.action, OptionalSegments(e), map[KIND := e.kind.Name()]);
    assert map[KIND := e.kind.Name()][ACTION := e.action] == map[KIND := e.kind.Name(), ACTION := e.action];
    ReadOptionals(e, map[KIND := e.kind.Name(), ACTION := e.action]);
  }

  function Raws(pairs: seq<(Text, Text)>): seq<Text> {
    if pairs == [] then [] else [pairs[0].0 + [EQUALS] + pairs[0].1] + Raws(pairs[1..])
  }

  lemma {:induction false} SegmentsAreEscaped(pairs: seq<(Text, Text)>)
    requires forall p :: p in pairs ==> IsKey(p.0)
    ensures Segments(pairs) == EscapeAll(Raws(pairs))
  {
    if pairs != [] {
      KeySurvivesEscape(pairs[0].0, pairs[0].1);
      EscapeValueIsOnePass(pairs[0].1);
      SegmentsAreEscaped(pairs[1..]);
    }
  }

  /** Splitting printed evidence gives back the prefix and exactly the printed fields. */
  lemma SplitUndoesFormat(e: Evidence)
    ensures SplitFrom(Format(e), []) == [PREFIX] + Segments(Pairs(e))
  {
    KeysAreKeys();
    SegmentsAreEscaped(Pairs(e));
    KeySurvivesEscape(PREFIX, []);
    var raws := [PREFIX] + Raws(Pairs(e));
    assert raws[1..] == Raws(Pairs(e));
    assert EscapeAll(raws) == [PREFIX] + Segments(Pairs(e));
    SplitUndoesJoin(raws);
  }

  lemma FieldMapReads(e: Evidence)
    ensures Get(FieldMap(e), KIND) == Some(e.kind.Name()) && Get(FieldMap(e), ACTION) == Some(e.action)
    ensures Get(FieldMap(e), COMMAND_ID) == e.commandId && Get(FieldMap(e), COMMAND_NAME) == e.commandName
    ensures Get(FieldMap(e), COMMAND_ARGS) == e.commandArgs && Get(FieldMap(e), TURN_REF) == e.turnRef
  {
    KeysDiffer();
  }

  /**
   * Printed evidence reads back as itself, whatever separators, equals signs or
   * backslashes its values hold; the one evidence refused is that with no action.
   */
  lemma ParseUndoesFormat(e: Evidence)
    ensures Parse(Format(e)) == if e.action == [] then None else Some(e)
  {
    SplitUndoesFormat(e);
    assert SplitFrom(Format(e), [])[1..] == Segments(Pairs(e));
    ReadPairs(e);
    FieldMapReads(e);
    KindNamesDiffer(e.kind, HumanCommand);
    KindNamesDiffer(e.kind, UiAction);
    KindNamesDiffer(e.kind, DirectHumanToolTurn);
  }

  /** No two evidences share a ref, so no field's text can change what another field says. */
  lemma FormatInjective(a: Evidence, b: Evidence)
    requires Format(a) == Format(b)
    ensures a == b
  {
    SplitUndoesFormat(a);
    SplitUndoesFormat(b);
    assert ([PREFIX] + Segments(Pairs(a)))[1..] == ([PREFIX] + Segments(Pairs(b)))[1..];
    ReadPairs(a);
    ReadPairs(b);
    FieldMapReads(a);
    FieldMapReads(b);
    KindNamesDiffer(a.kind, b.kind);
  }

  /** Reprinting any accepted ref, however it was spelled, keeps what it was read as. */
  lemma FormatNormalizes(ref: Text)
    requires Parse(ref).Some?
    ensures Parse(Format(Parse(ref).value)) == Parse(ref)
  {
    ParseUndoesFormat(Parse(ref).value);
  }

  // --------------------------------------------------- what the reader accepts

  function KeyOf(segment: Text): Text {
    var separator := IndexOf(segment, EQUALS);
    if separator < 0 then segment else segment[..separator]
  }

  function ValueOf(segment: Text): Text {
    Unescape(segment[IndexOf(segment, EQUALS) + 1..])
  }

  /** Every segment names a non-empty key, no key twice. */
  ghost predicate WellFormed(segments: seq<Text>) {
    && (forall i :: 0 <= i < |segments| ==> IndexOf(segments[i], EQUALS) > 0)
    && (forall i, j :: 0 <= i < j < |segments| ==> KeyOf(segments[i]) != KeyOf(segments[j]))
  }

  lemma {:induction false} ReadFieldsAcceptsWellFormed(segments: seq<Text>, fields: map<Text, Text>)
    requires WellFormed(segments)
    requires forall i :: 0 <= i < |segments| ==> KeyOf(segments[i]) !in fields
    ensures ReadFields(segments, fields).Some?
  {
    if segments != [] {
      var rest := segments[1..];
      forall i | 0 <= i < |rest|
        ensures IndexOf(rest[i], EQUALS) > 0 && KeyOf(rest[i]) != KeyOf(segments[0]) && KeyOf(rest[i]) !in fields
      {
        assert rest[i] == segments[i + 1];
      }
      ReadFieldsAcceptsWellFormed(rest, fields[KeyOf(segments[0]) := ValueOf(segments[0])]);
    }
  }

  lemma {:induction false} ReadFieldsAcceptsOnlyWellFormed(segments: seq<Text>, fields: map<Text, Text>)
    requires ReadFields(segments, fields).Some?
    ensures WellFormed(segments)
    ensures forall i :: 0 <= i < |segments| ==> KeyOf(segments[i]) !in fields
  {
    if segments != [] {
      var rest := segments[1..];
      ReadFieldsAcceptsOnlyWellFormed(rest, fields[KeyOf(segments[0]) := ValueOf(segments[0])]);
      assert forall i :: 0 < i < |segments| ==> segments[i] == rest[i - 1];
    }
  }

  /** The value of the first segment with this key. */
  function Lookup(segments: seq<Text>, key: Text): Option<Text> {
    if segments == [] then None
    else if KeyOf(segments[0]) == key then Some(ValueOf(segments[0]))
    else Lookup(segments[1..], key)
  }

  lemma {:induction false} ReadFieldsLooksUp(segments: seq<Text>, fields: map<Text, Text>, key: Text)
    requires ReadFields(segments, fields).Some?
    ensures Get(ReadFields(segments, fields).value, key)
         == if key in fields then Some(fields[key]) else Lookup(segments, key)
  {
    if segments != [] {
      ReadFieldsLooksUp(segments[1..], fields[KeyOf(segments[0]) := ValueOf(segments[0])], key);
    }
  }

  /**
   * A ref is read as `e` exactly when it carries the known prefix, its segments are
   * well formed with no key repeated, and its kind, action and optional fields are e's.
   */
  lemma ParseAcceptsExactly(ref: Text, e: Evidence)
    ensures Parse(ref) == Some(e) <==>
            var segments := SplitFrom(ref, []);
            && segments[0] == PREFIX && WellFormed(segments[1..]) && e.action != []
            && Lookup(segments[1..], KIND) == Some(e.kind.Name()) && Lookup(segments[1..], ACTION) == Some(e.action)
            && Lookup(segments[1..], COMMAND_ID) == e.commandId && Lookup(segments[1..], COMMAND_NAME) == e.commandName
            && Lookup(segments[1..], COMMAND_ARGS) == e.commandArgs && Lookup(segments[1..], TURN_REF) == e.turnRef
  {
    var segments := SplitFrom(ref, [])[1..];
    if WellFormed(segments) {
      ReadFieldsAcceptsWellFormed(segments, map[]);
      ReadFieldsLooksUp(segments, map[], KIND);
      ReadFieldsLooksUp(segments, map[], ACTION);
      ReadFieldsLooksUp(segments, map[], COMMAND_ID);
      ReadFieldsLooksUp(segments, map[], COMMAND_NAME);
      ReadFieldsLooksUp(segments, map[], COMMAND_ARGS);
      ReadFieldsLooksUp(segments, map[], TURN_REF);
      KindNamesDiffer(e.kind, HumanCommand);
      KindNamesDiffer(e.kind, UiAction);
      KindNamesDiffer(e.kind, DirectHumanToolTurn);
    } else if ReadFields(segments, map[]).Some? {
      ReadFieldsAcceptsOnlyWellFormed(segments, map[]);
      assert false;
    }
  }

  predicate MatchesCommand(ref: Text, commandId: Text) {
    Parse(ref).Some? && Parse(ref).value.commandId == Some(commandId)
  }

  /** A printed ref names a retried command exactly when its evidence does. */
  lemma MatchesOnlyItsCommand(e: Evidence, commandId: Text)
    ensures MatchesCommand(Format(e), commandId) <==> e.action != [] && e.commandId == Some(commandId)
  {
    ParseUndoesFormat(e);
  }
}
