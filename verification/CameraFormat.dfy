/**
 The wire format of the chamber-image stream on port 6000, as a pure parser.

 A frame is a 16-byte header followed by its payload. The first four header bytes are the
 payload length, little endian; the other twelve are ignored.
 */
module CameraFormat {

  type Byte = x: int | 0 <= x < 256

  const HEADER_SIZE: nat := 16
  const SIZE_FIELD: nat := 4
  const MAX_SIZE_FIELD: nat := 0x1_0000_0000
  const SOI: seq<Byte> := [0xFF, 0xD8]
  const EOI: seq<Byte> := [0xFF, 0xD9]

  /** What one frame on the wire turns into for the caller. */
  datatype Outcome = Frame(payload: seq<Byte>) | EmptyFrame | MissingMarkers | FrameTooLarge

  predicate HasMarkers(payload: seq<Byte>) {
    |SOI| + |EOI| <= |payload| && SOI <= payload && payload[|payload| - |EOI|..] == EOI
  }

  function OutcomeOf(maxFrameSize: nat, payload: seq<Byte>): Outcome {
    if payload == [] then EmptyFrame
    else if |payload| > maxFrameSize then FrameTooLarge
    else if HasMarkers(payload) then Frame(payload)
    else MissingMarkers
  }

  /** The payload begins with FF D8 and ends with FF D9, and the two do not overlap. */
  ghost predicate IsJpeg(payload: seq<Byte>) {
    exists body: seq<Byte> :: payload == [0xFF, 0xD8] + body + [0xFF, 0xD9]
  }

  /** What the caller must be told of a frame with this payload. */
  ghost predicate IsFate(maxFrameSize: nat, payload: seq<Byte>, outcome: Outcome) {
    match outcome
    case Frame(p) => p == payload && IsJpeg(payload) && |payload| <= maxFrameSize
    case EmptyFrame => payload == []
    case FrameTooLarge => |payload| > maxFrameSize
    case MissingMarkers => payload != [] && |payload| <= maxFrameSize && !IsJpeg(payload)
  }

  lemma MarkersAreJpeg(payload: seq<Byte>)
    ensures HasMarkers(payload) <==> IsJpeg(payload)
  {
    if HasMarkers(payload) {
      var n := |payload| - 2;
      assert payload == [0xFF, 0xD8] + payload[2..n] + [0xFF, 0xD9] by {
        assert payload[..2] == SOI && payload[n..] == EOI;
      }
    }
  }

  /** Every payload has one fate. */
  lemma FateIsOutcome(maxFrameSize: nat, payload: seq<Byte>, outcome: Outcome)
    ensures IsFate(maxFrameSize, payload, outcome) <==> outcome == OutcomeOf(maxFrameSize, payload)
  {
    hide IsJpeg;
    MarkersAreJpeg(payload);
  }

  /** The declared payload length: a `u32`, little endian. */
  function SizeField(header: seq<Byte>): (size: nat)
    requires SIZE_FIELD <= |header|
    ensures size < MAX_SIZE_FIELD
  {
    var b0: int, b1: int, b2: int, b3: int := header[0], header[1], header[2], header[3];
    b0 + 0x100 * b1 + 0x1_0000 * b2 + 0x100_0000 * b3
  }

  function SizeBytes(size: nat): (bytes: seq<Byte>)
    requires size < MAX_SIZE_FIELD
    ensures |bytes| == SIZE_FIELD && SizeField(bytes) == size
  {
    var upper24 := size / 0x100;
    var upper16 := upper24 / 0x100;
    var upper8 := upper16 / 0x100;
    [size % 0x100, upper24 % 0x100, upper16 % 0x100, upper8]
  }

  /** Whether `s` begins with a whole frame. */
  predicate Complete(s: seq<Byte>) {
    HEADER_SIZE <= |s| && HEADER_SIZE + SizeField(s) <= |s|
  }

  datatype Parsed = Parsed(outcomes: seq<Outcome>, rest: seq<Byte>)

  /** Reads whole frames off the front of `s` until what is left is a partial one. */
  function Parse(maxFrameSize: nat, s: seq<Byte>): (parsed: Parsed)
    ensures !Complete(parsed.rest)
    decreases |s|
  {
    if Complete(s) then
      var end := HEADER_SIZE + SizeField(s);
      var tail := Parse(maxFrameSize, s[end..]);
      Parsed([OutcomeOf(maxFrameSize, s[HEADER_SIZE..end])] + tail.outcomes, tail.rest)
    else
      Parsed([], s)
  }

  /** Whether `unit` is exactly one frame. */
  predicate IsUnit(unit: seq<Byte>) {
    HEADER_SIZE <= |unit| == HEADER_SIZE + SizeField(unit)
  }

  /** One frame at the front is read on its own, whatever follows it. */
  lemma ParseUnit(maxFrameSize: nat, unit: seq<Byte>, tail: seq<Byte>, inner: Parsed)
    requires IsUnit(unit)
    requires inner == Parse(maxFrameSize, tail)
    ensures Parse(maxFrameSize, unit + tail)
         == Parsed([OutcomeOf(maxFrameSize, unit[HEADER_SIZE..])] + inner.outcomes, inner.rest)
  {
    var s := unit + tail;
    assert forall i | 0 <= i < SIZE_FIELD :: s[i] == unit[i];
    assert SizeField(s) == SizeField(unit);
    assert s[HEADER_SIZE..|unit|] == unit[HEADER_SIZE..];
    assert s[|unit|..] == tail;
  }

  lemma ParsePartial(maxFrameSize: nat, s: seq<Byte>)
    requires !Complete(s)
    ensures Parse(maxFrameSize, s) == Parsed([], s)
  {
  }

  /** A stream that begins with a whole frame splits into that frame and the rest. */
  lemma SplitUnit(s: seq<Byte>) returns (unit: seq<Byte>, tail: seq<Byte>)
    requires Complete(s)
    ensures IsUnit(unit) && s == unit + tail && |unit| == HEADER_SIZE + SizeField(s)
  {
    var end := HEADER_SIZE + SizeField(s);
    unit, tail := s[..end], s[end..];
  }

  /** Parsing resumes: only the partial frame has to be kept when more bytes arrive. */
  lemma {:induction false} ParseResumes(maxFrameSize: nat, s: seq<Byte>, more: seq<Byte>, first: Parsed, second: Parsed)
    requires first == Parse(maxFrameSize, s)
    requires second == Parse(maxFrameSize, first.rest + more)
    ensures Parse(maxFrameSize, s + more) == Parsed(first.outcomes + second.outcomes, second.rest)
    decreases |s|
  {
    hide Parse;
    if Complete(s) {
      var unit, tail := SplitUnit(s);
      var inner := Parse(maxFrameSize, tail);
      ParseUnit(maxFrameSize, unit, tail, inner);
      ParseResumes(maxFrameSize, tail, more, inner, second);
      ParseUnit(maxFrameSize, unit, tail + more, Parsed(inner.outcomes + second.outcomes, second.rest));
      assert s + more == unit + (tail + more);
      var head := [OutcomeOf(maxFrameSize, unit[HEADER_SIZE..])];
      assert (head + inner.outcomes) + second.outcomes == head + (inner.outcomes + second.outcomes);
    } else {
      ParsePartial(maxFrameSize, s);
      assert [] + second.outcomes == second.outcomes;
    }
  }

  /** Bytes that arrive later never change the outcomes already read. */
  lemma ParseIsMonotone(maxFrameSize: nat, s: seq<Byte>, t: seq<Byte>)
    requires s <= t
    ensures Parse(maxFrameSize, s).outcomes <= Parse(maxFrameSize, t).outcomes
  {
    var first, more := Parse(maxFrameSize, s), t[|s|..];
    ParseResumes(maxFrameSize, s, more, first, Parse(maxFrameSize, first.rest + more));
    assert t == s + more;
  }

  /** More bytes of a frame that is still partial change nothing but the partial frame. */
  lemma PartialAdvances(maxFrameSize: nat, s: seq<Byte>, more: seq<Byte>, seen: Parsed)
    requires seen == Parse(maxFrameSize, s)
    requires !Complete(seen.rest + more)
    ensures Parse(maxFrameSize, s + more) == Parsed(seen.outcomes, seen.rest + more)
  {
    ParseResumes(maxFrameSize, s, more, seen, Parsed([], seen.rest + more));
    assert seen.outcomes + [] == seen.outcomes;
  }

  /** The bytes that complete the partial frame yield its outcome and leave nothing over. */
  lemma PartialCompletes(maxFrameSize: nat, s: seq<Byte>, more: seq<Byte>, seen: Parsed)
    requires seen == Parse(maxFrameSize, s)
    requires IsUnit(seen.rest + more)
    ensures Parse(maxFrameSize, s + more)
         == Parsed(seen.outcomes + [OutcomeOf(maxFrameSize, (seen.rest + more)[HEADER_SIZE..])], [])
  {
    var unit := seen.rest + more;
    ParseUnit(maxFrameSize, unit, [], Parsed([], []));
    assert unit + [] == unit;
    ParseResumes(maxFrameSize, s, more, seen, Parsed([OutcomeOf(maxFrameSize, unit[HEADER_SIZE..])], []));
  }

  lemma SizeFieldOfPrefix(p: seq<Byte>, more: seq<Byte>)
    requires HEADER_SIZE <= |p|
    ensures SizeField(p + more) == SizeField(p)
  {
  }

  /** A frame as the printer sends it: the ignored header bytes and the payload. */
  datatype Sent = Sent(padding: seq<Byte>, payload: seq<Byte>)

  predicate WellFormed(sent: Sent) {
    |sent.padding| == HEADER_SIZE - SIZE_FIELD && |sent.payload| < MAX_SIZE_FIELD
  }

  function Encode(sent: Sent): (bytes: seq<Byte>)
    requires WellFormed(sent)
  {
    SizeBytes(|sent.payload|) + sent.padding + sent.payload
  }

  /** The header of a frame on the wire: the payload length, its lowest byte first, and twelve more bytes. */
  lemma EncodeIsWire(sent: Sent)
    requires WellFormed(sent)
    ensures var bytes, n := Encode(sent), |sent.payload|;
            && |bytes| == 16 + n && n < 4_294_967_296
            && bytes[0] == n % 256 && bytes[1] == n / 256 % 256
            && bytes[2] == n / 65536 % 256 && bytes[3] == n / 16777216
            && bytes[4..16] == sent.padding && bytes[16..] == sent.payload
  {
    var n := |sent.payload|;
    assert n / 0x100 / 0x100 == n / 65536;
    assert n / 0x100 / 0x100 / 0x100 == n / 16777216;
    assert Encode(sent)[4..16] == sent.padding;
  }

  lemma EncodeIsUnit(sent: Sent)
    requires WellFormed(sent)
    ensures IsUnit(Encode(sent)) && Encode(sent)[HEADER_SIZE..] == sent.payload
  {
    var unit := Encode(sent);
    assert forall i | 0 <= i < SIZE_FIELD :: unit[i] == SizeBytes(|sent.payload|)[i];
  }

  function EncodeAll(frames: seq<Sent>): (bytes: seq<Byte>)
    requires forall f <- frames :: WellFormed(f)
  {
    if frames == [] then [] else Encode(frames[0]) + EncodeAll(frames[1..])
  }

  lemma EncodeAllCons(sent: Sent, later: seq<Sent>, rest: seq<Byte>)
    requires WellFormed(sent) && forall f <- later :: WellFormed(f)
    ensures EncodeAll([sent] + later) + rest == Encode(sent) + (EncodeAll(later) + rest)
  {
    assert ([sent] + later)[1..] == later;
  }

  function OutcomesOf(maxFrameSize: nat, frames: seq<Sent>): (outcomes: seq<Outcome>)
    ensures |outcomes| == |frames|
  {
    if frames == [] then []
    else [OutcomeOf(maxFrameSize, frames[0].payload)] + OutcomesOf(maxFrameSize, frames[1..])
  }

  /**
   Round trip with resynchronisation: good, empty, oversized and marker-less frames can be
   interleaved in any order, and each yields its own outcome and nothing of the next frame.
   */
  lemma {:induction false} ParseEncodeAll(maxFrameSize: nat, frames: seq<Sent>, tail: seq<Byte>)
    requires forall f <- frames :: WellFormed(f)
    requires !Complete(tail)
    ensures Parse(maxFrameSize, EncodeAll(frames) + tail) == Parsed(OutcomesOf(maxFrameSize, frames), tail)
  {
    if frames == [] {
      assert EncodeAll(frames) + tail == tail;
    } else {
      var unit, later := Encode(frames[0]), EncodeAll(frames[1..]) + tail;
      EncodeIsUnit(frames[0]);
      assert EncodeAll(frames) + tail == unit + later;
      ParseEncodeAll(maxFrameSize, frames[1..], tail);
      ParseUnit(maxFrameSize, unit, later, Parsed(OutcomesOf(maxFrameSize, frames[1..]), tail));
    }
  }

  lemma SizeBytesOfSizeField(header: seq<Byte>)
    requires SIZE_FIELD <= |header|
    ensures SizeBytes(SizeField(header)) == header[..SIZE_FIELD]
  {
    var size := SizeField(header);
    var b1: int, b2: int, b3: int := header[1], header[2], header[3];
    assert size / 0x100 == b1 + 0x100 * b2 + 0x1_0000 * b3;
    assert size / 0x100 / 0x100 == b2 + 0x100 * b3;
    assert size / 0x100 / 0x100 / 0x100 == b3;
  }

  function FrameOf(unit: seq<Byte>): (sent: Sent)
    requires IsUnit(unit)
    ensures WellFormed(sent)
  {
    Sent(unit[SIZE_FIELD..HEADER_SIZE], unit[HEADER_SIZE..])
  }

  lemma EncodeFrameOf(unit: seq<Byte>)
    requires IsUnit(unit)
    ensures Encode(FrameOf(unit)) == unit
  {
    SizeBytesOfSizeField(unit);
    assert unit == unit[..SIZE_FIELD] + unit[SIZE_FIELD..HEADER_SIZE] + unit[HEADER_SIZE..];
  }

  /**
   Nothing is lost or invented: every stream is the encoding of some frames, whose outcomes are
   exactly those parsed, followed by exactly the partial frame.
   */
  lemma {:induction false} StreamIsEncoding(maxFrameSize: nat, s: seq<Byte>) returns (frames: seq<Sent>)
    ensures forall f <- frames :: WellFormed(f)
    ensures EncodeAll(frames) + Parse(maxFrameSize, s).rest == s
    ensures OutcomesOf(maxFrameSize, frames) == Parse(maxFrameSize, s).outcomes
    decreases |s|
  {
    if Complete(s) {
      var unit, tail := SplitUnit(s);
      var later := StreamIsEncoding(maxFrameSize, tail);
      ParseUnit(maxFrameSize, unit, tail, Parse(maxFrameSize, tail));
      EncodeFrameOf(unit);
      frames := [FrameOf(unit)] + later;
      EncodeAllCons(FrameOf(unit), later, Parse(maxFrameSize, tail).rest);
      assert frames[1..] == later;
    } else {
      frames := [];
      assert EncodeAll(frames) + s == s;
    }
  }

  lemma {:induction false} OutcomesOfAt(maxFrameSize: nat, frames: seq<Sent>, i: nat)
    requires i < |frames|
    ensures OutcomesOf(maxFrameSize, frames)[i] == OutcomeOf(maxFrameSize, frames[i].payload)
  {
    if i > 0 {
      OutcomesOfAt(maxFrameSize, frames[1..], i - 1);
    }
  }

  /** The bytes are whole frames, and the outcomes are what must be told of them, one for each and in order. */
  ghost predicate Tells(maxFrameSize: nat, bytes: seq<Byte>, outcomes: seq<Outcome>, frames: seq<Sent>) {
    && (forall f <- frames :: WellFormed(f))
    && EncodeAll(frames) == bytes
    && |frames| == |outcomes|
    && forall i | 0 <= i < |frames| :: IsFate(maxFrameSize, frames[i].payload, outcomes[i])
  }

  /** What is parsed off a stream is what must be told of the whole frames it begins with. */
  lemma ParseTells(maxFrameSize: nat, s: seq<Byte>) returns (frames: seq<Sent>, n: nat)
    ensures n + |Parse(maxFrameSize, s).rest| == |s| && s[n..] == Parse(maxFrameSize, s).rest
    ensures Tells(maxFrameSize, s[..n], Parse(maxFrameSize, s).outcomes, frames)
  {
    hide Parse, OutcomesOf, IsFate, OutcomeOf, EncodeAll;
    frames := StreamIsEncoding(maxFrameSize, s);
    n := |EncodeAll(frames)|;
    forall i | 0 <= i < |frames|
      ensures IsFate(maxFrameSize, frames[i].payload, Parse(maxFrameSize, s).outcomes[i])
    {
      OutcomesOfAt(maxFrameSize, frames, i);
      FateIsOutcome(maxFrameSize, frames[i].payload, OutcomeOf(maxFrameSize, frames[i].payload));
    }
    assert s[..n] == EncodeAll(frames);
  }

  /** The partial frame is the end of the stream. */
  lemma ParseSuffix(maxFrameSize: nat, s: seq<Byte>)
    ensures var rest := Parse(maxFrameSize, s).rest;
            |rest| <= |s| && s == s[..|s| - |rest|] + rest
  {
    var frames, n := ParseTells(maxFrameSize, s);
    assert s == s[..n] + s[n..];
  }

  /** The payload that completes a partial frame is the end of what was read, and is told as its markers say. */
  lemma CompletedIsFate(maxFrameSize: nat, consumed: seq<Byte>, got: seq<Byte>, payload: seq<Byte>)
    requires var unit := Parse(maxFrameSize, consumed).rest + got;
             HEADER_SIZE <= |unit| && unit[HEADER_SIZE..] == payload
    requires 0 < |payload| <= maxFrameSize
    ensures exists before: seq<Byte> :: consumed + got == before + payload
    ensures IsFate(maxFrameSize, payload, if HasMarkers(payload) then Frame(payload) else MissingMarkers)
  {
    hide Parse, HasMarkers, IsJpeg;
    MarkersAreJpeg(payload);
    ParseSuffix(maxFrameSize, consumed);
    var rest := Parse(maxFrameSize, consumed).rest;
    var before, unit := consumed[..|consumed| - |rest|], rest + got;
    assert unit == unit[..HEADER_SIZE] + payload;
    assert consumed + got == before + unit;
    assert before + unit == (before + unit[..HEADER_SIZE]) + payload;
  }

  /**
   However a stream was chunked and interrupted, a reader that has consumed part of what a peer
   sent has told what must be told of the first frames, in order, and of all of them at the end.
   */
  lemma ReadersAgreeWithSender(maxFrameSize: nat, frames: seq<Sent>, consumed: seq<Byte>)
    requires forall f <- frames :: WellFormed(f)
    requires consumed <= EncodeAll(frames)
    ensures var told := Parse(maxFrameSize, consumed).outcomes;
            && |told| <= |frames|
            && forall i | 0 <= i < |told| :: IsFate(maxFrameSize, frames[i].payload, told[i])
    ensures consumed == EncodeAll(frames) ==>
              Parse(maxFrameSize, consumed) == Parsed(OutcomesOf(maxFrameSize, frames), [])
  {
    hide Parse, OutcomesOf, IsFate, OutcomeOf;
    ParseEncodeAll(maxFrameSize, frames, []);
    assert EncodeAll(frames) + [] == EncodeAll(frames);
    ParseIsMonotone(maxFrameSize, consumed, EncodeAll(frames));
    var told := Parse(maxFrameSize, consumed).outcomes;
    forall i | 0 <= i < |told|
      ensures IsFate(maxFrameSize, frames[i].payload, told[i])
    {
      OutcomesOfAt(maxFrameSize, frames, i);
      FateIsOutcome(maxFrameSize, frames[i].payload, told[i]);
    }
  }
}
