/**
 The resumable reader of the chamber-image stream, proved against the parser of `CameraFormat`.

 A call may be cut short by any low-level read. All progress then stays in `readState`, so
 neither the chunking of the stream nor the placement of the timeouts can be seen by a caller.
 */
module CameraStream {
  import opened Wrappers
  import opened CameraFormat

  const DISCARD_CHUNK_SIZE: nat := 512

  datatype SocketError = TimedOut | ConnectionReset | OtherFailure

  /** The transport. `arriving` is what the peer still delivers; `consumed` is what was read. */
  class Transport {
    var arriving: seq<Byte>
    ghost var consumed: seq<Byte>

    constructor (bytes: seq<Byte>)
      ensures arriving == bytes && consumed == []
    {
      arriving, consumed := bytes, [];
    }

    /**
     One low-level read into `buf[from..from + want]`. It delivers any number of bytes from one
     up to the room there is, or fails, and then nothing was consumed. Which one happens is up
     to the network and the clock.
     */
    method ReadChunk(buf: array<Byte>, from: nat, want: nat) returns (r: Result<nat, SocketError>)
      requires 0 < want && from + want <= buf.Length
      modifies this, buf
      ensures r.Ok? ==> 0 < r.value <= want && r.value <= |old(arriving)|
      ensures r.Ok? ==> consumed == old(consumed) + old(arriving)[..r.value]
      ensures r.Ok? ==> arriving == old(arriving)[r.value..]
      ensures r.Ok? ==> buf[..] == old(buf[..from]) + old(arriving)[..r.value] + old(buf[from + r.value..])
      ensures r.Err? ==> consumed == old(consumed) && arriving == old(arriving) && buf[..] == old(buf[..])
    {
      var interrupted: bool := *;
      if interrupted || arriving == [] {
        var e: SocketError := *;
        return Err(e);
      }
      var n: nat :| 0 < n <= want && n <= |arriving|;
      forall i | 0 <= i < n {
        buf[from + i] := arriving[i];
      }
      consumed := consumed + arriving[..n];
      arriving := arriving[n..];
      return Ok(n);
    }
  }

  /** Progress of the frame being read, kept across calls. */
  datatype ReadState =
    | Idle
    | ReadingHeader(buf: array<Byte>, filled: nat)
    | ReadingPayload(buf: array<Byte>, filled: nat)
    | DiscardingOversizedPayload(remaining: nat)
  {
    ghost function Buffers(): set<object> {
      if ReadingHeader? || ReadingPayload? then {buf} else {}
    }

    /** Whether this state is what a reader that has seen exactly the partial frame `p` holds. */
    ghost predicate Holds(maxFrameSize: nat, p: seq<Byte>)
      reads Buffers()
    {
      match this
      case Idle =>
        p == []
      case ReadingHeader(buf, filled) =>
        buf.Length == HEADER_SIZE && filled < HEADER_SIZE && p == buf[..filled]
      case ReadingPayload(buf, filled) =>
        && filled < buf.Length <= maxFrameSize
        && |p| == HEADER_SIZE + filled
        && SizeField(p) == buf.Length
        && p[HEADER_SIZE..] == buf[..filled]
      case DiscardingOversizedPayload(remaining) =>
        && HEADER_SIZE <= |p|
        && maxFrameSize < SizeField(p)
        && 0 < remaining
        && |p| + remaining == HEADER_SIZE + SizeField(p)
    }

    ghost function Rank(): nat {
      match this
      case Idle => 2
      case ReadingHeader(_, _) => 1
      case _ => 0
    }
  }

  /** What one call returns: the fate of one frame, or the failure of a low-level read. */
  datatype ReadResult = Delivered(outcome: Outcome) | Network(error: SocketError)

  /**
   Fills the rest of `buf` from the transport, and tells how far that went and with which bytes.

   Whether it fails or not, every byte consumed is in the buffer.
   */
  method Fill(stream: Transport, buf: array<Byte>, filled: nat)
    returns (now: nat, failure: Option<SocketError>, ghost got: seq<Byte>)
    requires filled <= buf.Length
    modifies stream, buf
    ensures now == filled + |got| <= buf.Length
    ensures failure.None? <==> now == buf.Length
    ensures buf[..now] == old(buf[..filled]) + got
    ensures got <= old(stream.arriving)
    ensures stream.consumed == old(stream.consumed) + got
    ensures stream.arriving == old(stream.arriving)[|got|..]
  {
    now, got := filled, [];
    while now < buf.Length
      invariant now == filled + |got| <= buf.Length
      invariant buf[..now] == old(buf[..filled]) + got
      invariant got <= old(stream.arriving)
      invariant stream.consumed == old(stream.consumed) + got
      invariant stream.arriving == old(stream.arriving)[|got|..]
    {
      ghost var before, chunk := buf[..now], stream.arriving;
      var r := stream.ReadChunk(buf, now, buf.Length - now);
      if r.Err? {
        assert buf[..now] == before;
        return now, Some(r.error), got;
      }
      chunk := chunk[..r.value];
      assert buf[..now + r.value] == before + chunk;
      got := got + chunk;
      now := now + r.value;
    }
    failure := None;
  }

  class BinaryCameraStream {
    const stream: Transport
    const maxFrameSize: nat
    var readState: ReadState
    /** Every outcome handed to the caller so far. */
    ghost var results: seq<Outcome>

    /**
     The outcomes returned so far are those of the bytes consumed so far, and the read state is
     exactly the partial frame those bytes end in.
     */
    ghost predicate Valid()
      reads this, stream, readState.Buffers()
    {
      && results == Parse(maxFrameSize, stream.consumed).outcomes
      && readState.Holds(maxFrameSize, Parse(maxFrameSize, stream.consumed).rest)
    }

    /** The transport went on from `consumed` and `arriving`, losing and inventing no byte. */
    ghost predicate Advanced(consumed: seq<Byte>, arriving: seq<Byte>)
      reads stream
    {
      && consumed <= stream.consumed
      && consumed + arriving == stream.consumed + stream.arriving
    }

    constructor (transport: Transport, max: nat)
      requires transport.consumed == []
      ensures Valid() && stream == transport && maxFrameSize == max && results == []
    {
      stream, maxFrameSize := transport, max;
      readState, results := Idle, [];
    }

    /**
     Returns the fate of the next frame, or the failure that interrupted reading it.

     A delivered outcome leaves the reader exactly at the next frame boundary, whichever outcome
     it is; a failure changes no outcome and loses no byte.
     */
    method ReadNextFrame() returns (r: ReadResult)
      requires Valid()
      modifies this, stream, readState.Buffers()
      ensures Valid() && fresh(readState.Buffers() - old(readState.Buffers()))
      ensures r.Delivered? ==> results == old(results) + [r.outcome] && readState == Idle
      ensures r.Network? ==> results == old(results)
      ensures Advanced(old(stream.consumed), old(stream.arriving))
      ensures exists n: nat, frames: seq<Sent> ::
          n <= |stream.consumed| && (r.Delivered? ==> n == |stream.consumed|)
          && Tells(maxFrameSize, stream.consumed[..n], results, frames)
    {
      hide Tells, EncodeAll, IsFate;
      while true
        invariant Valid() && fresh(readState.Buffers() - old(readState.Buffers()))
        invariant results == old(results)
        invariant Advanced(old(stream.consumed), old(stream.arriving))
        decreases readState.Rank()
      {
        var done: Option<ReadResult> := None;
        match readState {
          case Idle =>
            var header := new Byte[HEADER_SIZE](_ => 0);
            readState := ReadingHeader(header, 0);
          case ReadingHeader(_, _) =>
            done := ContinueHeader();
          case ReadingPayload(_, _) =>
            var delivered := ContinuePayload();
            done := Some(delivered);
          case DiscardingOversizedPayload(_) =>
            var delivered := ContinueDiscarding();
            done := Some(delivered);
        }
        if done.Some? {
          ghost var frames, n := ParseTells(maxFrameSize, stream.consumed);
          return done.value;
        }
      }
    }

    /** The same seen from the peer that sent these frames. */
    lemma AgreesWithSender(frames: seq<Sent>)
      requires Valid() && forall f <- frames :: WellFormed(f)
      requires stream.consumed <= EncodeAll(frames)
      ensures |results| <= |frames| && (stream.consumed == EncodeAll(frames) ==> |results| == |frames|)
      ensures forall i | 0 <= i < |results| :: IsFate(maxFrameSize, frames[i].payload, results[i])
    {
      ReadersAgreeWithSender(maxFrameSize, frames, stream.consumed);
    }

    /** Completes the header, and decides from the declared size what comes next. */
    method ContinueHeader() returns (done: Option<ReadResult>)
      requires Valid() && readState.ReadingHeader?
      modifies this, stream, readState.buf
      ensures Valid() && fresh(readState.Buffers() - old(readState.Buffers()))
      ensures done.None? ==> results == old(results) && readState.Rank() == 0
      ensures done.Some? && done.value.Network? ==> results == old(results)
      ensures done.Some? && done.value.Delivered? ==>
                done.value.outcome == EmptyFrame && results == old(results) + [EmptyFrame] && readState == Idle
      ensures Advanced(old(stream.consumed), old(stream.arriving))
    {
      hide Parse;
      var buf, filled := readState.buf, readState.filled;
      ghost var consumed, seen := stream.consumed, Parse(maxFrameSize, stream.consumed);
      var now, failure, got := Fill(stream, buf, filled);
      readState := ReadingHeader(buf, now);
      assert seen.rest + got == buf[..now];
      if failure.Some? {
        PartialAdvances(maxFrameSize, consumed, got, seen);
        return Some(Network(failure.value));
      }
      assert seen.rest + got == buf[..];
      var size := SizeField(buf[..]);
      if size == 0 {
        PartialCompletes(maxFrameSize, consumed, got, seen);
        readState := Idle;
        results := results + [EmptyFrame];
        return Some(Delivered(EmptyFrame));
      }
      PartialAdvances(maxFrameSize, consumed, got, seen);
      if size > maxFrameSize {
        readState := DiscardingOversizedPayload(size);
      } else {
        var payload := new Byte[size](_ => 0);
        readState := ReadingPayload(payload, 0);
      }
      done := None;
    }

    /** Completes the payload, and checks its markers. */
    method ContinuePayload() returns (r: ReadResult)
      requires Valid() && readState.ReadingPayload?
      modifies this, stream, readState.buf
      ensures Valid() && readState.Buffers() <= old(readState.Buffers())
      ensures r.Delivered? ==> results == old(results) + [r.outcome] && readState == Idle
      ensures r.Network? ==> results == old(results)
      ensures r.Delivered? ==> exists before: seq<Byte>, payload: seq<Byte> ::
          stream.consumed == before + payload && |payload| == old(readState.buf.Length)
          && IsFate(maxFrameSize, payload, r.outcome)
      ensures Advanced(old(stream.consumed), old(stream.arriving))
    {
      hide Parse, IsFate;
      var buf, filled := readState.buf, readState.filled;
      ghost var consumed, seen := stream.consumed, Parse(maxFrameSize, stream.consumed);
      var now, failure, got := Fill(stream, buf, filled);
      readState := ReadingPayload(buf, now);
      SizeFieldOfPrefix(seen.rest, got);
      assert (seen.rest + got)[HEADER_SIZE..] == buf[..now];
      if failure.Some? {
        PartialAdvances(maxFrameSize, consumed, got, seen);
        return Network(failure.value);
      }
      PartialCompletes(maxFrameSize, consumed, got, seen);
      var payload := buf[..];
      assert (seen.rest + got)[HEADER_SIZE..] == payload;
      readState := Idle;
      var outcome := if HasMarkers(payload) then Frame(payload) else MissingMarkers;
      CompletedIsFate(maxFrameSize, consumed, got, payload);
      results := results + [outcome];
      return Delivered(outcome);
    }

    /** Drains the payload of an oversized frame in bounded chunks, never holding it. */
    method ContinueDiscarding() returns (r: ReadResult)
      requires Valid() && readState.DiscardingOversizedPayload?
      modifies this, stream
      ensures Valid() && readState.Buffers() == {}
      ensures r.Delivered? ==>
                r.outcome == FrameTooLarge && results == old(results) + [FrameTooLarge] && readState == Idle
      ensures r.Network? ==> results == old(results)
      ensures Advanced(old(stream.consumed), old(stream.arriving))
    {
      hide Parse;
      var scratch := new Byte[DISCARD_CHUNK_SIZE](_ => 0);
      ghost var consumed, seen := stream.consumed, Parse(maxFrameSize, stream.consumed);
      ghost var p, drained := seen.rest, [];
      SizeFieldOfPrefix(p, drained);
      while readState.remaining > 0
        invariant readState.DiscardingOversizedPayload? && results == old(results)
        invariant SizeField(p + drained) == SizeField(p)
        invariant |p| + |drained| + readState.remaining == HEADER_SIZE + SizeField(p)
        invariant drained <= old(stream.arriving)
        invariant stream.consumed == consumed + drained
        invariant stream.arriving == old(stream.arriving)[|drained|..]
        decreases readState.remaining
      {
        var remaining := readState.remaining;
        var want := if remaining < DISCARD_CHUNK_SIZE then remaining else DISCARD_CHUNK_SIZE;
        ghost var ahead := stream.arriving;
        var chunk := stream.ReadChunk(scratch, 0, want);
        if chunk.Err? {
          PartialAdvances(maxFrameSize, consumed, drained, seen);
          return Network(chunk.error);
        }
        drained := drained + ahead[..chunk.value];
        SizeFieldOfPrefix(p, drained);
        readState := DiscardingOversizedPayload(remaining - chunk.value);
      }
      PartialCompletes(maxFrameSize, consumed, drained, seen);
      readState := Idle;
      results := results + [FrameTooLarge];
      return Delivered(FrameTooLarge);
    }
  }
}
