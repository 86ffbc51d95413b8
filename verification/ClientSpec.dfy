/**
 The client's calls as functions on its state, with the history that its promises are about.

 The network, the clock and the printer are parameters: a dial that would succeed or fail, the
 messages a wire delivers with the clock after each, and the failure that ends the wire.
 */
module ClientSpec {
  import opened Wrappers
  import opened Sequences
  import opened SequenceIds
  import opened CommandTracking
  import opened ConnectionCache
  import opened MessageBuffer

  const U64_SIZE: nat := 0x1_0000_0000_0000_0000
  const POLL_UNTIL_MAX_MESSAGES: nat := 200
  const PROJECT_FILE: string := "project_file"

  /** Any failure of the network below the client. */
  datatype TransportError = TransportError(code: nat)

  datatype Error = Timeout | InvalidArgument | Transport(error: TransportError)

  /** What dialling would do now. `clock` is the reading a new session is seeded from. */
  datatype Dial = Unreachable(error: TransportError) | Reachable(clock: nat)

  /** A message off the wire, and the clock once it was read. */
  datatype Reading = Reading(message: Message, now: nat)

  /** What a wire delivers to one call, and the failure that ends it if the call reads that far. */
  datatype Wire = Wire(readings: seq<Reading>, failure: TransportError)

  datatype TelemetryEvent =
    | CommandEvent(resolution: CommandResolution, raw: Option<Message>)
    | ReportEvent(message: Message)
    | UnknownEvent(message: Message)

  // ----- waiting on the wire -----

  /** The deadline of a wait; without a real clock a number of messages stands in for it. */
  datatype WaitBudget = WaitBudget(startMs: nat, timeoutMs: Option<nat>, realClock: bool, messages: nat)
  {
    /** Counts one message read; whether the budget is spent. The clock is a wrapping `u64`. */
    function AfterMessage(now: nat): (WaitBudget, bool) {
      if !realClock then (this.(messages := messages + 1), messages + 1 >= POLL_UNTIL_MAX_MESSAGES)
      else (this, timeoutMs.Some? && (now - startMs) % U64_SIZE >= timeoutMs.value)
    }
  }

  /** The messages of readings `i` to `n`. */
  function Read(wire: Wire, i: nat, n: nat): (messages: seq<Message>)
    requires i <= n <= |wire.readings|
    ensures |messages| == n - i
  {
    Map((r: Reading) => r.message, wire.readings[i..n])
  }

  /** How a wait ended: the buffer, what was evicted from it, how many readings were taken, the result. */
  datatype WaitEnd = WaitEnd(buffer: seq<Message>, evicted: seq<Message>, taken: nat, result: Result<Message, Error>)

  /** Reads until `matcher` accepts a message, buffering the others, from the `i`-th reading on. */
  function Wait(buffer: seq<Message>, matcher: Message -> bool, budget: WaitBudget, wire: Wire, i: nat): (end: WaitEnd)
    requires i <= |wire.readings|
    ensures i <= end.taken <= |wire.readings|
    ensures end.result.Ok? ==> i < end.taken && end.result.value == wire.readings[end.taken - 1].message
    decreases |wire.readings| - i
  {
    if i == |wire.readings| then WaitEnd(buffer, [], i, Err(Transport(wire.failure)))
    else
      var m := wire.readings[i].message;
      if matcher(m) then WaitEnd(buffer, [], i + 1, Ok(m))
      else
        var kept := Fit(buffer + [m]);
        var evicted := Evicted(buffer + [m]);
        var (spent, expired) := budget.AfterMessage(wire.readings[i].now);
        if expired then WaitEnd(kept, evicted, i + 1, Err(Timeout))
        else
          var end := Wait(kept, matcher, spent, wire, i + 1);
          end.(evicted := evicted + end.evicted)
  }

  // ----- accepted starts -----

  /** The message is the echo of a start command the printer accepted, ours or another client's. */
  predicate IsAcceptedStart(m: Message) {
    m.echo.Some? && m.echo.value.command == PROJECT_FILE && m.echo.value.verdict == Accepted
  }

  /** The fields of an accepted start; all missing when they cannot be read. */
  function StartFieldsOf(m: Message): StartFields {
    if m.start.Some? then m.start.value else StartFields(None, None, None)
  }

  /** The accepted starts among messages that leave the client unclassified; `arrivals` are their places. */
  function OverlookedIn(messages: seq<Message>, arrivals: seq<nat>): seq<Event> {
    if messages == [] || arrivals == [] then []
    else
      (if IsAcceptedStart(messages[0]) then [Overlooked(StartFieldsOf(messages[0]), arrivals[0])] else [])
      + OverlookedIn(messages[1..], arrivals[1..])
  }

  /** A start that is overlooked leaves the cache as it was. */
  lemma {:induction false} OverlookedLeaveCache(events: seq<Event>, messages: seq<Message>, arrivals: seq<nat>)
    ensures Replay(events + OverlookedIn(messages, arrivals)) == Replay(events)
    decreases |messages|
  {
    var all := OverlookedIn(messages, arrivals);
    if messages == [] || arrivals == [] {
      assert events + all == events;
    } else {
      var rest := OverlookedIn(messages[1..], arrivals[1..]);
      if IsAcceptedStart(messages[0]) {
        var e := Overlooked(StartFieldsOf(messages[0]), arrivals[0]);
        OverlookedLeaveCache(events + [e], messages[1..], arrivals[1..]);
        ReplaySnoc(events, e);
        assert (events + [e]) + rest == events + all;
      } else {
        OverlookedLeaveCache(events, messages[1..], arrivals[1..]);
        assert all == rest;
      }
    }
  }

  function Range(first: nat, count: nat): (r: seq<nat>)
    ensures |r| == count && forall i | 0 <= i < count :: r[i] == first + i
  {
    seq(count, i requires 0 <= i < count => first + i)
  }

  // ----- the state -----

  /** A message a call takes, and its place among those received. */
  datatype Taken = Taken(message: Message, arrival: nat)

  /**
   The client, and what has happened to it.

   `tracked` are the echoing commands published. `polled` are the outcomes handed out as events
   and `awaited` those `await_ack` returned, other than repeats from memory. `boundaryCounter` is
   the sequence counter the current connection began with, and `minted` the number of ids minted
   since; `withinCycle` says that no connection has minted more than a whole cycle of them.
   `lifetime` is the number of ids minted since the client was made, and `arcs` what each earlier
   connection minted. `received` are the messages read off the wire, in order. `arrivals` are the
   places in it of those still buffered, `polledAt` of those that `poll_telemetry` took, and `goneAt`
   of those that another call took or that were lost; `polledBefore` counts the ones polled before
   the latest boundary.
   */
  datatype State = State(
    clockIsReal: bool,
    timeout: Option<nat>,
    session: Option<seq<Message>>,
    tracker: Tracker,
    counter: nat,
    events: seq<Event>,
    tracked: seq<CommandHandle>,
    polled: seq<CommandResolution>,
    awaited: seq<CommandResolution>,
    boundaryCounter: nat,
    minted: nat,
    withinCycle: bool,
    lifetime: nat,
    arcs: seq<Arc>,
    received: seq<Message>,
    arrivals: seq<nat>,
    polledAt: seq<nat>,
    polledBefore: nat,
    goneAt: seq<nat>)
  {
    function MintId(): State {
      this.(counter := Next(counter), minted := minted + 1, lifetime := lifetime + 1,
            withinCycle := withinCycle && minted + 1 <= CYCLE)
    }

    /** The connection ends here, and what is minted from now on is another one's. */
    function BeginConnection(): State {
      this.(tracker := tracker.ConnectionEnded(), events := events + [Boundary],
            boundaryCounter := counter, minted := 0, polledBefore := |polledAt|,
            arcs := arcs + [Arc(boundaryCounter, minted)])
    }

    /** Reseeds the counter of a connection just begun; skipped without a real clock. */
    function Reseed(clock: nat): State {
      if clockIsReal then this.(counter := FromSeed(clock), boundaryCounter := FromSeed(clock)) else this
    }

    /** Installs a session: the boundary, the reseed, and the id of the connect-time `pushall`. */
    function Install(clock: nat): State {
      this.(session := Some([]), arrivals := []).BeginConnection().Reseed(clock).MintId()
    }

    function Ensure(dial: Dial): (State, Option<Error>) {
      if session.Some? then (this, None)
      else if dial.Unreachable? then (this, Some(Transport(dial.error)))
      else (Install(dial.clock), None)
    }

    function Buffered(): seq<Message> {
      if session.None? then [] else session.value
    }

    /** Records that messages leave the client without being classified. */
    function Overlook(messages: seq<Message>, at: seq<nat>): State {
      this.(events := events + OverlookedIn(messages, at))
    }

    /** The same, and that another call took them or that they were lost. */
    function Lose(messages: seq<Message>, at: seq<nat>): State {
      Overlook(messages, at).(goneAt := goneAt + FirstN(at, |messages|))
    }

    /** Records that `poll_telemetry` takes the message received at `at`. */
    function Polled(at: nat): State {
      this.(polledAt := polledAt + [at])
    }

    /** Drops the session with what is buffered on it. */
    function Close(): State {
      Lose(Buffered(), arrivals).(session := None, arrivals := [])
    }

    function Disconnect(): State {
      Close().BeginConnection()
    }

    /** Replaces the session with one the caller connected. */
    function Attach(clock: nat): State {
      Close().Install(clock)
    }

    /** The deadline of a command published now, when one can be measured. */
    function Deadline(now: nat): Option<nat> {
      if !clockIsReal || timeout.None? then None
      else if now + timeout.value < U64_SIZE then Some(now + timeout.value)
      else Some(U64_SIZE - 1)
    }

    /** Mints an id, publishes the command under it and starts tracking it. */
    function Dispatch(command: string, ack: AckExpectation, dial: Dial, published: Option<TransportError>, now: nat)
      : (State, Result<CommandHandle, Error>)
    {
      var (s, failure) := Ensure(dial);
      if failure.Some? then (s, Err(failure.value))
      else
        var s := s.MintId();
        if published.Some? then (s, Err(Transport(published.value)))
        else
          var handle := CommandHandle(command, s.counter, ack);
          (s.(tracker := s.tracker.Track(handle, Deadline(now)),
              tracked := if ack == Echoes then s.tracked + [handle] else s.tracked),
           Ok(handle))
    }

    /** Hands out an outcome that needs no message. */
    function NextUnansweredOutcome(now: nat): (State, Option<CommandResolution>) {
      var (t, r) := tracker.NextUnanswered(if clockIsReal then Some(now) else None);
      if r.None? then (this.(tracker := t), None)
      else (this.(tracker := t.Remember(r.value), polled := polled + [r.value]), r)
    }

    /** What `poll_telemetry` makes of a message; `at` is its place among those received. */
    function Classify(m: Message, at: nat): (State, TelemetryEvent) {
      var isPush := m.report.Some? && m.report.value.isPush;
      if !isPush && m.echo.Some? then
        var echo := m.echo.value;
        var s := if IsAcceptedStart(m) then this.(events := events + [Started(StartFieldsOf(m), at)]) else this;
        var (t, handle) := tracker.TakeAnswered(echo);
        if handle.None? then (s.(tracker := t), UnknownEvent(m))
        else
          var r := CommandResolution(handle.value, Answered(echo.verdict));
          (s.(tracker := t.Remember(r), polled := polled + [r]), CommandEvent(r, Some(m)))
      else if m.report.None? then (this, UnknownEvent(m))
      else (CacheReport(m, m.report.value.frame, at), ReportEvent(m))
    }

    /** A report is no echo to its reader, whatever else its payload carries; its frame goes to the cache. */
    function CacheReport(m: Message, frame: Option<StatusFrame>, at: nat): State {
      var s := Overlook([m], [at]);
      if frame.None? then s else s.(events := s.events + [Report(frame.value)])
    }

    /** Takes the oldest buffered message off the buffer. */
    function PopBuffered(): State
      requires Buffered() != []
    {
      this.(session := Some(session.value[1..]), arrivals := LastN(arrivals, |session.value| - 1))
    }

    /** The place among the received messages of the `k`-th buffered one. */
    function ArrivalAt(k: nat): nat {
      if k < |arrivals| then arrivals[k] else 0
    }

    /** The next message, buffered ones first; `read` is what the wire would give. */
    function TakeMessage(read: Result<Message, TransportError>): (State, Result<Taken, Error>)
      requires session.Some?
    {
      if session.value != [] then (PopBuffered(), Ok(Taken(session.value[0], ArrivalAt(0))))
      else if read.Err? then (this, Err(Transport(read.error)))
      else (this.(received := received + [read.value]), Ok(Taken(read.value, |received|)))
    }

    /** Pulls the next event: a buffered message, then an outcome, then the wire. */
    function Poll(dial: Dial, now: nat, later: nat, read: Result<Message, TransportError>)
      : (State, Result<TelemetryEvent, Error>)
    {
      if session.Some? && session.value != [] then
        var (s, event) := PopBuffered().Polled(ArrivalAt(0)).Classify(session.value[0], ArrivalAt(0));
        (s, Ok(event))
      else
        var (s, r) := NextUnansweredOutcome(now);
        if r.Some? then (s, Ok(CommandEvent(r.value, None)))
        else
          var (s, failure) := s.Ensure(dial);
          if failure.Some? then (s, Err(failure.value))
          else s.PollConnected(later, read)
    }

    /** The end of a poll: an outcome of the connection there now is, and then the next message. */
    function PollConnected(later: nat, read: Result<Message, TransportError>): (State, Result<TelemetryEvent, Error>)
      requires session.Some?
    {
      var (s, r) := NextUnansweredOutcome(later);
      if r.Some? then (s, Ok(CommandEvent(r.value, None)))
      else
        var (s, m) := s.TakeMessage(read);
        if m.Err? then (s, Err(m.error))
        else
          var (s, event) := s.Polled(m.value.arrival).Classify(m.value.message, m.value.arrival);
          (s, Ok(event))
    }

    /** Pulls the next message without looking at it. */
    function PollRaw(dial: Dial, read: Result<Message, TransportError>): (State, Result<Message, Error>) {
      var (s, failure) := Ensure(dial);
      if failure.Some? then (s, Err(failure.value))
      else
        var (s, m) := s.TakeMessage(read);
        if m.Err? then (s, Err(m.error))
        else (s.Lose([m.value.message], [m.value.arrival]), Ok(m.value.message))
    }

    function Budget(start: nat): WaitBudget {
      WaitBudget(start, timeout, clockIsReal, 0)
    }

    /** Polls until `matcher` accepts a message, a buffered one first. */
    function PollUntil(matcher: Message -> bool, dial: Dial, start: nat, wire: Wire): (State, Result<Message, Error>) {
      var (s, failure) := Ensure(dial);
      if failure.Some? then (s, Err(failure.value))
      else
        var buffer := s.session.value;
        var k := Position(buffer, matcher);
        if k < |buffer| then (s.ClaimBuffered(k), Ok(buffer[k]))
        else
          var end := Wait(buffer, matcher, s.Budget(start), wire, 0);
          (s.AfterWait(wire, end), end.result)
    }

    /** Takes the `k`-th buffered message out. */
    function ClaimBuffered(k: nat): State
      requires k < |Buffered()|
    {
      this.(session := Some(Without(session.value, k)),
            arrivals := if k < |arrivals| then Without(arrivals, k) else arrivals)
      .Lose([session.value[k]], [ArrivalAt(k)])
    }

    /** What a wait on the wire leaves: the claimed message goes, and so do the evicted ones. */
    function AfterWait(wire: Wire, end: WaitEnd): State
      requires end.taken <= |wire.readings| && (end.result.Ok? ==> 0 < end.taken)
    {
      var unmatched := if end.result.Ok? then end.taken - 1 else end.taken;
      var at := arrivals + Range(|received|, unmatched);
      var s := this.(
        session := Some(end.buffer), received := received + Read(wire, 0, end.taken),
        arrivals := LastN(at, |end.buffer|)).Lose(end.evicted, at);
      if end.result.Ok? then s.Lose([end.result.value], [|received| + unmatched]) else s
    }

    /** The outcome of `handle`: from memory, or else from the wire. */
    function AwaitAck(handle: CommandHandle, dial: Dial, start: nat, wire: Wire)
      : (State, Result<CommandOutcome, Error>)
    {
      if handle.ack == SettlesOnPublish then (this, Ok(SettledOnPublish))
      else
        var (t, known) := tracker.TakeKnown(handle);
        if known.Some? then
          (this.(tracker := t,
           awaited := if tracker.ReadyIndex(handle) == |tracker.ready| then awaited
                      else awaited + [CommandResolution(handle, known.value)]),
           Ok(known.value))
        else if !tracker.IsPending(handle) then (this, Err(InvalidArgument))
        else
          var (s, r) := PollUntil(Answers(handle), dial, start, wire);
          if r.Err? && r.error != Timeout then (s, Err(r.error))
          else
            var outcome := if r.Ok? && r.value.echo.Some? then Answered(r.value.echo.value.verdict) else TimedOut;
            (s.(tracker := s.tracker.Forget(handle), awaited := s.awaited + [CommandResolution(handle, outcome)]),
             Ok(outcome))
    }

    /** Asks for the firmware version and caches it under the current connection. */
    function GetVersion(dial: Dial, published: Option<TransportError>, start: nat, wire: Wire)
      : (State, Result<Message, Error>)
    {
      var minted := MintId();
      var (s, failure) := minted.Ensure(dial);
      if failure.Some? then (s, Err(failure.value))
      else if published.Some? then (s, Err(Transport(published.value)))
      else
        var (s, r) := s.PollUntil(RepliesVersion(minted.counter), dial, start, wire);
        if r.Ok? && r.value.version.Some? && r.value.version.value.firmware.Some? then
          (s.(events := s.events + [VersionFetched(r.value.version.value.firmware.value)]), r)
        else (s, r)
    }
  }

  /** What the explicit connects do besides dialling: the firmware version is fetched when it is not known. */
  function PrimeFirmware(s: State, dial: Dial, published: Option<TransportError>, start: nat, wire: Wire): State {
    if Replay(s.events).FirmwareThisConnection().Some? then s else s.GetVersion(dial, published, start, wire).0
  }

  function ConnectMqtt(s: State, dial: Dial, published: Option<TransportError>, start: nat, wire: Wire)
    : (State, Option<Error>)
  {
    var (t, failure) := s.Ensure(dial);
    if failure.Some? then (t, failure) else (PrimeFirmware(t, dial, published, start, wire), None)
  }

  /** The MQTT part of connecting every channel; `None` when it is not attempted. */
  function ConnectAllMqtt(s: State, dial: Dial, published: Option<TransportError>, start: nat, wire: Wire)
    : (State, Option<Option<Error>>)
  {
    if s.session.Some? then (s, None)
    else
      var (t, failure) := ConnectMqtt(s, dial, published, start, wire);
      (t, Some(failure))
  }

  /** The message carries the echo that answers `handle`. */
  function Answers(handle: CommandHandle): Message -> bool {
    (m: Message) => m.echo.Some? && handle.IsAnsweredBy(m.echo.value)
  }

  function RepliesVersion(sequenceId: nat): Message -> bool {
    (m: Message) => m.version.Some? && m.version.value.sequenceId == sequenceId
  }

  /** A client that has not connected yet. */
  function NewClient(clockIsReal: bool, timeout: Option<nat>): State {
    State(clockIsReal, timeout, None, NO_COMMANDS, SEQUENCE_ID_FLOOR, [], [], [], [],
          SEQUENCE_ID_FLOOR, 0, true, 0, [], [], [], [], 0, [])
  }

  // ----- runs -----

  /** The calls a caller can make, each with what the world answers it. */
  datatype Op =
    | Dispatching(command: string, ack: AckExpectation, dial: Dial, published: Option<TransportError>, now: nat)
    | Polling(dial: Dial, now: nat, later: nat, read: Result<Message, TransportError>)
    | PollingRaw(dial: Dial, read: Result<Message, TransportError>)
    | Awaiting(handle: CommandHandle, dial: Dial, start: nat, wire: Wire)
    | Requesting(matcher: Message -> bool, dial: Dial, start: nat, wire: Wire)
    | GettingVersion(dial: Dial, published: Option<TransportError>, start: nat, wire: Wire)
    | Ensuring(dial: Dial)
    | Disconnecting
    | Attaching(clock: nat)
    | MintingId
    | SettingTimeout(timeout: Option<nat>)

  function Step(s: State, op: Op): State {
    match op
    case Dispatching(command, ack, dial, published, now) => s.Dispatch(command, ack, dial, published, now).0
    case Polling(dial, now, later, read) => s.Poll(dial, now, later, read).0
    case PollingRaw(dial, read) => s.PollRaw(dial, read).0
    case Awaiting(handle, dial, start, wire) => s.AwaitAck(handle, dial, start, wire).0
    case Requesting(matcher, dial, start, wire) => s.PollUntil(matcher, dial, start, wire).0
    case GettingVersion(dial, published, start, wire) => s.GetVersion(dial, published, start, wire).0
    case Ensuring(dial) => s.Ensure(dial).0
    case Disconnecting => s.Disconnect()
    case Attaching(clock) => s.Attach(clock)
    case MintingId => s.MintId()
    case SettingTimeout(timeout) => s.(timeout := timeout)
  }

  function Run(s: State, ops: seq<Op>): State {
    if ops == [] then s else Step(Run(s, ops[..|ops| - 1]), ops[|ops| - 1])
  }
}
