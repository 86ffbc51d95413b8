/**
 The client itself: the session slot, the tracker, the counter and the cache its methods update
 in place, each method proved against its function in `ClientSpec`.
 */
module PrinterClient {
  import opened Wrappers
  import opened Sequences
  import opened SequenceIds
  import opened CommandTracking
  import opened ConnectionCache
  import opened MessageBuffer
  import opened ClientSpec
  import opened MessageWait
  import opened HomingWait
  import opened TelemetryCache

  class PrinterClient {
    const clockIsReal: bool
    const commands: CommandTracker
    const cache: TelemetryCache
    var timeout: Option<nat>
    /** The messages buffered on the MQTT session, when there is one. */
    var mqtt: PendingMessages?
    var sequenceCounter: nat

    // The history the promises are about; see `ClientSpec.State`.
    ghost var events: seq<Event>
    ghost var tracked: seq<CommandHandle>
    ghost var polled: seq<CommandResolution>
    ghost var awaited: seq<CommandResolution>
    ghost var boundaryCounter: nat
    ghost var minted: nat
    ghost var withinCycle: bool
    ghost var lifetime: nat
    ghost var arcs: seq<Arc>
    ghost var received: seq<Message>
    ghost var arrivals: seq<nat>
    ghost var polledAt: seq<nat>
    ghost var polledBefore: nat
    ghost var goneAt: seq<nat>

    ghost predicate Valid()
      reads this, cache, mqtt
    {
      && (mqtt != null ==> mqtt.Valid())
      && cache.View() == Replay(events)
    }

    ghost function Abstract(): State
      reads this, commands, mqtt
    {
      State(clockIsReal, timeout, if mqtt == null then None else Some(mqtt.messages), commands.View(), sequenceCounter,
            events, tracked, polled, awaited, boundaryCounter, minted, withinCycle, lifetime, arcs, received, arrivals,
            polledAt, polledBefore, goneAt)
    }

    /** The objects the client updates. */
    ghost function Repr(): set<object>
      reads this
    {
      {this, commands, cache} + if mqtt == null then {} else {mqtt}
    }

    constructor (realClock: bool, commandTimeout: Option<nat>)
      ensures Valid() && fresh(Repr())
      ensures Abstract() == NewClient(realClock, commandTimeout)
    {
      clockIsReal, timeout := realClock, commandTimeout;
      commands := new CommandTracker();
      cache := new TelemetryCache();
      mqtt, sequenceCounter := null, SEQUENCE_ID_FLOOR;
      events, tracked, polled, awaited := [], [], [], [];
      boundaryCounter, minted, withinCycle, lifetime := SEQUENCE_ID_FLOOR, 0, true, 0;
      arcs, received, arrivals := [], [], [];
      polledAt, polledBefore, goneAt := [], 0, [];
    }

    /** Mints an id. */
    method NextSequenceId() returns (id: nat)
      requires Valid()
      modifies this
      ensures Valid() && mqtt == old(mqtt)
      ensures Abstract() == old(Abstract()).MintId() && id == sequenceCounter && timeout == old(timeout)
    {
      hide Replay, CommandTracker.View, TelemetryCache.View;
      var next := sequenceCounter + 1;
      sequenceCounter := if next >= TASK_ID_MAX then SEQUENCE_ID_FLOOR else next;
      minted, lifetime := minted + 1, lifetime + 1;
      withinCycle := withinCycle && minted <= CYCLE;
      id := sequenceCounter;
    }

    /** Reseeds the counter from the clock, right after a connection has begun. */
    method ReseedSequenceCounter(clock: nat)
      requires Valid()
      modifies this
      ensures Valid() && mqtt == old(mqtt)
      ensures Abstract() == old(Abstract()).Reseed(clock)
    {
      if !clockIsReal {
        return;
      }
      sequenceCounter := FromSeed(clock);
      boundaryCounter := sequenceCounter;
    }

    /** Ends the connection the pending commands were published on. */
    method BeginConnection()
      requires Valid()
      modifies this, commands, cache
      ensures Valid() && mqtt == old(mqtt)
      ensures Abstract() == old(Abstract()).BeginConnection()
    {
      hide Replay, Tracker.ConnectionEnded, Cache.BeginConnection, CommandTracker.View, TelemetryCache.View;
      commands.ConnectionEnded();
      cache.BeginConnection();
      Record(Boundary);
      arcs, polledBefore := arcs + [Arc(boundaryCounter, minted)], |polledAt|;
      boundaryCounter, minted := sequenceCounter, 0;
    }

    ghost method Record(e: Event)
      requires cache.View() == Apply(Replay(events), e)
      modifies this`events
      ensures events == old(events) + [e] && cache.View() == Replay(events)
    {
      ReplaySnoc(events, e);
      events := events + [e];
    }

    /** Records that messages leave the client without being classified; the cache does not see them. */
    ghost method Overlook(messages: seq<Message>, at: seq<nat>)
      requires Valid()
      modifies this`events
      ensures Valid()
      ensures Abstract() == old(Abstract()).Overlook(messages, at)
    {
      OverlookedLeaveCache(events, messages, at);
      events := events + OverlookedIn(messages, at);
    }

    /** The same, and that another call took them or that they were lost. */
    ghost method Lose(messages: seq<Message>, at: seq<nat>)
      requires Valid()
      modifies this`events, this`goneAt
      ensures Valid()
      ensures Abstract() == old(Abstract()).Lose(messages, at)
    {
      Overlook(messages, at);
      goneAt := goneAt + FirstN(at, |messages|);
    }

    /** Drops the session with what is buffered on it. */
    method CloseSession()
      requires Valid()
      modifies this
      ensures Valid() && mqtt == null
      ensures Abstract() == old(Abstract()).Close()
    {
      Lose(Abstract().Buffered(), arrivals);
      mqtt := null;
      arrivals := [];
    }

    /** A new session: the boundary comes first, then the reseed, then the first id. */
    method InstallMqtt(clock: nat)
      requires Valid()
      modifies this, commands, cache
      ensures Valid() && fresh(mqtt)
      ensures Abstract() == old(Abstract()).Install(clock)
    {
      hide Replay, Tracker.ConnectionEnded;
      mqtt := new PendingMessages();
      arrivals := [];
      BeginConnection();
      ReseedSequenceCounter(clock);
      var _ := NextSequenceId();
    }

    /** Establishes the MQTT connection if there is none. */
    method EnsureMqtt(dial: Dial) returns (failure: Option<Error>)
      requires Valid()
      modifies this, commands, cache
      ensures Valid() && fresh(Repr() - old(Repr())) && (failure.None? ==> mqtt != null)
      ensures old(mqtt) != null ==> mqtt == old(mqtt)
      ensures (Abstract(), failure) == old(Abstract()).Ensure(dial) && timeout == old(timeout)
    {
      if mqtt != null {
        return None;
      }
      match dial
      case Unreachable(error) => return Some(Transport(error));
      case Reachable(clock) =>
        InstallMqtt(clock);
        return None;
    }

    /** Replaces the session with one the caller connected. */
    method AttachMqtt(clock: nat)
      requires Valid()
      modifies this, commands, cache
      ensures Valid() && fresh(Repr() - old(Repr()))
      ensures Abstract() == old(Abstract()).Attach(clock)
    {
      hide State.Install, OverlookedIn;
      CloseSession();
      InstallMqtt(clock);
    }

    /** Drops the session, if there is one. */
    method DisconnectMqtt()
      requires Valid()
      modifies this, commands, cache
      ensures Valid() && mqtt == null
      ensures Abstract() == old(Abstract()).Disconnect()
    {
      CloseSession();
      BeginConnection();
    }

    /** Mints an id, publishes the command under it and returns the handle naming it. */
    method Dispatch(command: string, ack: AckExpectation, dial: Dial, published: Option<TransportError>, now: nat)
      returns (r: Result<CommandHandle, Error>)
      requires Valid()
      modifies this, commands, cache
      ensures Valid() && fresh(Repr() - old(Repr()))
      ensures (Abstract(), r) == old(Abstract()).Dispatch(command, ack, dial, published, now)
    {
      hide State.Ensure, State.MintId, Tracker.Track, Replay;
      var failure := EnsureMqtt(dial);
      if failure.Some? {
        return Err(failure.value);
      }
      var seq_ := NextSequenceId();
      if published.Some? {
        return Err(Transport(published.value));
      }
      var handle := CommandHandle(command, seq_, ack);
      var deadline := CommandDeadline(now);
      commands.Track(handle, deadline);
      tracked := if ack == Echoes then tracked + [handle] else tracked;
      return Ok(handle);
    }

    /** The deadline of a command published now; the sum saturates like a `u64`. */
    function CommandDeadline(now: nat): (deadline: Option<nat>)
      reads this
    {
      if !clockIsReal then None
      else if timeout.None? then None
      else Some(if now + timeout.value >= U64_SIZE then U64_SIZE - 1 else now + timeout.value)
    }

    /** Takes an outcome off the tracker and remembers it as handed out. */
    method NextUnansweredOutcome(now: nat) returns (r: Option<CommandResolution>)
      requires Valid()
      modifies this`polled, commands
      ensures Valid()
      ensures (Abstract(), r) == old(Abstract()).NextUnansweredOutcome(now)
    {
      r := commands.NextUnanswered(if clockIsReal then Some(now) else None);
      if r.Some? {
        commands.Remember(r.value);
        polled := polled + [r.value];
      }
    }

    /** Reads a message as an echo or a report, and updates the tracker or the cache. */
    method ClassifyMessage(m: Message, ghost at: nat) returns (event: TelemetryEvent)
      requires Valid()
      modifies this`polled, this`events, this`polledAt, commands, cache
      ensures Valid()
      ensures (Abstract(), event) == old(Abstract()).Polled(at).Classify(m, at)
    {
      hide Tracker.TakeAnswered, Tracker.Remember, Replay, Cache.OnStart, State.CacheReport;
      hide CommandTracker.View, TelemetryCache.View, StartFieldsOf;
      polledAt := polledAt + [at];
      var isPush := m.report.Some? && m.report.value.isPush;
      if !isPush && m.echo.Some? {
        var echo := m.echo.value;
        if echo.command == PROJECT_FILE && echo.verdict == Accepted {
          cache.RecordJobStart(StartFieldsOf(m));
          Record(Started(StartFieldsOf(m), at));
        }
        var handle := commands.TakeAnswered(echo);
        if handle.None? {
          return UnknownEvent(m);
        }
        var resolution := CommandResolution(handle.value, Answered(echo.verdict));
        commands.Remember(resolution);
        polled := polled + [resolution];
        return CommandEvent(resolution, Some(m));
      }
      if m.report.None? {
        return UnknownEvent(m);
      }
      CacheReport(m, m.report.value.frame, at);
      return ReportEvent(m);
    }

    /** The frame of a report goes to the cache. */
    method CacheReport(ghost m: Message, frame: Option<StatusFrame>, ghost at: nat)
      requires Valid()
      modifies this`events, cache
      ensures Valid()
      ensures Abstract() == old(Abstract()).CacheReport(m, frame, at)
    {
      hide Replay, Cache.OnReport, CommandTracker.View, TelemetryCache.View, OverlookedIn;
      Overlook([m], [at]);
      if frame.Some? {
        cache.OnReport(frame.value);
        Record(Report(frame.value));
      }
    }

    /** Pulls the next telemetry event. */
    method PollTelemetry(dial: Dial, now: nat, later: nat, read: Result<Message, TransportError>)
      returns (r: Result<TelemetryEvent, Error>)
      requires Valid()
      modifies Repr()
      ensures Valid() && fresh(Repr() - old(Repr()))
      ensures (Abstract(), r) == old(Abstract()).Poll(dial, now, later, read)
    {
      hide State.Ensure, State.NextUnansweredOutcome, State.Polled, State.Classify, State.PollConnected, Replay, LastN;
      hide CommandTracker.View, TelemetryCache.View;
      if mqtt != null {
        var buffered := mqtt.TakePending();
        if buffered.Some? {
          ghost var at := Abstract().ArrivalAt(0);
          arrivals := LastN(arrivals, |mqtt.messages|);
          assert Abstract() == old(Abstract()).PopBuffered();
          var event := ClassifyMessage(buffered.value, at);
          return Ok(event);
        }
      }
      var outcome := NextUnansweredOutcome(now);
      if outcome.Some? {
        return Ok(CommandEvent(outcome.value, None));
      }
      var failure := EnsureMqtt(dial);
      if failure.Some? {
        return Err(failure.value);
      }
      r := PollConnected(later, read);
    }

    /** The end of a poll: an outcome of the connection there now is, and then the next message. */
    method PollConnected(later: nat, read: Result<Message, TransportError>) returns (r: Result<TelemetryEvent, Error>)
      requires Valid() && mqtt != null
      modifies this, commands, cache, mqtt
      ensures Valid() && mqtt == old(mqtt)
      ensures (Abstract(), r) == old(Abstract()).PollConnected(later, read)
    {
      hide State.NextUnansweredOutcome, State.Polled, State.Classify, State.TakeMessage, Replay;
      hide CommandTracker.View, TelemetryCache.View;
      var outcome := NextUnansweredOutcome(later);
      if outcome.Some? {
        return Ok(CommandEvent(outcome.value, None));
      }
      ghost var at: nat;
      var message: Result<Message, Error>;
      message, at := TakeMessage(read);
      if message.Err? {
        return Err(message.error);
      }
      var event := ClassifyMessage(message.value, at);
      return Ok(event);
    }

    /** The next message of the session, buffered ones first. */
    method TakeMessage(read: Result<Message, TransportError>) returns (r: Result<Message, Error>, ghost at: nat)
      requires Valid() && mqtt != null
      modifies mqtt, this`received, this`arrivals
      ensures Valid()
      ensures (Abstract(), if r.Ok? then Ok(Taken(r.value, at)) else Err(r.error)) == old(Abstract()).TakeMessage(read)
    {
      at := Abstract().ArrivalAt(0);
      var buffered := mqtt.TakePending();
      if buffered.Some? {
        arrivals := LastN(arrivals, |mqtt.messages|);
        r := Ok(buffered.value);
        return;
      }
      if read.Err? {
        r := Err(Transport(read.error));
        return;
      }
      at := |received|;
      received := received + [read.value];
      r := Ok(read.value);
    }

    /** Pulls the next message without looking at it. */
    method PollRaw(dial: Dial, read: Result<Message, TransportError>) returns (r: Result<Message, Error>)
      requires Valid()
      modifies Repr()
      ensures Valid() && fresh(Repr() - old(Repr()))
      ensures (Abstract(), r) == old(Abstract()).PollRaw(dial, read)
    {
      hide State.Ensure, Replay, OverlookedIn;
      var failure := EnsureMqtt(dial);
      if failure.Some? {
        return Err(failure.value);
      }
      ghost var at: nat;
      r, at := TakeMessage(read);
      if r.Ok? {
        Lose([r.value], [at]);
      }
    }

    /** Polls until `matcher` accepts a message, buffering the others. */
    method PollUntil(matcher: Message -> bool, dial: Dial, start: nat, wire: Wire) returns (r: Result<Message, Error>)
      requires Valid()
      modifies Repr()
      ensures Valid() && fresh(Repr() - old(Repr()))
      ensures (Abstract(), r) == old(Abstract()).PollUntil(matcher, dial, start, wire)
    {
      hide State.Ensure, Replay, OverlookedIn, Wait;
      var failure := EnsureMqtt(dial);
      if failure.Some? {
        return Err(failure.value);
      }
      PollUntilAfterEnsure(old(Abstract()), matcher, dial, start, wire);
      r := PollSession(matcher, start, wire, dial);
    }

    /** The wait on a session: a claim from the buffer, or else from the wire. */
    method PollSession(matcher: Message -> bool, start: nat, wire: Wire, ghost dial: Dial)
      returns (r: Result<Message, Error>)
      requires Valid() && mqtt != null
      modifies mqtt, this`received, this`arrivals, this`events, this`goneAt
      ensures Valid() && mqtt == old(mqtt)
      ensures (Abstract(), r) == old(Abstract()).PollUntil(matcher, dial, start, wire)
    {
      hide State.PollUntil, Replay, OverlookedIn, Wait, Read, Range, LastN, FirstN, State.AfterWait;
      hide CommandTracker.View, TelemetryCache.View;
      PollUntilSplits(Abstract(), matcher, dial, start, wire);
      ghost var before := Abstract();
      ghost var k := Position(mqtt.messages, matcher);
      var taken := mqtt.TakePendingMatching(matcher);
      if taken.Some? {
        arrivals := if k < |arrivals| then Without(arrivals, k) else arrivals;
        Lose([taken.value], [before.ArrivalAt(k)]);
        return Ok(taken.value);
      }
      ghost var end: WaitEnd;
      r, end := WaitOnWire(matcher, start, wire);
      AfterWaitSetsSession(before, Abstract().session, wire, end);
      AfterWaitOnWire(wire, end);
    }

    /** The history of a wait that is over. */
    ghost method AfterWaitOnWire(wire: Wire, end: WaitEnd)
      requires Valid() && mqtt != null && mqtt.messages == end.buffer
      requires end.taken <= |wire.readings| && (end.result.Ok? ==> 0 < end.taken)
      modifies this`received, this`arrivals, this`events, this`goneAt
      ensures Valid()
      ensures Abstract() == old(Abstract()).AfterWait(wire, end)
    {
      hide Replay, OverlookedIn, Read, LastN;
      var unmatched := if end.result.Ok? then end.taken - 1 else end.taken;
      var first, at := |received|, arrivals + Range(|received|, unmatched);
      received := received + Read(wire, 0, end.taken);
      arrivals := LastN(at, |end.buffer|);
      Lose(end.evicted, at);
      if end.result.Ok? {
        Lose([end.result.value], [first + unmatched]);
      }
    }

    /** The loop of a wait: read, match or buffer, and look at the budget. */
    method WaitOnWire(matcher: Message -> bool, start: nat, wire: Wire)
      returns (r: Result<Message, Error>, ghost end: WaitEnd)
      requires Valid() && mqtt != null
      modifies mqtt
      ensures Valid() && mqtt.messages == end.buffer && r == end.result
      ensures Abstract() == old(Abstract()).(session := Abstract().session)
      ensures end == Wait(old(mqtt.messages), matcher, old(Abstract()).Budget(start), wire, 0)
    {
      hide Evicted, Fit, Wait;
      end := Wait(mqtt.messages, matcher, Abstract().Budget(start), wire, 0);
      var wait := WaitBudget(start, timeout, clockIsReal, 0);
      var i := 0;
      ghost var evicted: seq<Message> := [];
      while i < |wire.readings|
        invariant i <= |wire.readings| && mqtt.Valid()
        invariant var rest := Wait(mqtt.messages, matcher, wait, wire, i);
                  end == rest.(evicted := evicted + rest.evicted)
      {
        WaitTakesOne(mqtt.messages, evicted, matcher, wait, wire, i);
        var Reading(message, now) := wire.readings[i];
        if matcher(message) {
          r := Ok(message);
          return;
        }
        ghost var gone := Evicted(mqtt.messages + [message]);
        mqtt.PushPending(message);
        var (spent, expired) := wait.AfterMessage(now);
        if expired {
          r := Err(Timeout);
          return;
        }
        evicted := evicted + gone;
        wait, i := spent, i + 1;
      }
      WaitTakesOne(mqtt.messages, evicted, matcher, wait, wire, i);
      r := Err(Transport(wire.failure));
    }

    /** The outcome of `handle`: from memory, or else from the wire. */
    method AwaitAck(handle: CommandHandle, dial: Dial, start: nat, wire: Wire)
      returns (r: Result<CommandOutcome, Error>)
      requires Valid()
      modifies Repr()
      ensures Valid() && fresh(Repr() - old(Repr()))
      ensures (Abstract(), r) == old(Abstract()).AwaitAck(handle, dial, start, wire)
    {
      hide State.PollUntil, Tracker.Forget, Tracker.TakeKnown, Tracker.ReadyIndex, Replay, Position;
      if handle.ack == SettlesOnPublish {
        return Ok(SettledOnPublish);
      }
      ghost var queued := commands.View().ReadyIndex(handle) < |commands.ready|;
      var known := commands.TakeKnown(handle);
      if known.Some? {
        if queued {
          awaited := awaited + [CommandResolution(handle, known.value)];
        }
        return Ok(known.value);
      }
      if !commands.View().IsPending(handle) {
        return Err(InvalidArgument);
      }
      var answer := PollUntil(Answers(handle), dial, start, wire);
      if answer.Err? && answer.error != Timeout {
        return Err(answer.error);
      }
      var outcome :=
        if answer.Ok? && answer.value.echo.Some? then Answered(answer.value.echo.value.verdict) else TimedOut;
      commands.Forget(handle);
      awaited := awaited + [CommandResolution(handle, outcome)];
      return Ok(outcome);
    }

    /** Asks for the firmware version, caching it under the current connection. */
    method GetVersion(dial: Dial, published: Option<TransportError>, start: nat, wire: Wire)
      returns (r: Result<Message, Error>)
      requires Valid()
      modifies Repr()
      ensures Valid() && fresh(Repr() - old(Repr()))
      ensures (Abstract(), r) == old(Abstract()).GetVersion(dial, published, start, wire)
    {
      hide State.Ensure, State.MintId, State.PollUntil, Replay;
      var id := NextSequenceId();
      var failure := EnsureMqtt(dial);
      if failure.Some? {
        return Err(failure.value);
      }
      if published.Some? {
        return Err(Transport(published.value));
      }
      r := PollUntil(RepliesVersion(id), dial, start, wire);
      if r.Ok? && r.value.version.Some? && r.value.version.value.firmware.Some? {
        cache.RecordFirmwareVersion(r.value.version.value.firmware.value);
        Record(VersionFetched(r.value.version.value.firmware.value));
      }
    }

    /** Fetches the firmware version when it is not known on this connection; a failure is ignored. */
    method PrimeFirmwareVersion(dial: Dial, published: Option<TransportError>, start: nat, wire: Wire)
      requires Valid()
      modifies Repr()
      ensures Valid() && fresh(Repr() - old(Repr()))
      ensures Abstract() == PrimeFirmware(old(Abstract()), dial, published, start, wire)
    {
      hide State.GetVersion, Replay;
      if cache.View().FirmwareThisConnection().Some? {
        return;
      }
      var _ := GetVersion(dial, published, start, wire);
    }

    /** Connects MQTT; the version is fetched also on a session there already was. */
    method ConnectMqtt(dial: Dial, published: Option<TransportError>, start: nat, wire: Wire)
      returns (failure: Option<Error>)
      requires Valid()
      modifies Repr()
      ensures Valid() && fresh(Repr() - old(Repr()))
      ensures (Abstract(), failure) == ClientSpec.ConnectMqtt(old(Abstract()), dial, published, start, wire)
    {
      hide State.Ensure, Replay, PrimeFirmware;
      failure := EnsureMqtt(dial);
      if failure.None? {
        PrimeFirmwareVersion(dial, published, start, wire);
      }
    }

    /** The MQTT part of connecting every channel: nothing happens on a session there already was. */
    method ConnectAll(dial: Dial, published: Option<TransportError>, start: nat, wire: Wire)
      returns (outcome: Option<Option<Error>>)
      requires Valid()
      modifies Repr()
      ensures Valid() && fresh(Repr() - old(Repr()))
      ensures (Abstract(), outcome) == ConnectAllMqtt(old(Abstract()), dial, published, start, wire)
    {
      hide State.Ensure, Replay, PrimeFirmware;
      if mqtt != null {
        return None;
      }
      var failure := EnsureMqtt(dial);
      if failure.None? {
        PrimeFirmwareVersion(dial, published, start, wire);
      }
      return Some(failure);
    }

    /**
     Polls until a homing cycle was seen to complete: a reading with some axis not homed, and
     later one with all of them homed. Returns nothing when the given polls do not decide it.
     */
    method WaitForHoming(polls: seq<HomingPoll>, start: nat) returns (done: Option<Result<(), Error>>)
      requires Valid()
      modifies Repr()
      ensures Valid() && fresh(Repr() - old(Repr()))
      ensures (Abstract(), done) == WaitFrom(old(Abstract()), polls, HomingBudget(clockIsReal, start), false)
    {
      hide State.Poll, Replay;
      var wait := HomingBudget(clockIsReal, start);
      var sawNotAllHomed := false;
      var i := 0;
      while i < |polls|
        invariant i <= |polls| && Valid() && fresh(Repr() - old(Repr()))
        invariant WaitFrom(Abstract(), polls[i..], wait, sawNotAllHomed)
               == WaitFrom(old(Abstract()), polls, HomingBudget(clockIsReal, start), false)
      {
        var p := polls[i];
        assert polls[i..][0] == p && polls[i..][1..] == polls[i + 1..];
        var event := PollTelemetry(p.dial, p.now, p.later, p.read);
        if event.Err? {
          return Some(Err(event.error));
        }
        var allHomed := cache.View().IsAllAxesHomed();
        if allHomed.Some? {
          if allHomed.value && sawNotAllHomed {
            return Some(Ok(()));
          }
          if !allHomed.value {
            sawNotAllHomed := true;
          }
        }
        var (spent, expired) := wait.AfterMessage(p.after);
        if expired {
          return Some(Err(Timeout));
        }
        wait, i := spent, i + 1;
      }
      done := None;
    }
  }

  lemma AfterWaitSetsSession(s: State, session: Option<seq<Message>>, wire: Wire, end: WaitEnd)
    requires end.taken <= |wire.readings| && (end.result.Ok? ==> 0 < end.taken)
    ensures s.(session := session).AfterWait(wire, end) == s.AfterWait(wire, end)
  {
    hide OverlookedIn, Read, LastN, FirstN;
  }

  /** One step of a wait that has already evicted `evicted`. */
  lemma WaitTakesOne(buffer: seq<Message>, evicted: seq<Message>, matcher: Message -> bool, budget: WaitBudget,
                     wire: Wire, i: nat)
    requires i <= |wire.readings|
    ensures var end := Wait(buffer, matcher, budget, wire, i);
            end.(evicted := evicted + end.evicted)
            == if i == |wire.readings| then WaitEnd(buffer, evicted, i, Err(Transport(wire.failure)))
               else
                 var m := wire.readings[i].message;
                 var kept, gone := Fit(buffer + [m]), Evicted(buffer + [m]);
                 var (spent, expired) := budget.AfterMessage(wire.readings[i].now);
                 if matcher(m) then WaitEnd(buffer, evicted, i + 1, Ok(m))
                 else if expired then WaitEnd(kept, evicted + gone, i + 1, Err(Timeout))
                 else
                   var rest := Wait(kept, matcher, spent, wire, i + 1);
                   rest.(evicted := (evicted + gone) + rest.evicted)
  {
    hide Fit, Evicted;
    assert evicted + [] == evicted;
    if i < |wire.readings| && !matcher(wire.readings[i].message) {
      var gone := Evicted(buffer + [wire.readings[i].message]);
      var (spent, expired) := budget.AfterMessage(wire.readings[i].now);
      var rest := Wait(Fit(buffer + [wire.readings[i].message]), matcher, spent, wire, i + 1);
      assert (evicted + gone) + rest.evicted == evicted + (gone + rest.evicted);
    }
  }
}
