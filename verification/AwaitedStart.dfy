/** `await_ack` and the start commands it answers: the cache does not see them. */
module AwaitedStart {
  import opened Wrappers
  import opened Sequences
  import opened SequenceIds
  import opened CommandTracking
  import opened ConnectionCache
  import opened MessageBuffer
  import opened ClientSpec
  import opened MessageWait
  import opened ClientInvariant
  import opened OutcomeDelivery
  import opened StartHistory

  /** A wait on a session leaves the cache as it was, whatever echoes it takes. */
  lemma WaitLeavesCache(s: State, matcher: Message -> bool, dial: Dial, start: nat, wire: Wire)
    requires s.session.Some?
    ensures Replay(s.PollUntil(matcher, dial, start, wire).0.events) == Replay(s.events)
  {
    hide State.PollUntil, Wait, OverlookedIn, Replay, Read, LastN;
    PollUntilSplits(s, matcher, dial, start, wire);
    var k := Position(s.Buffered(), matcher);
    if k < |s.Buffered()| {
      OverlookedLeaveCache(s.events, [s.Buffered()[k]], [s.ArrivalAt(k)]);
    } else {
      var end := Wait(s.Buffered(), matcher, s.Budget(start), wire, 0);
      var unmatched := if end.result.Ok? then end.taken - 1 else end.taken;
      var at := s.arrivals + Range(|s.received|, unmatched);
      var events := s.events + OverlookedIn(end.evicted, at);
      OverlookedLeaveCache(s.events, end.evicted, at);
      if end.result.Ok? {
        OverlookedLeaveCache(events, [end.result.value], [|s.received| + unmatched]);
      }
    }
  }

  /**
   `await_ack` never changes the cache. An accepted start that it answers leaves the plate answered
   for the running job as it was before.
   */
  lemma AwaitLeavesCache(s: State, handle: CommandHandle, dial: Dial, start: nat, wire: Wire)
    requires Valid(s)
    ensures Replay(s.AwaitAck(handle, dial, start, wire).0.events) == Replay(s.events)
  {
    hide State.PollUntil, Replay, Tracker.TakeKnown, Tracker.Forget, IdsValid, LedgerValid;
    if s.session.Some? {
      WaitLeavesCache(s, Answers(handle), dial, start, wire);
    }
  }

  // ----- a run in which the older start stays trusted -----

  /** The accepted echo of a start of `plate` of `file`, under `id`. */
  function StartEcho(id: Option<nat>, plate: nat, file: string): Message {
    RawMessage(0, None, Some(CommandEcho(PROJECT_FILE, id, Accepted)),
               Some(StartFields(Some(plate), Some(file), None)), None)
  }

  function FileReport(file: string): Message {
    RawMessage(0, Some(TelemetryReport(true, Some(StatusFrame(0, None, None, None, Some(file), None)))),
               None, None, None)
  }

  const READY: Dial := Reachable(0)

  /** The handle of the first command that a client without a real clock publishes. */
  function PublishedAs(command: string): CommandHandle {
    CommandHandle(command, SEQUENCE_ID_FLOOR + 2, Echoes)
  }

  const AWAITED: CommandHandle := PublishedAs(PROJECT_FILE)

  /**
   The caller sees a start of `plate` echoed and its file reported, publishes a start of plate
   `other` of the same file, and awaits its outcome. The outcome is that the printer accepted it,
   and the plate answered afterwards is the older one.
   */
  lemma OlderStartStaysTrusted(plate: nat, other: nat, file: string, failure: TransportError)
    requires plate != other
    ensures var ops := [Polling(READY, 0, 0, Ok(StartEcho(None, plate, file))),
                        Polling(READY, 0, 0, Ok(FileReport(file))),
                        Dispatching(PROJECT_FILE, Echoes, READY, None, 0)];
            var s := Run(NewClient(false, None), ops);
            var wire := Wire([Reading(StartEcho(Some(SEQUENCE_ID_FLOOR + 2), other, file), 0)], failure);
            var (t, r) := s.AwaitAck(AWAITED, READY, 0, wire);
            && r == Ok(Answered(Accepted))
            && t.events == s.events + [Overlooked(StartFields(Some(other), Some(file), None), 2)]
            && Replay(t.events).JobPlate() == Some(PlateAnswer(plate, StartCommand))
  {
    var a, b := Polling(READY, 0, 0, Ok(StartEcho(None, plate, file))), Polling(READY, 0, 0, Ok(FileReport(file)));
    var c := Dispatching(PROJECT_FILE, Echoes, READY, None, 0);
    var s0 := NewClient(false, None);
    var s1, s2, s3 := Step(s0, a), Step(Step(s0, a), b), Step(Step(Step(s0, a), b), c);
    RunThree(s0, a, b, c);
    FirstStart(plate, file);
    SecondReport(s1, plate, file);
    ThirdDispatch(s2, PROJECT_FILE);
    AwaitAnswer(s3, other, file, failure);
    assert s2.events == s3.events;
    PlateAfter(plate, file);
    NewClientIsValid(false, None);
    RunKeeps(s0, [a, b, c]);
    AwaitLeavesCache(s3, AWAITED, READY, 0,
                     Wire([Reading(StartEcho(Some(SEQUENCE_ID_FLOOR + 2), other, file), 0)], failure));
  }

  function FirstEvents(plate: nat, file: string): seq<Event> {
    [Boundary, Started(StartFields(Some(plate), Some(file), None), 0)]
  }

  function ReportedEvents(plate: nat, file: string): seq<Event> {
    FirstEvents(plate, file) + [Report(StatusFrame(0, None, None, None, Some(file), None))]
  }

  /** The client on its first connection with no command published and nothing buffered. */
  ghost predicate Fresh(s: State, events: seq<Event>, received: seq<Message>) {
    && !s.clockIsReal && s.timeout.None? && s.session == Some([]) && s.arrivals == [] && s.tracker == NO_COMMANDS
    && s.counter == SEQUENCE_ID_FLOOR + 1 && s.events == events && s.received == received
  }

  lemma FirstStart(plate: nat, file: string)
    ensures var t := Step(NewClient(false, None), Polling(READY, 0, 0, Ok(StartEcho(None, plate, file))));
            Fresh(t, FirstEvents(plate, file), [StartEcho(None, plate, file)])
  {
  }

  lemma SecondReport(s: State, plate: nat, file: string)
    requires Fresh(s, FirstEvents(plate, file), [StartEcho(None, plate, file)])
    ensures var t := Step(s, Polling(READY, 0, 0, Ok(FileReport(file))));
            Fresh(t, ReportedEvents(plate, file), [StartEcho(None, plate, file), FileReport(file)])
  {
    assert OverlookedIn([FileReport(file)][1..], [1][1..]) == [];
    assert FirstEvents(plate, file) + [] == FirstEvents(plate, file);
  }

  lemma ThirdDispatch(s: State, command: string)
    requires !s.clockIsReal && s.timeout.None? && s.session == Some([]) && s.tracker == NO_COMMANDS
    requires s.counter == SEQUENCE_ID_FLOOR + 1
    ensures var t := Step(s, Dispatching(command, Echoes, READY, None, 0));
            && t.tracker == Tracker([PendingCommand(PublishedAs(command), None)], [], [])
            && t.session == s.session && t.events == s.events && t.received == s.received && t.arrivals == s.arrivals
            && !t.clockIsReal
  {
  }

  lemma AwaitAnswer(s: State, plate: nat, file: string, failure: TransportError)
    requires s.tracker == Tracker([PendingCommand(AWAITED, None)], [], []) && s.session == Some([]) && |s.received| == 2
    ensures var wire := Wire([Reading(StartEcho(Some(SEQUENCE_ID_FLOOR + 2), plate, file), 0)], failure);
            var (t, r) := s.AwaitAck(AWAITED, READY, 0, wire);
            && r == Ok(Answered(Accepted))
            && t.events == s.events + [Overlooked(StartFields(Some(plate), Some(file), None), 2)]
  {
    hide State.PollUntil;
    WaitForAnswer(s, plate, file, failure);
  }

  lemma WaitForAnswer(s: State, plate: nat, file: string, failure: TransportError)
    requires s.session == Some([]) && |s.received| == 2
    ensures var m := StartEcho(Some(SEQUENCE_ID_FLOOR + 2), plate, file);
            var (t, r) := s.PollUntil(Answers(AWAITED), READY, 0, Wire([Reading(m, 0)], failure));
            && r == Ok(m) && t.tracker == s.tracker
            && t.events == s.events + [Overlooked(StartFields(Some(plate), Some(file), None), 2)]
  {
    hide State.PollUntil, Read, LastN, FirstN, Wait, Fit;
    var m := StartEcho(Some(SEQUENCE_ID_FLOOR + 2), plate, file);
    var wire := Wire([Reading(m, 0)], failure);
    PollUntilSplits(s, Answers(AWAITED), READY, 0, wire);
    AnswerIsRead(s.Budget(0), m, wire);
    assert OverlookedIn([], s.arrivals + Range(2, 0)) == [];
    assert OverlookedIn([m][1..], [2][1..]) == [];
    assert s.events + [] == s.events;
  }

  lemma AnswerIsRead(budget: WaitBudget, m: Message, wire: Wire)
    requires |wire.readings| > 0 && wire.readings[0].message == m && Answers(AWAITED)(m)
    ensures Wait([], Answers(AWAITED), budget, wire, 0) == WaitEnd([], [], 1, Ok(m))
  {
  }

  lemma PlateAfter(plate: nat, file: string)
    ensures Replay(ReportedEvents(plate, file)).JobPlate() == Some(PlateAnswer(plate, StartCommand))
  {
    hide LastSegment;
    var started := Started(StartFields(Some(plate), Some(file), None), 0);
    var report := Report(StatusFrame(0, None, None, None, Some(file), None));
    ReplaySnoc([], Boundary);
    ReplaySnoc([Boundary], started);
    assert [] + [Boundary] == [Boundary] && [Boundary] + [started] == FirstEvents(plate, file);
    ReplaySnoc(FirstEvents(plate, file), report);
  }

  // ----- a run in which the latest start is buffered -----

  function EchoOf(command: string): Message {
    RawMessage(0, None, Some(CommandEcho(command, Some(SEQUENCE_ID_FLOOR + 2), Accepted)), None, None)
  }

  /**
   The same, but the newer start comes from elsewhere while the caller awaits another command. Its
   echo is buffered, so the plate answered is the older one until a poll takes the echo.
   */
  lemma BufferedStartIsNotAnswered(plate: nat, other: nat, file: string, command: string, failure: TransportError)
    requires plate != other && command != PROJECT_FILE
    ensures var newer := StartEcho(None, other, file);
            var wire := Wire([Reading(newer, 0), Reading(EchoOf(command), 0)], failure);
            var t := Run(NewClient(false, None),
                         [Polling(READY, 0, 0, Ok(StartEcho(None, plate, file))),
                          Polling(READY, 0, 0, Ok(FileReport(file))),
                          Dispatching(command, Echoes, READY, None, 0),
                          Awaiting(PublishedAs(command), READY, 0, wire)]);
            && IsLatestReceived(t.received, 2) && t.received[2] == newer && t.session == Some([newer])
            && Replay(t.events).JobPlate() == Some(PlateAnswer(plate, StartCommand))
  {
    var newer := StartEcho(None, other, file);
    var wire := Wire([Reading(newer, 0), Reading(EchoOf(command), 0)], failure);
    var a, b := Polling(READY, 0, 0, Ok(StartEcho(None, plate, file))), Polling(READY, 0, 0, Ok(FileReport(file)));
    var c, d := Dispatching(command, Echoes, READY, None, 0), Awaiting(PublishedAs(command), READY, 0, wire);
    var s0 := NewClient(false, None);
    var s1, s2, s3 := Step(s0, a), Step(Step(s0, a), b), Step(Step(Step(s0, a), b), c);
    hide Run, Step, Replay, IsLatestReceived;
    RunThree(s0, a, b, c);
    RunSnoc(s0, [a, b, c], d);
    assert [a, b, c] + [d] == [a, b, c, d];
    FirstStart(plate, file);
    SecondReport(s1, plate, file);
    ThirdDispatch(s2, command);
    AwaitBuffers(s3, newer, command, failure);
    NewerIsLatest(s3.received, newer, command);
    PlateAfter(plate, file);
  }

  lemma AwaitBuffers(s: State, newer: Message, command: string, failure: TransportError)
    requires s.tracker == Tracker([PendingCommand(PublishedAs(command), None)], [], []) && s.session == Some([])
    requires !s.clockIsReal && s.arrivals == [] && command != PROJECT_FILE
    requires newer.size == 0 && !Answers(PublishedAs(command))(newer)
    ensures var wire := Wire([Reading(newer, 0), Reading(EchoOf(command), 0)], failure);
            var t := Step(s, Awaiting(PublishedAs(command), READY, 0, wire));
            t.session == Some([newer]) && t.received == s.received + [newer, EchoOf(command)] && t.events == s.events
  {
    hide State.PollUntil;
    WaitBuffers(s, newer, command, failure);
  }

  lemma WaitBuffers(s: State, newer: Message, command: string, failure: TransportError)
    requires s.session == Some([]) && !s.clockIsReal && s.arrivals == [] && command != PROJECT_FILE
    requires newer.size == 0 && !Answers(PublishedAs(command))(newer)
    ensures var wire := Wire([Reading(newer, 0), Reading(EchoOf(command), 0)], failure);
            var (t, r) := s.PollUntil(Answers(PublishedAs(command)), READY, 0, wire);
            && r == Ok(EchoOf(command)) && t.tracker == s.tracker
            && t.session == Some([newer]) && t.received == s.received + [newer, EchoOf(command)] && t.events == s.events
  {
    hide State.PollUntil, LastN, FirstN, Wait, Fit;
    var echo, matcher := EchoOf(command), Answers(PublishedAs(command));
    var wire := Wire([Reading(newer, 0), Reading(echo, 0)], failure);
    PollUntilSplits(s, matcher, READY, 0, wire);
    SecondIsRead(s.Budget(0), newer, command, wire);
    assert Read(wire, 0, 2) == [newer, echo];
    assert OverlookedIn([], s.arrivals + Range(|s.received|, 1)) == [];
    assert OverlookedIn([echo][1..], [|s.received| + 1][1..]) == [];
    assert s.events + [] == s.events;
  }

  lemma SecondIsRead(budget: WaitBudget, newer: Message, command: string, wire: Wire)
    requires !budget.realClock && budget.messages == 0 && newer.size == 0
    requires |wire.readings| == 2 && wire.readings[0].message == newer && wire.readings[1].message == EchoOf(command)
    requires !Answers(PublishedAs(command))(newer)
    ensures Wait([], Answers(PublishedAs(command)), budget, wire, 0) == WaitEnd([newer], [], 2, Ok(EchoOf(command)))
  {
    assert [] + [newer] == [newer];
    assert TotalSize([newer]) == newer.size + TotalSize([]);
    assert Fit([newer]) == [newer] && Evicted([newer]) == [];
    var spent := budget.AfterMessage(wire.readings[0].now).0;
    assert Wait([newer], Answers(PublishedAs(command)), spent, wire, 1) == WaitEnd([newer], [], 2, Ok(EchoOf(command)));
  }

  lemma NewerIsLatest(received: seq<Message>, newer: Message, command: string)
    requires |received| == 2 && IsAcceptedStart(newer) && command != PROJECT_FILE
    ensures IsLatestReceived(received + [newer, EchoOf(command)], 2)
  {
  }
}
