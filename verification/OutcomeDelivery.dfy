/** When and how an outcome reaches the caller. */
module OutcomeDelivery {
  import opened Wrappers
  import opened Sequences
  import opened SequenceIds
  import opened CommandTracking
  import opened MessageBuffer
  import opened ClientSpec
  import opened MessageWait
  import opened TrackerFacts
  import opened ClientInvariant
  import opened CommandOutcomes

  // ----- waiting for one command -----

  /** A wait for an outcome never dials: without a session nothing is pending. */
  lemma AwaitNeverDials(s: State, handle: CommandHandle, d: Dial, d': Dial, start: nat, wire: Wire)
    requires Valid(s)
    ensures s.AwaitAck(handle, d, start, wire) == s.AwaitAck(handle, d', start, wire)
  {
  }

  lemma PolledAt(s: State, k: nat)
    requires Valid(s) && Distinct(s.tracked) && k < |s.polled|
    ensures forall i | 0 <= i < |s.polled| && s.polled[i].handle == s.polled[k].handle :: i == k
    ensures !s.tracker.IsPending(s.polled[k].handle) && !IsReady(s, s.polled[k].handle)
    ensures forall r <- s.awaited :: r.handle != s.polled[k].handle
  {
    hide Valid;
    var h, handles := s.polled[k].handle, Map(ResolvedHandle, Outcomes(s));
    assert s.polled[k] in s.polled;
    OutcomesAreDistinct(s);
    assert handles[k] == h;
    forall i | 0 <= i < |s.polled| && s.polled[i].handle == h
      ensures i == k
    {
      assert handles[i] == h;
    }
    forall r | r in s.awaited
      ensures r.handle != h
    {
      var i :| 0 <= i < |s.awaited| && s.awaited[i] == r;
      assert handles[|s.polled| + i] == r.handle;
    }
    DeliveredIsNowhereElse(s, h);
  }

  lemma DeliveredIsNowhereElse(s: State, h: CommandHandle)
    requires Valid(s) && Distinct(s.tracked) && IsDelivered(s, h)
    ensures !s.tracker.IsPending(h) && !IsReady(s, h)
  {
    PlacesCount(s, h);
    DistinctCount(s.tracked, h);
  }

  /** The memory holds the last 32 outcomes handed out as events, in order. */
  lemma ResolvedAreLast(s: State)
    requires Valid(s)
    ensures var first := |s.polled| - |s.tracker.resolved|;
            && first >= 0
            && |s.tracker.resolved|
               == (if |s.polled| < RESOLVED_OUTCOME_LIMIT then |s.polled| else RESOLVED_OUTCOME_LIMIT)
            && forall i | 0 <= i < |s.tracker.resolved| :: s.tracker.resolved[i] == s.polled[first + i]
  {
    hide IdsValid, LedgerValid;
  }

  /**
   Answers from memory. For a command whose outcome was handed out as an event, `await_ack`
   changes nothing, and returns that same outcome when it is among the last 32 handed out, and
   `InvalidArgument` when it is older.
   */
  lemma AwaitRepeatsDelivered(s: State, k: nat, dial: Dial, start: nat, wire: Wire)
    requires Valid(s) && Distinct(s.tracked) && k < |s.polled|
    requires s.polled[k].handle.ack == Echoes
    ensures s.AwaitAck(s.polled[k].handle, dial, start, wire)
         == (s, if k + 32 >= |s.polled| then Ok(s.polled[k].outcome) else Err(InvalidArgument))
  {
    hide Valid;
    var h := s.polled[k].handle;
    PolledAt(s, k);
    ResolvedAreLast(s);
    PositionIs(s.tracker.ready, (r: CommandResolution) => r.handle == h, |s.tracker.ready|);
    var first := |s.polled| - |s.tracker.resolved|;
    var m := if k < first then |s.tracker.resolved| else k - first;
    PositionIs(s.tracker.resolved, (r: CommandResolution) => r.handle == h, m);
    assert s.(tracker := s.tracker, awaited := s.awaited) == s;
  }

  /** A command already answered by `await_ack` has no outcome left to return. */
  lemma AwaitAgainIsRefused(s: State, k: nat, dial: Dial, start: nat, wire: Wire)
    requires Valid(s) && Distinct(s.tracked) && k < |s.awaited|
    requires s.awaited[k].handle.ack == Echoes
    ensures s.AwaitAck(s.awaited[k].handle, dial, start, wire) == (s, Err(InvalidArgument))
  {
    hide Valid;
    var h := s.awaited[k].handle;
    ResolvedAreLast(s);
    assert s.awaited[k] in s.awaited;
    DeliveredIsNowhereElse(s, h);
    forall i | 0 <= i < |s.polled|
      ensures s.polled[i].handle != h
    {
      PolledAt(s, i);
    }
    PositionIs(s.tracker.ready, (r: CommandResolution) => r.handle == h, |s.tracker.ready|);
    var first := |s.polled| - |s.tracker.resolved|;
    PositionIs(s.tracker.resolved, (r: CommandResolution) => r.handle == h, |s.tracker.resolved|);
  }

  /** An older command under the same handle still has an outcome queued or remembered. */
  predicate HandleStillKnown(s: State, handle: CommandHandle) {
    IsReady(s, handle) || exists r <- s.tracker.resolved :: r.handle == handle
  }

  /**
   For a pending command, `await_ack` settles that command exactly when its handle was not used
   before by a command still remembered; otherwise it answers for the older one.
   */
  lemma AwaitSettlesIffHandleFresh(s: State, handle: CommandHandle, dial: Dial, start: nat, wire: Wire)
    requires Valid(s) && s.minted <= CYCLE && s.tracker.IsPending(handle) && handle.ack == Echoes
    requires s.AwaitAck(handle, dial, start, wire).1.Ok?
    ensures !s.AwaitAck(handle, dial, start, wire).0.tracker.IsPending(handle) <==> !HandleStillKnown(s, handle)
  {
    var (t, r) := s.AwaitAck(handle, dial, start, wire);
    var k, m := s.tracker.ReadyIndex(handle), s.tracker.ResolvedIndex(handle);
    if HandleStillKnown(s, handle) {
      assert k < |s.tracker.ready| || m < |s.tracker.resolved|;
      assert t.tracker.pending == s.tracker.pending;
    } else {
      assert k == |s.tracker.ready| && m == |s.tracker.resolved|;
      PollUntilOnSession(s, Answers(handle), dial, start, wire);
      ForgottenIsNotPending(s.tracker, handle);
    }
  }

  lemma ForgottenIsNotPending(t: Tracker, handle: CommandHandle)
    ensures !t.Forget(handle).IsPending(handle)
  {
    KeepHolds(t.pending, (p: PendingCommand) => p.handle != handle);
  }

  lemma {:induction false} KeepHolds<T>(s: seq<T>, f: T -> bool)
    ensures forall x <- Keep(s, f) :: f(x)
  {
    if s != [] {
      KeepHolds(s[..|s| - 1], f);
    }
  }

  /** A wait that timed out left no answer unread in the buffer. */
  lemma TimedOutMeansUnanswered(s: State, handle: CommandHandle, dial: Dial, start: nat, wire: Wire)
    requires Valid(s) && s.tracker.IsPending(handle) && !HandleStillKnown(s, handle)
    requires handle.ack == Echoes && s.AwaitAck(handle, dial, start, wire).1 == Ok(TimedOut)
    ensures forall m <- s.AwaitAck(handle, dial, start, wire).0.session.value :: !Answers(handle)(m)
  {
    PositionIs(s.tracker.ready, (r: CommandResolution) => r.handle == handle, |s.tracker.ready|);
    PositionIs(s.tracker.resolved, (r: CommandResolution) => r.handle == handle, |s.tracker.resolved|);
    var n := PollUntilConserves(s, Answers(handle), dial, start, wire);
    NoMatchLeftBehind(s, Answers(handle), dial, start, wire);
  }

  // ----- a handle can come back after a reseed -----

  /**
   A reseeded counter can repeat a handle. Two connections seeded from the same clock reading
   give the same handle to the same command; then `await_ack` for the second command returns the
   first one's outcome and leaves the second pending.
   */
  lemma ReseedCanRepeatHandle(command: string, clock: nat, dial: Dial, start: nat, wire: Wire)
    ensures var first := Dispatching(command, Echoes, Reachable(clock), None, 0);
            var s := Run(NewClient(true, None), [first, Disconnecting, first]);
            && |s.tracked| == 2 && s.tracked[0] == s.tracked[1] && s.withinCycle
            && s.tracker.IsPending(s.tracked[1])
            && s.AwaitAck(s.tracked[1], dial, start, wire).1 == Ok(ConnectionLost)
            && s.AwaitAck(s.tracked[1], dial, start, wire).0.tracker.IsPending(s.tracked[1])
  {
    var first := Dispatching(command, Echoes, Reachable(clock), None, 0);
    var s0 := NewClient(true, None);
    var s1 := Step(s0, first);
    var s2 := Step(s1, Disconnecting);
    RunThree(s0, first, Disconnecting, first);
    hide Run, Step, State.AwaitAck;
    var s, h := Step(s2, first), CommandHandle(command, Next(Next(FromSeed(clock))), Echoes);
    DispatchOnNewSession(s0, command, clock);
    DisconnectLoses(s1);
    DispatchOnNewSession(s2, command, clock);
    assert s.tracker == Tracker([PendingCommand(h, None)], [CommandResolution(h, ConnectionLost)], []);
    AwaitTakesReady(s, h, dial, start, wire);
  }

  lemma DispatchOnNewSession(s: State, command: string, clock: nat)
    requires s.session.None? && s.clockIsReal && s.timeout.None? && s.withinCycle
    requires s.tracker.pending == []
    ensures var h := CommandHandle(command, Next(Next(FromSeed(clock))), Echoes);
            var t := Step(s, Dispatching(command, Echoes, Reachable(clock), None, 0));
            && t.tracker == s.tracker.(pending := [PendingCommand(h, None)]) && t.tracked == s.tracked + [h]
            && t.clockIsReal && t.timeout.None? && t.withinCycle
  {
  }

  lemma DisconnectLoses(s: State)
    requires |s.tracker.pending| == 1
    ensures var t := Step(s, Disconnecting);
            && t.tracker.pending == []
            && t.tracker.ready == s.tracker.ready + [CommandResolution(s.tracker.pending[0].handle, ConnectionLost)]
            && t == s.(session := None, tracker := t.tracker, events := t.events, arcs := t.arcs, arrivals := [],
                       polledBefore := t.polledBefore, goneAt := t.goneAt,
                       boundaryCounter := t.boundaryCounter, minted := 0)
            && t.tracker.resolved == s.tracker.resolved
  {
  }

  lemma AwaitTakesReady(s: State, h: CommandHandle, dial: Dial, start: nat, wire: Wire)
    requires h.ack == Echoes && s.tracker.ready != [] && s.tracker.ready[0].handle == h
    ensures s.AwaitAck(h, dial, start, wire).1 == Ok(s.tracker.ready[0].outcome)
    ensures s.AwaitAck(h, dial, start, wire).0.tracker.pending == s.tracker.pending
  {
    PositionIs(s.tracker.ready, (r: CommandResolution) => r.handle == h, 0);
  }

  lemma RunThree(s: State, a: Op, b: Op, c: Op)
    ensures Run(s, [a, b, c]) == Step(Step(Step(s, a), b), c)
  {
    hide Step;
    RunSnoc(s, [], a);
    RunSnoc(s, [a], b);
    RunSnoc(s, [a, b], c);
    assert [] + [a] == [a] && [a] + [b] == [a, b] && [a, b] + [c] == [a, b, c];
  }

  lemma RunSnoc(s: State, ops: seq<Op>, op: Op)
    ensures Run(s, ops + [op]) == Step(Run(s, ops), op)
  {
    assert (ops + [op])[..|ops|] == ops;
  }

  // ----- echoes and deadlines -----

  /** An outcome without a message is only handed out once no message is buffered. */
  lemma BufferIsDrainedFirst(s: State, dial: Dial, now: nat, later: nat, read: Result<Message, TransportError>)
    requires var r := s.Poll(dial, now, later, read).1;
             r.Ok? && r.value.CommandEvent? && r.value.raw.None?
    ensures s.session.None? || s.session.value == []
  {
  }

  /** The message carries an echo of the command under the id it was published with. */
  predicate CarriesEcho(m: Message, handle: CommandHandle) {
    && m.echo.Some?
    && m.echo.value.command == handle.command
    && m.echo.value.sequenceId == Some(handle.sequenceId)
  }

  /**
   Classifying a message resolves a pending command exactly when the message carries its echo and
   does not also call itself a telemetry push.
   */
  lemma ClassifyAnswersIff(s: State, m: Message, at: nat, handle: CommandHandle)
    requires Valid(s) && s.minted <= CYCLE && s.tracker.IsPending(handle)
    ensures var event := s.Classify(m, at).1;
            (event.CommandEvent? && event.resolution.handle == handle)
            <==> CarriesEcho(m, handle) && !(m.report.Some? && m.report.value.isPush)
    ensures var (t, event) := s.Classify(m, at);
            event.CommandEvent? && event.resolution.handle == handle ==>
              event == CommandEvent(CommandResolution(handle, Answered(m.echo.value.verdict)), Some(m))
    ensures var (t, event) := s.Classify(m, at);
            !(event.CommandEvent? && event.resolution.handle == handle) ==> t.tracker.IsPending(handle)
  {
    var k := PendingIndex(s.tracker, handle);
    var isPush := m.report.Some? && m.report.value.isPush;
    if !isPush && m.echo.Some? {
      var echo := m.echo.value;
      if handle.IsAnsweredBy(echo) {
        EchoAnswersOne(s.tracker, echo, k);
      } else {
        var i := s.tracker.AnsweredIndex(echo);
        if i < |s.tracker.pending| {
          var rest := Without(s.tracker.pending, i);
          assert rest[if k < i then k else k - 1] == s.tracker.pending[k];
        }
      }
    }
  }

  /** The two readers of the report topic can disagree: a push that also carries an echo. */
  lemma PushCarryingEcho(s: State, at: nat, handle: CommandHandle, verdict: Verdict) returns (m: Message)
    requires Valid(s) && s.minted <= CYCLE && s.tracker.IsPending(handle)
    ensures CarriesEcho(m, handle) && Answers(handle)(m)
    ensures s.Classify(m, at).1 == ReportEvent(m) && s.Classify(m, at).0.tracker.IsPending(handle)
  {
    m := RawMessage(0, Some(TelemetryReport(true, None)),
                    Some(CommandEcho(handle.command, Some(handle.sequenceId), verdict)), None, None);
  }

  /** A message that `poll_telemetry` would take as the answer to `handle`. */
  predicate AnswersAsEvent(handle: CommandHandle, m: Message) {
    CarriesEcho(m, handle) && !(m.report.Some? && m.report.value.isPush)
  }

  /**
   A buffered echo beats the deadline. When the first answer to a pending command is the `i`-th
   message of the buffer, `i` polls leave it at the front with the command still pending, and
   the next poll delivers its verdict, whatever the clock reads in all of them.
   */
  lemma {:induction false} BufferedEchoBeatsDeadline(s: State, handle: CommandHandle, i: nat, polls: seq<Op>,
      dial: Dial, now: nat, later: nat, read: Result<Message, TransportError>)
    requires Valid(s) && s.minted <= CYCLE && s.tracker.IsPending(handle) && s.session.Some?
    requires i < |s.session.value| && AnswersAsEvent(handle, s.session.value[i])
    requires forall j | 0 <= j < i :: !AnswersAsEvent(handle, s.session.value[j])
    requires |polls| == i && forall op <- polls :: op.Polling?
    ensures var t := Run(s, polls);
            && t.tracker.IsPending(handle) && t.session == Some(s.session.value[i..])
            && Valid(t) && t.minted <= CYCLE
            && var m := s.session.value[i];
               t.Poll(dial, now, later, read).1
               == Ok(CommandEvent(CommandResolution(handle, Answered(m.echo.value.verdict)), Some(m)))
    decreases i
  {
    PollsReachEcho(s, handle, i, polls);
    var t := Run(s, polls);
    PopKeeps(t);
    PolledKeeps(t.PopBuffered(), t.ArrivalAt(0));
    ClassifyAnswersIff(t.PopBuffered().Polled(t.ArrivalAt(0)), t.session.value[0], t.ArrivalAt(0), handle);
  }

  lemma {:induction false} PollsReachEcho(s: State, handle: CommandHandle, i: nat, polls: seq<Op>)
    requires Valid(s) && s.minted <= CYCLE && s.tracker.IsPending(handle) && s.session.Some?
    requires i <= |s.session.value|
    requires forall j | 0 <= j < i :: !AnswersAsEvent(handle, s.session.value[j])
    requires |polls| == i && forall op <- polls :: op.Polling?
    ensures var t := Run(s, polls);
            && t.tracker.IsPending(handle) && t.session == Some(s.session.value[i..])
            && Valid(t) && t.minted <= CYCLE
    decreases i
  {
    hide Valid, AnswersAsEvent, Step;
    if i > 0 {
      PollsReachEcho(s, handle, i - 1, polls[..i - 1]);
      var t, op := Run(s, polls[..i - 1]), polls[i - 1];
      assert t.session.value[0] == s.session.value[i - 1];
      PollPasses(t, handle, op);
      assert t.session.value[1..] == s.session.value[i..];
    }
  }

  /** A poll that pops a message which is no answer to `handle` leaves it pending. */
  lemma PollPasses(t: State, handle: CommandHandle, op: Op)
    requires Valid(t) && t.minted <= CYCLE && t.tracker.IsPending(handle) && op.Polling?
    requires t.session.Some? && t.session.value != [] && !AnswersAsEvent(handle, t.session.value[0])
    ensures var u := Step(t, op);
            Valid(u) && u.minted <= CYCLE && u.tracker.IsPending(handle) && u.session == Some(t.session.value[1..])
  {
    hide Valid, State.Ensure, State.NextUnansweredOutcome, OverlookedIn;
    StepKeeps(t, op);
    PopKeeps(t);
    PolledKeeps(t.PopBuffered(), t.ArrivalAt(0));
    ClassifyAnswersIff(t.PopBuffered().Polled(t.ArrivalAt(0)), t.session.value[0], t.ArrivalAt(0), handle);
  }

  // ----- draining -----

  /** Takes every outcome that needs no message, at one clock reading. */
  function Drain(t: Tracker, now: Option<nat>): (Tracker, seq<CommandResolution>)
    decreases |t.ready| + |t.pending|
  {
    var (u, r) := t.NextUnanswered(now);
    if r.None? then (t, [])
    else
      var (end, more) := Drain(u, now);
      (end, [r.value] + more)
  }

  function TimeOut(p: PendingCommand): CommandResolution {
    CommandResolution(p.handle, TimedOut)
  }

  /**
   Draining ends, and it hands out the queued outcomes in order and then a timeout for each
   command past its deadline, oldest first. Nothing is left ready, and what is left pending is
   exactly the commands not past their deadline, in order.
   */
  lemma {:induction false} DrainIsComplete(t: Tracker, now: nat)
    ensures var (end, out) := Drain(t, Some(now));
            && out == t.ready + Map(TimeOut, Keep(t.pending, (p: PendingCommand) => p.Expired(now)))
            && end == t.(ready := [], pending := Keep(t.pending, (p: PendingCommand) => !p.Expired(now)))
    decreases |t.ready| + |t.pending|
  {
    hide Keep;
    var expired, alive := (p: PendingCommand) => p.Expired(now), (p: PendingCommand) => !p.Expired(now);
    var u := t.NextUnanswered(Some(now)).0;
    if t.ready != [] {
      DrainIsComplete(u, now);
      var late := Map(TimeOut, Keep(t.pending, expired));
      assert [t.ready[0]] + (t.ready[1..] + late) == t.ready + late;
    } else {
      var k := t.ExpiredIndex(now);
      KeepAtFirst(t.pending, expired, alive, k);
      if k < |t.pending| {
        DrainIsComplete(u, now);
        MapAppend(TimeOut, [t.pending[k]], Keep(u.pending, expired));
        assert Map(TimeOut, [t.pending[k]]) == [TimeOut(t.pending[k])];
      }
    }
  }

  lemma KeepSnoc<T>(s: seq<T>, x: T, f: T -> bool)
    ensures Keep(s + [x], f) == if f(x) then Keep(s, f) + [x] else Keep(s, f)
  {
    assert (s + [x])[..|s|] == s;
  }

  lemma {:induction false} KeepNone<T>(s: seq<T>, f: T -> bool)
    requires forall x <- s :: !f(x)
    ensures Keep(s, f) == []
  {
    if s != [] {
      KeepNone(s[..|s| - 1], f);
    }
  }

  lemma {:induction false} KeepAppend<T>(s: seq<T>, t: seq<T>, f: T -> bool)
    ensures Keep(s + t, f) == Keep(s, f) + Keep(t, f)
  {
    if t == [] {
      assert s + t == s;
    } else {
      var init, x := t[..|t| - 1], t[|t| - 1];
      KeepAppend(s, init, f);
      KeepSnoc(s + init, x, f);
      assert s + t == (s + init) + [x];
    }
  }

  /** Removing the first accepted element takes it off the accepted ones and leaves the others. */
  lemma KeepAtFirst<T>(s: seq<T>, f: T -> bool, g: T -> bool, k: nat)
    requires forall x :: g(x) <==> !f(x)
    requires k == Position(s, f)
    ensures k == |s| ==> Keep(s, f) == [] && Keep(s, g) == s
    ensures k < |s| ==> Keep(s, f) == [s[k]] + Keep(Without(s, k), f)
    ensures k < |s| ==> Keep(s, g) == Keep(Without(s, k), g)
  {
    hide Keep, Position;
    var head, tail := s[..k], s[k..];
    KeepNone(head, f);
    KeepAll(head, g);
    assert s == head + tail;
    assert k == |s| ==> head == s;
    if k < |s| {
      var rest := s[k + 1..];
      assert tail == [s[k]] + rest;
      KeepSplit(head, s[k], rest, f);
      KeepSplit(head, s[k], rest, g);
      assert [] + ([s[k]] + Keep(rest, f)) == [s[k]] + Keep(rest, f) && [] + Keep(rest, f) == Keep(rest, f);
      assert head + ([] + Keep(rest, g)) == head + Keep(rest, g);
    }
  }

  lemma KeepSplit<T>(head: seq<T>, x: T, rest: seq<T>, f: T -> bool)
    ensures Keep(head + ([x] + rest), f) == Keep(head, f) + ((if f(x) then [x] else []) + Keep(rest, f))
    ensures Keep(head + rest, f) == Keep(head, f) + Keep(rest, f)
  {
    KeepAppend(head, [x] + rest, f);
    KeepAppend([x], rest, f);
    KeepAppend(head, rest, f);
    KeepSnoc([], x, f);
    assert [] + [x] == [x];
  }
}
