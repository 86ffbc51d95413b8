/** What every call of the client keeps. */
module ClientInvariant {
  import opened Wrappers
  import opened Sequences
  import opened SequenceIds
  import opened CommandTracking
  import opened MessageBuffer
  import opened ClientSpec
  import opened TrackerFacts
  import opened MessageWait

  ghost predicate IdMinted(s: State, id: nat) {
    exists k: nat :: 1 <= k <= s.minted && Minted(s.boundaryCounter, k) == id
  }

  /**
   The counter walks on from where the connection began, and as long as this connection has not
   wrapped around, the pending commands carry distinct ids minted on it.
   */
  ghost predicate IdsValid(s: State) {
    && InRange(s.boundaryCounter) && InRange(s.counter)
    && s.counter == Minted(s.boundaryCounter, s.minted)
    && (s.withinCycle ==> s.minted <= CYCLE)
    && (s.minted <= CYCLE ==>
          && PendingIdsDistinct(s.tracker)
          && forall p <- s.tracker.pending :: IdMinted(s, p.handle.sequenceId))
  }

  /** Without a session nothing is pending; the queues keep their bounds and the memory its order. */
  ghost predicate QueuesValid(s: State) {
    && (s.session.None? ==> s.tracker.pending == [])
    && (s.session.Some? ==> TotalSize(s.session.value) <= PENDING_BUFFER_MAX_BYTES)
    && |s.tracker.pending| <= PENDING_COMMAND_LIMIT
    && s.tracker.resolved == LastN(s.polled, RESOLVED_OUTCOME_LIMIT)
  }

  function Delivered(s: State): multiset<CommandHandle> {
    multiset(Map(ResolvedHandle, s.polled)) + multiset(Map(ResolvedHandle, s.awaited))
  }

  /**
   Conservation: every command tracked is pending, ready or delivered, as often as it was tracked.
   Only handles that repeat on one connection can make it fewer, and nothing can make it more.
   */
  ghost predicate LedgerValid(s: State) {
    && Held(s.tracker) + Delivered(s) <= multiset(s.tracked)
    && (s.withinCycle || Distinct(s.tracked) ==> multiset(s.tracked) == Held(s.tracker) + Delivered(s))
    && forall h <- s.tracked :: h.ack == Echoes
  }

  ghost predicate Valid(s: State) {
    IdsValid(s) && QueuesValid(s) && LedgerValid(s)
  }

  lemma NewClientIsValid(clockIsReal: bool, timeout: Option<nat>)
    ensures Valid(NewClient(clockIsReal, timeout))
  {
  }

  // ----- the steps the calls are made of -----

  lemma MintKeeps(s: State)
    requires Valid(s)
    ensures Valid(s.MintId())
    ensures s.MintId().minted <= CYCLE ==> forall p <- s.tracker.pending :: p.handle.sequenceId != s.MintId().counter
  {
    var t := s.MintId();
    if t.minted <= CYCLE {
      forall p | p in s.tracker.pending
        ensures IdMinted(t, p.handle.sequenceId) && p.handle.sequenceId != t.counter
      {
        var k: nat :| 1 <= k <= s.minted && Minted(s.boundaryCounter, k) == p.handle.sequenceId;
        MintedRepeatsOnlyAfterCycle(s.boundaryCounter, k, t.minted);
      }
    }
    MintedIsCyclic(s.boundaryCounter, t.minted);
  }

  /** `t` differs from `s` only in what is buffered, received and logged, and in the timeout. */
  ghost predicate SameCommands(s: State, t: State) {
    t == s.(session := t.session, events := t.events, received := t.received, arrivals := t.arrivals,
            polledAt := t.polledAt, goneAt := t.goneAt, timeout := t.timeout)
  }

  lemma SameCommandsKeep(s: State, t: State)
    requires Valid(s) && SameCommands(s, t)
    requires if t.session.None? then s.tracker.pending == [] else TotalSize(t.session.value) <= PENDING_BUFFER_MAX_BYTES
    ensures Valid(t)
  {
    assert forall id | IdMinted(s, id) :: IdMinted(t, id);
  }

  lemma BoundaryKeeps(s: State, t: State)
    requires Valid(s) && SameCommands(s, t) && t.Buffered() == []
    ensures Valid(t.BeginConnection())
  {
    ConnectionEndedHolds(s.tracker);
    assert TotalSize([]) == 0;
  }

  lemma InstallKeeps(s: State, clock: nat)
    requires Valid(s)
    ensures Valid(s.Install(clock))
  {
    CloseThenInstallKeeps(s, s, clock);
  }

  lemma CloseThenInstallKeeps(s: State, t: State, clock: nat)
    requires Valid(s) && SameCommands(s, t)
    ensures Valid(t.Install(clock))
  {
    hide State.MintId, Minted;
    var open := t.(session := Some([]), arrivals := []);
    BoundaryKeeps(s, open);
    ReseedKeeps(open.BeginConnection(), clock);
    MintKeeps(open.BeginConnection().Reseed(clock));
  }

  lemma ReseedKeeps(s: State, clock: nat)
    requires Valid(s) && s.minted == 0 && s.tracker.pending == []
    ensures Valid(s.Reseed(clock))
  {
  }

  lemma EnsureKeeps(s: State, dial: Dial)
    requires Valid(s)
    ensures Valid(s.Ensure(dial).0)
    ensures s.Ensure(dial).1.None? ==> s.Ensure(dial).0.session.Some?
  {
    if s.session.None? && dial.Reachable? {
      InstallKeeps(s, dial.clock);
    }
  }

  /** Taking entry `k` out of the pending commands keeps their ids distinct and minted. */
  lemma PendingWithoutKeepsIds(s: State, k: nat, t: Tracker)
    requires IdsValid(s) && k < |s.tracker.pending|
    requires t.pending == Without(s.tracker.pending, k)
    ensures IdsValid(s.(tracker := t))
  {
    forall p | p in t.pending
      ensures p in s.tracker.pending
    {
    }
    forall i, j | 0 <= i < j < |t.pending|
      ensures s.minted <= CYCLE ==> t.pending[i].handle.sequenceId != t.pending[j].handle.sequenceId
    {
      var i', j' := if i < k then i else i + 1, if j < k then j else j + 1;
      assert t.pending[i] == s.tracker.pending[i'] && t.pending[j] == s.tracker.pending[j'];
    }
    assert forall id | IdMinted(s, id) :: IdMinted(s.(tracker := t), id);
  }

  /** Handing out an outcome as an event, and remembering it. */
  lemma DeliverKeeps(s: State, t: Tracker, r: CommandResolution)
    requires Valid(s)
    requires IdsValid(s.(tracker := t))
    requires t.resolved == s.tracker.resolved
    requires |t.pending| <= |s.tracker.pending|
    requires Held(s.tracker) == Held(t) + multiset{r.handle}
    ensures Valid(s.(tracker := t.Remember(r), polled := s.polled + [r]))
  {
    var u := s.(tracker := t.Remember(r), polled := s.polled + [r]);
    LastNAppend(s.polled, r, RESOLVED_OUTCOME_LIMIT);
    AddedToMap(ResolvedHandle, s.polled, r);
    assert Held(t.Remember(r)) == Held(t);
    assert PendingIdsDistinct(t) ==> PendingIdsDistinct(u.tracker);
    assert forall id | IdMinted(s.(tracker := t), id) :: IdMinted(u, id);
  }

  lemma NextUnansweredKeeps(s: State, now: nat)
    requires Valid(s)
    ensures Valid(s.NextUnansweredOutcome(now).0)
    ensures s.NextUnansweredOutcome(now).0.session == s.session
  {
    var clock := if s.clockIsReal then Some(now) else None;
    var (t, r) := s.tracker.NextUnanswered(clock);
    NextUnansweredReleases(s.tracker, clock);
    if r.Some? {
      if s.tracker.ready == [] {
        PendingWithoutKeepsIds(s, s.tracker.ExpiredIndex(now), t);
      }
      DeliverKeeps(s, t, r.value);
    }
  }

  lemma ClassifyKeeps(s: State, m: Message, at: nat)
    requires Valid(s)
    ensures Valid(s.Classify(m, at).0)
  {
    hide IdsValid, QueuesValid, LedgerValid, OverlookedIn;
    var isPush := m.report.Some? && m.report.value.isPush;
    var u := s.(events := s.Classify(m, at).0.events);
    EventsKeep(s, u);
    if !isPush && m.echo.Some? {
      var echo := m.echo.value;
      var (t, handle) := s.tracker.TakeAnswered(echo);
      if handle.Some? {
        AnswerKeeps(u, echo);
      }
    }
  }

  lemma EventsKeep(s: State, u: State)
    requires Valid(s) && u == s.(events := u.events)
    ensures Valid(u)
  {
    SameCommandsKeep(s, u);
  }

  /** Delivering the command an echo answers. */
  lemma AnswerKeeps(s: State, echo: CommandEcho)
    requires Valid(s) && s.tracker.TakeAnswered(echo).1.Some?
    ensures var (t, handle) := s.tracker.TakeAnswered(echo);
            var r := CommandResolution(handle.value, Answered(echo.verdict));
            Valid(s.(tracker := t.Remember(r), polled := s.polled + [r]))
  {
    hide Minted, LedgerValid;
    var (t, handle) := s.tracker.TakeAnswered(echo);
    TakeAnsweredReleases(s.tracker, echo);
    PendingWithoutKeepsIds(s, s.tracker.AnsweredIndex(echo), t);
    DeliverKeeps(s, t, CommandResolution(handle.value, Answered(echo.verdict)));
  }

  /** The commands pending after one more is tracked. */
  lemma TrackPending(t: Tracker, handle: CommandHandle, deadline: Option<nat>)
    requires handle.ack == Echoes && PendingIdsDistinct(t)
    requires forall p <- t.pending :: p.handle.sequenceId != handle.sequenceId
    ensures PendingIdsDistinct(t.Track(handle, deadline))
    ensures forall p <- t.Track(handle, deadline).pending :: p in t.pending || p.handle == handle
  {
  }

  lemma TrackKeeps(s: State, handle: CommandHandle, deadline: Option<nat>)
    requires Valid(s) && s.session.Some? && s.minted > 0
    requires handle.sequenceId == s.counter
    requires s.minted <= CYCLE ==> forall p <- s.tracker.pending :: p.handle.sequenceId != s.counter
    requires handle.ack == Echoes
    ensures Valid(s.(tracker := s.tracker.Track(handle, deadline), tracked := s.tracked + [handle]))
  {
    var u := s.(tracker := s.tracker.Track(handle, deadline), tracked := s.tracked + [handle]);
    TrackHolds(s.tracker, handle, deadline);
    assert Distinct(u.tracked) ==> Distinct(s.tracked) by {
      assert forall i | 0 <= i < |s.tracked| :: u.tracked[i] == s.tracked[i];
    }
    assert IdsValid(u) by {
      hide Minted, Held;
      if s.minted <= CYCLE {
        TrackPending(s.tracker, handle, deadline);
        assert forall id | IdMinted(s, id) :: IdMinted(u, id);
        assert Minted(u.boundaryCounter, u.minted) == handle.sequenceId;
        assert IdMinted(u, handle.sequenceId);
      }
    }
  }

  // ----- the calls -----

  lemma DispatchKeeps(s: State, command: string, ack: AckExpectation, dial: Dial, published: Option<TransportError>,
                      now: nat)
    requires Valid(s)
    ensures Valid(s.Dispatch(command, ack, dial, published, now).0)
  {
    hide IdsValid, QueuesValid, LedgerValid;
    EnsureKeeps(s, dial);
    var (e, failure) := s.Ensure(dial);
    if failure.None? {
      MintKeeps(e);
      var m := e.MintId();
      if published.None? && ack == SettlesOnPublish {
        assert s.Dispatch(command, ack, dial, published, now).0 == m;
      } else if published.None? {
        TrackKeeps(m, CommandHandle(command, m.counter, ack), m.Deadline(now));
      }
    }
  }

  lemma PollKeeps(s: State, dial: Dial, now: nat, later: nat, read: Result<Message, TransportError>)
    requires Valid(s)
    ensures Valid(s.Poll(dial, now, later, read).0)
  {
    hide IdsValid, QueuesValid, LedgerValid, State.Ensure, State.NextUnansweredOutcome, State.Classify;
    if s.session.Some? && s.session.value != [] {
      PopKeeps(s);
      PolledKeeps(s.PopBuffered(), s.ArrivalAt(0));
      ClassifyKeeps(s.PopBuffered().Polled(s.ArrivalAt(0)), s.session.value[0], s.ArrivalAt(0));
    } else {
      NextUnansweredKeeps(s, now);
      var (s1, r1) := s.NextUnansweredOutcome(now);
      if r1.None? {
        EnsureKeeps(s1, dial);
        var (s2, failure) := s1.Ensure(dial);
        if failure.None? {
          NextUnansweredKeeps(s2, later);
          var (s3, r3) := s2.NextUnansweredOutcome(later);
          if r3.None? {
            TakeMessageKeeps(s3, read);
            var (s4, m) := s3.TakeMessage(read);
            if m.Ok? {
              PolledKeeps(s4, m.value.arrival);
              ClassifyKeeps(s4.Polled(m.value.arrival), m.value.message, m.value.arrival);
            }
          }
        }
      }
    }
  }

  lemma TakeMessageKeeps(s: State, read: Result<Message, TransportError>)
    requires Valid(s) && s.session.Some?
    ensures Valid(s.TakeMessage(read).0)
  {
    if s.session.value != [] {
      PopKeeps(s);
    } else {
      SameCommandsKeep(s, s.TakeMessage(read).0);
    }
  }

  lemma PolledKeeps(s: State, at: nat)
    requires Valid(s)
    ensures Valid(s.Polled(at))
  {
    SameCommandsKeep(s, s.Polled(at));
  }

  lemma PopKeeps(s: State)
    requires Valid(s) && s.Buffered() != []
    ensures Valid(s.PopBuffered())
  {
    SameCommandsKeep(s, s.PopBuffered());
  }

  lemma PollRawKeeps(s: State, dial: Dial, read: Result<Message, TransportError>)
    requires Valid(s)
    ensures Valid(s.PollRaw(dial, read).0)
  {
    hide IdsValid, LedgerValid, State.Ensure, OverlookedIn;
    EnsureKeeps(s, dial);
    if s.Ensure(dial).1.None? {
      TakeMessageKeeps(s.Ensure(dial).0, read);
      var (t, m) := s.Ensure(dial).0.TakeMessage(read);
      if m.Ok? {
        SameCommandsKeep(t, t.Lose([m.value.message], [m.value.arrival]));
      }
    }
  }

  lemma PollUntilKeeps(s: State, matcher: Message -> bool, dial: Dial, start: nat, wire: Wire)
    requires Valid(s)
    ensures Valid(s.PollUntil(matcher, dial, start, wire).0)
  {
    hide IdsValid, LedgerValid, State.PollUntil, State.Ensure, Waited, EndedWith, Position;
    EnsureKeeps(s, dial);
    BufferedFits(s);
    var n := PollUntilConserves(s, matcher, dial, start, wire);
    var (e, failure) := s.Ensure(dial);
    if failure.None? {
      var t := s.PollUntil(matcher, dial, start, wire).0;
      if Position(e.Buffered(), matcher) < |e.Buffered()| {
        TotalSizeWithout(e.Buffered(), Position(e.Buffered(), matcher));
      }
      SameCommandsKeep(e, t);
    }
  }

  lemma BufferedFits(s: State)
    requires QueuesValid(s)
    ensures TotalSize(s.Buffered()) <= PENDING_BUFFER_MAX_BYTES
  {
    assert TotalSize([]) == 0;
  }

  /** With a session a wait leaves the commands alone. */
  lemma PollUntilOnSession(s: State, matcher: Message -> bool, dial: Dial, start: nat, wire: Wire)
    requires s.session.Some?
    ensures var t := s.PollUntil(matcher, dial, start, wire).0;
            && t.session.Some?
            && t == s.(session := t.session, received := t.received, arrivals := t.arrivals, goneAt := t.goneAt,
                       events := t.events)
  {
    hide Wait, State.AfterWait, OverlookedIn;
    PollUntilSplits(s, matcher, dial, start, wire);
    if Position(s.Buffered(), matcher) == |s.Buffered()| {
      AfterWaitKeeps(s, wire, Wait(s.Buffered(), matcher, s.Budget(start), wire, 0));
    }
  }

  lemma ForgetKeeps(s: State, handle: CommandHandle, outcome: CommandOutcome)
    requires Valid(s) && s.tracker.IsPending(handle)
    ensures Valid(s.(tracker := s.tracker.Forget(handle), awaited := s.awaited + [CommandResolution(handle, outcome)]))
  {
    hide IdsValid, LedgerValid, Tracker.Forget, Tracker.IsPending;
    ForgetLeavesQueues(s.tracker, handle);
    ForgetKeepsIds(s, handle, s.awaited + [CommandResolution(handle, outcome)]);
    ForgetKeepsLedger(s, handle, CommandResolution(handle, outcome));
  }

  lemma ForgetKeepsIds(s: State, handle: CommandHandle, awaited: seq<CommandResolution>)
    requires IdsValid(s) && s.tracker.IsPending(handle)
    ensures IdsValid(s.(tracker := s.tracker.Forget(handle), awaited := awaited))
  {
    hide Minted, Tracker.Forget, Tracker.IsPending;
    var u := s.(tracker := s.tracker.Forget(handle), awaited := awaited);
    if s.minted <= CYCLE {
      ForgetReleases(s.tracker, handle);
      var k: nat :| k < |s.tracker.pending| && s.tracker.Forget(handle).pending == Without(s.tracker.pending, k);
      PendingWithoutKeepsIds(s, k, s.tracker.Forget(handle));
      assert forall id | IdMinted(s.(tracker := s.tracker.Forget(handle)), id) :: IdMinted(u, id);
    }
  }

  lemma ForgetKeepsLedger(s: State, handle: CommandHandle, r: CommandResolution)
    requires Valid(s) && s.tracker.IsPending(handle) && r.handle == handle
    ensures LedgerValid(s.(tracker := s.tracker.Forget(handle), awaited := s.awaited + [r]))
  {
    hide Tracker.Forget, Tracker.IsPending, Held, IdMinted;
    ForgetHolds(s.tracker, handle);
    AddedToMap(ResolvedHandle, s.awaited, r);
    if s.withinCycle {
      ForgetReleases(s.tracker, handle);
    } else if Distinct(s.tracked) {
      PendingOnce(s, handle);
    }
  }

  /** A command tracked once is pending at most once. */
  lemma PendingOnce(s: State, handle: CommandHandle)
    requires LedgerValid(s) && Distinct(s.tracked) && s.tracker.IsPending(handle)
    ensures multiset(Map(HandleOf, s.tracker.pending))[handle] == 1
  {
    var k := PendingIndex(s.tracker, handle);
    assert Map(HandleOf, s.tracker.pending)[k] == handle;
    DistinctCount(s.tracked, handle);
    assert (Held(s.tracker) + Delivered(s))[handle] <= 1;
  }

  lemma ForgetLeavesQueues(t: Tracker, handle: CommandHandle)
    ensures |t.Forget(handle).pending| <= |t.pending|
    ensures t.Forget(handle).ready == t.ready && t.Forget(handle).resolved == t.resolved
    ensures t.pending == [] ==> t.Forget(handle).pending == []
  {
    KeepIsShorter(t.pending, (p: PendingCommand) => p.handle != handle);
  }

  lemma {:induction false} KeepIsShorter<T>(s: seq<T>, f: T -> bool)
    ensures |Keep(s, f)| <= |s|
  {
    if s != [] {
      KeepIsShorter(s[..|s| - 1], f);
    }
  }

  lemma TakeReadyKeeps(s: State, handle: CommandHandle)
    requires Valid(s) && s.tracker.ReadyIndex(handle) < |s.tracker.ready|
    ensures var (t, known) := s.tracker.TakeKnown(handle);
            Valid(s.(tracker := t, awaited := s.awaited + [CommandResolution(handle, known.value)]))
  {
    var (t, known) := s.tracker.TakeKnown(handle);
    var r := CommandResolution(handle, known.value);
    TakeKnownReleases(s.tracker, handle);
    AddedToMap(ResolvedHandle, s.awaited, r);
    var u := s.(tracker := t, awaited := s.awaited + [r]);
    assert forall id | IdMinted(s, id) :: IdMinted(u, id);
  }

  lemma AwaitKeeps(s: State, handle: CommandHandle, dial: Dial, start: nat, wire: Wire)
    requires Valid(s)
    ensures Valid(s.AwaitAck(handle, dial, start, wire).0)
  {
    hide IdsValid, QueuesValid, LedgerValid, State.PollUntil;
    if s.tracker.TakeKnown(handle).1.Some? {
      if s.tracker.ReadyIndex(handle) < |s.tracker.ready| {
        TakeReadyKeeps(s, handle);
      }
    } else if handle.ack == Echoes && s.tracker.IsPending(handle) {
      PollUntilKeeps(s, Answers(handle), dial, start, wire);
      AwaitOnWireKeeps(s, handle, dial, start, wire);
    }
  }

  lemma AwaitOnWireKeeps(s: State, handle: CommandHandle, dial: Dial, start: nat, wire: Wire)
    requires Valid(s) && handle.ack == Echoes && s.tracker.IsPending(handle)
    requires s.tracker.TakeKnown(handle).1.None?
    requires Valid(s.PollUntil(Answers(handle), dial, start, wire).0)
    ensures Valid(s.AwaitAck(handle, dial, start, wire).0)
  {
    hide IdsValid, LedgerValid, State.PollUntil, Tracker.TakeKnown, Tracker.Forget, Tracker.IsPending;
    PollUntilOnSession(s, Answers(handle), dial, start, wire) by {
      assert s.session.Some? by {
        assert s.tracker.pending != [] by { PendingIsSome(s.tracker, handle); }
      }
    }
    var (u, r) := s.PollUntil(Answers(handle), dial, start, wire);
    if r.Ok? || r.error == Timeout {
      ForgetKeeps(u, handle, if r.Ok? && r.value.echo.Some? then Answered(r.value.echo.value.verdict) else TimedOut);
    }
  }

  lemma PendingIsSome(t: Tracker, handle: CommandHandle)
    requires t.IsPending(handle)
    ensures t.pending != []
  {
  }

  lemma GetVersionKeeps(s: State, dial: Dial, published: Option<TransportError>, start: nat, wire: Wire)
    requires Valid(s)
    ensures Valid(s.GetVersion(dial, published, start, wire).0)
  {
    hide IdsValid, QueuesValid, LedgerValid, State.PollUntil, State.Ensure, State.MintId;
    MintKeeps(s);
    EnsureKeeps(s.MintId(), dial);
    var (e, failure) := s.MintId().Ensure(dial);
    if failure.None? && published.None? {
      PollUntilKeeps(e, RepliesVersion(s.MintId().counter), dial, start, wire);
      var u := e.PollUntil(RepliesVersion(s.MintId().counter), dial, start, wire).0;
      EventsKeep(u, s.GetVersion(dial, published, start, wire).0);
    }
  }

  lemma TimeoutKeeps(s: State, timeout: Option<nat>)
    requires Valid(s)
    ensures Valid(s.(timeout := timeout))
  {
    SameCommandsKeep(s, s.(timeout := timeout));
  }

  lemma StepKeeps(s: State, op: Op)
    requires Valid(s)
    ensures Valid(Step(s, op))
  {
    hide Valid, State.Dispatch, State.Poll, State.PollRaw, State.AwaitAck, State.PollUntil, State.GetVersion;
    hide State.Ensure, State.Install, State.MintId, OverlookedIn;
    match op
    case Dispatching(command, ack, dial, published, now) => DispatchKeeps(s, command, ack, dial, published, now);
    case Polling(dial, now, later, read) => PollKeeps(s, dial, now, later, read);
    case PollingRaw(dial, read) => PollRawKeeps(s, dial, read);
    case Awaiting(handle, dial, start, wire) => AwaitKeeps(s, handle, dial, start, wire);
    case Requesting(matcher, dial, start, wire) => PollUntilKeeps(s, matcher, dial, start, wire);
    case GettingVersion(dial, published, start, wire) => GetVersionKeeps(s, dial, published, start, wire);
    case Ensuring(dial) => EnsureKeeps(s, dial);
    case Disconnecting => BoundaryKeeps(s, s.Close());
    case Attaching(clock) => CloseThenInstallKeeps(s, s.Close(), clock);
    case MintingId => MintKeeps(s);
    case SettingTimeout(timeout) => TimeoutKeeps(s, timeout);
  }

  /** Every run of a new client, through any calls and whatever the network and printer do. */
  lemma {:induction false} RunKeeps(s: State, ops: seq<Op>)
    requires Valid(s)
    ensures Valid(Run(s, ops))
    decreases |ops|
  {
    if ops != [] {
      RunKeeps(s, ops[..|ops| - 1]);
      StepKeeps(Run(s, ops[..|ops| - 1]), ops[|ops| - 1]);
    }
  }
}
