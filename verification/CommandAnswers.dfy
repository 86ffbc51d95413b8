/** What the answers about a command mean, in terms of the messages, the clock and the queues. */
module CommandAnswers {
  import opened Wrappers
  import opened Sequences
  import opened SequenceIds
  import opened CommandTracking
  import opened ConnectionCache
  import opened MessageBuffer
  import opened ClientSpec
  import opened MessageWait
  import opened ClientInvariant
  import opened OutcomeDelivery
  import opened PolledHistory

  // ----- waiting for one command -----

  /** What a wait can hear: the buffered messages and then the wire. */
  function Heard(s: State, wire: Wire): (messages: seq<Message>)
    ensures |messages| == |s.Buffered()| + |wire.readings|
  {
    s.Buffered() + Read(wire, 0, |wire.readings|)
  }

  /** The time of a wait is up once `n` messages were read; without a real clock, 200 of them. */
  predicate OutOfTime(s: State, start: nat, wire: Wire, n: nat)
    requires 0 < n <= |wire.readings|
  {
    if s.clockIsReal then
      s.timeout.Some? && (wire.readings[n - 1].now - start) % 0x1_0000_0000_0000_0000 >= s.timeout.value
    else n >= 200
  }

  /** The `i`-th message heard is the first one to carry the echo, and comes before the time is up. */
  ghost predicate EchoInTime(s: State, handle: CommandHandle, start: nat, wire: Wire, i: nat) {
    && i < |Heard(s, wire)| && CarriesEcho(Heard(s, wire)[i], handle)
    && (forall j | 0 <= j < i :: !CarriesEcho(Heard(s, wire)[j], handle))
    && (forall n | 0 < n <= i - |s.Buffered()| :: !OutOfTime(s, start, wire, n))
  }

  /** The time is up before any echo is heard. */
  ghost predicate TimeRunsOut(s: State, handle: CommandHandle, start: nat, wire: Wire) {
    exists n | 0 < n <= |wire.readings| :: UpAfter(s, handle, start, wire, n)
  }

  ghost predicate UpAfter(s: State, handle: CommandHandle, start: nat, wire: Wire, n: nat)
    requires 0 < n <= |wire.readings|
  {
    && OutOfTime(s, start, wire, n)
    && forall j | 0 <= j < |s.Buffered()| + n :: !CarriesEcho(Heard(s, wire)[j], handle)
  }

  /** How a wait for the echo ended: what was heard, or else the time, or else the wire. */
  ghost predicate HeardEnd(s: State, handle: CommandHandle, start: nat, wire: Wire, r: Result<Message, Error>) {
    || (exists i: nat :: EchoInTime(s, handle, start, wire, i) && r == Ok(Heard(s, wire)[i]))
    || (TimeRunsOut(s, handle, start, wire) && r == Err(Timeout))
    || (&& (forall m <- Heard(s, wire) :: !CarriesEcho(m, handle))
        && (forall n | 0 < n <= |wire.readings| :: !OutOfTime(s, start, wire, n))
        && r == Err(Transport(wire.failure)))
  }

  lemma HeardAt(s: State, wire: Wire)
    ensures forall i | 0 <= i < |s.Buffered()| :: Heard(s, wire)[i] == s.Buffered()[i]
    ensures forall n | 0 <= n < |wire.readings| :: Heard(s, wire)[|s.Buffered()| + n] == wire.readings[n].message
  {
  }

  lemma SpentIsOutOfTime(s: State, start: nat, wire: Wire, n: nat)
    requires 0 < n <= |wire.readings|
    ensures Spent(s.Budget(start), wire, n) <==> OutOfTime(s, start, wire, n)
  {
  }

  lemma AnswersIsEcho(handle: CommandHandle, m: Message)
    ensures Answers(handle)(m) <==> CarriesEcho(m, handle)
  {
  }

  /** A wait on the wire that nothing in the buffer ended. */
  lemma WireHears(s: State, handle: CommandHandle, start: nat, wire: Wire, n: nat, r: Result<Message, Error>)
    requires forall m <- s.Buffered() :: !Answers(handle)(m)
    requires Waited(Answers(handle), s.Budget(start), wire, 0, n)
    requires EndedWith(Answers(handle), s.Budget(start), wire, 0, n, r)
    ensures HeardEnd(s, handle, start, wire, r)
  {
    hide Heard, CarriesEcho, Spent, OutOfTime, Answers;
    var size := |s.Buffered()|;
    HeardAt(s, wire);
    forall j | 0 <= j < size + n
      ensures !CarriesEcho(Heard(s, wire)[j], handle)
    {
      AnswersIsEcho(handle, Heard(s, wire)[j]);
      assert j >= size ==> Heard(s, wire)[size + (j - size)] == wire.readings[j - size].message;
      assert j < size ==> Heard(s, wire)[j] in s.Buffered();
    }
    forall k | 0 < k <= |wire.readings|
      ensures Spent(s.Budget(start), wire, k) <==> OutOfTime(s, start, wire, k)
    {
      SpentIsOutOfTime(s, start, wire, k);
    }
    if r == Err(Timeout) {
      assert UpAfter(s, handle, start, wire, n);
    } else if n < |wire.readings| {
      assert Heard(s, wire)[size + n] == wire.readings[n].message;
      AnswersIsEcho(handle, wire.readings[n].message);
      assert EchoInTime(s, handle, start, wire, size + n);
    } else {
      assert |Heard(s, wire)| == size + n;
    }
  }

  lemma PollHears(s: State, handle: CommandHandle, dial: Dial, start: nat, wire: Wire)
    requires s.session.Some? && TotalSize(s.Buffered()) <= PENDING_BUFFER_MAX_BYTES
    ensures HeardEnd(s, handle, start, wire, s.PollUntil(Answers(handle), dial, start, wire).1)
  {
    hide State.PollUntil, Waited, EndedWith, Heard, CarriesEcho, OutOfTime, TotalSize, Fit, TimeRunsOut;
    var n := SessionConserves(s, Answers(handle), dial, start, wire);
    var b, k := s.Buffered(), Position(s.Buffered(), Answers(handle));
    var r := s.PollUntil(Answers(handle), dial, start, wire).1;
    if k < |b| {
      HeardAt(s, wire);
      forall j | 0 <= j <= k
        ensures CarriesEcho(Heard(s, wire)[j], handle) <==> j == k
      {
        AnswersIsEcho(handle, b[j]);
      }
      assert EchoInTime(s, handle, start, wire, k);
    } else {
      WireHears(s, handle, start, wire, n, r);
    }
  }

  /** A wait ends in one way only. */
  lemma HeardOnce(s: State, handle: CommandHandle, start: nat, wire: Wire, i: nat, j: nat)
    requires EchoInTime(s, handle, start, wire, i)
    ensures EchoInTime(s, handle, start, wire, j) ==> j == i
    ensures !TimeRunsOut(s, handle, start, wire)
  {
    hide Heard, CarriesEcho, OutOfTime;
  }

  /** What `await_ack` makes of the end of the wait. */
  lemma AwaitIsWait(s: State, handle: CommandHandle, dial: Dial, start: nat, wire: Wire)
    requires s.tracker.IsPending(handle) && handle.ack == Echoes && !HandleStillKnown(s, handle)
    ensures var (u, m) := s.PollUntil(Answers(handle), dial, start, wire);
            var (t, r) := s.AwaitAck(handle, dial, start, wire);
            && (m.Err? && m.error != Timeout ==> t == u && r == Err(m.error))
            && (m.Ok? && m.value.echo.Some? ==> r == Ok(Answered(m.value.echo.value.verdict)))
            && (m == Err(Timeout) ==> r == Ok(TimedOut))
            && (m.Ok? || m == Err(Timeout) ==> t.tracker == u.tracker.Forget(handle))
  {
    hide State.PollUntil, Tracker.Forget;
    PositionIs(s.tracker.ready, (r: CommandResolution) => r.handle == handle, |s.tracker.ready|);
    PositionIs(s.tracker.resolved, (r: CommandResolution) => r.handle == handle, |s.tracker.resolved|);
  }

  /**
   What `await_ack` returns for a pending command that no older outcome is known for. It is the
   verdict of the first echo heard, exactly when one is heard before the time is up, and `TimedOut`
   exactly when the time is up first; either way the command is settled. Otherwise, and only then,
   it is the failure of the wire, and the command is still pending.
   */
  lemma AwaitReturnsWhatIsHeard(s: State, handle: CommandHandle, dial: Dial, start: nat, wire: Wire)
    requires Valid(s) && s.tracker.IsPending(handle) && handle.ack == Echoes && !HandleStillKnown(s, handle)
    ensures var (t, r) := s.AwaitAck(handle, dial, start, wire);
            && (forall v: Verdict :: r == Ok(Answered(v)) <==>
                  exists i: nat :: EchoInTime(s, handle, start, wire, i) && Heard(s, wire)[i].echo.value.verdict == v)
            && (r == Ok(TimedOut) <==> TimeRunsOut(s, handle, start, wire))
            && (r.Ok? ==> !t.tracker.IsPending(handle) && (r.value.Answered? || r.value.TimedOut?))
            && (r.Err? ==> r == Err(Transport(wire.failure)) && t.tracker.IsPending(handle))
  {
    hide State.PollUntil, State.AwaitAck, Heard, OutOfTime, TimeRunsOut, Tracker.Forget, HandleStillKnown;
    hide IdsValid, LedgerValid, TotalSize;
    PendingIsSome(s.tracker, handle);
    assert s.session.Some?;
    BufferedFits(s);
    PollHears(s, handle, dial, start, wire);
    PollUntilOnSession(s, Answers(handle), dial, start, wire);
    AwaitIsWait(s, handle, dial, start, wire);
    ForgottenIsNotPending(s.tracker, handle);
    var m := s.PollUntil(Answers(handle), dial, start, wire).1;
    if i: nat :| EchoInTime(s, handle, start, wire, i) {
      forall j: nat
        ensures EchoInTime(s, handle, start, wire, j) ==> j == i
        ensures !TimeRunsOut(s, handle, start, wire)
      {
        HeardOnce(s, handle, start, wire, i, j);
      }
      assert Heard(s, wire)[i] in Heard(s, wire);
      assert m == Ok(Heard(s, wire)[i]);
    } else {
      assert m == Err(Timeout) || m == Err(Transport(wire.failure));
      NoEchoNoTime(s, handle, start, wire, m);
    }
  }

  lemma NoEchoNoTime(s: State, handle: CommandHandle, start: nat, wire: Wire, m: Result<Message, Error>)
    requires HeardEnd(s, handle, start, wire, m) && !(exists i: nat :: EchoInTime(s, handle, start, wire, i))
    ensures m == Err(Timeout) <==> TimeRunsOut(s, handle, start, wire)
  {
    hide Heard, OutOfTime, CarriesEcho;
  }

  // ----- the answers that need no wait -----

  /**
   Without a wait: a command that never echoes is settled, and one whose outcome is queued gets the
   oldest one queued under its handle, which is taken. A handle nothing is held for is refused.
   */
  lemma AwaitWithoutWaiting(s: State, handle: CommandHandle, dial: Dial, start: nat, wire: Wire)
    ensures var (t, r) := s.AwaitAck(handle, dial, start, wire);
            && (handle.ack == SettlesOnPublish ==> t == s && r == Ok(SettledOnPublish))
            && (forall k | 0 <= k < |s.tracker.ready| && IsFirstReady(s.tracker.ready, handle, k) ::
                  handle.ack == Echoes ==>
                    && r == Ok(s.tracker.ready[k].outcome)
                    && t.tracker == s.tracker.(ready := s.tracker.ready[..k] + s.tracker.ready[k + 1..]))
            && (handle.ack == Echoes && IsUnknown(s, handle) ==> t == s && r == Err(InvalidArgument))
  {
    hide State.PollUntil, Tracker.Forget;
    forall k | 0 <= k < |s.tracker.ready| && IsFirstReady(s.tracker.ready, handle, k)
      ensures s.tracker.ReadyIndex(handle) == k
    {
      PositionIs(s.tracker.ready, (r: CommandResolution) => r.handle == handle, k);
    }
    if IsUnknown(s, handle) {
      PositionIs(s.tracker.ready, (r: CommandResolution) => r.handle == handle, |s.tracker.ready|);
      PositionIs(s.tracker.resolved, (r: CommandResolution) => r.handle == handle, |s.tracker.resolved|);
    }
  }

  /** No outcome is queued or remembered under the handle, and no command is pending under it. */
  predicate IsUnknown(s: State, handle: CommandHandle) {
    && (forall r <- s.tracker.ready :: r.handle != handle)
    && (forall r <- s.tracker.resolved :: r.handle != handle)
    && (forall p <- s.tracker.pending :: p.handle != handle)
  }

  predicate IsFirstReady(ready: seq<CommandResolution>, handle: CommandHandle, k: nat)
    requires k < |ready|
  {
    ready[k].handle == handle && forall i | 0 <= i < k :: ready[i].handle != handle
  }

  // ----- the queues -----

  /** The command is past its deadline at `now`. */
  predicate IsOverdue(p: PendingCommand, now: nat) {
    p.deadline.Some? && p.deadline.value <= now
  }

  /** The `k`-th command is the oldest one past its deadline. */
  predicate IsFirstOverdue(pending: seq<PendingCommand>, now: nat, k: nat) {
    k < |pending| && IsOverdue(pending[k], now) && forall i | 0 <= i < k :: !IsOverdue(pending[i], now)
  }

  /** Of the outcomes that need no message a queued one comes first, and then the oldest command overdue. */
  lemma OldestOverdueTimesOut(t: Tracker, now: nat, k: nat)
    ensures var (u, r) := t.NextUnanswered(Some(now));
            && (t.ready != [] ==> r == Some(t.ready[0]) && u == t.(ready := t.ready[1..]))
            && (t.ready == [] && IsFirstOverdue(t.pending, now, k) ==>
                  && r == Some(CommandResolution(t.pending[k].handle, TimedOut))
                  && u == t.(pending := t.pending[..k] + t.pending[k + 1..]))
            && (t.ready == [] && (forall p <- t.pending :: !IsOverdue(p, now)) ==> r == None && u == t)
    ensures t.NextUnanswered(None) == if t.ready == [] then (t, None) else (t.(ready := t.ready[1..]), Some(t.ready[0]))
  {
    if t.ready == [] {
      if IsFirstOverdue(t.pending, now, k) {
        PositionIs(t.pending, (p: PendingCommand) => p.Expired(now), k);
      } else if forall p <- t.pending :: !IsOverdue(p, now) {
        assert forall i | 0 <= i < |t.pending| :: !IsOverdue(t.pending[i], now);
        PositionIs(t.pending, (p: PendingCommand) => p.Expired(now), |t.pending|);
      }
    }
  }

  /** An echo is taken by the oldest pending command with its name and id, and by no other. */
  lemma EchoTakesOldest(t: Tracker, m: Message, k: nat)
    requires m.echo.Some?
    ensures var (u, handle) := t.TakeAnswered(m.echo.value);
            && (k < |t.pending| && CarriesEcho(m, t.pending[k].handle)
                && (forall i | 0 <= i < k :: !CarriesEcho(m, t.pending[i].handle)) ==>
                  handle == Some(t.pending[k].handle) && u == t.(pending := t.pending[..k] + t.pending[k + 1..]))
            && ((forall p <- t.pending :: !CarriesEcho(m, p.handle)) ==> handle == None && u == t)
  {
    var answered := (p: PendingCommand) => p.handle.IsAnsweredBy(m.echo.value);
    if k < |t.pending| && CarriesEcho(m, t.pending[k].handle)
       && forall i | 0 <= i < k :: !CarriesEcho(m, t.pending[i].handle) {
      PositionIs(t.pending, answered, k);
    } else if forall p <- t.pending :: !CarriesEcho(m, p.handle) {
      PositionIs(t.pending, answered, |t.pending|);
    }
  }

  /** The end of a connection loses every pending command, in the order they were published. */
  lemma BoundaryLosesPending(s: State)
    ensures var t, n := s.BeginConnection().tracker, |s.tracker.ready|;
            && t.pending == [] && t.resolved == s.tracker.resolved
            && |t.ready| == n + |s.tracker.pending|
            && t.ready[..n] == s.tracker.ready
            && forall i | 0 <= i < |s.tracker.pending| ::
                 t.ready[n + i] == CommandResolution(s.tracker.pending[i].handle, ConnectionLost)
  {
  }

  /**
   A published command is pending on the connection under the id it was given, last in the queue. With a real clock
   and a timeout it is overdue from the timeout on, or when the clock can count no further.
   The 201st command gives up on the oldest one.
   */
  lemma PublishedIsPending(s: State, command: string, ack: AckExpectation, dial: Dial,
                           published: Option<TransportError>, now: nat, at: nat)
    requires s.Dispatch(command, ack, dial, published, now).1.Ok?
    ensures var (t, r) := s.Dispatch(command, ack, dial, published, now);
            var e, handle := s.Ensure(dial).0.tracker, r.value;
            && handle.command == command && handle.ack == ack && handle.sequenceId == t.counter
            && published.None?
            && (ack == SettlesOnPublish ==> t.tracker == e && t.tracked == s.tracked)
            && (ack == Echoes ==>
                  && t.tracked == s.tracked + [handle]
                  && t.tracker.pending != []
                  && var p := t.tracker.pending[|t.tracker.pending| - 1];
                     && p.handle == handle
                     && (IsOverdue(p, at) <==>
                           s.clockIsReal && s.timeout.Some?
                           && (at >= now + s.timeout.value || at >= 0xFFFF_FFFF_FFFF_FFFF))
                     && t.tracker.pending[..|t.tracker.pending| - 1]
                        == (if |e.pending| < 200 then e.pending else e.pending[1..])
                     && t.tracker.ready
                        == e.ready + if |e.pending| < 200 then []
                                             else [CommandResolution(e.pending[0].handle, TimedOut)])
  {
    hide State.Ensure;
    EnsuredSession(s, dial);
    EnsureLeaves(s, dial);
  }

  lemma EnsureLeaves(s: State, dial: Dial)
    ensures var e := s.Ensure(dial).0;
            e.timeout == s.timeout && e.tracked == s.tracked
  {
  }

  /** A publish that fails tracks nothing, and fails as the dial or the wire did. */
  lemma FailedPublishTracksNothing(s: State, command: string, ack: AckExpectation, dial: Dial,
                                   published: Option<TransportError>, now: nat)
    requires s.Dispatch(command, ack, dial, published, now).1.Err?
    ensures var (t, r) := s.Dispatch(command, ack, dial, published, now);
            && t.tracker == s.Ensure(dial).0.tracker && t.tracked == s.tracked
            && (|| (s.session.None? && dial.Unreachable? && r.error == Transport(dial.error))
                || (published.Some? && r.error == Transport(published.value)))
  {
    hide State.Ensure;
    EnsureLeaves(s, dial);
    EnsureFails(s, dial);
  }

  /** A connection that is made begins with an empty buffer, and every command of the one before is lost. */
  lemma ConnectingBegins(s: State, clock: nat)
    requires s.session.None?
    ensures var (t, failure) := s.Ensure(Reachable(clock));
            && failure.None? && t.session == Some([]) && t.events == s.events + [Boundary]
            && t.tracker == s.BeginConnection().tracker && t.arrivals == []
    ensures forall e: TransportError :: s.Ensure(Unreachable(e)) == (s, Some(Transport(e)))
  {
  }

  // ----- the counter of a session -----

  /**
   Two sessions seeded from clock readings less than a cycle apart begin with different ids. Without
   a real clock a session goes on from the counter there was.
   */
  lemma SessionsBeginApart(s: State, t: State, a: nat, b: nat)
    requires s.clockIsReal && t.clockIsReal && a < b < a + 2_147_453_647
    ensures s.Install(a).counter != t.Install(b).counter
    ensures forall u: State, clock: nat | !u.clockIsReal && 30_000 <= u.counter < 2_147_483_646 ::
              u.Install(clock).counter == u.counter + 1
  {
    SeedsDiffer(a, b);
    assert forall x: nat, y: nat | InRange(x) && InRange(y) && x != y :: Next(x) != Next(y);
  }

  // ----- polling -----

  /** An outcome that needs no message is there when one is queued or, by a real clock, a command is overdue. */
  lemma NoOutcomeMeansNone(s: State, now: nat)
    requires s.NextUnansweredOutcome(now).1.None?
    ensures s.NextUnansweredOutcome(now).0 == s
    ensures s.tracker.ready == []
    ensures s.clockIsReal ==> forall p <- s.tracker.pending :: !IsOverdue(p, now)
  {
  }

  lemma PollConnectedReads(s: State, later: nat, read: Result<Message, TransportError>)
    requires s.session == Some([])
    requires var r := s.PollConnected(later, read).1;
             r.Ok? && MessageOf(r.value).Some?
    ensures s.tracker.ready == []
    ensures s.clockIsReal ==> forall p <- s.tracker.pending :: !IsOverdue(p, later)
    ensures read == Ok(MessageOf(s.PollConnected(later, read).1.value).value)
  {
    hide State.NextUnansweredOutcome, State.Classify, IsOverdue;
    NoOutcomeMeansNone(s, later);
    var u := s.NextUnansweredOutcome(later).0;
    if read.Ok? {
      var t := u.TakeMessage(read).0;
      ClassifyReturns(t.Polled(|s.received|), read.value, |s.received|);
    }
  }

  /**
   A poll reads the wire only when no message is buffered, no outcome is queued and, by a real
   clock, no command is overdue.
   */
  lemma PollReadsWireLast(s: State, dial: Dial, now: nat, later: nat, read: Result<Message, TransportError>)
    requires var r := s.Poll(dial, now, later, read).1;
             s.Buffered() == [] && r.Ok? && MessageOf(r.value).Some?
    ensures s.tracker.ready == []
    ensures s.clockIsReal ==> forall p <- s.tracker.pending :: !IsOverdue(p, now)
    ensures s.session.Some? && s.clockIsReal ==> forall p <- s.tracker.pending :: !IsOverdue(p, later)
    ensures read == Ok(MessageOf(s.Poll(dial, now, later, read).1.value).value)
  {
    hide State.NextUnansweredOutcome, State.PollConnected, IsOverdue;
    var u := s.NextUnansweredOutcome(now).0;
    NoOutcomeMeansNone(s, now);
    EnsuredSession(u, dial);
    PollConnectedReads(u.Ensure(dial).0, later, read);
  }

  /**
   What a poll returns: the oldest buffered message, else the oldest queued outcome, else a timeout
   for the oldest command overdue. It fails only with the failure of its dial or of the wire.
   */
  lemma PollPrefers(s: State, dial: Dial, now: nat, later: nat, read: Result<Message, TransportError>, k: nat)
    ensures var r := s.Poll(dial, now, later, read).1;
            && (s.Buffered() != [] ==> r.Ok? && MessageOf(r.value) == Some(s.Buffered()[0]))
            && (s.Buffered() == [] && s.tracker.ready != [] ==> r == Ok(CommandEvent(s.tracker.ready[0], None)))
            && (s.Buffered() == [] && s.tracker.ready == [] ==>
                  s.clockIsReal && IsFirstOverdue(s.tracker.pending, now, k) ==>
                    r == Ok(CommandEvent(CommandResolution(s.tracker.pending[k].handle, TimedOut), None)))
            && (r.Err? ==> || (s.session.None? && dial.Unreachable? && r.error == Transport(dial.error))
                           || (read.Err? && r.error == Transport(read.error)))
  {
    hide State.Classify, State.PollConnected, State.Ensure, Tracker.Remember;
    if s.Buffered() != [] {
      ClassifyReturns(s.PopBuffered().Polled(s.ArrivalAt(0)), s.session.value[0], s.ArrivalAt(0));
    } else {
      OldestOverdueTimesOut(s.tracker, now, k);
      var u := s.NextUnansweredOutcome(now).0;
      var (e, failure) := u.Ensure(dial);
      EnsureFails(u, dial);
      if failure.None? {
        EnsuredSession(u, dial);
        PollConnectedFails(e, later, read);
      }
    }
  }

  lemma EnsureFails(s: State, dial: Dial)
    ensures var failure := s.Ensure(dial).1;
            failure.Some? ==> s.session.None? && dial.Unreachable? && failure.value == Transport(dial.error)
  {
  }

  lemma PollConnectedFails(s: State, later: nat, read: Result<Message, TransportError>)
    requires s.session.Some?
    ensures var r := s.PollConnected(later, read).1;
            r.Err? ==> read.Err? && r.error == Transport(read.error)
  {
    hide State.Classify, Tracker.Remember, Tracker.NextUnanswered;
  }

  /** A raw poll hands out the oldest buffered message, or else the next one off the wire. */
  lemma RawPollReturns(s: State, dial: Dial, read: Result<Message, TransportError>)
    ensures var (t, r) := s.PollRaw(dial, read);
            && (s.Buffered() != [] ==> r == Ok(s.Buffered()[0]) && t.session == Some(s.Buffered()[1..]))
            && (s.Buffered() == [] && (s.session.Some? || dial.Reachable?) ==>
                  && t.session == Some([])
                  && if read.Ok? then r == Ok(read.value) && t.received == s.received + [read.value]
                     else r == Err(Transport(read.error)) && t.received == s.received)
            && (s.session.None? && dial.Unreachable? ==> r == Err(Transport(dial.error)) && t == s)
  {
    hide OverlookedIn, FirstN, LastN;
  }
}
