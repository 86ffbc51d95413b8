/**
 The history of accepted start commands, kept by every run of the client.

 An accepted start reaches the cache only when `poll_telemetry` classifies its echo. Any other call
 that takes the echo, and the loss of a buffered one, passes the cache by. Either way the history
 has it, with its place among the messages received.
 */
module StartHistory {
  import opened Wrappers
  import opened Sequences
  import opened CommandTracking
  import opened ConnectionCache
  import opened MessageBuffer
  import opened ClientSpec
  import opened MessageWait
  import opened ClientInvariant
  import opened JobPlate

  /** What is buffered is what was received at `arrivals`, in order. */
  ghost predicate Buffers(buffer: seq<Message>, arrivals: seq<nat>, received: seq<Message>) {
    && |buffer| == |arrivals|
    && (forall i | 0 <= i < |arrivals| :: arrivals[i] < |received| && received[arrivals[i]] == buffer[i])
    && (forall i, j | 0 <= i < j < |arrivals| :: arrivals[i] < arrivals[j])
  }

  /** A logged start is an accepted one that was received, and is no longer buffered. */
  ghost predicate IsReceived(e: Event, arrivals: seq<nat>, received: seq<Message>) {
    IsStart(e) ==>
      && e.arrival < |received|
      && IsAcceptedStart(received[e.arrival])
      && e.fields == StartFieldsOf(received[e.arrival])
      && e.arrival !in arrivals
  }

  predicate IsLogged(events: seq<Event>, at: nat) {
    exists e <- events :: IsStart(e) && e.arrival == at
  }

  /**
   Every accepted start received is either still buffered or logged, and logged once. The logged
   starts that were classified are in the order they were received, before all that is buffered.
   */
  ghost predicate Accounted(buffer: seq<Message>, arrivals: seq<nat>, received: seq<Message>, events: seq<Event>) {
    Buffers(buffer, arrivals, received) && LogAccounted(arrivals, received, events)
  }

  ghost predicate LogAccounted(arrivals: seq<nat>, received: seq<Message>, events: seq<Event>) {
    && (forall e <- events :: IsReceived(e, arrivals, received))
    && (forall at: nat | at < |received| && IsAcceptedStart(received[at]) :: at in arrivals || IsLogged(events, at))
    && LoggedOnce(events)
    && ClassifiedInOrder(events)
    && (forall e <- events, at <- arrivals | e.Started? :: e.arrival < at)
  }

  ghost predicate StartsAccounted(s: State) {
    Accounted(s.Buffered(), s.arrivals, s.received, s.events)
  }

  // ----- what can happen to a message -----

  lemma ReceiveKeeps(buffer: seq<Message>, arrivals: seq<nat>, received: seq<Message>, events: seq<Event>,
                     m: seq<Message>)
    requires Accounted(buffer, arrivals, received, events)
    ensures Accounted(buffer + m, arrivals + Range(|received|, |m|), received + m, events)
  {
    var arrivals', received' := arrivals + Range(|received|, |m|), received + m;
    forall e | e in events
      ensures IsReceived(e, arrivals', received')
    {
      assert IsReceived(e, arrivals, received);
    }
    forall at: nat | at < |received'| && IsAcceptedStart(received'[at])
      ensures at in arrivals' || IsLogged(events, at)
    {
      if at < |received| {
        assert received'[at] == received[at];
      } else {
        assert arrivals'[|arrivals| + (at - |received|)] == at;
      }
    }
  }

  /** A message that leaves without being classified is logged if it is an accepted start. */
  lemma LeaveKeeps(buffer: seq<Message>, arrivals: seq<nat>, received: seq<Message>, events: seq<Event>, k: nat)
    requires Accounted(buffer, arrivals, received, events) && k < |buffer|
    ensures var log := events + OverlookedIn([buffer[k]], [arrivals[k]]);
            Accounted(Without(buffer, k), Without(arrivals, k), received, log)
  {
    var m, at, rest := buffer[k], arrivals[k], Without(arrivals, k);
    WithoutAscends(arrivals, k);
    assert OverlookedIn([], []) == [];
    if IsAcceptedStart(m) {
      var e := Overlooked(StartFieldsOf(m), at);
      assert OverlookedIn([m], [at]) == [e];
      LogOne(arrivals, rest, at, received, events, e);
    } else {
      assert OverlookedIn([m], [at]) == [];
      assert events + [] == events;
      LogNone(arrivals, rest, at, received, events);
    }
    assert Buffers(Without(buffer, k), rest, received);
  }

  lemma WithoutAscends(arrivals: seq<nat>, k: nat)
    requires k < |arrivals| && forall i, j | 0 <= i < j < |arrivals| :: arrivals[i] < arrivals[j]
    ensures var rest := Without(arrivals, k);
            && (forall i, j | 0 <= i < j < |rest| :: rest[i] < rest[j])
            && forall at :: at in rest <==> at in arrivals && at != arrivals[k]
  {
    var rest := Without(arrivals, k);
    forall at | at in arrivals && at != arrivals[k]
      ensures at in rest
    {
      var i :| 0 <= i < |arrivals| && arrivals[i] == at;
      assert rest[if i < k then i else i - 1] == at;
    }
    forall at | at in rest
      ensures at in arrivals && at != arrivals[k]
    {
      var i :| 0 <= i < |rest| && rest[i] == at;
      assert arrivals[if i < k then i else i + 1] == at;
    }
  }

  lemma LogNone(arrivals: seq<nat>, rest: seq<nat>, at: nat, received: seq<Message>, events: seq<Event>)
    requires LogAccounted(arrivals, received, events)
    requires forall a :: a in rest <==> a in arrivals && a != at
    requires at < |received| && !IsAcceptedStart(received[at])
    ensures LogAccounted(rest, received, events)
  {
    forall e | e in events
      ensures IsReceived(e, rest, received)
    {
      assert IsReceived(e, arrivals, received);
    }
  }

  lemma LogOne(arrivals: seq<nat>, rest: seq<nat>, at: nat, received: seq<Message>, events: seq<Event>, e: Event)
    requires LogAccounted(arrivals, received, events)
    requires forall a :: a in rest <==> a in arrivals && a != at
    requires at in arrivals && at < |received| && IsAcceptedStart(received[at])
    requires IsStart(e) && e.arrival == at && e.fields == StartFieldsOf(received[at])
    requires e.Started? ==> forall a <- rest :: at < a
    ensures LogAccounted(rest, received, events + [e])
  {
    var log := events + [e];
    forall x | x in log
      ensures IsReceived(x, rest, received)
    {
      if x in events {
        assert IsReceived(x, arrivals, received);
      }
    }
    forall a: nat | a < |received| && IsAcceptedStart(received[a])
      ensures a in rest || IsLogged(log, a)
    {
      if a == at {
        assert e in log;
      } else if a !in arrivals {
        var x :| x in events && IsStart(x) && x.arrival == a;
        assert x in log;
      }
    }
    assert forall i | 0 <= i < |events| :: log[i] == events[i] && IsReceived(events[i], arrivals, received);
    assert forall i | 0 <= i < |events| && log[i].Started? :: log[i] in events;
  }

  /** So do the oldest `n` messages together. */
  lemma {:induction false} LeaveFrontKeeps(buffer: seq<Message>, arrivals: seq<nat>, received: seq<Message>,
                                           events: seq<Event>, n: nat)
    requires Accounted(buffer, arrivals, received, events) && n <= |buffer|
    ensures Accounted(buffer[n..], arrivals[n..], received, events + OverlookedIn(buffer[..n], arrivals[..n]))
    decreases n
  {
    hide Accounted;
    assert |buffer| == |arrivals| by { AccountedBuffers(buffer, arrivals, received, events); }
    if n == 0 {
      assert buffer[0..] == buffer && arrivals[0..] == arrivals;
      assert OverlookedIn([], arrivals[..0]) == [] && events + [] == events;
    } else {
      LeaveKeeps(buffer, arrivals, received, events, 0);
      var one := OverlookedIn([buffer[0]], [arrivals[0]]);
      var buffer', arrivals' := buffer[1..], arrivals[1..];
      assert Without(buffer, 0) == buffer' && Without(arrivals, 0) == arrivals';
      LeaveFrontKeeps(buffer', arrivals', received, events + one, n - 1);
      assert buffer'[n - 1..] == buffer[n..] && arrivals'[n - 1..] == arrivals[n..];
      assert buffer'[..n - 1] == buffer[..n][1..] && arrivals'[..n - 1] == arrivals[..n][1..];
      OverlookedSplits(buffer[..n], arrivals[..n]);
      assert (events + one) + OverlookedIn(buffer'[..n - 1], arrivals'[..n - 1])
          == events + OverlookedIn(buffer[..n], arrivals[..n]);
    }
  }

  lemma AccountedBuffers(buffer: seq<Message>, arrivals: seq<nat>, received: seq<Message>, events: seq<Event>)
    requires Accounted(buffer, arrivals, received, events)
    ensures |buffer| == |arrivals|
  {
  }

  lemma OverlookedSplits(messages: seq<Message>, arrivals: seq<nat>)
    requires messages != [] && arrivals != []
    ensures OverlookedIn(messages, arrivals)
         == OverlookedIn([messages[0]], [arrivals[0]]) + OverlookedIn(messages[1..], arrivals[1..])
  {
    hide IsAcceptedStart;
    assert [messages[0]][1..] == [] && [arrivals[0]][1..] == [];
    var one := OverlookedIn([messages[0]], [arrivals[0]]);
    assert OverlookedIn([], []) == [];
    assert one == if IsAcceptedStart(messages[0]) then [Overlooked(StartFieldsOf(messages[0]), arrivals[0])] else [];
  }

  /** Only the arrivals of the messages themselves matter. */
  lemma {:induction false} OverlookedTruncates(messages: seq<Message>, arrivals: seq<nat>)
    requires |messages| <= |arrivals|
    ensures OverlookedIn(messages, arrivals) == OverlookedIn(messages, arrivals[..|messages|])
    decreases |messages|
  {
    if messages != [] {
      OverlookedTruncates(messages[1..], arrivals[1..]);
      assert arrivals[1..][..|messages| - 1] == arrivals[..|messages|][1..];
    }
  }

  lemma OtherEventKeeps(buffer: seq<Message>, arrivals: seq<nat>, received: seq<Message>, events: seq<Event>, e: Event)
    requires Accounted(buffer, arrivals, received, events) && !IsStart(e)
    ensures Accounted(buffer, arrivals, received, events + [e])
  {
    var log := events + [e];
    forall at: nat | at < |received| && IsAcceptedStart(received[at])
      ensures at in arrivals || IsLogged(log, at)
    {
      if at !in arrivals {
        var x :| x in events && IsStart(x) && x.arrival == at;
        assert x in log;
      }
    }
    assert forall i | 0 <= i < |events| :: log[i] == events[i];
  }

  // ----- the steps the calls are made of -----

  /** The state once `m` was taken out at place `at`: it counts as buffered until it is dealt with. */
  ghost predicate Holding(s: State, m: Message, at: nat) {
    Accounted([m] + s.Buffered(), [at] + s.arrivals, s.received, s.events)
  }

  lemma ClassifyAccounts(s: State, m: Message, at: nat)
    requires Holding(s, m, at)
    ensures StartsAccounted(s.Classify(m, at).0)
  {
    hide Accounted, OverlookedIn;
    var t := s.Classify(m, at).0;
    AccountedBuffers([m] + s.Buffered(), [at] + s.arrivals, s.received, s.events);
    var buffer, arrivals := [m] + s.Buffered(), [at] + s.arrivals;
    assert Without(buffer, 0) == s.Buffered() && Without(arrivals, 0) == s.arrivals;
    LeaveKeeps(buffer, arrivals, s.received, s.events, 0);
    var left := s.events + OverlookedIn([m], [at]);
    if !(m.report.Some? && m.report.value.isPush) && m.echo.Some? {
      if IsAcceptedStart(m) {
        StartedAccounts(s, m, at);
      } else {
        NotStartIsNotLogged(m, at);
        assert s.events + [] == s.events;
      }
    } else if m.report.None? {
      NotStartIsNotLogged(m, at);
      assert s.events + [] == s.events;
    } else if m.report.value.frame.Some? {
      OtherEventKeeps(s.Buffered(), s.arrivals, s.received, left, Report(m.report.value.frame.value));
    }
  }

  lemma NotStartIsNotLogged(m: Message, at: nat)
    requires !IsAcceptedStart(m)
    ensures OverlookedIn([m], [at]) == []
  {
    assert OverlookedIn([m][1..], [at][1..]) == [];
  }

  lemma StartedAccounts(s: State, m: Message, at: nat)
    requires Holding(s, m, at) && IsAcceptedStart(m)
    ensures Accounted(s.Buffered(), s.arrivals, s.received, s.events + [Started(StartFieldsOf(m), at)])
  {
    hide LogAccounted, IsAcceptedStart, OverlookedIn, StartFieldsOf, Without;
    var buffer, arrivals := [m] + s.Buffered(), [at] + s.arrivals;
    assert arrivals[0] == at && buffer[0] == m;
    WithoutFirst<nat>(at, s.arrivals);
    WithoutAscends(arrivals, 0);
    FirstIsLeast(s.arrivals, at);
    LogOne(arrivals, s.arrivals, at, s.received, s.events, Started(StartFieldsOf(m), at));
    BuffersTail(buffer, arrivals, s.received);
    assert buffer[1..] == s.Buffered() && arrivals[1..] == s.arrivals;
  }

  lemma WithoutFirst<T>(x: T, s: seq<T>)
    ensures Without([x] + s, 0) == s
  {
  }

  lemma FirstIsLeast(arrivals: seq<nat>, at: nat)
    requires var all := [at] + arrivals;
             forall i, j | 0 <= i < j < |all| :: all[i] < all[j]
    ensures forall a <- arrivals :: at < a
  {
    var all := [at] + arrivals;
    forall a | a in arrivals
      ensures at < a
    {
      var i :| 0 <= i < |arrivals| && arrivals[i] == a;
      assert all[0] < all[i + 1];
    }
  }

  lemma BuffersTail(buffer: seq<Message>, arrivals: seq<nat>, received: seq<Message>)
    requires Buffers(buffer, arrivals, received) && buffer != []
    ensures Buffers(buffer[1..], arrivals[1..], received)
  {
  }

  lemma PolledHolds(s: State, m: Message, at: nat)
    requires Holding(s, m, at)
    ensures Holding(s.Polled(at), m, at)
  {
    hide Accounted;
  }

  lemma PopHolds(s: State)
    requires StartsAccounted(s) && s.Buffered() != []
    ensures Holding(s.PopBuffered(), s.session.value[0], s.ArrivalAt(0))
  {
    hide Accounted;
    AccountedBuffers(s.Buffered(), s.arrivals, s.received, s.events);
    var t := s.PopBuffered();
    assert [s.session.value[0]] + t.Buffered() == s.Buffered();
    assert t.arrivals == s.arrivals[1..];
    assert [s.ArrivalAt(0)] + t.arrivals == s.arrivals;
  }

  lemma TakeMessageHolds(s: State, read: Result<Message, TransportError>)
    requires StartsAccounted(s) && s.session.Some?
    ensures var (t, m) := s.TakeMessage(read);
            if m.Ok? then Holding(t, m.value.message, m.value.arrival) else t == s
  {
    hide Accounted;
    if s.session.value != [] {
      PopHolds(s);
    } else if read.Ok? {
      ReceiveKeeps(s.Buffered(), s.arrivals, s.received, s.events, [read.value]);
      NothingBuffered(s);
      assert [] + [read.value] == [read.value] + [];
      assert [] + Range(|s.received|, 1) == [|s.received|] + [];
    }
  }

  lemma NothingBuffered(s: State)
    requires StartsAccounted(s) && s.Buffered() == []
    ensures s.arrivals == []
  {
  }

  lemma OverlookHeld(s: State, m: Message, at: nat)
    requires Holding(s, m, at)
    ensures StartsAccounted(s.Lose([m], [at]))
  {
    hide Accounted, OverlookedIn;
    var buffer, arrivals := [m] + s.Buffered(), [at] + s.arrivals;
    AccountedBuffers(buffer, arrivals, s.received, s.events);
    assert Without(buffer, 0) == s.Buffered() && Without(arrivals, 0) == s.arrivals;
    LeaveKeeps(buffer, arrivals, s.received, s.events, 0);
  }

  lemma CloseAccounts(s: State)
    requires StartsAccounted(s)
    ensures StartsAccounted(s.Close())
  {
    hide Accounted, OverlookedIn;
    var n := |s.Buffered()|;
    AccountedBuffers(s.Buffered(), s.arrivals, s.received, s.events);
    LeaveFrontKeeps(s.Buffered(), s.arrivals, s.received, s.events, n);
    assert s.Buffered()[..n] == s.Buffered() && s.arrivals[..n] == s.arrivals;
    assert s.Buffered()[n..] == [] && s.arrivals[n..] == [];
  }

  lemma BoundaryAccounts(s: State)
    requires StartsAccounted(s) && s.Buffered() == []
    ensures StartsAccounted(s.BeginConnection())
  {
    OtherEventKeeps(s.Buffered(), s.arrivals, s.received, s.events, Boundary);
  }

  lemma InstallAccounts(s: State, clock: nat)
    requires StartsAccounted(s) && s.Buffered() == []
    ensures StartsAccounted(s.Install(clock))
  {
    NothingBuffered(s);
    BoundaryAccounts(s.(session := Some([]), arrivals := []));
  }

  lemma EnsureAccounts(s: State, dial: Dial)
    requires StartsAccounted(s)
    ensures StartsAccounted(s.Ensure(dial).0)
  {
    hide Accounted;
    if s.session.None? && dial.Reachable? {
      InstallAccounts(s, dial.clock);
    }
  }

  lemma NextUnansweredAccounts(s: State, now: nat)
    requires StartsAccounted(s)
    ensures StartsAccounted(s.NextUnansweredOutcome(now).0)
    ensures s.NextUnansweredOutcome(now).0.session == s.session
  {
    hide Accounted;
  }

  lemma ClaimAccounts(s: State, k: nat)
    requires StartsAccounted(s) && k < |s.Buffered()|
    ensures StartsAccounted(s.ClaimBuffered(k))
  {
    hide Accounted, OverlookedIn;
    AccountedBuffers(s.Buffered(), s.arrivals, s.received, s.events);
    LeaveKeeps(s.Buffered(), s.arrivals, s.received, s.events, k);
  }

  /** After a wait on the wire: the evicted messages left, oldest first, and then the one claimed. */
  lemma AfterWaitAccounts(s: State, wire: Wire, end: WaitEnd)
    requires StartsAccounted(s) && end.taken <= |wire.readings| && (end.result.Ok? ==> 0 < end.taken)
    requires var unmatched := if end.result.Ok? then end.taken - 1 else end.taken;
             end.evicted + end.buffer == s.Buffered() + Read(wire, 0, unmatched)
    requires end.result.Ok? ==> end.result.value == wire.readings[end.taken - 1].message
    ensures StartsAccounted(s.AfterWait(wire, end))
  {
    hide Accounted, OverlookedIn, LastN;
    var unmatched := if end.result.Ok? then end.taken - 1 else end.taken;
    var buffer, n := s.Buffered() + Read(wire, 0, unmatched), |end.evicted|;
    var arrivals := s.arrivals + Range(|s.received|, unmatched);
    AccountedBuffers(s.Buffered(), s.arrivals, s.received, s.events);
    assert |end.evicted + end.buffer| == |buffer|;
    assert buffer[..n] == end.evicted && buffer[n..] == end.buffer;
    LastOfArrivals(arrivals, n, |end.buffer|);
    OverlookedTruncates(end.evicted, arrivals);
    var events := s.events + OverlookedIn(end.evicted, arrivals);
    ReceiveKeeps(s.Buffered(), s.arrivals, s.received, s.events, Read(wire, 0, unmatched));
    LeaveFrontKeeps(buffer, arrivals, s.received + Read(wire, 0, unmatched), s.events, n);
    var t := s.AfterWait(wire, end);
    if end.result.Ok? {
      var m, received := end.result.value, s.received + Read(wire, 0, unmatched);
      assert received + [m] == s.received + Read(wire, 0, end.taken);
      ReceiveKeeps(end.buffer, arrivals[n..], received, events, [m]);
      assert Range(|received|, 1) == [|received|];
      var k := |end.buffer|;
      assert Without(end.buffer + [m], k) == end.buffer && Without(arrivals[n..] + [|received|], k) == arrivals[n..];
      LeaveKeeps(end.buffer + [m], arrivals[n..] + [|received|], received + [m], events, k);
      assert t.events == events + OverlookedIn([m], [|received|]);
    }
  }

  lemma LastOfArrivals(arrivals: seq<nat>, n: nat, k: nat)
    requires n + k == |arrivals|
    ensures LastN(arrivals, k) == arrivals[n..]
  {
  }

  lemma PollUntilAccounts(s: State, matcher: Message -> bool, dial: Dial, start: nat, wire: Wire)
    requires Valid(s) && StartsAccounted(s)
    ensures StartsAccounted(s.PollUntil(matcher, dial, start, wire).0)
  {
    hide Valid, Accounted, State.PollUntil, State.Ensure, State.AfterWait;
    hide State.ClaimBuffered, Wait, Waited, EndedWith, Read;
    EnsureAccounts(s, dial);
    EnsureKeeps(s, dial);
    PollUntilAfterEnsure(s, matcher, dial, start, wire);
    var (e, failure) := s.Ensure(dial);
    if failure.None? {
      PollUntilSplits(e, matcher, dial, start, wire);
      var k := Position(e.Buffered(), matcher);
      if k < |e.Buffered()| {
        ClaimAccounts(e, k);
      } else {
        assert QueuesValid(e) by { ValidQueues(e); }
        BufferedFits(e);
        var n := WaitReads(e.Buffered(), matcher, e.Budget(start), wire, 0);
        AfterWaitAccounts(e, wire, Wait(e.Buffered(), matcher, e.Budget(start), wire, 0));
      }
    }
  }

  lemma ValidQueues(s: State)
    requires Valid(s)
    ensures QueuesValid(s)
  {
  }

  // ----- the calls -----

  lemma PollAccounts(s: State, dial: Dial, now: nat, later: nat, read: Result<Message, TransportError>)
    requires Valid(s) && StartsAccounted(s)
    ensures StartsAccounted(s.Poll(dial, now, later, read).0)
  {
    hide Valid, StartsAccounted, Holding, State.Ensure, State.NextUnansweredOutcome, State.Classify, State.TakeMessage;
    if s.session.Some? && s.session.value != [] {
      PopHolds(s);
      PolledHolds(s.PopBuffered(), s.session.value[0], s.ArrivalAt(0));
      ClassifyAccounts(s.PopBuffered().Polled(s.ArrivalAt(0)), s.session.value[0], s.ArrivalAt(0));
    } else {
      NextUnansweredAccounts(s, now);
      var (s1, r1) := s.NextUnansweredOutcome(now);
      if r1.None? {
        EnsureAccounts(s1, dial);
        var (s2, failure) := s1.Ensure(dial);
        if failure.None? {
          EnsuredSession(s1, dial);
          NextUnansweredAccounts(s2, later);
          var (s3, r3) := s2.NextUnansweredOutcome(later);
          if r3.None? {
            TakeMessageHolds(s3, read);
            var (s4, m) := s3.TakeMessage(read);
            if m.Ok? {
              PolledHolds(s4, m.value.message, m.value.arrival);
              ClassifyAccounts(s4.Polled(m.value.arrival), m.value.message, m.value.arrival);
            }
          }
        }
      }
    }
  }

  lemma PollRawAccounts(s: State, dial: Dial, read: Result<Message, TransportError>)
    requires StartsAccounted(s)
    ensures StartsAccounted(s.PollRaw(dial, read).0)
  {
    hide StartsAccounted, Holding, State.Ensure, State.TakeMessage, State.Lose;
    EnsureAccounts(s, dial);
    var (e, failure) := s.Ensure(dial);
    if failure.None? {
      EnsuredSession(s, dial);
      TakeMessageHolds(e, read);
      var (t, m) := e.TakeMessage(read);
      if m.Ok? {
        OverlookHeld(t, m.value.message, m.value.arrival);
      }
    }
  }

  /** Calls that touch no message and log nothing. */
  lemma SameHistory(s: State, t: State)
    requires StartsAccounted(s) && t.session == s.session && t.arrivals == s.arrivals
    requires t.received == s.received && t.events == s.events
    ensures StartsAccounted(t)
  {
    hide Accounted;
  }

  lemma DispatchAccounts(s: State, command: string, ack: AckExpectation, dial: Dial,
                         published: Option<TransportError>, now: nat)
    requires StartsAccounted(s)
    ensures StartsAccounted(s.Dispatch(command, ack, dial, published, now).0)
  {
    hide StartsAccounted, State.Ensure, Tracker.Track;
    EnsureAccounts(s, dial);
    SameHistory(s.Ensure(dial).0, s.Dispatch(command, ack, dial, published, now).0);
  }

  lemma AwaitAccounts(s: State, handle: CommandHandle, dial: Dial, start: nat, wire: Wire)
    requires Valid(s) && StartsAccounted(s)
    ensures StartsAccounted(s.AwaitAck(handle, dial, start, wire).0)
  {
    hide Valid, StartsAccounted, State.PollUntil, Tracker.TakeKnown, Tracker.Forget, Tracker.IsPending;
    PollUntilAccounts(s, Answers(handle), dial, start, wire);
    var end := s.AwaitAck(handle, dial, start, wire).0;
    if handle.ack == SettlesOnPublish || s.tracker.TakeKnown(handle).1.Some? || !s.tracker.IsPending(handle) {
      SameHistory(s, end);
    } else {
      SameHistory(s.PollUntil(Answers(handle), dial, start, wire).0, end);
    }
  }

  lemma GetVersionAccounts(s: State, dial: Dial, published: Option<TransportError>, start: nat, wire: Wire)
    requires Valid(s) && StartsAccounted(s)
    ensures StartsAccounted(s.GetVersion(dial, published, start, wire).0)
  {
    hide Valid, Accounted, State.PollUntil, State.Ensure, State.MintId;
    MintKeeps(s);
    MintAccounts(s);
    EnsureKeeps(s.MintId(), dial);
    EnsureAccounts(s.MintId(), dial);
    var (e, failure) := s.MintId().Ensure(dial);
    if failure.None? && published.None? {
      var matcher := RepliesVersion(s.MintId().counter);
      PollUntilAccounts(e, matcher, dial, start, wire);
      var (t, r) := e.PollUntil(matcher, dial, start, wire);
      if r.Ok? && r.value.version.Some? && r.value.version.value.firmware.Some? {
        var e := VersionFetched(r.value.version.value.firmware.value);
        OtherEventKeeps(t.Buffered(), t.arrivals, t.received, t.events, e);
      }
    }
  }

  lemma MintAccounts(s: State)
    requires StartsAccounted(s)
    ensures StartsAccounted(s.MintId())
  {
    SameHistory(s, s.MintId());
  }

  lemma DisconnectAccounts(s: State)
    requires StartsAccounted(s)
    ensures StartsAccounted(s.Disconnect())
  {
    hide Accounted, OverlookedIn;
    CloseAccounts(s);
    BoundaryAccounts(s.Close());
  }

  lemma AttachAccounts(s: State, clock: nat)
    requires StartsAccounted(s)
    ensures StartsAccounted(s.Attach(clock))
  {
    hide Accounted, OverlookedIn, State.Install;
    CloseAccounts(s);
    InstallAccounts(s.Close(), clock);
  }

  lemma StepAccounts(s: State, op: Op)
    requires Valid(s) && StartsAccounted(s)
    ensures StartsAccounted(Step(s, op))
  {
    hide Valid, StartsAccounted, State.Dispatch, State.Poll;
    hide State.PollRaw, State.AwaitAck, State.PollUntil, State.GetVersion;
    hide State.Ensure, State.Attach, State.Disconnect, State.MintId;
    match op
    case Dispatching(command, ack, dial, published, now) => DispatchAccounts(s, command, ack, dial, published, now);
    case Polling(dial, now, later, read) => PollAccounts(s, dial, now, later, read);
    case PollingRaw(dial, read) => PollRawAccounts(s, dial, read);
    case Awaiting(handle, dial, start, wire) => AwaitAccounts(s, handle, dial, start, wire);
    case Requesting(matcher, dial, start, wire) => PollUntilAccounts(s, matcher, dial, start, wire);
    case GettingVersion(dial, published, start, wire) => GetVersionAccounts(s, dial, published, start, wire);
    case Ensuring(dial) => EnsureAccounts(s, dial);
    case Disconnecting => DisconnectAccounts(s);
    case Attaching(clock) => AttachAccounts(s, clock);
    case MintingId => MintAccounts(s);
    case SettingTimeout(timeout) => SameHistory(s, s.(timeout := timeout));
  }

  /**
   No accepted start is lost from the history: over every run each one received is logged once, or
   still buffered, and those that `poll_telemetry` classified are logged in the order received.
   */
  lemma {:induction false} RunAccounts(s: State, ops: seq<Op>)
    requires Valid(s) && StartsAccounted(s)
    ensures StartsAccounted(Run(s, ops))
    decreases |ops|
  {
    hide Valid, StartsAccounted, Step;
    if ops != [] {
      RunAccounts(s, ops[..|ops| - 1]);
      RunKeeps(s, ops[..|ops| - 1]);
      StepAccounts(Run(s, ops[..|ops| - 1]), ops[|ops| - 1]);
    }
  }

  lemma NewClientAccounts(clockIsReal: bool, timeout: Option<nat>)
    ensures StartsAccounted(NewClient(clockIsReal, timeout))
  {
  }

  // ----- which calls record a start -----

  lemma {:induction false} OverlookedAreOverlooked(messages: seq<Message>, arrivals: seq<nat>)
    ensures forall e <- OverlookedIn(messages, arrivals) :: e.Overlooked?
    decreases |messages|
  {
    if messages != [] && arrivals != [] {
      OverlookedAreOverlooked(messages[1..], arrivals[1..]);
    }
  }

  /** Whatever was classified as a start in `t` already was in `s`. */
  ghost predicate RecordsNothingNew(s: State, t: State) {
    forall e <- t.events | e.Started? :: e in s.events
  }

  lemma OverlookRecordsNothing(s: State, messages: seq<Message>, at: seq<nat>)
    ensures RecordsNothingNew(s, s.Overlook(messages, at))
  {
    OverlookedAreOverlooked(messages, at);
  }

  lemma EnsureRecordsNothing(s: State, dial: Dial)
    ensures RecordsNothingNew(s, s.Ensure(dial).0)
  {
  }

  lemma PollUntilRecordsNothing(s: State, matcher: Message -> bool, dial: Dial, start: nat, wire: Wire)
    ensures RecordsNothingNew(s, s.PollUntil(matcher, dial, start, wire).0)
  {
    hide State.PollUntil, State.Ensure, Wait, OverlookedIn, Read, LastN;
    EnsureRecordsNothing(s, dial);
    PollUntilAfterEnsure(s, matcher, dial, start, wire);
    var (e, failure) := s.Ensure(dial);
    if failure.None? {
      EnsuredSession(s, dial);
      PollUntilSplits(e, matcher, dial, start, wire);
      var k := Position(e.Buffered(), matcher);
      if k < |e.Buffered()| {
        OverlookedAreOverlooked([e.Buffered()[k]], [e.ArrivalAt(k)]);
      } else {
        AfterWaitRecordsNothing(e, wire, Wait(e.Buffered(), matcher, e.Budget(start), wire, 0));
      }
    }
  }

  lemma AfterWaitRecordsNothing(s: State, wire: Wire, end: WaitEnd)
    requires end.taken <= |wire.readings| && (end.result.Ok? ==> 0 < end.taken)
    ensures RecordsNothingNew(s, s.AfterWait(wire, end))
  {
    hide OverlookedIn, Read, LastN;
    var unmatched := if end.result.Ok? then end.taken - 1 else end.taken;
    OverlookedAreOverlooked(end.evicted, s.arrivals + Range(|s.received|, unmatched));
    if end.result.Ok? {
      OverlookedAreOverlooked([end.result.value], [|s.received| + unmatched]);
    }
  }

  lemma PollRawRecordsNothing(s: State, dial: Dial, read: Result<Message, TransportError>)
    ensures RecordsNothingNew(s, s.PollRaw(dial, read).0)
  {
    hide State.Ensure, OverlookedIn;
    EnsureRecordsNothing(s, dial);
    var (e, failure) := s.Ensure(dial);
    if failure.None? {
      EnsuredSession(s, dial);
      var (t, m) := e.TakeMessage(read);
      if m.Ok? {
        OverlookedAreOverlooked([m.value.message], [m.value.arrival]);
      }
    }
  }

  lemma GetVersionRecordsNothing(s: State, dial: Dial, published: Option<TransportError>, start: nat, wire: Wire)
    ensures RecordsNothingNew(s, s.GetVersion(dial, published, start, wire).0)
  {
    hide State.Ensure, State.PollUntil;
    EnsureRecordsNothing(s.MintId(), dial);
    var (e, failure) := s.MintId().Ensure(dial);
    if failure.None? && published.None? {
      PollUntilRecordsNothing(e, RepliesVersion(s.MintId().counter), dial, start, wire);
    }
  }

  lemma AwaitRecordsNothing(s: State, handle: CommandHandle, dial: Dial, start: nat, wire: Wire)
    ensures RecordsNothingNew(s, s.AwaitAck(handle, dial, start, wire).0)
  {
    hide State.PollUntil, Tracker.TakeKnown, Tracker.Forget, Tracker.IsPending;
    PollUntilRecordsNothing(s, Answers(handle), dial, start, wire);
  }

  /** Only `poll_telemetry` records a start; every other call that takes the echo of one overlooks it. */
  lemma OnlyPollingRecordsStarts(s: State, op: Op)
    requires !op.Polling?
    ensures RecordsNothingNew(s, Step(s, op))
  {
    hide State.Ensure, State.PollUntil, State.PollRaw, State.AwaitAck, State.GetVersion, OverlookedIn, Tracker.Track;
    match op
    case Dispatching(command, ack, dial, published, now) => EnsureRecordsNothing(s, dial);
    case PollingRaw(dial, read) => PollRawRecordsNothing(s, dial, read);
    case Awaiting(handle, dial, start, wire) => AwaitRecordsNothing(s, handle, dial, start, wire);
    case Requesting(matcher, dial, start, wire) => PollUntilRecordsNothing(s, matcher, dial, start, wire);
    case GettingVersion(dial, published, start, wire) => GetVersionRecordsNothing(s, dial, published, start, wire);
    case Ensuring(dial) => EnsureRecordsNothing(s, dial);
    case Disconnecting => OverlookRecordsNothing(s, s.Buffered(), s.arrivals);
    case Attaching(clock) => OverlookRecordsNothing(s, s.Buffered(), s.arrivals);
    case _ =>
  }

  /** And it records one exactly when the echo does not also call itself a status push. */
  lemma ClassifyRecordsIff(s: State, m: Message, at: nat)
    requires IsAcceptedStart(m)
    ensures var logged := s.Classify(m, at).0.events[|s.events|..];
            var isPush := m.report.Some? && m.report.value.isPush;
            && (Started(StartFieldsOf(m), at) in logged <==> !isPush)
            && (Overlooked(StartFieldsOf(m), at) in logged <==> isPush)
  {
    var started, overlooked := Started(StartFieldsOf(m), at), Overlooked(StartFieldsOf(m), at);
    var t := s.Classify(m, at).0;
    if m.report.Some? && m.report.value.isPush {
      assert OverlookedIn([m][1..], [at][1..]) == [];
      assert OverlookedIn([m], [at]) == [overlooked];
      assert t.events[|s.events|] == overlooked;
    } else {
      assert t.events == s.events + [started];
      assert t.events[|s.events|..] == [started];
    }
  }

  // ----- the latest accepted start, over every run -----

  /** The accepted start received last, whatever became of its echo: logged, or still buffered. */
  predicate IsLatestReceived(received: seq<Message>, at: nat) {
    && at < |received| && IsAcceptedStart(received[at])
    && forall i | at < i < |received| :: !IsAcceptedStart(received[i])
  }

  /** Event `k` logs the start received at `at`. */
  predicate Logs(events: seq<Event>, k: nat, at: nat) {
    k < |events| && IsStart(events[k]) && events[k].arrival == at
  }

  /** The start received at `at` was classified, and names a job. */
  ghost predicate RecordedFrom(events: seq<Event>, at: nat) {
    exists k: nat :: Logs(events, k, at) && RecordsStart(events[k])
  }

  ghost predicate ClassifiedFrom(events: seq<Event>, at: nat) {
    exists k: nat :: Logs(events, k, at) && events[k].Started?
  }

  /** The cache holds, or trusts, the start received at `at`, or gives `plate` as its plate. */
  ghost predicate HeldFrom(events: seq<Event>, at: nat) {
    exists k: nat :: Logs(events, k, at) && IsHeld(events, k)
  }

  ghost predicate TrustedFrom(events: seq<Event>, at: nat) {
    exists k: nat :: Logs(events, k, at) && IsTrusted(events, k)
  }

  ghost predicate AnsweredFrom(events: seq<Event>, at: nat, plate: nat) {
    exists k: nat :: Logs(events, k, at) && GivesPlate(events, k, plate)
  }

  /** The start received last is the last one of the log, once it is logged. */
  lemma LatestIsLastLogged(s: State, at: nat, k: nat)
    requires StartsAccounted(s) && IsLatestReceived(s.received, at) && Logs(s.events, k, at)
    ensures ClassifiedInOrder(s.events) && IsLatestLogged(s.events, k)
    ensures s.events[k].fields == StartFieldsOf(s.received[at])
  {
    hide IsAcceptedStart, StartFieldsOf, IsLogged, Buffers;
    assert s.events[k] in s.events && IsReceived(s.events[k], s.arrivals, s.received);
    forall i | 0 <= i < |s.events| && i != k && IsStart(s.events[i])
      ensures s.events[i].arrival < at
    {
      assert s.events[i] in s.events && IsReceived(s.events[i], s.arrivals, s.received);
    }
  }

  lemma RunIsAccounted(clockIsReal: bool, timeout: Option<nat>, ops: seq<Op>)
    ensures StartsAccounted(Run(NewClient(clockIsReal, timeout), ops))
  {
    hide Run;
    NewClientIsValid(clockIsReal, timeout);
    NewClientAccounts(clockIsReal, timeout);
    RunAccounts(NewClient(clockIsReal, timeout), ops);
  }

  /**
   Over every run of a new client: while no busy job has ended since, the cache holds the accepted
   start received last exactly when `poll_telemetry` took that one's echo and it names a job.
   */
  lemma HeldIsLatestStartIff(clockIsReal: bool, timeout: Option<nat>, ops: seq<Op>, at: nat)
    requires var t := Run(NewClient(clockIsReal, timeout), ops);
             && IsLatestReceived(t.received, at)
             && forall k: nat, i: nat | Logs(t.events, k, at) && k < i < |t.events| :: !EndsJob(t.events, i)
    ensures var events := Run(NewClient(clockIsReal, timeout), ops).events;
            HeldFrom(events, at) <==> RecordedFrom(events, at)
  {
    hide Run, IsHeld, EndsJob, RecordsStart, StartsAccounted, IsLatestReceived, IsLatestLogged;
    RunIsAccounted(clockIsReal, timeout, ops);
    var t := Run(NewClient(clockIsReal, timeout), ops);
    forall k: nat | Logs(t.events, k, at)
      ensures IsHeld(t.events, k) <==> RecordsStart(t.events[k])
    {
      LatestIsLastLogged(t, at, k);
      HeldStartIsLatestIff(t.events, k);
    }
  }

  /**
   Over every run: when a plate is answered from a start command, it is that of the accepted start
   received last exactly when `poll_telemetry` took that one's echo and it names a job. When another
   call took it, or it is still buffered, the answer is the plate of an older start.
   */
  lemma AnswerIsLatestStartIff(clockIsReal: bool, timeout: Option<nat>, ops: seq<Op>, answer: PlateAnswer, at: nat)
    requires var t := Run(NewClient(clockIsReal, timeout), ops);
             && IsLatestReceived(t.received, at)
             && Replay(t.events).JobPlate() == Some(answer) && answer.source == StartCommand
    ensures var events := Run(NewClient(clockIsReal, timeout), ops).events;
            && (AnsweredFrom(events, at, answer.plate) <==> RecordedFrom(events, at))
            && exists r: nat :: GivesPlate(events, r, answer.plate)
  {
    hide Run, Replay, GivesPlate, RecordsStart, StartsAccounted, IsLatestReceived, IsLatestLogged, Cache.JobPlate;
    RunIsAccounted(clockIsReal, timeout, ops);
    var t := Run(NewClient(clockIsReal, timeout), ops);
    PlateAnswerComesFrom(t.events, answer);
    forall k: nat | Logs(t.events, k, at)
      ensures GivesPlate(t.events, k, answer.plate) <==> RecordsStart(t.events[k])
    {
      LatestIsLastLogged(t, at, k);
      AnswerIsLatestIff(t.events, answer, k);
    }
  }

  /** The start received last describes the running job: it names its file, and no event since speaks against it. */
  ghost predicate DescribesJobOf(s: State, at: nat) {
    && IsLatestReceived(s.received, at) && NamesJob(StartFieldsOf(s.received[at]))
    && CurrentFile(s.events).Some?
    && FileNameOf(StartFieldsOf(s.received[at])) == LastSegment(CurrentFile(s.events).value)
    && (forall k: nat | Logs(s.events, k, at) :: Boundaries(s.events[k..]) == 0)
    && (forall k: nat, i: nat | Logs(s.events, k, at) && k < i < |s.events| :: !EndsJob(s.events, i))
  }

  /**
   Over every run: the accepted start received last, when it describes the running job, is trusted
   exactly when `poll_telemetry` took its echo.
   */
  lemma LatestStartOfRunIsTrustedIff(clockIsReal: bool, timeout: Option<nat>, ops: seq<Op>, at: nat)
    requires DescribesJobOf(Run(NewClient(clockIsReal, timeout), ops), at)
    ensures var events := Run(NewClient(clockIsReal, timeout), ops).events;
            TrustedFrom(events, at) <==> ClassifiedFrom(events, at)
  {
    hide Run, IsTrusted, StartsAccounted, NamesJob, IsLatestReceived, IsLatestLogged, EndsJob, Boundaries, CurrentFile;
    hide LastSegment, FileNameOf, StartFieldsOf;
    RunIsAccounted(clockIsReal, timeout, ops);
    var t := Run(NewClient(clockIsReal, timeout), ops);
    forall k: nat | Logs(t.events, k, at)
      ensures IsTrusted(t.events, k) <==> t.events[k].Started?
    {
      LatestIsLastLogged(t, at, k);
      LatestStartIsTrustedIff(t.events, k);
    }
  }
}
