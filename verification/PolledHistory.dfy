/**
 The history of the messages that `poll_telemetry` took, kept by every run of the client.

 What reaches the cache is stated here from the messages themselves: each one polled has its effect
 logged, in the order of the polls, and no other message has. Every message received is buffered,
 polled, or taken or lost by another call.
 */
module PolledHistory {
  import opened Wrappers
  import opened Sequences
  import opened CommandTracking
  import opened ConnectionCache
  import opened MessageBuffer
  import opened ClientSpec
  import opened MessageWait
  import opened ClientInvariant
  import opened StartHistory

  /** The status fields of a report. A payload with an echo is a command's, unless it calls itself a push. */
  function FrameOf(m: Message): Option<StatusFrame> {
    if m.report.Some? && (m.report.value.isPush || m.echo.None?) then m.report.value.frame else None
  }

  /** What polling a message logs: a status frame, an accepted start, or nothing. */
  function LogOf(m: Message, at: nat): (log: seq<Event>)
    ensures |log| <= 1
  {
    if FrameOf(m).Some? then [Report(FrameOf(m).value)]
    else if !(m.report.Some? && m.report.value.isPush) && m.echo.Some?
         && m.echo.value.command == "project_file" && m.echo.value.verdict == Accepted then
      [Started(if m.start.Some? then m.start.value else StartFields(None, None, None), at)]
    else []
  }

  predicate Within(received: seq<Message>, at: seq<nat>) {
    forall i | 0 <= i < |at| :: at[i] < |received|
  }

  function MessagesAt(received: seq<Message>, at: seq<nat>): (messages: seq<Message>)
    requires Within(received, at)
    ensures |messages| == |at| && forall i | 0 <= i < |at| :: messages[i] == received[at[i]]
  {
    seq(|at|, i requires 0 <= i < |at| => received[at[i]])
  }

  /** What polling the messages at these places logs, in order. */
  function LogAt(received: seq<Message>, at: seq<nat>): seq<Event>
    requires Within(received, at)
  {
    if at == [] then []
    else
      var n := |at| - 1;
      LogAt(received, at[..n]) + LogOf(received[at[n]], at[n])
  }

  predicate IsFromPoll(e: Event) { e.Report? || e.Started? }

  /** The events that come from polled messages. */
  function FromPolls(events: seq<Event>): seq<Event> {
    if events == [] then []
    else
      var n := |events| - 1;
      FromPolls(events[..n]) + if IsFromPoll(events[n]) then [events[n]] else []
  }

  /** Those after the latest boundary. */
  function FromPollsSince(events: seq<Event>): seq<Event> {
    if events == [] || events[|events| - 1].Boundary? then []
    else
      var n := |events| - 1;
      FromPollsSince(events[..n]) + if IsFromPoll(events[n]) then [events[n]] else []
  }

  /** The log is the one of the messages polled, and since the latest boundary that of those polled since. */
  ghost predicate PollsLogged(received: seq<Message>, at: seq<nat>, before: nat, events: seq<Event>) {
    && Within(received, at) && before <= |at|
    && FromPolls(events) == LogAt(received, at)
    && FromPollsSince(events) == LogAt(received, at[before..])
  }

  /** Each message received is in one place: buffered, polled or gone. */
  ghost predicate Placed(arrivals: seq<nat>, polled: seq<nat>, gone: seq<nat>, n: nat) {
    multiset(arrivals) + multiset(polled) + multiset(gone) == multiset(Range(0, n))
  }

  ghost predicate PollsAccounted(s: State) {
    && PollsLogged(s.received, s.polledAt, s.polledBefore, s.events)
    && Placed(s.arrivals, s.polledAt, s.goneAt, |s.received|)
  }

  // ----- logs -----

  lemma FromPollsSnoc(events: seq<Event>, e: Event)
    ensures var more := if IsFromPoll(e) then [e] else [];
            && FromPolls(events + [e]) == FromPolls(events) + more
            && FromPollsSince(events + [e]) == if e.Boundary? then [] else FromPollsSince(events) + more
  {
    assert (events + [e])[..|events|] == events;
  }

  lemma {:induction false} QuietAppend(events: seq<Event>, more: seq<Event>)
    requires forall e <- more :: !IsFromPoll(e) && !e.Boundary?
    ensures FromPolls(events + more) == FromPolls(events) && FromPollsSince(events + more) == FromPollsSince(events)
  {
    if more == [] {
      assert events + more == events;
    } else {
      var n := |more| - 1;
      QuietAppend(events, more[..n]);
      assert events + more == (events + more[..n]) + [more[n]];
      FromPollsSnoc(events + more[..n], more[n]);
    }
  }

  lemma OverlookedIsQuiet(events: seq<Event>, messages: seq<Message>, at: seq<nat>)
    ensures FromPolls(events + OverlookedIn(messages, at)) == FromPolls(events)
    ensures FromPollsSince(events + OverlookedIn(messages, at)) == FromPollsSince(events)
  {
    OverlookedAreOverlooked(messages, at);
    QuietAppend(events, OverlookedIn(messages, at));
  }

  lemma {:induction false} LogAtMore(received: seq<Message>, more: seq<Message>, at: seq<nat>)
    requires Within(received, at)
    ensures LogAt(received + more, at) == LogAt(received, at)
  {
    if at != [] {
      LogAtMore(received, more, at[..|at| - 1]);
    }
  }

  lemma LogAtSnoc(received: seq<Message>, at: seq<nat>, a: nat)
    requires Within(received, at) && a < |received|
    ensures LogAt(received, at + [a]) == LogAt(received, at) + LogOf(received[a], a)
  {
    assert (at + [a])[..|at|] == at;
  }

  /** More is received, and what is logged comes from no poll. */
  lemma QuietLogKeeps(received: seq<Message>, more: seq<Message>, at: seq<nat>, before: nat, events: seq<Event>,
                      log: seq<Event>)
    requires PollsLogged(received, at, before, events)
    requires FromPolls(log) == FromPolls(events) && FromPollsSince(log) == FromPollsSince(events)
    ensures PollsLogged(received + more, at, before, log)
  {
    LogAtMore(received, more, at);
    LogAtMore(received, more, at[before..]);
  }

  lemma PollLogs(received: seq<Message>, at: seq<nat>, before: nat, events: seq<Event>, a: nat, log: seq<Event>)
    requires PollsLogged(received, at, before, events) && a < |received|
    requires FromPolls(log) == FromPolls(events) + LogOf(received[a], a)
    requires FromPollsSince(log) == FromPollsSince(events) + LogOf(received[a], a)
    ensures PollsLogged(received, at + [a], before, log)
  {
    LogAtSnoc(received, at, a);
    LogAtSnoc(received, at[before..], a);
    assert (at + [a])[before..] == at[before..] + [a];
  }

  lemma BoundaryLogs(received: seq<Message>, at: seq<nat>, before: nat, events: seq<Event>)
    requires PollsLogged(received, at, before, events)
    ensures PollsLogged(received, at, |at|, events + [Boundary])
  {
    FromPollsSnoc(events, Boundary);
    assert at[|at|..] == [];
  }

  // ----- places -----

  lemma RangeSnoc(n: nat)
    ensures multiset(Range(0, n + 1)) == multiset(Range(0, n)) + multiset{n}
  {
    assert Range(0, n + 1) == Range(0, n) + [n];
  }

  lemma RangeAppend(n: nat, k: nat)
    ensures multiset(Range(0, n + k)) == multiset(Range(0, n)) + multiset(Range(n, k))
  {
    assert Range(0, n + k) == Range(0, n) + Range(n, k);
  }

  lemma PlacedWithout(arrivals: seq<nat>, polled: seq<nat>, gone: seq<nat>, n: nat, k: nat)
    requires Placed(arrivals, polled, gone, n) && k < |arrivals|
    ensures Placed(Without(arrivals, k), polled, gone + [arrivals[k]], n)
    ensures Placed(Without(arrivals, k), polled + [arrivals[k]], gone, n)
  {
    WithoutMultiset(arrivals, k);
  }

  /** Messages arrive, and of those then buffered all but the last ones go. */
  lemma PlacedAfterWait(arrivals: seq<nat>, polled: seq<nat>, gone: seq<nat>, n: nat, k: nat, evicted: nat)
    requires Placed(arrivals, polled, gone, n) && evicted <= |arrivals| + k
    ensures var at := arrivals + Range(n, k);
            Placed(LastN(at, |at| - evicted), polled, gone + FirstN(at, evicted), n + k)
  {
    hide FirstN, LastN, Range;
    var at: seq<nat> := arrivals + Range(n, k);
    var first, last := FirstN(at, evicted), LastN(at, |at| - evicted);
    RangeAppend(n, k);
    assert multiset(at) == multiset(arrivals) + multiset(Range(n, k));
    FirstAndLast(at, evicted);
    assert multiset(gone + first) == multiset(gone) + multiset(first);
    assert multiset(last) + multiset(polled) + multiset(gone + first)
        == (multiset(first) + multiset(last)) + multiset(polled) + multiset(gone);
    assert (multiset(arrivals) + multiset(Range(n, k))) + multiset(polled) + multiset(gone)
        == (multiset(arrivals) + multiset(polled) + multiset(gone)) + multiset(Range(n, k));
  }

  lemma FirstAndLast(at: seq<nat>, n: nat)
    requires n <= |at|
    ensures multiset(at) == multiset(FirstN(at, n)) + multiset(LastN(at, |at| - n))
  {
    assert at == FirstN(at, n) + LastN(at, |at| - n);
  }

  // ----- the steps the calls are made of -----

  /** No message is polled from `s` to `t`, and the connection stays the same. */
  ghost predicate Quiet(s: State, t: State) {
    && t.polledAt == s.polledAt && t.polledBefore == s.polledBefore && s.received <= t.received
    && FromPolls(t.events) == FromPolls(s.events) && FromPollsSince(t.events) == FromPollsSince(s.events)
  }

  ghost predicate Logged(s: State) {
    PollsLogged(s.received, s.polledAt, s.polledBefore, s.events)
  }

  ghost predicate InPlace(s: State) {
    Placed(s.arrivals, s.polledAt, s.goneAt, |s.received|)
  }

  lemma QuietKeeps(s: State, t: State)
    requires Logged(s) && Quiet(s, t)
    ensures Logged(t)
  {
    hide PollsLogged, FromPolls, FromPollsSince;
    assert t.received == s.received + t.received[|s.received|..];
    QuietLogKeeps(s.received, t.received[|s.received|..], s.polledAt, s.polledBefore, s.events, t.events);
  }

  lemma LoseIsQuiet(s: State, messages: seq<Message>, at: seq<nat>)
    ensures Quiet(s, s.Lose(messages, at))
  {
    OverlookedIsQuiet(s.events, messages, at);
  }

  lemma BoundaryPolls(s: State)
    requires PollsAccounted(s)
    ensures PollsAccounted(s.BeginConnection())
  {
    hide Placed, PollsLogged;
    BoundaryLogs(s.received, s.polledAt, s.polledBefore, s.events);
  }

  lemma InstallPolls(s: State, clock: nat)
    requires PollsAccounted(s) && s.arrivals == []
    ensures PollsAccounted(s.Install(clock))
  {
    hide Placed, PollsLogged;
    BoundaryPolls(s.(session := Some([]), arrivals := []));
  }

  lemma EnsurePolls(s: State, dial: Dial)
    requires PollsAccounted(s) && StartsAccounted(s)
    ensures PollsAccounted(s.Ensure(dial).0)
  {
    hide PollsAccounted, Accounted, State.Install;
    if s.session.None? && dial.Reachable? {
      NothingBuffered(s) by { assert s.Buffered() == []; }
      InstallPolls(s, dial.clock);
    }
  }

  lemma ClosePolls(s: State)
    requires PollsAccounted(s) && StartsAccounted(s)
    ensures PollsAccounted(s.Close()) && s.Close().arrivals == []
  {
    hide PollsLogged, Accounted, OverlookedIn, FromPolls, FromPollsSince;
    AccountedBuffers(s.Buffered(), s.arrivals, s.received, s.events);
    LoseIsQuiet(s, s.Buffered(), s.arrivals);
    QuietKeeps(s, s.Close());
    assert FirstN(s.arrivals, |s.Buffered()|) == s.arrivals;
  }

  lemma ClaimPolls(s: State, k: nat)
    requires PollsAccounted(s) && StartsAccounted(s) && k < |s.Buffered()|
    ensures PollsAccounted(s.ClaimBuffered(k))
  {
    hide PollsLogged, Placed, Accounted, OverlookedIn, FromPolls, FromPollsSince;
    AccountedBuffers(s.Buffered(), s.arrivals, s.received, s.events);
    var t := s.(session := s.ClaimBuffered(k).session, arrivals := s.ClaimBuffered(k).arrivals);
    LoseIsQuiet(t, [s.Buffered()[k]], [s.ArrivalAt(k)]);
    QuietKeeps(s, s.ClaimBuffered(k));
    PlacedWithout(s.arrivals, s.polledAt, s.goneAt, |s.received|, k);
  }

  lemma AfterWaitPolls(s: State, wire: Wire, end: WaitEnd)
    requires PollsAccounted(s) && StartsAccounted(s)
    requires end.taken <= |wire.readings| && (end.result.Ok? ==> 0 < end.taken)
    requires var unmatched := if end.result.Ok? then end.taken - 1 else end.taken;
             |end.evicted| + |end.buffer| == |s.Buffered()| + unmatched
    ensures PollsAccounted(s.AfterWait(wire, end))
  {
    hide PollsLogged, Placed, Accounted, OverlookedIn, FromPolls, FromPollsSince, LastN, FirstN, Read, Range;
    var unmatched := if end.result.Ok? then end.taken - 1 else end.taken;
    var n, at := |s.received|, s.arrivals + Range(|s.received|, unmatched);
    AccountedBuffers(s.Buffered(), s.arrivals, s.received, s.events);
    PlacedAfterWait(s.arrivals, s.polledAt, s.goneAt, n, unmatched, |end.evicted|);
    var t := s.(session := Some(end.buffer), received := s.received + Read(wire, 0, end.taken),
                arrivals := LastN(at, |end.buffer|));
    LoseIsQuiet(t, end.evicted, at);
    var u := t.Lose(end.evicted, at);
    QuietKeeps(s, u);
    if end.result.Ok? {
      LoseIsQuiet(u, [end.result.value], [n + unmatched]);
      QuietKeeps(u, s.AfterWait(wire, end));
      PlacedOneMore(u.arrivals, u.polledAt, u.goneAt, n + unmatched);
      FirstNAll<nat>([n + unmatched]);
      assert s.AfterWait(wire, end) == u.Lose([end.result.value], [n + unmatched]);
      assert s.AfterWait(wire, end).goneAt == u.goneAt + [n + unmatched];
    }
  }

  lemma FirstNAll<T>(s: seq<T>)
    ensures FirstN(s, |s|) == s
  {
  }

  lemma PlacedOneMore(arrivals: seq<nat>, polled: seq<nat>, gone: seq<nat>, n: nat)
    requires Placed(arrivals, polled, gone, n)
    ensures Placed(arrivals, polled, gone + [n], n + 1)
    ensures Placed(arrivals, polled + [n], gone, n + 1)
    ensures Placed([n] + arrivals, polled, gone, n + 1)
  {
    RangeSnoc(n);
  }

  lemma PollUntilPolls(s: State, matcher: Message -> bool, dial: Dial, start: nat, wire: Wire)
    requires Valid(s) && StartsAccounted(s) && PollsAccounted(s)
    ensures PollsAccounted(s.PollUntil(matcher, dial, start, wire).0)
  {
    hide Valid, Accounted, PollsAccounted, State.PollUntil, State.Ensure, State.AfterWait;
    hide State.ClaimBuffered, Wait, Waited, EndedWith, Read;
    EnsurePolls(s, dial);
    EnsureAccounts(s, dial);
    EnsureKeeps(s, dial);
    PollUntilAfterEnsure(s, matcher, dial, start, wire);
    var (e, failure) := s.Ensure(dial);
    if failure.None? {
      PollUntilSplits(e, matcher, dial, start, wire);
      var k := Position(e.Buffered(), matcher);
      if k < |e.Buffered()| {
        ClaimPolls(e, k);
      } else {
        assert QueuesValid(e) by { ValidQueues(e); }
        BufferedFits(e);
        var n := WaitReads(e.Buffered(), matcher, e.Budget(start), wire, 0);
        var end := Wait(e.Buffered(), matcher, e.Budget(start), wire, 0);
        assert |end.evicted + end.buffer| == |e.Buffered() + Read(wire, 0, n)|;
        AfterWaitPolls(e, wire, end);
      }
    }
  }

  /** The state once the message at place `at` was taken out: it counts as buffered until it is dealt with. */
  ghost predicate HoldingPolls(s: State, at: nat) {
    && Logged(s) && Placed([at] + s.arrivals, s.polledAt, s.goneAt, |s.received|)
  }

  lemma PopPolls(s: State)
    requires PollsAccounted(s) && StartsAccounted(s) && s.Buffered() != []
    ensures HoldingPolls(s.PopBuffered(), s.ArrivalAt(0))
  {
    hide Accounted, PollsLogged;
    AccountedBuffers(s.Buffered(), s.arrivals, s.received, s.events);
    assert [s.ArrivalAt(0)] + s.PopBuffered().arrivals == s.arrivals;
  }

  lemma TakeMessagePolls(s: State, read: Result<Message, TransportError>)
    requires PollsAccounted(s) && StartsAccounted(s) && s.session.Some?
    ensures var (t, m) := s.TakeMessage(read);
            if m.Ok? then HoldingPolls(t, m.value.arrival) else t == s
  {
    hide Accounted, PollsLogged, Placed;
    if s.session.value != [] {
      PopPolls(s);
    } else if read.Ok? {
      QuietKeeps(s, s.TakeMessage(read).0);
      PlacedOneMore(s.arrivals, s.polledAt, s.goneAt, |s.received|);
    }
  }

  lemma LoseHeldPolls(s: State, m: Message, at: nat)
    requires HoldingPolls(s, at)
    ensures PollsAccounted(s.Lose([m], [at]))
  {
    hide PollsLogged, Placed, OverlookedIn, FromPolls, FromPollsSince;
    LoseIsQuiet(s, [m], [at]);
    QuietKeeps(s, s.Lose([m], [at]));
    PlacedWithout([at] + s.arrivals, s.polledAt, s.goneAt, |s.received|, 0);
    assert Without([at] + s.arrivals, 0) == s.arrivals;
    FirstNAll<nat>([at]);
  }

  /** Classifying a message logs what it says, whatever the state of the tracker. */
  lemma ClassifyLogs(s: State, m: Message, at: nat)
    ensures var t := s.Classify(m, at).0;
            && t == s.(events := t.events, tracker := t.tracker, polled := t.polled)
            && FromPolls(t.events) == FromPolls(s.events) + LogOf(m, at)
            && FromPollsSince(t.events) == FromPollsSince(s.events) + LogOf(m, at)
  {
    hide Tracker.TakeAnswered, Tracker.Remember, OverlookedIn, FromPolls, FromPollsSince;
    var log := s.events + OverlookedIn([m], [at]);
    OverlookedIsQuiet(s.events, [m], [at]);
    if FrameOf(m).Some? {
      FromPollsSnoc(log, Report(FrameOf(m).value));
    } else if !(m.report.Some? && m.report.value.isPush) && IsAcceptedStart(m) {
      FromPollsSnoc(s.events, Started(StartFieldsOf(m), at));
    }
  }

  lemma ClassifyPolls(s: State, m: Message, at: nat)
    requires HoldingPolls(s, at) && Holding(s, m, at)
    ensures PollsAccounted(s.Polled(at).Classify(m, at).0)
  {
    hide PollsLogged, Placed, Accounted, State.Classify, LogOf, FromPolls, FromPollsSince;
    assert at < |s.received| && s.received[at] == m by { HeldIsReceived(s, m, at); }
    ClassifyLogs(s.Polled(at), m, at);
    var t := s.Polled(at).Classify(m, at).0;
    PollLogs(s.received, s.polledAt, s.polledBefore, s.events, at, t.events);
    PlacedWithout([at] + s.arrivals, s.polledAt, s.goneAt, |s.received|, 0);
    assert Without([at] + s.arrivals, 0) == s.arrivals;
  }

  lemma HeldIsReceived(s: State, m: Message, at: nat)
    requires Holding(s, m, at)
    ensures at < |s.received| && s.received[at] == m
  {
    hide LogAccounted;
    assert ([at] + s.arrivals)[0] == at && ([m] + s.Buffered())[0] == m;
  }

  // ----- the calls -----

  /** Calls that touch no message and log nothing. */
  lemma SamePolls(s: State, t: State)
    requires PollsAccounted(s) && t.arrivals == s.arrivals && t.goneAt == s.goneAt && t.polledAt == s.polledAt
    requires t.received == s.received && t.events == s.events && t.polledBefore == s.polledBefore
    ensures PollsAccounted(t)
  {
    hide PollsLogged, Placed;
  }

  lemma PollConnectedPolls(s: State, later: nat, read: Result<Message, TransportError>)
    requires StartsAccounted(s) && PollsAccounted(s) && s.session.Some?
    ensures PollsAccounted(s.PollConnected(later, read).0)
  {
    hide StartsAccounted, PollsAccounted, Holding, HoldingPolls, State.Polled, State.Classify, State.TakeMessage;
    NextUnansweredAccounts(s, later);
    var (s1, r) := s.NextUnansweredOutcome(later);
    SamePolls(s, s1);
    if r.None? {
      TakeMessageHolds(s1, read);
      TakeMessagePolls(s1, read);
      var (s2, m) := s1.TakeMessage(read);
      if m.Ok? {
        ClassifyPolls(s2, m.value.message, m.value.arrival);
      }
    }
  }

  lemma PollPolls(s: State, dial: Dial, now: nat, later: nat, read: Result<Message, TransportError>)
    requires StartsAccounted(s) && PollsAccounted(s)
    ensures PollsAccounted(s.Poll(dial, now, later, read).0)
  {
    hide StartsAccounted, PollsAccounted, Holding, HoldingPolls, State.Polled, State.Classify, State.Ensure;
    hide State.PollConnected, State.PopBuffered;
    if s.session.Some? && s.session.value != [] {
      PopHolds(s);
      PopPolls(s);
      ClassifyPolls(s.PopBuffered(), s.session.value[0], s.ArrivalAt(0));
    } else {
      NextUnansweredAccounts(s, now);
      var (s1, r) := s.NextUnansweredOutcome(now);
      SamePolls(s, s1);
      if r.None? {
        EnsureAccounts(s1, dial);
        EnsurePolls(s1, dial);
        var (s2, failure) := s1.Ensure(dial);
        if failure.None? {
          EnsuredSession(s1, dial);
          PollConnectedPolls(s2, later, read);
        }
      }
    }
  }

  lemma PollRawPolls(s: State, dial: Dial, read: Result<Message, TransportError>)
    requires StartsAccounted(s) && PollsAccounted(s)
    ensures PollsAccounted(s.PollRaw(dial, read).0)
  {
    hide StartsAccounted, PollsAccounted, HoldingPolls, State.Ensure, State.TakeMessage, State.Lose;
    EnsureAccounts(s, dial);
    EnsurePolls(s, dial);
    var (e, failure) := s.Ensure(dial);
    if failure.None? {
      EnsuredSession(s, dial);
      TakeMessagePolls(e, read);
      var (t, m) := e.TakeMessage(read);
      if m.Ok? {
        LoseHeldPolls(t, m.value.message, m.value.arrival);
      }
    }
  }

  lemma DispatchPolls(s: State, command: string, ack: AckExpectation, dial: Dial, published: Option<TransportError>,
                      now: nat)
    requires StartsAccounted(s) && PollsAccounted(s)
    ensures PollsAccounted(s.Dispatch(command, ack, dial, published, now).0)
  {
    hide StartsAccounted, PollsAccounted, State.Ensure, Tracker.Track;
    EnsurePolls(s, dial);
    SamePolls(s.Ensure(dial).0, s.Dispatch(command, ack, dial, published, now).0);
  }

  lemma AwaitPolls(s: State, handle: CommandHandle, dial: Dial, start: nat, wire: Wire)
    requires Valid(s) && StartsAccounted(s) && PollsAccounted(s)
    ensures PollsAccounted(s.AwaitAck(handle, dial, start, wire).0)
  {
    hide Valid, StartsAccounted, PollsAccounted, State.PollUntil;
    hide Tracker.TakeKnown, Tracker.Forget, Tracker.IsPending;
    PollUntilPolls(s, Answers(handle), dial, start, wire);
    var end := s.AwaitAck(handle, dial, start, wire).0;
    if handle.ack == SettlesOnPublish || s.tracker.TakeKnown(handle).1.Some? || !s.tracker.IsPending(handle) {
      SamePolls(s, end);
    } else {
      SamePolls(s.PollUntil(Answers(handle), dial, start, wire).0, end);
    }
  }

  lemma GetVersionPolls(s: State, dial: Dial, published: Option<TransportError>, start: nat, wire: Wire)
    requires Valid(s) && StartsAccounted(s) && PollsAccounted(s)
    ensures PollsAccounted(s.GetVersion(dial, published, start, wire).0)
  {
    hide Valid, StartsAccounted, PollsLogged, Placed, FromPolls, FromPollsSince;
    hide State.PollUntil, State.Ensure, State.MintId;
    MintKeeps(s);
    MintAccounts(s);
    assert PollsAccounted(s.MintId()) by { MintPolls(s); }
    EnsureKeeps(s.MintId(), dial);
    EnsureAccounts(s.MintId(), dial);
    EnsurePolls(s.MintId(), dial);
    var (e, failure) := s.MintId().Ensure(dial);
    if failure.None? && published.None? {
      var matcher := RepliesVersion(s.MintId().counter);
      PollUntilPolls(e, matcher, dial, start, wire);
      var (t, r) := e.PollUntil(matcher, dial, start, wire);
      if r.Ok? && r.value.version.Some? && r.value.version.value.firmware.Some? {
        FromPollsSnoc(t.events, VersionFetched(r.value.version.value.firmware.value));
        QuietKeeps(t, s.GetVersion(dial, published, start, wire).0);
      }
    }
  }

  lemma MintPolls(s: State)
    requires PollsAccounted(s)
    ensures PollsAccounted(s.MintId())
  {
    SamePolls(s, s.MintId());
  }

  lemma DisconnectPolls(s: State)
    requires StartsAccounted(s) && PollsAccounted(s)
    ensures PollsAccounted(s.Disconnect())
  {
    hide StartsAccounted, PollsAccounted, State.Close, State.BeginConnection;
    ClosePolls(s);
    BoundaryPolls(s.Close());
  }

  lemma AttachPolls(s: State, clock: nat)
    requires StartsAccounted(s) && PollsAccounted(s)
    ensures PollsAccounted(s.Attach(clock))
  {
    hide StartsAccounted, PollsAccounted, State.Close, State.Install;
    ClosePolls(s);
    InstallPolls(s.Close(), clock);
  }

  lemma StepPolls(s: State, op: Op)
    requires Valid(s) && StartsAccounted(s) && PollsAccounted(s)
    ensures PollsAccounted(Step(s, op))
  {
    hide Valid, StartsAccounted, PollsAccounted, State.Dispatch, State.Poll;
    hide State.PollRaw, State.AwaitAck, State.PollUntil, State.GetVersion;
    hide State.Ensure, State.Attach, State.Disconnect, State.MintId;
    match op
    case Dispatching(command, ack, dial, published, now) => DispatchPolls(s, command, ack, dial, published, now);
    case Polling(dial, now, later, read) => PollPolls(s, dial, now, later, read);
    case PollingRaw(dial, read) => PollRawPolls(s, dial, read);
    case Awaiting(handle, dial, start, wire) => AwaitPolls(s, handle, dial, start, wire);
    case Requesting(matcher, dial, start, wire) => PollUntilPolls(s, matcher, dial, start, wire);
    case GettingVersion(dial, published, start, wire) => GetVersionPolls(s, dial, published, start, wire);
    case Ensuring(dial) => EnsurePolls(s, dial);
    case Disconnecting => DisconnectPolls(s);
    case Attaching(clock) => AttachPolls(s, clock);
    case MintingId => MintPolls(s);
    case SettingTimeout(timeout) => SamePolls(s, s.(timeout := timeout));
  }

  lemma {:induction false} RunPolls(s: State, ops: seq<Op>)
    requires Valid(s) && StartsAccounted(s) && PollsAccounted(s)
    ensures PollsAccounted(Run(s, ops))
    decreases |ops|
  {
    hide Valid, StartsAccounted, PollsAccounted, Step;
    if ops != [] {
      RunPolls(s, ops[..|ops| - 1]);
      RunAccounts(s, ops[..|ops| - 1]);
      RunKeeps(s, ops[..|ops| - 1]);
      StepPolls(Run(s, ops[..|ops| - 1]), ops[|ops| - 1]);
    }
  }

  lemma NewClientPolls(clockIsReal: bool, timeout: Option<nat>)
    ensures PollsAccounted(NewClient(clockIsReal, timeout))
  {
    assert Range(0, 0) == [];
  }

  // ----- what a run polled -----

  /**
   Over every run: the frames and starts that reach the cache are those of the messages polled, in
   the order of the polls, and since the latest boundary those of the messages polled since. Each
   message received is buffered, polled, or taken or lost by another call, and only one of these.
   */
  lemma RunLogsPolls(clockIsReal: bool, timeout: Option<nat>, ops: seq<Op>)
    ensures var t := Run(NewClient(clockIsReal, timeout), ops);
            && PollsLogged(t.received, t.polledAt, t.polledBefore, t.events)
            && Placed(t.arrivals, t.polledAt, t.goneAt, |t.received|)
  {
    hide Run, Valid, StartsAccounted, PollsLogged, Placed;
    NewClientIsValid(clockIsReal, timeout);
    NewClientAccounts(clockIsReal, timeout);
    NewClientPolls(clockIsReal, timeout);
    RunPolls(NewClient(clockIsReal, timeout), ops);
  }

  function MessageOf(event: TelemetryEvent): Option<Message> {
    match event
    case CommandEvent(_, raw) => raw
    case ReportEvent(m) => Some(m)
    case UnknownEvent(m) => Some(m)
  }

  /** The call took the message its event has, the oldest one buffered or else one off the wire; or none. */
  ghost predicate Takes(s: State, t: State, r: Result<TelemetryEvent, Error>) {
    if r.Ok? && MessageOf(r.value).Some? then
      var m, at := MessageOf(r.value).value, if s.arrivals != [] then s.arrivals[0] else |s.received|;
      && t.polledAt == s.polledAt + [at]
      && t.received == (if s.arrivals != [] then s.received else s.received + [m])
      && at < |t.received| && t.received[at] == m
    else t.polledAt == s.polledAt && t.received == s.received
  }

  lemma ClassifyReturns(s: State, m: Message, at: nat)
    ensures var (t, event) := s.Classify(m, at);
            && t.received == s.received && t.polledAt == s.polledAt && MessageOf(event) == Some(m)
            && (event.ReportEvent? <==> m.report.Some? && (m.report.value.isPush || m.echo.None?))
  {
    hide Tracker.TakeAnswered, Tracker.Remember, OverlookedIn, IsAcceptedStart, StartFieldsOf;
  }

  lemma PollConnectedTakes(s: State, later: nat, read: Result<Message, TransportError>)
    requires StartsAccounted(s) && s.session.Some?
    ensures var (t, r) := s.PollConnected(later, read);
            Takes(s, t, r)
  {
    hide State.Classify, LogAccounted, Tracker.NextUnanswered, Tracker.Remember;
    var u := s.NextUnansweredOutcome(later).0;
    var m := u.TakeMessage(read).1;
    if m.Ok? {
      ClassifyReturns(u.TakeMessage(read).0.Polled(m.value.arrival), m.value.message, m.value.arrival);
    }
  }

  /**
   A poll that returns an event with a message has taken that message, and counts it as polled. Any
   other poll takes none.
   */
  lemma PollTakes(s: State, dial: Dial, now: nat, later: nat, read: Result<Message, TransportError>)
    requires StartsAccounted(s)
    ensures var (t, r) := s.Poll(dial, now, later, read);
            Takes(s, t, r)
  {
    hide State.Classify, State.PollConnected, State.Ensure, StartsAccounted;
    hide Tracker.NextUnanswered, Tracker.Remember;
    if s.session.Some? && s.session.value != [] {
      PopTakes(s);
      ClassifyReturns(s.PopBuffered().Polled(s.ArrivalAt(0)), s.session.value[0], s.ArrivalAt(0));
    } else {
      var s1 := s.NextUnansweredOutcome(now).0;
      NextUnansweredAccounts(s, now);
      EnsureAccounts(s1, dial);
      EnsureTakesNone(s1, dial);
      if s1.Ensure(dial).1.None? {
        EnsuredSession(s1, dial);
        PollConnectedTakes(s1.Ensure(dial).0, later, read);
      }
    }
  }

  lemma PopTakes(s: State)
    requires StartsAccounted(s) && s.Buffered() != []
    ensures s.arrivals != [] && s.ArrivalAt(0) == s.arrivals[0] < |s.received|
    ensures s.received[s.arrivals[0]] == s.session.value[0]
  {
    hide LogAccounted;
  }

  lemma EnsureTakesNone(s: State, dial: Dial)
    requires StartsAccounted(s)
    ensures var e := s.Ensure(dial).0;
            e.received == s.received && e.polledAt == s.polledAt && e.arrivals == s.arrivals
  {
    hide LogAccounted;
  }

  /** No other call polls. */
  lemma OnlyPollingPolls(s: State, op: Op)
    requires !op.Polling?
    ensures Step(s, op).polledAt == s.polledAt
  {
    hide State.PollUntil, OverlookedIn, Tracker.Track, Tracker.TakeKnown, Tracker.Forget, Tracker.IsPending;
    hide State.Install, State.Ensure;
    match op
    case Awaiting(handle, dial, start, wire) => PollUntilPollsNone(s, Answers(handle), dial, start, wire);
    case Requesting(matcher, dial, start, wire) => PollUntilPollsNone(s, matcher, dial, start, wire);
    case GettingVersion(dial, published, start, wire) =>
      var minted := s.MintId();
      EnsurePollsNone(minted, dial);
      PollUntilPollsNone(minted.Ensure(dial).0, RepliesVersion(minted.counter), dial, start, wire);
    case Dispatching(_, _, dial, _, _) => EnsurePollsNone(s, dial);
    case PollingRaw(dial, _) => EnsurePollsNone(s, dial);
    case Ensuring(dial) => EnsurePollsNone(s, dial);
    case Attaching(clock) => InstallPollsNone(s.Close(), clock);
    case _ =>
  }

  lemma InstallPollsNone(s: State, clock: nat)
    ensures s.Install(clock).polledAt == s.polledAt
  {
  }

  lemma EnsurePollsNone(s: State, dial: Dial)
    ensures s.Ensure(dial).0.polledAt == s.polledAt
  {
  }

  lemma PollUntilPollsNone(s: State, matcher: Message -> bool, dial: Dial, start: nat, wire: Wire)
    ensures s.PollUntil(matcher, dial, start, wire).0.polledAt == s.polledAt
  {
    hide State.PollUntil, State.Ensure;
    EnsurePollsNone(s, dial);
    PollUntilAfterEnsure(s, matcher, dial, start, wire);
    var (e, failure) := s.Ensure(dial);
    if failure.None? {
      EnsuredSession(s, dial);
      PollUntilOnSession(e, matcher, dial, start, wire);
    }
  }
}
