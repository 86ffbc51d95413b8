/** When the handles a client gives out are distinct, over every run. */
module HandleArcs {
  import opened Wrappers
  import opened Sequences
  import opened SequenceIds
  import opened CommandTracking
  import opened MessageBuffer
  import opened ClientSpec
  import opened MessageWait
  import opened ClientInvariant

  /** What each connection minted, the current one last. */
  function AllArcs(s: State): (arcs: seq<Arc>)
    ensures |arcs| == |s.arcs| + 1
  {
    s.arcs + [Arc(s.boundaryCounter, s.minted)]
  }

  /** No connection minted more than a cycle of ids, and no two of them minted a common one. */
  predicate ArcsApart(arcs: seq<Arc>) {
    && (forall a <- arcs :: a.length <= CYCLE)
    && forall i, j | 0 <= i < j < |arcs| :: Apart(arcs[i], arcs[j])
  }

  ghost predicate IdInArcs(arcs: seq<Arc>, id: nat) {
    exists a <- arcs :: a.Contains(id)
  }

  predicate IdsDistinct(handles: seq<CommandHandle>) {
    forall i, j | 0 <= i < j < |handles| :: handles[i].sequenceId != handles[j].sequenceId
  }

  function Total(arcs: seq<Arc>): nat {
    if arcs == [] then 0 else Total(arcs[..|arcs| - 1]) + arcs[|arcs| - 1].length
  }

  /** Every arc begins where the one before it ended, and the first at the floor. */
  ghost predicate Contiguous(arcs: seq<Arc>) {
    forall i | 0 <= i < |arcs| :: arcs[i].start == Minted(SEQUENCE_ID_FLOOR, Total(arcs[..i]))
  }

  /** Without a real clock the counter is never reseeded, so a whole life is one walk. */
  ghost predicate WalkValid(s: State) {
    !s.clockIsReal ==>
      && Contiguous(AllArcs(s)) && Total(AllArcs(s)) == s.lifetime
      && s.minted <= s.lifetime
      && (s.lifetime <= CYCLE ==> s.withinCycle)
  }

  /** The commands tracked carry ids their connections minted; arcs that are apart keep them distinct. */
  ghost predicate ArcsValid(s: State) {
    && s.counter == Minted(s.boundaryCounter, s.minted)
    && (forall a <- AllArcs(s) :: InRange(a.start))
    && (forall h <- s.tracked :: IdInArcs(AllArcs(s), h.sequenceId))
    && (ArcsApart(AllArcs(s)) ==> IdsDistinct(s.tracked))
    && WalkValid(s)
  }

  lemma NewClientArcs(clockIsReal: bool, timeout: Option<nat>)
    ensures ArcsValid(NewClient(clockIsReal, timeout))
  {
    var s := NewClient(clockIsReal, timeout);
    assert AllArcs(s) == [Arc(SEQUENCE_ID_FLOOR, 0)];
    assert AllArcs(s)[..0] == [];
    assert Total([]) == 0;
  }

  lemma TotalSnoc(arcs: seq<Arc>, a: Arc)
    ensures Total(arcs + [a]) == Total(arcs) + a.length
  {
    assert (arcs + [a])[..|arcs|] == arcs;
  }

  /** `t` has more or longer arcs than `s`. */
  ghost predicate Grown(s: State, t: State) {
    && |AllArcs(s)| <= |AllArcs(t)|
    && forall i | 0 <= i < |AllArcs(s)| ::
         AllArcs(s)[i].length <= AllArcs(t)[i].length
         && (AllArcs(s)[i].length > 0 ==> AllArcs(s)[i].start == AllArcs(t)[i].start)
  }

  lemma GrownKeepsIds(s: State, t: State)
    requires Grown(s, t)
    ensures ArcsApart(AllArcs(t)) ==> ArcsApart(AllArcs(s))
    ensures forall id | IdInArcs(AllArcs(s), id) :: IdInArcs(AllArcs(t), id)
  {
    hide Minted, AllArcs, Offset;
    forall id | IdInArcs(AllArcs(s), id)
      ensures IdInArcs(AllArcs(t), id)
    {
      var a :| a in AllArcs(s) && a.Contains(id);
      var i :| 0 <= i < |AllArcs(s)| && AllArcs(s)[i] == a;
      assert AllArcs(t)[i].Contains(id) && AllArcs(t)[i] in AllArcs(t);
    }
    if ArcsApart(AllArcs(t)) {
      forall i, j | 0 <= i < j < |AllArcs(s)|
        ensures Apart(AllArcs(s)[i], AllArcs(s)[j])
      {
        assert Apart(AllArcs(t)[i], AllArcs(t)[j]);
      }
      forall a | a in AllArcs(s)
        ensures a.length <= CYCLE
      {
        var i :| 0 <= i < |AllArcs(s)| && AllArcs(s)[i] == a;
        assert AllArcs(t)[i] in AllArcs(t);
      }
    }
  }

  lemma MintKeepsArcs(s: State)
    requires ArcsValid(s)
    ensures ArcsValid(s.MintId())
    ensures ArcsApart(AllArcs(s.MintId())) ==> forall h <- s.tracked :: h.sequenceId != s.MintId().counter
  {
    hide Minted, ArcsApart, IdInArcs, Contiguous, Total;
    var t := s.MintId();
    assert Grown(s, t);
    GrownKeepsIds(s, t);
    assert Minted(s.boundaryCounter, s.minted + 1) == Next(s.counter) by { MintedNext(s.boundaryCounter, s.minted); }
    if ArcsApart(AllArcs(t)) {
      forall h | h in s.tracked
        ensures h.sequenceId != t.counter
      {
        NewIdIsFresh(s, h.sequenceId);
      }
    }
    WalkMints(s.arcs, Arc(s.boundaryCounter, s.minted), Arc(s.boundaryCounter, s.minted + 1));
    assert forall a <- AllArcs(t) :: InRange(a.start) by {
      assert forall a <- AllArcs(t) :: a in s.arcs || a == Arc(s.boundaryCounter, s.minted + 1);
      assert Arc(s.boundaryCounter, s.minted) in AllArcs(s);
    }
  }

  lemma MintedNext(counter: nat, k: nat)
    ensures Minted(counter, k + 1) == Next(Minted(counter, k))
  {
  }

  lemma WalkMints(arcs: seq<Arc>, a: Arc, b: Arc)
    requires a.start == b.start && b.length == a.length + 1
    ensures Total(arcs + [b]) == Total(arcs + [a]) + 1
    ensures Contiguous(arcs + [a]) ==> Contiguous(arcs + [b])
  {
    hide Minted;
    TotalSnoc(arcs, a);
    TotalSnoc(arcs, b);
    if Contiguous(arcs + [a]) {
      forall i | 0 <= i < |arcs + [b]|
        ensures (arcs + [b])[i].start == Minted(SEQUENCE_ID_FLOOR, Total((arcs + [b])[..i]))
      {
        assert (arcs + [b])[..i] == (arcs + [a])[..i];
        assert (arcs + [a])[i].start == (arcs + [b])[i].start;
      }
    }
  }

  /** An id that an earlier command carries is not minted again while the arcs stay apart. */
  lemma NewIdIsFresh(s: State, id: nat)
    requires ArcsValid(s) && IdInArcs(AllArcs(s), id)
    requires ArcsApart(AllArcs(s.MintId()))
    ensures id != s.MintId().counter
  {
    hide Minted, Apart, Contiguous, Total;
    var t := s.MintId();
    var n := |s.arcs|;
    var a :| a in AllArcs(s) && a.Contains(id);
    var i :| 0 <= i < |AllArcs(s)| && AllArcs(s)[i] == a;
    var current := Arc(s.boundaryCounter, s.minted + 1);
    assert AllArcs(t)[n] == current && current in AllArcs(t);
    MintedNext(s.boundaryCounter, s.minted);
    assert current.Contains(t.counter) by {
      assert Minted(s.boundaryCounter, s.minted + 1) == t.counter;
    }
    assert InRange(s.boundaryCounter) by { assert Arc(s.boundaryCounter, s.minted) in AllArcs(s); }
    if i < n {
      assert AllArcs(t)[i] == a && a in AllArcs(t) && Apart(a, current);
      ApartIffDisjoint(a, current);
    } else {
      var k: nat :| 1 <= k <= s.minted && Minted(s.boundaryCounter, k) == id;
      MintedRepeatsOnlyAfterCycle(s.boundaryCounter, k, s.minted + 1);
    }
  }

  /** Only the tracked commands and the arcs matter. */
  lemma SameArcs(s: State, t: State)
    requires ArcsValid(s)
    requires t.clockIsReal == s.clockIsReal && t.counter == s.counter && t.lifetime == s.lifetime
    requires t.minted == s.minted && t.withinCycle == s.withinCycle && t.tracked == s.tracked
    requires t.arcs == s.arcs && t.boundaryCounter == s.boundaryCounter
    ensures ArcsValid(t)
  {
    hide ArcsApart, IdInArcs, Contiguous, Total, Minted;
    assert AllArcs(t) == AllArcs(s);
  }

  lemma BeginConnectionKeepsArcs(s: State)
    requires ArcsValid(s)
    ensures ArcsValid(s.BeginConnection())
  {
    hide ArcsApart, IdInArcs, Contiguous, Total, Minted;
    var t := s.BeginConnection();
    assert AllArcs(t) == AllArcs(s) + [Arc(s.counter, 0)];
    GrownKeepsIds(s, t);
    assert t.counter == Minted(t.boundaryCounter, 0) by { MintedNone(t.counter); }
    assert InRange(s.counter) by {
      assert Arc(s.boundaryCounter, s.minted) in AllArcs(s);
      MintedIsCyclic(s.boundaryCounter, s.minted);
    }
    if !s.clockIsReal {
      WalkEnds(s.arcs, Arc(s.boundaryCounter, s.minted), s.counter);
    }
  }

  lemma MintedNone(counter: nat)
    ensures Minted(counter, 0) == counter
  {
  }

  lemma WalkEnds(arcs: seq<Arc>, a: Arc, counter: nat)
    requires Contiguous(arcs + [a]) && counter == Minted(a.start, a.length)
    ensures Contiguous(arcs + [a] + [Arc(counter, 0)]) && Total(arcs + [a] + [Arc(counter, 0)]) == Total(arcs + [a])
  {
    hide Minted;
    var all := arcs + [a];
    var more := all + [Arc(counter, 0)];
    TotalSnoc(arcs, a);
    TotalSnoc(all, Arc(counter, 0));
    MintedAdds(SEQUENCE_ID_FLOOR, Total(arcs), a.length);
    assert all[..|arcs|] == arcs && all[|arcs|] == a;
    forall i | 0 <= i < |more|
      ensures more[i].start == Minted(SEQUENCE_ID_FLOOR, Total(more[..i]))
    {
      if i < |all| {
        assert more[..i] == all[..i] && more[i] == all[i];
      } else {
        assert more[..i] == all;
      }
    }
  }

  lemma ReseedKeepsArcs(s: State, clock: nat)
    requires ArcsValid(s) && s.minted == 0
    ensures ArcsValid(s.Reseed(clock))
  {
    hide ArcsApart, IdInArcs, Contiguous, Total, Minted;
    if s.clockIsReal {
      var t := s.Reseed(clock);
      assert Grown(s, t);
      GrownKeepsIds(s, t);
      MintedNone(t.counter);
      assert forall a <- AllArcs(t) :: a in AllArcs(s) || a == Arc(t.counter, 0);
    }
  }

  lemma EnsureKeepsArcs(s: State, dial: Dial)
    requires ArcsValid(s)
    ensures ArcsValid(s.Ensure(dial).0)
  {
    if s.session.None? && dial.Reachable? {
      InstallKeepsArcs(s, dial.clock);
    }
  }

  lemma DispatchKeepsArcs(s: State, command: string, ack: AckExpectation, dial: Dial,
                          published: Option<TransportError>, now: nat)
    requires ArcsValid(s)
    ensures ArcsValid(s.Dispatch(command, ack, dial, published, now).0)
  {
    hide ArcsValid, State.Ensure, State.MintId;
    EnsureKeepsArcs(s, dial);
    var (e, failure) := s.Ensure(dial);
    if failure.None? {
      MintKeepsArcs(e);
      var m := e.MintId();
      if published.None? {
        var handle := CommandHandle(command, m.counter, ack);
        TrackKeepsArcs(m, handle, s.Deadline(now), e);
        assert s.Dispatch(command, ack, dial, published, now).0
            == m.(tracker := m.tracker.Track(handle, s.Deadline(now)),
                  tracked := if ack == Echoes then m.tracked + [handle] else m.tracked);
      } else {
        assert s.Dispatch(command, ack, dial, published, now).0 == m;
      }
    }
  }

  lemma TrackKeepsArcs(m: State, handle: CommandHandle, deadline: Option<nat>, e: State)
    requires ArcsValid(m) && m == e.MintId() && handle.sequenceId == m.counter
    requires ArcsApart(AllArcs(m)) ==> forall h <- e.tracked :: h.sequenceId != m.counter
    ensures ArcsValid(m.(tracker := m.tracker.Track(handle, deadline),
                         tracked := if handle.ack == Echoes then m.tracked + [handle] else m.tracked))
  {
    hide ArcsApart, Contiguous, Total, Minted, Tracker.Track;
    var t := m.(tracker := m.tracker.Track(handle, deadline),
                tracked := if handle.ack == Echoes then m.tracked + [handle] else m.tracked);
    assert AllArcs(t) == AllArcs(m);
    var current := Arc(m.boundaryCounter, m.minted);
    assert current in AllArcs(m) && Minted(m.boundaryCounter, m.minted) == m.counter;
    assert current.Contains(handle.sequenceId);
  }

  lemma NextUnansweredKeepsArcs(s: State, now: nat)
    requires ArcsValid(s)
    ensures ArcsValid(s.NextUnansweredOutcome(now).0)
  {
    hide ArcsValid;
    SameArcs(s, s.NextUnansweredOutcome(now).0);
  }

  lemma ClassifyKeepsArcs(s: State, m: Message, at: nat)
    requires ArcsValid(s)
    ensures ArcsValid(s.Classify(m, at).0)
  {
    hide ArcsValid;
    SameArcs(s, s.Classify(m, at).0);
  }

  lemma PollKeepsArcs(s: State, dial: Dial, now: nat, later: nat, read: Result<Message, TransportError>)
    requires ArcsValid(s)
    ensures ArcsValid(s.Poll(dial, now, later, read).0)
  {
    hide ArcsValid, State.NextUnansweredOutcome, State.Classify, State.Ensure;
    if s.session.Some? && s.session.value != [] {
      SameArcs(s, s.PopBuffered().Polled(s.ArrivalAt(0)));
      ClassifyKeepsArcs(s.PopBuffered().Polled(s.ArrivalAt(0)), s.session.value[0], s.ArrivalAt(0));
    } else {
      NextUnansweredKeepsArcs(s, now);
      var (s1, r1) := s.NextUnansweredOutcome(now);
      if r1.None? {
        EnsureKeepsArcs(s1, dial);
        var (s2, failure) := s1.Ensure(dial);
        if failure.None? {
          NextUnansweredKeepsArcs(s2, later);
          var (s3, r3) := s2.NextUnansweredOutcome(later);
          if r3.None? {
            EnsuredHasSession(s1, dial, later);
            SameArcs(s3, s3.TakeMessage(read).0);
            var (s4, m) := s3.TakeMessage(read);
            if m.Ok? {
              SameArcs(s4, s4.Polled(m.value.arrival));
              ClassifyKeepsArcs(s4.Polled(m.value.arrival), m.value.message, m.value.arrival);
            }
          }
        }
      }
    }
  }

  lemma EnsuredHasSession(s: State, dial: Dial, now: nat)
    requires s.Ensure(dial).1.None?
    ensures s.Ensure(dial).0.session.Some? && s.Ensure(dial).0.NextUnansweredOutcome(now).0.session.Some?
  {
  }

  lemma PollUntilKeepsArcs(s: State, matcher: Message -> bool, dial: Dial, start: nat, wire: Wire)
    requires ArcsValid(s)
    ensures ArcsValid(s.PollUntil(matcher, dial, start, wire).0)
  {
    hide ArcsValid, State.PollUntil, State.Ensure;
    EnsureKeepsArcs(s, dial);
    PollUntilAfterEnsure(s, matcher, dial, start, wire);
    var (e, failure) := s.Ensure(dial);
    if failure.None? {
      EnsuredSession(s, dial);
      PollUntilOnSession(e, matcher, dial, start, wire);
      SameArcs(e, e.PollUntil(matcher, dial, start, wire).0);
    }
  }

  lemma GetVersionKeepsArcs(s: State, dial: Dial, published: Option<TransportError>, start: nat, wire: Wire)
    requires ArcsValid(s)
    ensures ArcsValid(s.GetVersion(dial, published, start, wire).0)
  {
    hide ArcsValid, State.PollUntil, State.Ensure, State.MintId;
    MintKeepsArcs(s);
    EnsureKeepsArcs(s.MintId(), dial);
    var (e, failure) := s.MintId().Ensure(dial);
    if failure.None? && published.None? {
      var matcher := RepliesVersion(s.MintId().counter);
      PollUntilKeepsArcs(e, matcher, dial, start, wire);
      SameArcs(e.PollUntil(matcher, dial, start, wire).0, s.GetVersion(dial, published, start, wire).0);
    }
  }

  lemma EnsureOpens(s: State, dial: Dial)
    ensures s.Ensure(dial).1.None? ==> s.Ensure(dial).0.session.Some?
  {
  }

  lemma PollRawKeepsArcs(s: State, dial: Dial, read: Result<Message, TransportError>)
    requires ArcsValid(s)
    ensures ArcsValid(s.PollRaw(dial, read).0)
  {
    hide ArcsValid, State.Ensure, OverlookedIn, FirstN, LastN;
    EnsureKeepsArcs(s, dial);
    EnsureOpens(s, dial);
    SameArcs(s.Ensure(dial).0, s.PollRaw(dial, read).0);
  }

  lemma DisconnectKeepsArcs(s: State)
    requires ArcsValid(s)
    ensures ArcsValid(s.Disconnect())
  {
    hide ArcsValid, OverlookedIn;
    SameArcs(s, s.Close());
    BeginConnectionKeepsArcs(s.Close());
  }

  lemma AttachKeepsArcs(s: State, clock: nat)
    requires ArcsValid(s)
    ensures ArcsValid(s.Attach(clock))
  {
    hide ArcsValid, OverlookedIn;
    SameArcs(s, s.Close());
    InstallKeepsArcs(s.Close(), clock);
  }

  lemma InstallKeepsArcs(s: State, clock: nat)
    requires ArcsValid(s)
    ensures ArcsValid(s.Install(clock))
  {
    hide ArcsValid;
    var open := s.(session := Some([]), arrivals := []);
    SameArcs(s, open);
    BeginConnectionKeepsArcs(open);
    ReseedKeepsArcs(open.BeginConnection(), clock);
    MintKeepsArcs(open.BeginConnection().Reseed(clock));
  }

  lemma StepKeepsArcs(s: State, op: Op)
    requires ArcsValid(s)
    ensures ArcsValid(Step(s, op))
  {
    hide ArcsValid, State.Dispatch, State.Poll, State.PollRaw, State.AwaitAck, State.PollUntil, State.GetVersion;
    hide State.Ensure, State.Install, State.MintId;
    match op
    case Dispatching(command, ack, dial, published, now) => DispatchKeepsArcs(s, command, ack, dial, published, now);
    case Polling(dial, now, later, read) => PollKeepsArcs(s, dial, now, later, read);
    case PollingRaw(dial, read) => PollRawKeepsArcs(s, dial, read);
    case Awaiting(handle, dial, start, wire) => AwaitKeepsArcs(s, handle, dial, start, wire);
    case Requesting(matcher, dial, start, wire) => PollUntilKeepsArcs(s, matcher, dial, start, wire);
    case GettingVersion(dial, published, start, wire) => GetVersionKeepsArcs(s, dial, published, start, wire);
    case Ensuring(dial) => EnsureKeepsArcs(s, dial);
    case Disconnecting => DisconnectKeepsArcs(s);
    case Attaching(clock) => AttachKeepsArcs(s, clock);
    case MintingId => MintKeepsArcs(s);
    case SettingTimeout(timeout) => SameArcs(s, s.(timeout := timeout));
  }

  lemma AwaitKeepsArcs(s: State, handle: CommandHandle, dial: Dial, start: nat, wire: Wire)
    requires ArcsValid(s)
    ensures ArcsValid(s.AwaitAck(handle, dial, start, wire).0)
  {
    hide ArcsValid, State.PollUntil;
    PollUntilKeepsArcs(s, Answers(handle), dial, start, wire);
    var end := s.AwaitAck(handle, dial, start, wire).0;
    if handle.ack == SettlesOnPublish || s.tracker.TakeKnown(handle).1.Some? || !s.tracker.IsPending(handle) {
      SameArcs(s, end);
    } else {
      SameArcs(s.PollUntil(Answers(handle), dial, start, wire).0, end);
    }
  }

  lemma {:induction false} RunKeepsArcs(s: State, ops: seq<Op>)
    requires ArcsValid(s)
    ensures ArcsValid(Run(s, ops))
    decreases |ops|
  {
    if ops != [] {
      RunKeepsArcs(s, ops[..|ops| - 1]);
      StepKeepsArcs(Run(s, ops[..|ops| - 1]), ops[|ops| - 1]);
    }
  }

  /**
   Distinct handles, also for a client that reseeds: while no connection mints more than a cycle of
   ids, and no two of them reach into the ids of each other, no handle is given twice. An arc begins
   at the seed of its connection, or without one where the arc before it ended.
   */
  lemma HandlesAreDistinct(clockIsReal: bool, timeout: Option<nat>, ops: seq<Op>)
    requires ArcsApart(AllArcs(Run(NewClient(clockIsReal, timeout), ops)))
    ensures Distinct(Run(NewClient(clockIsReal, timeout), ops).tracked)
  {
    hide Run, AllArcs, ArcsApart, IdInArcs, WalkValid;
    NewClientArcs(clockIsReal, timeout);
    RunKeepsArcs(NewClient(clockIsReal, timeout), ops);
  }

  lemma ContiguousAreApart(arcs: seq<Arc>)
    requires Contiguous(arcs) && Total(arcs) <= CYCLE
    ensures ArcsApart(arcs)
  {
    hide Minted, Total, Contiguous;
    forall i | 0 <= i < |arcs|
      ensures arcs[i].length <= CYCLE
    {
      TotalsGrow(arcs, i, i);
    }
    forall i, j | 0 <= i < j < |arcs|
      ensures Apart(arcs[i], arcs[j])
    {
      ApartInWalk(arcs, i, j);
    }
  }

  lemma {:induction false} TotalAppend(a: seq<Arc>, b: seq<Arc>)
    ensures Total(a + b) == Total(a) + Total(b)
    decreases |b|
  {
    if b == [] {
      assert a + b == a;
    } else {
      var init, last := b[..|b| - 1], b[|b| - 1];
      TotalAppend(a, init);
      TotalSnoc(a + init, last);
      assert a + b == (a + init) + [last];
    }
  }

  lemma TotalsGrow(arcs: seq<Arc>, i: nat, j: nat)
    requires i <= j < |arcs|
    ensures Total(arcs[..i]) + (if i < j then arcs[i].length else 0) <= Total(arcs[..j])
    ensures Total(arcs[..j]) + arcs[j].length <= Total(arcs)
  {
    hide Total;
    TotalSnoc(arcs[..j], arcs[j]);
    TotalAppend(arcs[..j] + [arcs[j]], arcs[j + 1..]);
    assert arcs == arcs[..j] + [arcs[j]] + arcs[j + 1..];
    if i < j {
      TotalSnoc(arcs[..i], arcs[i]);
      TotalAppend(arcs[..i] + [arcs[i]], arcs[i + 1..j]);
      assert arcs[..j] == arcs[..i] + [arcs[i]] + arcs[i + 1..j];
    }
  }

  lemma ApartInWalk(arcs: seq<Arc>, i: nat, j: nat)
    requires i < j < |arcs| && Contiguous(arcs) && Total(arcs) <= CYCLE
    ensures Apart(arcs[i], arcs[j])
  {
    hide Minted, Total;
    TotalsGrow(arcs, i, j);
    var x, y := Total(arcs[..i]), Total(arcs[..j]);
    if arcs[i].length > 0 && arcs[j].length > 0 {
      WalkAt(x);
      WalkAt(y);
      OffsetIs(arcs[i].start, arcs[j].start);
      OffsetIs(arcs[j].start, arcs[i].start);
    }
  }

  lemma WalkAt(k: nat)
    requires k < CYCLE
    ensures Minted(SEQUENCE_ID_FLOOR, k) == SEQUENCE_ID_FLOOR + k
  {
    hide Minted;
    MintedIsCyclic(SEQUENCE_ID_FLOOR, k);
  }

  /** A client without a real clock gives distinct handles until it has minted a whole cycle of ids. */
  lemma ClocklessHandlesAreDistinct(timeout: Option<nat>, ops: seq<Op>)
    requires Run(NewClient(false, timeout), ops).lifetime <= CYCLE
    ensures var s := Run(NewClient(false, timeout), ops); s.withinCycle && Distinct(s.tracked)
  {
    hide Run, AllArcs, ArcsApart, IdInArcs, Contiguous, Total;
    NewClientArcs(false, timeout);
    RunKeepsArcs(NewClient(false, timeout), ops);
    ClockStays(NewClient(false, timeout), ops);
    ContiguousAreApart(AllArcs(Run(NewClient(false, timeout), ops)));
  }

  lemma {:induction false} ClockStays(s: State, ops: seq<Op>)
    ensures Run(s, ops).clockIsReal == s.clockIsReal
    decreases |ops|
  {
    hide Step;
    if ops != [] {
      ClockStays(s, ops[..|ops| - 1]);
      StepKeepsClock(Run(s, ops[..|ops| - 1]), ops[|ops| - 1]);
    }
  }

  lemma EnsureKeepsClock(s: State, dial: Dial)
    ensures s.Ensure(dial).0.clockIsReal == s.clockIsReal
    ensures s.Ensure(dial).1.None? ==> s.Ensure(dial).0.session.Some?
  {
  }

  lemma OutcomeKeepsClock(s: State, now: nat)
    ensures s.NextUnansweredOutcome(now).0.clockIsReal == s.clockIsReal
    ensures s.NextUnansweredOutcome(now).0.session == s.session
  {
  }

  lemma ClassifyKeepsClock(s: State, m: Message, at: nat)
    ensures s.Classify(m, at).0.clockIsReal == s.clockIsReal
  {
  }

  lemma PollKeepsClock(s: State, dial: Dial, now: nat, later: nat, read: Result<Message, TransportError>)
    ensures s.Poll(dial, now, later, read).0.clockIsReal == s.clockIsReal
  {
    hide State.NextUnansweredOutcome, State.Classify, State.Ensure;
    if s.session.Some? && s.session.value != [] {
      ClassifyKeepsClock(s.PopBuffered().Polled(s.ArrivalAt(0)), s.session.value[0], s.ArrivalAt(0));
    } else {
      OutcomeKeepsClock(s, now);
      var s1 := s.NextUnansweredOutcome(now).0;
      EnsureKeepsClock(s1, dial);
      var (s2, failure) := s1.Ensure(dial);
      OutcomeKeepsClock(s2, later);
      if failure.None? {
        var (s4, m) := s2.NextUnansweredOutcome(later).0.TakeMessage(read);
        if m.Ok? {
          ClassifyKeepsClock(s4.Polled(m.value.arrival), m.value.message, m.value.arrival);
        }
      }
    }
  }

  lemma PollUntilKeepsClock(s: State, matcher: Message -> bool, dial: Dial, start: nat, wire: Wire)
    ensures s.PollUntil(matcher, dial, start, wire).0.clockIsReal == s.clockIsReal
  {
    hide State.Ensure, Wait, OverlookedIn, Read, LastN;
    EnsureKeepsClock(s, dial);
  }

  lemma StepKeepsClock(s: State, op: Op)
    ensures Step(s, op).clockIsReal == s.clockIsReal
  {
    hide State.Ensure, State.Poll, State.PollUntil, OverlookedIn;
    hide Tracker.TakeKnown, Tracker.Track, Tracker.Forget, Tracker.IsPending;
    match op
    case Dispatching(command, ack, dial, published, now) => EnsureKeepsClock(s, dial);
    case Polling(dial, now, later, read) => PollKeepsClock(s, dial, now, later, read);
    case PollingRaw(dial, read) => EnsureKeepsClock(s, dial);
    case Awaiting(handle, dial, start, wire) => PollUntilKeepsClock(s, Answers(handle), dial, start, wire);
    case Requesting(matcher, dial, start, wire) => PollUntilKeepsClock(s, matcher, dial, start, wire);
    case GettingVersion(dial, published, start, wire) =>
      EnsureKeepsClock(s.MintId(), dial);
      PollUntilKeepsClock(s.MintId().Ensure(dial).0, RepliesVersion(s.MintId().counter), dial, start, wire);
    case Ensuring(dial) => EnsureKeepsClock(s, dial);
    case _ =>
  }
}
