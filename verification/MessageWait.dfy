/** What a request-response wait does to the messages it reads. */
module MessageWait {
  import opened Wrappers
  import opened Sequences
  import opened MessageBuffer
  import opened ClientSpec

  /** Whether a wait that began with `budget` is over once `n` messages have been read. */
  predicate Spent(budget: WaitBudget, wire: Wire, n: nat)
    requires 0 < n <= |wire.readings|
  {
    if budget.realClock then
      budget.timeoutMs.Some? && (wire.readings[n - 1].now - budget.startMs) % U64_SIZE >= budget.timeoutMs.value
    else n >= POLL_UNTIL_MAX_MESSAGES
  }

  /** The wait read the messages before `n`, none of them a match, and it was not over before. */
  ghost predicate Waited(matcher: Message -> bool, budget: WaitBudget, wire: Wire, i: nat, n: nat) {
    && i <= n <= |wire.readings|
    && (forall k | i <= k < n :: !matcher(wire.readings[k].message))
    && (forall k | i < k < n :: !Spent(budget, wire, k))
  }

  /** How a wait that read the messages before `n` ended. */
  ghost predicate EndedWith(matcher: Message -> bool, budget: WaitBudget, wire: Wire, i: nat, n: nat,
                            r: Result<Message, Error>)
    requires i <= n <= |wire.readings|
  {
    || (r == Err(Timeout) && i < n && Spent(budget, wire, n))
    || (&& (n > i ==> !Spent(budget, wire, n))
        && if n < |wire.readings| then matcher(wire.readings[n].message) && r == Ok(wire.readings[n].message)
           else r == Err(Transport(wire.failure)))
  }

  /** What holds of the rest of a wait holds of the whole, once a first message did not end it. */
  lemma WaitGoesOn(matcher: Message -> bool, budget: WaitBudget, spent: WaitBudget, wire: Wire, i: nat, n: nat,
                   r: Result<Message, Error>)
    requires Waited(matcher, spent, wire, i + 1, n) && EndedWith(matcher, spent, wire, i + 1, n, r)
    requires i < |wire.readings| && !matcher(wire.readings[i].message)
    requires (spent, false) == budget.AfterMessage(wire.readings[i].now)
    requires !budget.realClock ==> budget.messages == i
    ensures Waited(matcher, budget, wire, i, n) && EndedWith(matcher, budget, wire, i, n, r)
  {
    assert forall k | 0 < k <= |wire.readings| :: Spent(spent, wire, k) == Spent(budget, wire, k);
    assert !Spent(budget, wire, i + 1);
  }

  lemma ReadGoesOn(buffer: seq<Message>, wire: Wire, i: nat, n: nat)
    requires i < n <= |wire.readings|
    ensures buffer + Read(wire, i, n) == (buffer + [wire.readings[i].message]) + Read(wire, i + 1, n)
  {
  }

  /**
   The wait stops at the first match, the end of its budget or the end of the wire. The buffer
   holds what came before, in order, but for the oldest messages that had to be evicted.
   */
  lemma {:induction false} WaitReads(buffer: seq<Message>, matcher: Message -> bool, budget: WaitBudget, wire: Wire,
                                     i: nat)
    returns (n: nat)
    requires i <= |wire.readings| && TotalSize(buffer) <= PENDING_BUFFER_MAX_BYTES
    requires !budget.realClock ==> budget.messages == i
    ensures Waited(matcher, budget, wire, i, n)
    ensures var end := Wait(buffer, matcher, budget, wire, i);
            && end.buffer == Fit(buffer + Read(wire, i, n))
            && end.evicted + end.buffer == buffer + Read(wire, i, n)
            && end.taken == (if end.result.Ok? then n + 1 else n)
            && EndedWith(matcher, budget, wire, i, n, end.result)
    decreases |wire.readings| - i
  {
    hide Fit, TotalSize, Evicted;
    if i == |wire.readings| || matcher(wire.readings[i].message) {
      n := i;
      FitIsLosslessIff(buffer);
      assert buffer + Read(wire, i, n) == buffer;
    } else {
      var m := wire.readings[i].message;
      var kept := Fit(buffer + [m]);
      var (spent, expired) := budget.AfterMessage(wire.readings[i].now);
      if expired {
        n := i + 1;
        ReadGoesOn(buffer, wire, i, n);
        assert (buffer + [m]) + Read(wire, n, n) == buffer + [m];
      } else {
        n := WaitReads(kept, matcher, spent, wire, i + 1);
        var end := Wait(kept, matcher, spent, wire, i + 1);
        ReadGoesOn(buffer, wire, i, n);
        FitAppend(buffer + [m], Read(wire, i + 1, n));
        WaitGoesOn(matcher, budget, spent, wire, i, n, end.result);
        EvictionsAdd(Evicted(buffer + [m]), kept, end.evicted, end.buffer, buffer + [m], Read(wire, i + 1, n));
      }
    }
  }

  lemma EvictionsAdd(first: seq<Message>, kept: seq<Message>, later: seq<Message>, last: seq<Message>,
                     buffer: seq<Message>, read: seq<Message>)
    requires first + kept == buffer && later + last == kept + read
    ensures (first + later) + last == buffer + read
  {
    assert (first + later) + last == first + (later + last);
    assert first + (kept + read) == (first + kept) + read;
  }

  /** What a wait has done to the session of `s` once it is over, `n` messages after it began. */
  ghost predicate Conserved(s: State, matcher: Message -> bool, start: nat, wire: Wire, n: nat, t: State,
                            r: Result<Message, Error>)
  {
    && t == s.(session := t.session, received := t.received, arrivals := t.arrivals, goneAt := t.goneAt,
               events := t.events)
    && var b, k := s.Buffered(), Position(s.Buffered(), matcher);
    if k < |b| then n == 0 && r == Ok(b[k]) && t.session == Some(Without(b, k)) && t.received == s.received
    else
      && Waited(matcher, s.Budget(start), wire, 0, n)
      && EndedWith(matcher, s.Budget(start), wire, 0, n, r)
      && t.session == Some(Fit(b + Read(wire, 0, n)))
      && (t.session == Some(b + Read(wire, 0, n)) <==> TotalSize(b + Read(wire, 0, n)) <= PENDING_BUFFER_MAX_BYTES)
      && (r.Ok? ==> n < |wire.readings|)
      && t.received == s.received + Read(wire, 0, if r.Ok? then n + 1 else n)
  }

  lemma AfterWaitKeeps(s: State, wire: Wire, end: WaitEnd)
    requires end.taken <= |wire.readings| && (end.result.Ok? ==> 0 < end.taken)
    ensures var t := s.AfterWait(wire, end);
            && t == s.(session := Some(end.buffer), received := t.received, arrivals := t.arrivals,
                       goneAt := t.goneAt, events := t.events)
            && t.received == s.received + Read(wire, 0, end.taken)
  {
    hide OverlookedIn, LastN, Range, Read;
  }

  /** On a session a wait is either a claim from the buffer or a wait on the wire. */
  lemma PollUntilSplits(s: State, matcher: Message -> bool, dial: Dial, start: nat, wire: Wire)
    requires s.session.Some?
    ensures var b, k := s.Buffered(), Position(s.Buffered(), matcher);
            s.PollUntil(matcher, dial, start, wire)
            == if k < |b| then (s.ClaimBuffered(k), Ok(b[k]))
               else
                 var end := Wait(b, matcher, s.Budget(start), wire, 0);
                 (s.AfterWait(wire, end), end.result)
  {
    hide Wait, State.ClaimBuffered, State.AfterWait;
  }

  lemma SessionConserves(s: State, matcher: Message -> bool, dial: Dial, start: nat, wire: Wire) returns (n: nat)
    requires s.session.Some? && TotalSize(s.Buffered()) <= PENDING_BUFFER_MAX_BYTES
    ensures var (t, r) := s.PollUntil(matcher, dial, start, wire);
            Conserved(s, matcher, start, wire, n, t, r)
    ensures !s.clockIsReal ==> n <= POLL_UNTIL_MAX_MESSAGES
  {
    hide Fit, TotalSize, State.PollUntil, State.AfterWait, Read, Wait, Waited, EndedWith, OverlookedIn;
    PollUntilSplits(s, matcher, dial, start, wire);
    n := 0;
    if Position(s.Buffered(), matcher) == |s.Buffered()| {
      n := WaitReads(s.Buffered(), matcher, s.Budget(start), wire, 0);
      AfterWaitKeeps(s, wire, Wait(s.Buffered(), matcher, s.Budget(start), wire, 0));
      OkIsARead(matcher, s.Budget(start), wire, n, Wait(s.Buffered(), matcher, s.Budget(start), wire, 0).result);
      FitIsLosslessIff(s.Buffered() + Read(wire, 0, n));
    }
  }

  lemma OkIsARead(matcher: Message -> bool, budget: WaitBudget, wire: Wire, n: nat, r: Result<Message, Error>)
    requires Waited(matcher, budget, wire, 0, n) && EndedWith(matcher, budget, wire, 0, n, r)
    ensures n <= |wire.readings| && (r.Ok? ==> n < |wire.readings|)
    ensures !budget.realClock ==> n <= POLL_UNTIL_MAX_MESSAGES
  {
    if !budget.realClock && n > POLL_UNTIL_MAX_MESSAGES {
      assert Spent(budget, wire, POLL_UNTIL_MAX_MESSAGES);
      assert false;
    }
  }

  lemma EnsuredSession(s: State, dial: Dial)
    requires s.Ensure(dial).1.None?
    ensures var e := s.Ensure(dial).0;
            && e.session.Some? && e.clockIsReal == s.clockIsReal
            && (s.session.None? ==> e.Buffered() == []) && (s.session.Some? ==> e == s)
  {
  }

  lemma PollUntilAfterEnsure(s: State, matcher: Message -> bool, dial: Dial, start: nat, wire: Wire)
    ensures var (e, failure) := s.Ensure(dial);
            s.PollUntil(matcher, dial, start, wire)
            == if failure.Some? then (e, Err(failure.value)) else e.PollUntil(matcher, dial, start, wire)
    ensures s.Ensure(dial).1.Some? ==> s.Ensure(dial).0 == s
  {
  }

  /**
   Message conservation. A request-response wait that cannot dial changes nothing. Otherwise, with
   buffer `b` once it is connected, it either claims the first match in `b`, leaving the others in
   order; or reads `n` messages that do not match and leaves `b` followed by those, less the oldest
   ones evicted to fit the byte limit. That is all of them exactly when they fit. Without a real
   clock it reads at most 200 of them.
   */
  lemma PollUntilConserves(s: State, matcher: Message -> bool, dial: Dial, start: nat, wire: Wire) returns (n: nat)
    requires TotalSize(s.Buffered()) <= PENDING_BUFFER_MAX_BYTES
    ensures var (e, failure) := s.Ensure(dial);
            var (t, r) := s.PollUntil(matcher, dial, start, wire);
            && (s.session.None? && failure.None? ==> e.Buffered() == [])
            && if failure.Some? then n == 0 && t == s && r == Err(failure.value)
               else Conserved(e, matcher, start, wire, n, t, r)
    ensures !s.clockIsReal ==> n <= POLL_UNTIL_MAX_MESSAGES
  {
    hide State.Ensure, State.PollUntil, Conserved;
    n := 0;
    PollUntilAfterEnsure(s, matcher, dial, start, wire);
    var (e, failure) := s.Ensure(dial);
    if failure.None? {
      EnsuredSession(s, dial);
      assert TotalSize([]) == 0;
      n := SessionConserves(e, matcher, dial, start, wire);
    }
  }

  /** Nothing that would have matched is buffered when a wait ends without a match. */
  lemma NoMatchLeftBehind(s: State, matcher: Message -> bool, dial: Dial, start: nat, wire: Wire)
    requires TotalSize(s.Buffered()) <= PENDING_BUFFER_MAX_BYTES
    requires s.PollUntil(matcher, dial, start, wire).1.Err?
    ensures forall m <- s.PollUntil(matcher, dial, start, wire).0.Buffered() :: !matcher(m)
  {
    hide State.Ensure, State.PollUntil, Fit, TotalSize;
    var n := PollUntilConserves(s, matcher, dial, start, wire);
    if s.Ensure(dial).1.Some? {
      FailedDialHasNoSession(s, dial);
    } else {
      var e := s.Ensure(dial).0;
      UnmatchedStay(e.Buffered(), matcher, e.Budget(start), wire, n);
    }
  }

  lemma UnmatchedStay(b: seq<Message>, matcher: Message -> bool, budget: WaitBudget, wire: Wire, n: nat)
    requires Waited(matcher, budget, wire, 0, n) && forall m <- b :: !matcher(m)
    ensures forall m <- Fit(b + Read(wire, 0, n)) :: !matcher(m)
  {
    hide Fit;
    var all := b + Read(wire, 0, n);
    var dropped := FitIsLongestSuffix(all);
    forall m | m in all[dropped..]
      ensures !matcher(m)
    {
      var i :| 0 <= i < |all| && all[i] == m;
      if i >= |b| {
        assert m == wire.readings[i - |b|].message;
      }
    }
  }

  lemma FailedDialHasNoSession(s: State, dial: Dial)
    requires s.Ensure(dial).1.Some?
    ensures s.Ensure(dial).0.Buffered() == [] && s.Buffered() == []
  {
  }

  /** The byte limit does lose messages: of three that are as large as can be received, a wait keeps the last two. */
  lemma EvictionLosesMessage(first: Message, second: Message, third: Message, now: nat, failure: TransportError)
    requires first.size == MAX_MESSAGE_BYTES && second.size == MAX_MESSAGE_BYTES && third.size == MAX_MESSAGE_BYTES
    ensures var wire := Wire([Reading(first, now), Reading(second, now), Reading(third, now)], failure);
            var (t, r) := NewClient(false, None).PollUntil(_ => false, Reachable(0), 0, wire);
            && r == Err(Transport(failure)) && t.received == [first, second, third]
            && t.session == Some([second, third])
  {
    hide Wait, State.PollUntil, State.AfterWait;
    var wire := Wire([Reading(first, now), Reading(second, now), Reading(third, now)], failure);
    var s := NewClient(false, None);
    var none: Message -> bool := _ => false;
    var e := s.Ensure(Reachable(0)).0;
    var n := PollUntilConserves(s, none, Reachable(0), 0, wire);
    assert e.Buffered() == [] && e.received == [];
    assert Position([], none) == 0;
    assert n == 3 by {
      assert forall k | 0 < k <= 3 :: !Spent(s.Budget(0), wire, k);
    }
    assert Read(wire, 0, 3) == [first, second, third];
    assert [] + [first, second, third] == [first, second, third];
    ThirdEvictsFirst(first, second, third);
  }

  lemma ThirdEvictsFirst(first: Message, second: Message, third: Message)
    requires first.size == MAX_MESSAGE_BYTES && second.size == MAX_MESSAGE_BYTES && third.size == MAX_MESSAGE_BYTES
    ensures Fit([first, second, third]) == [second, third]
  {
    var all := [first, second, third];
    TwoMessagesFit(second, third);
    assert all[1..] == [second, third] && [second, third][1..] == [third];
    assert TotalSize([third]) == third.size + TotalSize([]);
    assert TotalSize(all) == first.size + (second.size + TotalSize([third]));
  }
}
