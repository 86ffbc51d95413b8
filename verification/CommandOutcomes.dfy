/** The promises about command outcomes, over every run of the client. */
module CommandOutcomes {
  import opened Wrappers
  import opened Sequences
  import opened SequenceIds
  import opened CommandTracking
  import opened ClientSpec
  import opened TrackerFacts
  import opened ClientInvariant

  predicate IsReady(s: State, handle: CommandHandle) {
    exists r <- s.tracker.ready :: r.handle == handle
  }

  predicate IsDelivered(s: State, handle: CommandHandle) {
    (exists r <- s.polled :: r.handle == handle) || (exists r <- s.awaited :: r.handle == handle)
  }

  /** The outcomes handed to the caller so far, as events or as answers. */
  function Outcomes(s: State): seq<CommandResolution> {
    s.polled + s.awaited
  }

  lemma MapMultiset<S, T>(f: S -> T, s: seq<S>, y: T)
    ensures y in multiset(Map(f, s)) <==> exists x <- s :: f(x) == y
  {
    if x :| x in s && f(x) == y {
      var i :| 0 <= i < |s| && s[i] == x;
      assert Map(f, s)[i] == y;
    }
    if y in Map(f, s) {
      var i :| 0 <= i < |s| && Map(f, s)[i] == y;
      assert s[i] in s && f(s[i]) == y;
    }
  }

  /** Where a handle is, counted. */
  lemma PlacesCount(s: State, h: CommandHandle)
    ensures multiset(Map(HandleOf, s.tracker.pending))[h] > 0 <==> s.tracker.IsPending(h)
    ensures multiset(Map(ResolvedHandle, s.tracker.ready))[h] > 0 <==> IsReady(s, h)
    ensures Delivered(s)[h] > 0 <==> IsDelivered(s, h)
    ensures Delivered(s) == multiset(Map(ResolvedHandle, Outcomes(s)))
  {
    MapMultiset(HandleOf, s.tracker.pending, h);
    MapMultiset(ResolvedHandle, s.tracker.ready, h);
    MapMultiset(ResolvedHandle, s.polled, h);
    MapMultiset(ResolvedHandle, s.awaited, h);
    MapAppend(ResolvedHandle, s.polled, s.awaited);
  }

  /**
   Exactly one outcome. Whatever happened, each command published under a handle of its own is
   in exactly one place: pending, ready or delivered, and it was delivered at most once. No
   outcome is for a command that was not published.
   */
  lemma ExactlyOneOutcome(s: State, ops: seq<Op>, h: CommandHandle)
    requires Valid(s) && Distinct(Run(s, ops).tracked)
    ensures var t := Run(s, ops);
            var pending, ready, delivered := t.tracker.IsPending(h), IsReady(t, h), IsDelivered(t, h);
            if h in t.tracked
            then
              || (pending && !ready && !delivered)
              || (!pending && ready && !delivered)
              || (!pending && !ready && delivered)
            else !pending && !ready && !delivered
    ensures Distinct(Map(ResolvedHandle, Outcomes(Run(s, ops))))
  {
    hide Run;
    RunKeeps(s, ops);
    var t := Run(s, ops);
    PlacesCount(t, h);
    DistinctCount(t.tracked, h);
    OutcomesAreDistinct(t);
  }

  lemma OutcomesAreDistinct(s: State)
    requires Valid(s) && Distinct(s.tracked)
    ensures Distinct(Map(ResolvedHandle, Outcomes(s)))
  {
    var handles := Map(ResolvedHandle, Outcomes(s));
    forall h | h in handles
      ensures multiset(handles)[h] <= 1
    {
      PlacesCount(s, h);
      DistinctCount(s.tracked, h);
    }
    CountedOnceIsDistinct(handles);
  }

  // ----- every command ends -----

  /** A disconnected client with nothing pending, whose polls have handed out all but `ready`. */
  ghost predicate Draining(s: State, tracked: seq<CommandHandle>, ready: seq<CommandResolution>) {
    && s.session.None? && s.tracker.pending == []
    && s.tracked == tracked && s.tracker.ready == ready
  }

  lemma PollDrains(s: State, tracked: seq<CommandHandle>, ready: seq<CommandResolution>, op: Op)
    requires Draining(s, tracked, ready) && ready != [] && op.Polling?
    ensures Draining(Step(s, op), tracked, ready[1..])
  {
  }

  lemma {:induction false} PollsDrain(s: State, tracked: seq<CommandHandle>, ready: seq<CommandResolution>,
                                      polls: seq<Op>)
    requires Draining(s, tracked, ready) && |polls| <= |ready| && forall op <- polls :: op.Polling?
    ensures Draining(Run(s, polls), tracked, ready[|polls|..])
    decreases |polls|
  {
    hide Draining, Step;
    if polls == [] {
      assert ready[0..] == ready;
    } else {
      var n := |polls| - 1;
      PollsDrain(s, tracked, ready, polls[..n]);
      PollDrains(Run(s, polls[..n]), tracked, ready[n..], polls[n]);
      assert ready[n..][1..] == ready[n + 1..];
    }
  }

  lemma {:induction false} RunAppend(s: State, ops: seq<Op>, more: seq<Op>)
    ensures Run(s, ops + more) == Run(Run(s, ops), more)
    decreases |more|
  {
    hide Step;
    if more == [] {
      assert ops + more == ops;
    } else {
      RunAppend(s, ops, more[..|more| - 1]);
      assert (ops + more)[..|ops + more| - 1] == ops + more[..|more| - 1];
    }
  }

  lemma DisconnectSettles(s: State)
    ensures var t := Step(s, Disconnecting);
            Draining(t, s.tracked, t.tracker.ready)
  {
  }

  /**
   Every command ends in an outcome. Whatever a run did, once the client is disconnected and polled
   as often as outcomes are then queued, every command it tracked has been delivered, whatever the
   polls meet.
   */
  lemma EveryCommandEnds(s: State, ops: seq<Op>, polls: seq<Op>)
    requires Valid(s) && Distinct(Run(s, ops).tracked)
    requires |polls| == |Run(s, ops + [Disconnecting]).tracker.ready| && forall op <- polls :: op.Polling?
    ensures var t := Run(s, ops + [Disconnecting] + polls);
            && t.tracked == Run(s, ops).tracked
            && t.tracker.pending == [] && t.tracker.ready == []
            && (forall h <- t.tracked :: IsDelivered(t, h))
            && Distinct(Map(ResolvedHandle, Outcomes(t)))
  {
    hide Run, Step, Valid, IsDelivered;
    var end := Run(s, ops + [Disconnecting]);
    RunAppend(s, ops, [Disconnecting]);
    RunOne(Run(s, ops), Disconnecting);
    DisconnectSettles(Run(s, ops));
    RunAppend(s, ops + [Disconnecting], polls);
    PollsDrain(end, end.tracked, end.tracker.ready, polls);
    var t := Run(s, ops + [Disconnecting] + polls);
    RunKeeps(s, ops + [Disconnecting] + polls);
    OutcomesAreDistinct(t);
    forall h | h in t.tracked
      ensures IsDelivered(t, h)
    {
      ExactlyOneOutcome(s, ops + [Disconnecting] + polls, h);
    }
  }

  lemma RunOne(s: State, op: Op)
    ensures Run(s, [op]) == Step(s, op)
  {
    hide Step;
    assert [op][..0] == [];
  }

  /**
   While a connection has minted no more than a cycle of ids, an echo answers at most one pending
   command, and that is the one it takes.
   */
  lemma EchoAnswersAtMostOne(s: State, ops: seq<Op>, echo: CommandEcho, k: nat)
    requires Valid(s) && Run(s, ops).minted <= CYCLE
    requires var pending := Run(s, ops).tracker.pending;
             k < |pending| && pending[k].handle.IsAnsweredBy(echo)
    ensures var t := Run(s, ops).tracker;
            && (forall i | 0 <= i < |t.pending| && t.pending[i].handle.IsAnsweredBy(echo) :: i == k)
            && t.TakeAnswered(echo) == (t.(pending := Without(t.pending, k)), Some(t.pending[k].handle))
  {
    hide Run, Tracker.TakeAnswered;
    RunKeeps(s, ops);
    EchoAnswersOne(Run(s, ops).tracker, echo, k);
  }
}
