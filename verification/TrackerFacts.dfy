/** What each operation of the command tracker does to the commands it holds. */
module TrackerFacts {
  import opened Wrappers
  import opened Sequences
  import opened CommandTracking

  /** The commands awaiting an echo and those whose outcome waits to be handed out. */
  function Held(t: Tracker): multiset<CommandHandle> {
    multiset(Map(HandleOf, t.pending)) + multiset(Map(ResolvedHandle, t.ready))
  }

  ghost predicate PendingIdsDistinct(t: Tracker) {
    forall i, j | 0 <= i < j < |t.pending| :: t.pending[i].handle.sequenceId != t.pending[j].handle.sequenceId
  }

  lemma RemovedFromMap<S, T>(f: S -> T, s: seq<S>, k: nat)
    requires k < |s|
    ensures multiset(Map(f, s)) == multiset(Map(f, Without(s, k))) + multiset{f(s[k])}
  {
    MapWithout(f, s, k);
    WithoutMultiset(Map(f, s), k);
  }

  lemma AddedToMap<S, T>(f: S -> T, s: seq<S>, x: S)
    ensures multiset(Map(f, s + [x])) == multiset(Map(f, s)) + multiset{f(x)}
  {
    MapAppend(f, s, [x]);
    assert Map(f, [x]) == [f(x)];
  }

  lemma TrackHolds(t: Tracker, handle: CommandHandle, deadline: Option<nat>)
    requires handle.ack == Echoes
    ensures Held(t.Track(handle, deadline)) == Held(t) + multiset{handle}
  {
    var entry := PendingCommand(handle, deadline);
    if |t.pending| < PENDING_COMMAND_LIMIT {
      AddedToMap(HandleOf, t.pending, entry);
    } else {
      assert t.pending[1..] == Without(t.pending, 0);
      RemovedFromMap(HandleOf, t.pending, 0);
      AddedToMap(HandleOf, t.pending[1..], entry);
      AddedToMap(ResolvedHandle, t.ready, CommandResolution(t.pending[0].handle, TimedOut));
    }
  }

  lemma TakeAnsweredReleases(t: Tracker, echo: CommandEcho)
    ensures var (t', h) := t.TakeAnswered(echo);
            Held(t) == Held(t') + (if h.Some? then multiset{h.value} else multiset{})
  {
    var k := t.AnsweredIndex(echo);
    if k < |t.pending| {
      RemovedFromMap(HandleOf, t.pending, k);
    }
  }

  lemma NextUnansweredReleases(t: Tracker, now: Option<nat>)
    ensures var (t', r) := t.NextUnanswered(now);
            Held(t) == Held(t') + (if r.Some? then multiset{r.value.handle} else multiset{})
  {
    if t.ready != [] {
      assert t.ready[1..] == Without(t.ready, 0);
      RemovedFromMap(ResolvedHandle, t.ready, 0);
    } else if now.Some? && t.ExpiredIndex(now.value) < |t.pending| {
      RemovedFromMap(HandleOf, t.pending, t.ExpiredIndex(now.value));
    }
  }

  lemma ConnectionEndedHolds(t: Tracker)
    ensures Held(t.ConnectionEnded()) == Held(t)
  {
    var lose := (p: PendingCommand) => CommandResolution(p.handle, ConnectionLost);
    MapAppend(ResolvedHandle, t.ready, Map(lose, t.pending));
    assert Map(ResolvedHandle, Map(lose, t.pending)) == Map(HandleOf, t.pending);
  }

  lemma TakeKnownReleases(t: Tracker, handle: CommandHandle)
    ensures var (t', outcome) := t.TakeKnown(handle);
            Held(t) == Held(t') + (if t' != t then multiset{handle} else multiset{})
    ensures t.TakeKnown(handle).0 != t <==> t.ReadyIndex(handle) < |t.ready|
  {
    var k := t.ReadyIndex(handle);
    if k < |t.ready| {
      RemovedFromMap(ResolvedHandle, t.ready, k);
    }
  }

  lemma PendingIndex(t: Tracker, handle: CommandHandle) returns (k: nat)
    requires t.IsPending(handle)
    ensures k < |t.pending| && t.pending[k].handle == handle
  {
    var p :| p in t.pending && p.handle == handle;
    k :| 0 <= k < |t.pending| && t.pending[k] == p;
  }

  /** With distinct ids, forgetting a pending command drops that one entry. */
  lemma ForgetReleases(t: Tracker, handle: CommandHandle)
    requires t.IsPending(handle) && PendingIdsDistinct(t)
    ensures Held(t) == Held(t.Forget(handle)) + multiset{handle}
    ensures exists k: nat ::
              && k < |t.pending| && t.pending[k].handle == handle
              && t.Forget(handle).pending == Without(t.pending, k)
  {
    var k := PendingIndex(t, handle);
    KeepAllButOne(t.pending, (p: PendingCommand) => p.handle != handle, k);
    RemovedFromMap(HandleOf, t.pending, k);
  }

  lemma {:induction false} KeepOthersCounts(s: seq<PendingCommand>, handle: CommandHandle)
    ensures multiset(Map(HandleOf, Keep(s, (p: PendingCommand) => p.handle != handle)))
         == multiset(Map(HandleOf, s))[handle := 0]
  {
    if s != [] {
      var init, last := s[..|s| - 1], s[|s| - 1];
      KeepOthersCounts(init, handle);
      assert s == init + [last];
      AddedToMap(HandleOf, init, last);
      if last.handle != handle {
        AddedToMap(HandleOf, Keep(init, (p: PendingCommand) => p.handle != handle), last);
      }
    }
  }

  /** Forgetting a pending command drops that one entry when nothing else is pending under its handle. */
  lemma ForgetHolds(t: Tracker, handle: CommandHandle)
    requires t.IsPending(handle)
    ensures Held(t.Forget(handle)) + multiset{handle} <= Held(t)
    ensures multiset(Map(HandleOf, t.pending))[handle] == 1 ==> Held(t) == Held(t.Forget(handle)) + multiset{handle}
  {
    var k := PendingIndex(t, handle);
    RemovedFromMap(HandleOf, t.pending, k);
    KeepOthersCounts(t.pending, handle);
  }

  /** With distinct ids, an echo answers at most one pending command, and takes exactly that one. */
  lemma EchoAnswersOne(t: Tracker, echo: CommandEcho, k: nat)
    requires PendingIdsDistinct(t)
    requires k < |t.pending| && t.pending[k].handle.IsAnsweredBy(echo)
    ensures forall i | 0 <= i < |t.pending| && t.pending[i].handle.IsAnsweredBy(echo) :: i == k
    ensures t.TakeAnswered(echo) == (t.(pending := Without(t.pending, k)), Some(t.pending[k].handle))
  {
    PositionIs(t.pending, (p: PendingCommand) => p.handle.IsAnsweredBy(echo), k);
  }
}
