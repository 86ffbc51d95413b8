/** What connecting every channel leaves of the MQTT session, next to what connecting MQTT leaves. */
module ConnectAll {
  import opened Wrappers
  import opened SequenceIds
  import opened ConnectionCache
  import opened MessageBuffer
  import opened ClientSpec

  /** A version request on a session mints an id, so it never leaves the client as it was. */
  lemma GetVersionMints(s: State, dial: Dial, published: Option<TransportError>, start: nat, wire: Wire)
    requires s.session.Some?
    ensures s.GetVersion(dial, published, start, wire).0.lifetime == s.lifetime + 1
  {
    hide State.PollUntil;
    var m := s.MintId();
    PollUntilKeepsLifetime(m, RepliesVersion(m.counter), dial, start, wire);
  }

  lemma PollUntilKeepsLifetime(s: State, matcher: Message -> bool, dial: Dial, start: nat, wire: Wire)
    requires s.session.Some?
    ensures s.PollUntil(matcher, dial, start, wire).0.lifetime == s.lifetime
  {
    hide Wait, OverlookedIn, Read;
  }

  /**
   Connecting every channel leaves of MQTT what connecting MQTT leaves, exactly when there is no
   session yet or its firmware version is known. On a session that another command dialled, only
   connecting MQTT fetches the version.
   */
  lemma ConnectAllMatchesConnectIff(s: State, dial: Dial, published: Option<TransportError>, start: nat, wire: Wire)
    ensures ConnectAllMqtt(s, dial, published, start, wire).0 == ConnectMqtt(s, dial, published, start, wire).0
       <==> s.session.None? || Replay(s.events).FirmwareThisConnection().Some?
  {
    hide State.GetVersion, Replay;
    if s.session.Some? {
      GetVersionMints(s, dial, published, start, wire);
    }
  }

  /** Such a session: the first one, dialled for another call. */
  lemma LazySessionIsNotPrimed(clock: nat)
    ensures var s := Step(NewClient(true, None), Ensuring(Reachable(clock)));
            s.session.Some? && Replay(s.events).FirmwareThisConnection().None?
  {
    hide FromSeed, Next;
    var s := Step(NewClient(true, None), Ensuring(Reachable(clock)));
    assert s.events == [Boundary];
    ReplaySnoc([], Boundary);
    assert [] + [Boundary] == [Boundary];
  }
}
