/** What the cached readings answer, stated over the messages that `poll_telemetry` took. */
module PolledReadings {
  import opened Wrappers
  import opened Sequences
  import opened CommandTracking
  import opened ConnectionCache
  import opened MessageBuffer
  import opened ClientSpec
  import opened MessageWait
  import AwaitedStart
  import opened PolledHistory

  // ----- one poll -----

  /** Whatever the frame of a report carries is what the cache answers from now on. */
  ghost predicate AnswersFrame(before: Cache, after: Cache, f: StatusFrame) {
    && (f.homeFlag.Some? ==> after.HomeFlagThisConnection() == f.homeFlag)
    && (f.homeFlag.Some? && (f.keys > 30 || before.cfg.None?) ==> after.SettingsHomeFlagThisConnection() == f.homeFlag)
    && (f.cfg.Some? ==> after.cfg == f.cfg)
    && (f.gcodeState.Some? ==> after.gcodeState == f.gcodeState)
    && (f.gcodeFile.Some? ==> after.gcodeFile == f.gcodeFile)
    && (f.plateIdx.Some? && f.plateIdx.value > 0 ==> after.JobPlate() == Some(PlateAnswer(f.plateIdx.value, Telemetry)))
    && (EndsBusyJob(before, f) ==> after.RunningJobStart() == None)
  }

  /** The frame says that the job last seen at work has finished or failed. */
  predicate EndsBusyJob(before: Cache, f: StatusFrame) {
    && (f.gcodeState == Some(Finished) || f.gcodeState == Some(Failed))
    && before.gcodeState.Some?
    && match before.gcodeState.value { case Preparing | Slicing | Running | Paused => true case _ => false }
  }

  /** And what it does not carry stays, but for the plate of another file. */
  ghost predicate KeepsOthers(before: Cache, after: Cache, f: StatusFrame) {
    && (f.homeFlag.None? ==> after.homeFlag == before.homeFlag && after.settingsHomeFlag == before.settingsHomeFlag)
    && (f.keys <= 30 && before.cfg.Some? ==> after.settingsHomeFlag == before.settingsHomeFlag)
    && (f.cfg.None? ==> after.cfg == before.cfg)
    && (f.gcodeState.None? ==> after.gcodeState == before.gcodeState)
    && (f.gcodeFile.None? ==> after.gcodeFile == before.gcodeFile)
    && (f.plateIdx.None? || f.plateIdx.value <= 0 ==>
          after.plateIdx == if f.gcodeFile.None? || f.gcodeFile == before.gcodeFile then before.plateIdx else None)
    && (!EndsBusyJob(before, f) ==> after.jobStart == before.jobStart)
    && after.firmware == before.firmware
  }

  lemma ClassifyCaches(s: State, m: Message, at: nat)
    requires FrameOf(m).Some?
    ensures Replay(s.Classify(m, at).0.events) == Replay(s.events).OnReport(FrameOf(m).value)
  {
    hide Replay, OverlookedIn, Cache.OnReport, Tracker.TakeAnswered;
    OverlookedLeaveCache(s.events, [m], [at]);
    ReplaySnoc(s.events + OverlookedIn([m], [at]), Report(FrameOf(m).value));
  }

  lemma OnReportAnswers(cache: Cache, f: StatusFrame)
    ensures AnswersFrame(cache, cache.OnReport(f), f)
  {
    hide LastSegment;
  }

  lemma OnReportKeeps(cache: Cache, f: StatusFrame)
    ensures KeepsOthers(cache, cache.OnReport(f), f)
  {
  }

  lemma PollConnectedCaches(s: State, later: nat, read: Result<Message, TransportError>, m: Message)
    requires s.session.Some? && s.PollConnected(later, read).1 == Ok(ReportEvent(m)) && FrameOf(m).Some?
    ensures Replay(s.PollConnected(later, read).0.events) == Replay(s.events).OnReport(FrameOf(m).value)
  {
    hide Replay, State.Classify, Cache.OnReport, Tracker.NextUnanswered, Tracker.Remember;
    var u := s.NextUnansweredOutcome(later).0;
    var (t, taken) := u.TakeMessage(read);
    if taken.Ok? {
      ClassifyReturns(t.Polled(taken.value.arrival), taken.value.message, taken.value.arrival);
      ClassifyCaches(t.Polled(taken.value.arrival), m, taken.value.arrival);
    }
  }

  /** A connection that the poll makes moves the generation on, and nothing else in the cache. */
  lemma EnsureCaches(s: State, dial: Dial)
    ensures var before, after := Replay(s.events), Replay(s.Ensure(dial).0.events);
            after == before.(generation := after.generation)
  {
    hide Replay;
    ReplaySnoc(s.events, Boundary);
  }

  lemma GenerationAside(before: Cache, connected: Cache, f: StatusFrame)
    requires connected == before.(generation := connected.generation)
    ensures var after := connected.OnReport(f);
            AnswersFrame(before, after, f) && KeepsOthers(before, after, f)
  {
    hide Cache.OnReport, Cache.RunningJobStart, Cache.JobPlate;
    hide Cache.HomeFlagThisConnection, Cache.SettingsHomeFlagThisConnection;
    OnReportAnswers(connected, f);
    OnReportKeeps(connected, f);
  }

  /** A poll that returns a report with a frame has cached that frame. */
  lemma PolledReportIsAnswered(s: State, dial: Dial, now: nat, later: nat, read: Result<Message, TransportError>,
                               m: Message)
    requires s.Poll(dial, now, later, read).1 == Ok(ReportEvent(m)) && FrameOf(m).Some?
    ensures var before, after := Replay(s.events), Replay(s.Poll(dial, now, later, read).0.events);
            && AnswersFrame(before, after, FrameOf(m).value)
            && KeepsOthers(before, after, FrameOf(m).value)
  {
    hide Replay, AnswersFrame, KeepsOthers, Cache.OnReport;
    hide State.Classify, State.PollConnected, State.Ensure, Tracker.NextUnanswered, Tracker.Remember;
    var before, f := Replay(s.events), FrameOf(m).value;
    if s.session.Some? && s.session.value != [] {
      var u := s.PopBuffered().Polled(s.ArrivalAt(0));
      ClassifyReturns(u, s.session.value[0], s.ArrivalAt(0));
      ClassifyCaches(u, m, s.ArrivalAt(0));
      GenerationAside(before, before, f);
    } else {
      var s1 := s.NextUnansweredOutcome(now).0;
      EnsureCaches(s1, dial);
      EnsuredSession(s1, dial);
      var e := s1.Ensure(dial).0;
      PollConnectedCaches(e, later, read, m);
      GenerationAside(before, Replay(e.events), f);
    }
  }

  /** The job of an accepted start, when it names a plate and a file; the file wins over the address. */
  function JobOf(m: Message): Option<(string, nat)> {
    if m.start.None? || m.start.value.plate.None? then None
    else if m.start.value.file.Some? then Some((LastSegment(m.start.value.file.value), m.start.value.plate.value))
    else if m.start.value.url.Some? then Some((LastSegment(m.start.value.url.value), m.start.value.plate.value))
    else None
  }

  lemma ClassifyStarts(s: State, m: Message, at: nat)
    requires !(m.report.Some? && m.report.value.isPush) && m.echo.Some?
    requires m.echo.value.command == "project_file" && m.echo.value.verdict == Accepted
    ensures var before, after := Replay(s.events), Replay(s.Classify(m, at).0.events);
            after == before.(jobStart := if JobOf(m).None? then before.jobStart
                                         else Some(JobStart(JobOf(m).value.0, JobOf(m).value.1, before.generation)))
  {
    hide Replay, LastSegment, Tracker.TakeAnswered;
    ReplaySnoc(s.events, Started(StartFieldsOf(m), at));
  }

  /** The message is the echo of an accepted start that does not call itself a push. */
  predicate StartsJob(m: Message) {
    && !(m.report.Some? && m.report.value.isPush)
    && m.echo.Some? && m.echo.value.command == "project_file" && m.echo.value.verdict == Accepted
  }

  /** The cache holds the job of the start and is otherwise what it was, on the connection there is now. */
  ghost predicate HoldsJobOf(before: Cache, after: Cache, m: Message) {
    after == before.(
      generation := after.generation,
      jobStart := if JobOf(m).None? then before.jobStart
                  else Some(JobStart(JobOf(m).value.0, JobOf(m).value.1, after.generation)))
  }

  lemma PollConnectedStarts(s: State, later: nat, read: Result<Message, TransportError>, m: Message)
    requires s.session.Some? && StartsJob(m)
    requires var r := s.PollConnected(later, read).1;
             r.Ok? && MessageOf(r.value) == Some(m)
    ensures HoldsJobOf(Replay(s.events), Replay(s.PollConnected(later, read).0.events), m)
  {
    hide Replay, JobOf, State.Classify, Tracker.NextUnanswered, Tracker.Remember;
    var u := s.NextUnansweredOutcome(later).0;
    var (t, taken) := u.TakeMessage(read);
    if taken.Ok? {
      ClassifyReturns(t.Polled(taken.value.arrival), taken.value.message, taken.value.arrival);
      ClassifyStarts(t.Polled(taken.value.arrival), m, taken.value.arrival);
    }
  }

  /** A poll that takes the echo of an accepted start holds its job, and leaves the rest of the cache. */
  lemma PolledStartIsHeld(s: State, dial: Dial, now: nat, later: nat, read: Result<Message, TransportError>, m: Message)
    requires StartsJob(m)
    requires var r := s.Poll(dial, now, later, read).1;
             r.Ok? && MessageOf(r.value) == Some(m)
    ensures HoldsJobOf(Replay(s.events), Replay(s.Poll(dial, now, later, read).0.events), m)
  {
    hide Replay, JobOf, State.Classify, State.PollConnected, State.Ensure;
    hide Tracker.NextUnanswered, Tracker.Remember;
    if s.session.Some? && s.session.value != [] {
      var u := s.PopBuffered().Polled(s.ArrivalAt(0));
      ClassifyReturns(u, s.session.value[0], s.ArrivalAt(0));
      ClassifyStarts(u, m, s.ArrivalAt(0));
    } else {
      var s1 := s.NextUnansweredOutcome(now).0;
      EnsureCaches(s1, dial);
      EnsuredSession(s1, dial);
      PollConnectedStarts(s1.Ensure(dial).0, later, read, m);
    }
  }

  /** All axes are homed when the bits of X, Y and Z in the flag are set; without a flag nobody knows. */
  lemma AllAxesHomedIs(cache: Cache)
    ensures var flag, homed := cache.HomeFlagThisConnection(), cache.IsAllAxesHomed();
            && (homed.None? <==> flag.None?)
            && (homed == Some(true) <==>
                  flag.Some? && flag.value % 2 == 1 && flag.value / 2 % 2 == 1 && flag.value / 4 % 2 == 1)
  {
  }

  // ----- over every run -----

  /** `answer` is the last value given from `from` on, and nothing exactly when there is none. */
  ghost predicate IsLastSome<T(!new)>(values: seq<Option<T>>, from: nat, answer: Option<T>) {
    if answer.None? then forall k | from <= k < |values| :: values[k].None?
    else exists k: nat :: from <= k && IsLastAt(values, k) && values[k] == answer
  }

  predicate IsLastAt<T>(values: seq<Option<T>>, k: nat) {
    k < |values| && values[k].Some? && forall i | k < i < |values| :: values[i].None?
  }

  function LastSome<T>(values: seq<Option<T>>, from: nat): Option<T> {
    var n := |values| - 1;
    if |values| <= from then None else if values[n].Some? then values[n] else LastSome(values[..n], from)
  }

  lemma {:induction false} LastSomeIs<T(!new)>(values: seq<Option<T>>, from: nat)
    ensures IsLastSome(values, from, LastSome(values, from))
  {
    var n := |values| - 1;
    if |values| > from {
      if values[n].Some? {
        assert IsLastAt(values, n);
      } else {
        LastSomeIs(values[..n], from);
        OneNoneMore(values, from);
      }
    }
  }

  lemma OneNoneMore<T(!new)>(values: seq<Option<T>>, from: nat)
    requires |values| > from && values[|values| - 1].None?
    requires IsLastSome(values[..|values| - 1], from, LastSome(values, from))
    ensures IsLastSome(values, from, LastSome(values, from))
  {
    hide LastSome;
    var n, answer := |values| - 1, LastSome(values, from);
    if answer.Some? {
      var k: nat :| from <= k && IsLastAt(values[..n], k) && values[..n][k] == answer;
      assert forall i | k < i < n :: values[i] == values[..n][i];
      assert IsLastAt(values, k);
    } else {
      assert forall k | from <= k < n :: values[k] == values[..n][k];
    }
  }

  function HomeFlagOf(m: Message): Option<nat> {
    if FrameOf(m).Some? then FrameOf(m).value.homeFlag else None
  }

  /** The homing flag each message carries. */
  function HomeFlags(messages: seq<Message>): (flags: seq<Option<nat>>)
    ensures |flags| == |messages|
  {
    Map(HomeFlagOf, messages)
  }

  predicate CarriesCfg(m: Message) { FrameOf(m).Some? && FrameOf(m).value.cfg.Some? }

  /** The same for settings: only from a frame of more than 30 keys, once a message has carried `cfg`. */
  function SettingsFlags(messages: seq<Message>): (flags: seq<Option<nat>>)
    ensures |flags| == |messages|
  {
    seq(|messages|, k requires 0 <= k < |messages| =>
      if HomeFlagOf(messages[k]).Some? && FrameOf(messages[k]).value.keys <= 30
         && exists i | 0 <= i < k :: CarriesCfg(messages[i]) then None
      else HomeFlagOf(messages[k]))
  }

  lemma LastSomeSnoc<T>(values: seq<Option<T>>, from: nat, v: Option<T>)
    requires from <= |values|
    ensures LastSome(values + [v], from) == if v.Some? then v else LastSome(values, from)
  {
    assert (values + [v])[..|values|] == values;
  }

  lemma HomeWritesSnoc(events: seq<Event>, e: Event)
    ensures HomeWrites(events + [e]) == HomeWrites(events) + [if e.Report? then e.frame.homeFlag else None]
  {
  }

  lemma SettingsWritesSnoc(events: seq<Event>, e: Event)
    ensures SettingsWrites(events + [e])
         == SettingsWrites(events) + [if e.Report? then Replay(events).TrustedSettingsFlag(e.frame) else None]
  {
    assert (events + [e])[..|events|] == events;
  }

  lemma FreshSnoc<T>(events: seq<Event>, writes: Writes<T>, e: Event, w: Option<T>)
    requires |events| == |writes|
    ensures Fresh(events + [e], writes + [w])
         == if e.Boundary? then None else if w.Some? then w else Fresh(events, writes)
  {
    assert (events + [e])[..|events|] == events && (writes + [w])[..|writes|] == writes;
  }

  /** The number of taken events before the latest boundary. */
  function FromPollsBefore(events: seq<Event>): (n: nat)
    ensures n <= |FromPolls(events)|
  {
    SinceIsShorter(events);
    |FromPolls(events)| - |FromPollsSince(events)|
  }

  lemma {:induction false} SinceIsShorter(events: seq<Event>)
    ensures |FromPollsSince(events)| <= |FromPolls(events)|
  {
    if events != [] {
      SinceIsShorter(events[..|events| - 1]);
    }
  }

  lemma FromPollsBeforeSnoc(events: seq<Event>, e: Event)
    ensures FromPollsBefore(events + [e]) == if e.Boundary? then |FromPolls(events)| else FromPollsBefore(events)
  {
    hide FromPolls, FromPollsSince;
    FromPollsSnoc(events, e);
  }

  /** Only the taken events write the readings. */
  lemma {:induction false} FreshHomeOfPolls(events: seq<Event>)
    ensures Fresh(events, HomeWrites(events))
         == LastSome(HomeWrites(FromPolls(events)), FromPollsBefore(events))
  {
    if events != [] {
      var init, e := events[..|events| - 1], events[|events| - 1];
      assert events == init + [e];
      FreshHomeOfPolls(init);
      HomeOfPollsSnoc(init, e);
    }
  }

  lemma HomeOfPollsSnoc(events: seq<Event>, e: Event)
    requires Fresh(events, HomeWrites(events)) == LastSome(HomeWrites(FromPolls(events)), FromPollsBefore(events))
    ensures Fresh(events + [e], HomeWrites(events + [e]))
         == LastSome(HomeWrites(FromPolls(events + [e])), FromPollsBefore(events + [e]))
  {
    hide FromPolls, FromPollsSince, Fresh, HomeWrites, FromPollsBefore, LastSome;
    var w := if e.Report? then e.frame.homeFlag else None;
    HomeWritesSnoc(events, e);
    FreshSnoc(events, HomeWrites(events), e, w);
    FromPollsSnoc(events, e);
    FromPollsBeforeSnoc(events, e);
    if IsFromPoll(e) {
      HomeWritesSnoc(FromPolls(events), e);
      LastSomeSnoc(HomeWrites(FromPolls(events)), FromPollsBefore(events), w);
    } else {
      assert FromPolls(events) + [] == FromPolls(events);
      if e.Boundary? {
        NoneAfterAll(HomeWrites(FromPolls(events)));
      }
    }
  }

  lemma NoneAfterAll<T>(values: seq<Option<T>>)
    ensures LastSome(values, |values|) == None
  {
  }

  /** The same for the flags trusted for settings. */
  lemma {:induction false} FreshSettingsOfPolls(events: seq<Event>)
    ensures Fresh(events, SettingsWrites(events))
         == LastSome(SettingsWrites(FromPolls(events)), FromPollsBefore(events))
    ensures Replay(FromPolls(events)).cfg == Replay(events).cfg
  {
    if events != [] {
      var init, e := events[..|events| - 1], events[|events| - 1];
      assert events == init + [e];
      FreshSettingsOfPolls(init);
      SettingsOfPollsSnoc(init, e);
    }
  }

  lemma SettingsOfPollsSnoc(events: seq<Event>, e: Event)
    requires Fresh(events, SettingsWrites(events))
          == LastSome(SettingsWrites(FromPolls(events)), FromPollsBefore(events))
    requires Replay(FromPolls(events)).cfg == Replay(events).cfg
    ensures Fresh(events + [e], SettingsWrites(events + [e]))
         == LastSome(SettingsWrites(FromPolls(events + [e])), FromPollsBefore(events + [e]))
    ensures Replay(FromPolls(events + [e])).cfg == Replay(events + [e]).cfg
  {
    hide FromPolls, FromPollsSince, Fresh, SettingsWrites, FromPollsBefore, LastSome, Replay;
    var w := if e.Report? then Replay(events).TrustedSettingsFlag(e.frame) else None;
    SettingsWritesSnoc(events, e);
    FreshSnoc(events, SettingsWrites(events), e, w);
    FromPollsSnoc(events, e);
    FromPollsBeforeSnoc(events, e);
    ReplaySnoc(events, e);
    if IsFromPoll(e) {
      SettingsWritesSnoc(FromPolls(events), e);
      ReplaySnoc(FromPolls(events), e);
      LastSomeSnoc(SettingsWrites(FromPolls(events)), FromPollsBefore(events), w);
    } else {
      assert FromPolls(events) + [] == FromPolls(events);
      if e.Boundary? {
        NoneAfterAll(SettingsWrites(FromPolls(events)));
      }
    }
  }

  // ----- from the log to the messages -----

  lemma {:induction false} LogAtSplit(received: seq<Message>, at: seq<nat>, n: nat)
    requires Within(received, at) && n <= |at|
    ensures LogAt(received, at) == LogAt(received, at[..n]) + LogAt(received, at[n..])
    decreases |at|
  {
    hide LogAt, LogOf;
    if n == |at| {
      assert at[..n] == at && at[n..] == [];
      LogAtNone(received);
    } else {
      var init, a := at[..|at| - 1], at[|at| - 1];
      LogAtSplit(received, init, n);
      assert init[..n] == at[..n] && at[n..] == init[n..] + [a] && at == init + [a];
      LogAtSnoc(received, init, a);
      LogAtSnoc(received, init[n..], a);
    }
  }

  lemma LogAtNone(received: seq<Message>)
    ensures LogAt(received, []) == []
  {
  }

  lemma HomeFlagsSnoc(messages: seq<Message>, m: Message)
    ensures HomeFlags(messages + [m]) == HomeFlags(messages) + [HomeFlagOf(m)]
  {
  }

  lemma SettingsFlagsSnoc(messages: seq<Message>, m: Message)
    ensures var trusted := if HomeFlagOf(m).Some? && FrameOf(m).value.keys <= 30
                              && exists x <- messages :: CarriesCfg(x) then None else HomeFlagOf(m);
            SettingsFlags(messages + [m]) == SettingsFlags(messages) + [trusted]
  {
    hide CarriesCfg;
    var all := messages + [m];
    forall k | 0 <= k < |messages|
      ensures SettingsFlags(all)[k] == SettingsFlags(messages)[k]
    {
      assert all[k] == messages[k] && forall i | 0 <= i < k :: all[i] == messages[i];
    }
    assert forall i | 0 <= i < |messages| :: all[i] == messages[i];
    assert (exists x <- messages :: CarriesCfg(x)) <==> exists i | 0 <= i < |messages| :: CarriesCfg(all[i]);
  }

  /** The cache has a `cfg` exactly when a polled message carried one. */
  lemma {:induction false} CfgOfPolls(received: seq<Message>, at: seq<nat>)
    requires Within(received, at)
    ensures Replay(LogAt(received, at)).cfg.Some? <==> exists m <- MessagesAt(received, at) :: CarriesCfg(m)
    decreases |at|
  {
    if at != [] {
      var init, a := at[..|at| - 1], at[|at| - 1];
      CfgOfPolls(received, init);
      assert at == init + [a];
      MessagesAtSnoc(received, init, a);
      CfgSnoc(received, init, a);
    }
  }

  lemma MessagesAtSnoc(received: seq<Message>, at: seq<nat>, a: nat)
    requires Within(received, at) && a < |received|
    ensures MessagesAt(received, at + [a]) == MessagesAt(received, at) + [received[a]]
  {
  }

  lemma CfgSnoc(received: seq<Message>, at: seq<nat>, a: nat)
    requires Within(received, at) && a < |received|
    requires Replay(LogAt(received, at)).cfg.Some? <==> exists m <- MessagesAt(received, at) :: CarriesCfg(m)
    ensures Replay(LogAt(received, at + [a])).cfg.Some?
            <==> exists m <- MessagesAt(received, at) + [received[a]] :: CarriesCfg(m)
  {
    hide LogAt, MessagesAt, Replay;
    LogAtSnoc(received, at, a);
    var log, messages, m := LogAt(received, at), MessagesAt(received, at), received[a];
    LogOneReplays(log, m, a);
    if CarriesCfg(m) {
      assert m in messages + [m];
    } else if x :| x in messages && CarriesCfg(x) {
      assert x in messages + [m];
    }
  }

  lemma LogOneReplays(log: seq<Event>, m: Message, a: nat)
    ensures Replay(log + LogOf(m, a)).cfg.Some? <==> Replay(log).cfg.Some? || CarriesCfg(m)
  {
    hide Replay;
    if FrameOf(m).Some? {
      ReplaySnoc(log, Report(FrameOf(m).value));
    } else {
      ReplaySnoc(log, Started(StartFieldsOf(m), a));
      assert log + [] == log;
    }
  }

  /** The readings written by the log since the boundary are those of the messages polled since. */
  lemma {:induction false} LastOfPolls(received: seq<Message>, at: seq<nat>, before: nat)
    requires Within(received, at) && before <= |at|
    ensures var log, messages := LogAt(received, at), MessagesAt(received, at);
            var from := |LogAt(received, at[..before])|;
            && LastSome(HomeWrites(log), from) == LastSome(HomeFlags(messages), before)
            && LastSome(SettingsWrites(log), from) == LastSome(SettingsFlags(messages), before)
    decreases |at|
  {
    hide LastSome, HomeWrites, SettingsWrites, HomeFlags, SettingsFlags, LogAt, MessagesAt;
    if before == |at| {
      assert at[..before] == at;
      var log, messages := LogAt(received, at), MessagesAt(received, at);
      NoneAfterAll(HomeWrites(log));
      NoneAfterAll(SettingsWrites(log));
      NoneAfterAll(HomeFlags(messages));
      NoneAfterAll(SettingsFlags(messages));
    } else {
      var init, a := at[..|at| - 1], at[|at| - 1];
      assert at == init + [a] && init[..before] == at[..before];
      LastOfPolls(received, init, before);
      LogAtSplit(received, init, before);
      LogAtSnoc(received, init, a);
      MessagesAtSnoc(received, init, a);
      CfgOfPolls(received, init);
      LastSnoc(LogAt(received, init), MessagesAt(received, init), received[a], a,
               |LogAt(received, at[..before])|, before);
    }
  }

  lemma LastSnoc(log: seq<Event>, messages: seq<Message>, m: Message, a: nat, from: nat, before: nat)
    requires from <= |log| && before <= |messages|
    requires LastSome(HomeWrites(log), from) == LastSome(HomeFlags(messages), before)
    requires LastSome(SettingsWrites(log), from) == LastSome(SettingsFlags(messages), before)
    requires Replay(log).cfg.Some? <==> exists x <- messages :: CarriesCfg(x)
    ensures LastSome(HomeWrites(log + LogOf(m, a)), from) == LastSome(HomeFlags(messages + [m]), before)
    ensures LastSome(SettingsWrites(log + LogOf(m, a)), from) == LastSome(SettingsFlags(messages + [m]), before)
  {
    hide LastSome, HomeWrites, SettingsWrites, HomeFlags, SettingsFlags, Replay, CarriesCfg, StartFieldsOf;
    HomeFlagsSnoc(messages, m);
    SettingsFlagsSnoc(messages, m);
    LastSomeSnoc(HomeFlags(messages), before, HomeFlagOf(m));
    LastSomeSnoc(SettingsFlags(messages), before, SettingsFlags(messages + [m])[|messages|]);
    if LogOf(m, a) == [] {
      assert log + [] == log;
    } else {
      var e := LogOf(m, a)[0];
      assert LogOf(m, a) == [e];
      HomeWritesSnoc(log, e);
      SettingsWritesSnoc(log, e);
      LastSomeSnoc(HomeWrites(log), from, if e.Report? then e.frame.homeFlag else None);
      LastSomeSnoc(SettingsWrites(log), from,
                   if e.Report? then Replay(log).TrustedSettingsFlag(e.frame) else None);
    }
  }

  /**
   Over every run with fewer than 2^32 boundaries, the homing flag answered is the one carried last
   by a message polled since the latest boundary, and nothing when none carried one. The flag for
   settings is the last of those that a full report carried, or any before a first `cfg`.
   */
  lemma ReadingsOfRun(clockIsReal: bool, timeout: Option<nat>, ops: seq<Op>)
    requires Boundaries(Run(NewClient(clockIsReal, timeout), ops).events) < 0x1_0000_0000
    ensures var t := Run(NewClient(clockIsReal, timeout), ops);
            && Within(t.received, t.polledAt)
            && var messages := MessagesAt(t.received, t.polledAt);
            && IsLastSome(HomeFlags(messages), t.polledBefore, Replay(t.events).HomeFlagThisConnection())
            && IsLastSome(SettingsFlags(messages), t.polledBefore, Replay(t.events).SettingsHomeFlagThisConnection())
  {
    hide Run, Replay, Fresh, LastSome, IsLastSome, HomeFlags, SettingsFlags, HomeWrites, SettingsWrites, FromPolls;
    hide FromPollsSince, MessagesAt, LogAt, Boundaries;
    hide Cache.HomeFlagThisConnection, Cache.SettingsHomeFlagThisConnection;
    RunLogsPolls(clockIsReal, timeout, ops);
    var t := Run(NewClient(clockIsReal, timeout), ops);
    AccessorsAreFresh(t.events);
    FreshHomeOfPolls(t.events);
    FreshSettingsOfPolls(t.events);
    LogAtSplit(t.received, t.polledAt, t.polledBefore);
    LastOfPolls(t.received, t.polledAt, t.polledBefore);
    LastSomeIs(HomeFlags(MessagesAt(t.received, t.polledAt)), t.polledBefore);
    LastSomeIs(SettingsFlags(MessagesAt(t.received, t.polledAt)), t.polledBefore);
  }

  // ----- the firmware version -----

  /**
   A version request answers only with a reply under the id it minted. The version in the reply is
   what the cache answers from then on; without one the cache keeps what it had.
   */
  lemma VersionOfReplyIsAnswered(s: State, dial: Dial, published: Option<TransportError>, start: nat, wire: Wire)
    requires TotalSize(s.Buffered()) <= PENDING_BUFFER_MAX_BYTES
    ensures var (t, r) := s.GetVersion(dial, published, start, wire);
            && (r.Ok? ==> r.value.version.Some? && r.value.version.value.sequenceId == s.MintId().counter)
            && (r.Ok? && r.value.version.value.firmware.Some? ==>
                  Replay(t.events).FirmwareThisConnection() == r.value.version.value.firmware)
            && (r.Err? || r.value.version.value.firmware.None? ==>
                  Replay(t.events).firmware == Replay(s.events).firmware)
  {
    hide State.PollUntil, State.Ensure, State.MintId, Replay, TotalSize;
    var minted := s.MintId();
    var matcher := RepliesVersion(minted.counter);
    var e := minted.Ensure(dial).0;
    EnsureCaches(minted, dial);
    MintLeaves(s);
    if minted.Ensure(dial).1.None? && published.None? {
      EnsuredSession(minted, dial);
      assert TotalSize(e.Buffered()) <= PENDING_BUFFER_MAX_BYTES by { EnsuredFits(minted, dial); }
      var n := SessionConserves(e, matcher, dial, start, wire);
      AwaitedStart.WaitLeavesCache(e, matcher, dial, start, wire);
      var (u, r) := e.PollUntil(matcher, dial, start, wire);
      if r.Ok? {
        assert matcher(r.value);
        if r.value.version.value.firmware.Some? {
          ReplaySnoc(u.events, VersionFetched(r.value.version.value.firmware.value));
        }
      }
    }
  }

  lemma EnsuredFits(s: State, dial: Dial)
    requires TotalSize(s.Buffered()) <= PENDING_BUFFER_MAX_BYTES && s.Ensure(dial).1.None?
    ensures TotalSize(s.Ensure(dial).0.Buffered()) <= PENDING_BUFFER_MAX_BYTES
  {
    assert TotalSize([]) == 0;
  }

  lemma MintLeaves(s: State)
    ensures var t := s.MintId();
            t.events == s.events && t.session == s.session
  {
  }
}
