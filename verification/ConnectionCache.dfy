/**
 The cached telemetry that may be trusted on one MQTT connection only, and the job identity.

 A connection-scoped value is stamped with the connection generation when it is written, and a
 reader refuses a value with another stamp. What the cache should answer is stated here over the
 history of events that reached it.
 */
module ConnectionCache {
  import opened Sequences
  import opened Wrappers

  /** The generation is a `u32` that wraps. */
  const GENERATIONS: nat := 0x1_0000_0000
  const FULL_REPORT_MIN_KEYS: nat := 30

  /** A value and the generation it was written under. */
  datatype Stamped<T> = Stamped(value: Option<T>, generation: Option<nat>)
  {
    static function Write(v: T, now: nat): Stamped<T> { Stamped(Some(v), Some(now)) }

    /** The value, unless it was written under another generation. */
    function Read(now: nat): Option<T> {
      if generation.None? || generation.value != now then None else value
    }
  }

  /** The fields of a status frame the model keeps; `keys` counts the keys of its main object. */
  datatype StatusFrame = StatusFrame(keys: nat, homeFlag: Option<nat>, cfg: Option<string>,
    gcodeState: Option<PrintStatus>, gcodeFile: Option<string>, plateIdx: Option<int>)

  /** The fields of an accepted start command's echo; `plate` is the one its `param` names. */
  datatype StartFields = StartFields(plate: Option<nat>, file: Option<string>, url: Option<string>)

  datatype JobStart = JobStart(file: string, plate: nat, generation: nat)

  datatype PrintStatus = Idle | Preparing | Slicing | Running | Paused | Finished | Failed | Unknown
  {
    predicate IsBusy() { Preparing? || Slicing? || Running? || Paused? }

    predicate IsEnded() { Finished? || Failed? }
  }

  /** What follows the last slash. */
  function LastSegment(path: string): (segment: string)
    ensures '/' !in segment
    ensures |segment| <= |path| && path[|path| - |segment|..] == segment
    ensures |segment| < |path| ==> path[|path| - |segment| - 1] == '/'
  {
    if path == [] || path[|path| - 1] == '/' then []
    else LastSegment(path[..|path| - 1]) + [path[|path| - 1]]
  }

  function KeepNew<T>(old_: Option<T>, new_: Option<T>): Option<T> {
    if new_.Some? then new_ else old_
  }

  datatype Cache = Cache(
    generation: nat,
    homeFlag: Stamped<nat>,
    settingsHomeFlag: Stamped<nat>,
    firmware: Stamped<string>,
    cfg: Option<string>,
    gcodeState: Option<PrintStatus>,
    gcodeFile: Option<string>,
    plateIdx: Option<nat>,
    jobStart: Option<JobStart>)
  {
    /** A connection boundary: the next generation. */
    function BeginConnection(): Cache {
      this.(generation := (generation + 1) % GENERATIONS)
    }

    /**
     A `home_flag` is trusted for settings only from a full report, once the printer has sent
     `cfg`; before that, from any status frame.
     */
    function TrustedSettingsFlag(frame: StatusFrame): Option<nat> {
      if cfg.None? || frame.keys > FULL_REPORT_MIN_KEYS then frame.homeFlag else None
    }

    /** A new `gcode_file` drops the plate cached for the previous one. */
    function UpdateJob(frame: StatusFrame): Cache {
      var newFile := frame.gcodeFile.Some? && gcodeFile != frame.gcodeFile;
      var plate := if newFile then None else plateIdx;
      var ended := frame.gcodeState.Some? && frame.gcodeState.value.IsEnded();
      var wasBusy := gcodeState.Some? && gcodeState.value.IsBusy();
      this.(
        gcodeFile := KeepNew(gcodeFile, frame.gcodeFile),
        plateIdx := if frame.plateIdx.Some? && frame.plateIdx.value > 0 then Some(frame.plateIdx.value) else plate,
        jobStart := if ended && wasBusy then None else jobStart)
    }

    function UpdateState(frame: StatusFrame): Cache {
      this.(
        homeFlag := if frame.homeFlag.Some? then Stamped<nat>.Write(frame.homeFlag.value, generation) else homeFlag,
        gcodeState := KeepNew(gcodeState, frame.gcodeState),
        cfg := KeepNew(cfg, frame.cfg))
    }

    /** What a status frame does: the settings flag, the job identity and then the state. */
    function OnReport(frame: StatusFrame): Cache {
      var trusted := TrustedSettingsFlag(frame);
      var settled := if trusted.Some?
        then this.(settingsHomeFlag := Stamped<nat>.Write(trusted.value, generation)) else this;
      settled.UpdateJob(frame).UpdateState(frame)
    }

    /** An accepted start replaces the one held, unless it lacks a plate or a file. */
    function OnStart(fields: StartFields): Cache {
      var file := KeepNew(fields.url, fields.file);
      if fields.plate.None? || file.None? then this
      else this.(jobStart := Some(JobStart(LastSegment(file.value), fields.plate.value, generation)))
    }

    function OnVersion(version: string): Cache {
      this.(firmware := Stamped<string>.Write(version, generation))
    }

    function HomeFlagThisConnection(): Option<nat> { homeFlag.Read(generation) }

    function SettingsHomeFlagThisConnection(): Option<nat> { settingsHomeFlag.Read(generation) }

    function FirmwareThisConnection(): Option<string> { firmware.Read(generation) }

    /** Whether X, Y and Z are all homed, bits 0 to 2 of the flag. */
    function IsAllAxesHomed(): Option<bool> {
      var flag := HomeFlagThisConnection();
      if flag.None? then None else Some(flag.value % 8 == 7)
    }

    function RunningJobStart(): Option<JobStart> {
      if jobStart.Some? && gcodeFile.Some? && jobStart.value.generation == generation
         && jobStart.value.file == LastSegment(gcodeFile.value)
      then jobStart else None
    }

    function JobPlate(): Option<PlateAnswer> {
      if plateIdx.Some? then Some(PlateAnswer(plateIdx.value, Telemetry))
      else
        var start := RunningJobStart();
        if start.Some? then Some(PlateAnswer(start.value.plate, StartCommand)) else None
    }
  }

  datatype PlateSource = Telemetry | StartCommand

  datatype PlateAnswer = PlateAnswer(plate: nat, source: PlateSource)

  const COLD: Cache :=
    Cache(0, Stamped(None, None), Stamped(None, None), Stamped(None, None), None, None, None, None, None)

  // ----- histories -----

  /**
   What reaches the cache, and the accepted start commands that pass it by: an echo that left the
   client without being classified is `Overlooked`. `arrival` is the echo's place among the
   messages received.
   */
  datatype Event =
    | Boundary
    | Report(frame: StatusFrame)
    | Started(fields: StartFields, arrival: nat)
    | Overlooked(fields: StartFields, arrival: nat)
    | VersionFetched(version: string)

  function Apply(cache: Cache, e: Event): Cache {
    match e
    case Boundary => cache.BeginConnection()
    case Report(frame) => cache.OnReport(frame)
    case Started(fields, _) => cache.OnStart(fields)
    case Overlooked(_, _) => cache
    case VersionFetched(version) => cache.OnVersion(version)
  }

  /** The cache after a history, starting cold. */
  function Replay(events: seq<Event>): Cache {
    if events == [] then COLD else Apply(Replay(events[..|events| - 1]), events[|events| - 1])
  }

  lemma ReplaySnoc(events: seq<Event>, e: Event)
    ensures Replay(events + [e]) == Apply(Replay(events), e)
  {
    assert (events + [e])[..|events|] == events;
  }

  function Boundaries(events: seq<Event>): nat {
    if events == [] then 0
    else Boundaries(events[..|events| - 1]) + if events[|events| - 1].Boundary? then 1 else 0
  }

  lemma {:induction false} GenerationCountsBoundaries(events: seq<Event>)
    ensures Replay(events).generation == Boundaries(events) % GENERATIONS
  {
    if events != [] {
      GenerationCountsBoundaries(events[..|events| - 1]);
    }
  }

  lemma {:induction false} BoundariesAppend(a: seq<Event>, b: seq<Event>)
    ensures Boundaries(a + b) == Boundaries(a) + Boundaries(b)
  {
    if b == [] {
      assert a + b == a;
    } else {
      var n := |b| - 1;
      assert (a + b)[..|a| + n] == a + b[..n];
      BoundariesAppend(a, b[..n]);
    }
  }

  // ----- freshness -----

  /** What each event of a history writes to one connection-scoped field. */
  type Writes<T> = seq<Option<T>>

  function HomeWrites(events: seq<Event>): (w: Writes<nat>)
    ensures |w| == |events|
  {
    Map((e: Event) => if e.Report? then e.frame.homeFlag else None, events)
  }

  function FirmwareWrites(events: seq<Event>): (w: Writes<string>)
    ensures |w| == |events|
  {
    Map((e: Event) => if e.VersionFetched? then Some(e.version) else None, events)
  }

  /** Which flags are trusted for settings depends on what came before. */
  function SettingsWrites(events: seq<Event>): (w: Writes<nat>)
    ensures |w| == |events|
  {
    if events == [] then []
    else
      var init, e := events[..|events| - 1], events[|events| - 1];
      SettingsWrites(init) + [if e.Report? then Replay(init).TrustedSettingsFlag(e.frame) else None]
  }

  /** What a reader should get: the last value written after the last boundary. */
  function Fresh<T>(events: seq<Event>, writes: Writes<T>): Option<T>
    requires |events| == |writes|
  {
    var n := |events| - 1;
    if events == [] || events[n].Boundary? then None
    else if writes[n].Some? then writes[n]
    else Fresh(events[..n], writes[..n])
  }

  /** What the cache keeps: the last value written, stamped with its generation. */
  function StampAfter<T>(events: seq<Event>, writes: Writes<T>): Stamped<T>
    requires |events| == |writes|
  {
    var n := |events| - 1;
    if events == [] then Stamped(None, None)
    else if writes[n].Some? then Stamped<T>.Write(writes[n].value, Replay(events[..n]).generation)
    else StampAfter(events[..n], writes[..n])
  }

  /** The number of boundaries since the last write, when there was one. */
  function BoundariesSinceWrite<T>(events: seq<Event>, writes: Writes<T>): Option<nat>
    requires |events| == |writes|
  {
    var n := |events| - 1;
    if events == [] then None
    else if writes[n].Some? then Some(0)
    else
      var before := BoundariesSinceWrite(events[..n], writes[..n]);
      if before.Some? && events[n].Boundary? then Some(before.value + 1) else before
  }

  predicate BoundariesWriteNothing<T>(events: seq<Event>, writes: Writes<T>)
    requires |events| == |writes|
  {
    forall k | 0 <= k < |events| && events[k].Boundary? :: writes[k].None?
  }

  lemma {:induction false} StampCountsBoundaries<T>(events: seq<Event>, writes: Writes<T>)
    requires |events| == |writes| && BoundariesWriteNothing(events, writes)
    ensures var stamp, since := StampAfter(events, writes), BoundariesSinceWrite(events, writes);
            && (since.None? <==> stamp.generation.None?)
            && (since.None? <==> stamp.value.None?)
            && (since.Some? ==> since.value <= Boundaries(events))
            && (since.Some? ==> stamp.generation.value == (Boundaries(events) - since.value) % GENERATIONS)
            && Fresh(events, writes) == if since == Some(0) then stamp.value else None
  {
    if events != [] {
      var n := |events| - 1;
      StampCountsBoundaries(events[..n], writes[..n]);
      GenerationCountsBoundaries(events[..n]);
    }
  }

  lemma SameResidue(a: nat, b: nat)
    requires b <= a
    ensures (a - b) % GENERATIONS == a % GENERATIONS <==> b % GENERATIONS == 0
  {
  }

  /** A stamped field answers exactly when a multiple of 2^32 boundaries followed its last write. */
  lemma StampedReadIsExact<T>(events: seq<Event>, writes: Writes<T>)
    requires |events| == |writes| && BoundariesWriteNothing(events, writes)
    ensures var since := BoundariesSinceWrite(events, writes);
            var answer := StampAfter(events, writes).Read(Replay(events).generation);
            && (answer.Some? <==> since.Some? && since.value % GENERATIONS == 0)
            && (answer == Fresh(events, writes) <==> since.None? || since.value == 0 || since.value % GENERATIONS != 0)
  {
    StampCountsBoundaries(events, writes);
    GenerationCountsBoundaries(events);
    var since := BoundariesSinceWrite(events, writes);
    if since.Some? {
      SameResidue(Boundaries(events), since.value);
    }
  }

  lemma StampedReadIsFresh<T>(events: seq<Event>, writes: Writes<T>)
    requires |events| == |writes| && BoundariesWriteNothing(events, writes)
    requires Boundaries(events) < GENERATIONS
    ensures StampAfter(events, writes).Read(Replay(events).generation) == Fresh(events, writes)
  {
    StampedReadIsExact(events, writes);
    StampCountsBoundaries(events, writes);
  }

  lemma {:induction false} CacheKeepsStamps(events: seq<Event>)
    ensures Replay(events).homeFlag == StampAfter(events, HomeWrites(events))
    ensures Replay(events).settingsHomeFlag == StampAfter(events, SettingsWrites(events))
    ensures Replay(events).firmware == StampAfter(events, FirmwareWrites(events))
  {
    if events != [] {
      var n := |events| - 1;
      CacheKeepsStamps(events[..n]);
      assert HomeWrites(events)[..n] == HomeWrites(events[..n]);
      assert SettingsWrites(events)[..n] == SettingsWrites(events[..n]);
      assert FirmwareWrites(events)[..n] == FirmwareWrites(events[..n]);
    }
  }

  lemma {:induction false} SettingsWritesSkipBoundaries(events: seq<Event>)
    ensures BoundariesWriteNothing(events, SettingsWrites(events))
  {
    if events != [] {
      var n := |events| - 1;
      SettingsWritesSkipBoundaries(events[..n]);
      assert forall k | 0 <= k < n ::
          SettingsWrites(events)[k] == SettingsWrites(events[..n])[k] && events[k] == events[..n][k];
    }
  }

  /**
   Over every history with fewer than 2^32 boundaries, each connection-scoped accessor answers
   the last value written since the latest boundary, and nothing when there is none.
   */
  lemma AccessorsAreFresh(events: seq<Event>)
    requires Boundaries(events) < GENERATIONS
    ensures Replay(events).HomeFlagThisConnection() == Fresh(events, HomeWrites(events))
    ensures Replay(events).SettingsHomeFlagThisConnection() == Fresh(events, SettingsWrites(events))
    ensures Replay(events).FirmwareThisConnection() == Fresh(events, FirmwareWrites(events))
  {
    CacheKeepsStamps(events);
    SettingsWritesSkipBoundaries(events);
    StampedReadIsFresh(events, HomeWrites(events));
    StampedReadIsFresh(events, SettingsWrites(events));
    StampedReadIsFresh(events, FirmwareWrites(events));
  }

  /** Without that bound, the homing flag is stale exactly after a positive multiple of 2^32 boundaries. */
  lemma HomeFlagStaleIff(events: seq<Event>)
    ensures var since := BoundariesSinceWrite(events, HomeWrites(events));
            Replay(events).HomeFlagThisConnection() != Fresh(events, HomeWrites(events))
            <==> since.Some? && since.value > 0 && since.value % GENERATIONS == 0
  {
    CacheKeepsStamps(events);
    StampedReadIsExact(events, HomeWrites(events));
  }

  /** So many boundaries with nothing between them. */
  function Reconnects(n: nat): (events: seq<Event>)
    ensures |events| == n && forall i | 0 <= i < n :: events[i] == Boundary
  {
    seq(n, _ => Boundary)
  }

  lemma {:induction false} ReconnectsCount(e: Event, writes: Option<nat>, n: nat)
    requires e.Report? && e.frame.homeFlag == writes && writes.Some?
    ensures var events := [e] + Reconnects(n);
            BoundariesSinceWrite(events, HomeWrites(events)) == Some(n)
  {
    var events := [e] + Reconnects(n);
    if n > 0 {
      ReconnectsCount(e, writes, n - 1);
      assert events[..n] == [e] + Reconnects(n - 1);
      assert HomeWrites(events)[..n] == HomeWrites(events[..n]);
    }
  }

  /** A stale answer: a flag reported once, and 2^32 connections later without another report. */
  lemma FlagAnswersAgain(flag: nat)
    ensures var report := Report(StatusFrame(0, Some(flag), None, None, None, None));
            var events := [report] + Reconnects(GENERATIONS);
            Replay(events).HomeFlagThisConnection() == Some(flag) && Fresh(events, HomeWrites(events)) == None
  {
    hide Replay, StampAfter, BoundariesSinceWrite, HomeWrites, Fresh, Reconnects;
    var report := Report(StatusFrame(0, Some(flag), None, None, None, None));
    var events := [report] + Reconnects(GENERATIONS);
    ReconnectsCount(report, Some(flag), GENERATIONS);
    CacheKeepsStamps(events);
    HomeWritesSkipBoundaries(events);
    StampedReadIsExact(events, HomeWrites(events));
    FreshEndsAtBoundary(events);
    OnlyFlagWritten(report, flag, GENERATIONS);
  }

  lemma HomeWritesSkipBoundaries(events: seq<Event>)
    ensures BoundariesWriteNothing(events, HomeWrites(events))
  {
  }

  lemma FreshEndsAtBoundary(events: seq<Event>)
    requires events != [] && events[|events| - 1].Boundary?
    ensures Fresh(events, HomeWrites(events)) == None
  {
  }

  lemma {:induction false} OnlyFlagWritten(e: Event, flag: nat, n: nat)
    requires e.Report? && e.frame.homeFlag == Some(flag)
    ensures var events := [e] + Reconnects(n);
            StampAfter(events, HomeWrites(events)).value == Some(flag)
  {
    hide Replay;
    var events := [e] + Reconnects(n);
    if n > 0 {
      OnlyFlagWritten(e, flag, n - 1);
      assert events[..n] == [e] + Reconnects(n - 1);
      assert HomeWrites(events)[..n] == HomeWrites(events[..n]);
    }
  }
}
