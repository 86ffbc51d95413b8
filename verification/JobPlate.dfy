/** Where the plate of the running job comes from, over the history of events. */
module JobPlate {
  import opened Wrappers
  import opened ConnectionCache

  /** The last index holding a value. */
  function LastSome<T>(s: seq<Option<T>>): (k: Option<nat>)
    ensures k.None? <==> forall i | 0 <= i < |s| :: s[i].None?
    ensures k.Some? ==> k.value < |s| && s[k.value].Some? && forall i | k.value < i < |s| :: s[i].None?
  {
    var n := |s| - 1;
    if s == [] then None else if s[n].Some? then Some(n) else LastSome(s[..n])
  }

  // ----- what one event says -----

  /** The plate number a frame reports, when it is positive. */
  function PlateOf(e: Event): (plate: Option<nat>) {
    if e.Report? && e.frame.plateIdx.Some? && e.frame.plateIdx.value > 0 then Some(e.frame.plateIdx.value as nat)
    else None
  }

  function FileOf(e: Event): Option<string> {
    if e.Report? then e.frame.gcodeFile else None
  }

  function StateOf(e: Event): Option<PrintStatus> {
    if e.Report? then e.frame.gcodeState else None
  }

  /** The file first seen in `e`, when another one was current. */
  function NewFileOf(current: Option<string>, e: Event): Option<string> {
    if FileOf(e) != current then FileOf(e) else None
  }

  /** Whether `e` ends a job that was busy. */
  function EndOf(current: Option<PrintStatus>, e: Event): Option<()> {
    if current.Some? && current.value.IsBusy() && StateOf(e).Some? && StateOf(e).value.IsEnded()
    then Some(()) else None
  }

  /** An accepted start command can be recorded when it names a plate and a file. */
  predicate NamesJob(fields: StartFields) {
    fields.plate.Some? && (fields.file.Some? || fields.url.Some?)
  }

  /** The name of the file a start command names. */
  function FileNameOf(fields: StartFields): string
    requires NamesJob(fields)
  {
    LastSegment(if fields.file.Some? then fields.file.value else fields.url.value)
  }

  /** The start an event records. */
  function StartOf(e: Event, generation: nat): Option<JobStart> {
    if e.Started? && NamesJob(e.fields) then Some(JobStart(FileNameOf(e.fields), e.fields.plate.value, generation))
    else None
  }

  // ----- what a history says -----

  function ReportedPlates(events: seq<Event>): (plates: seq<Option<nat>>)
    ensures |plates| == |events|
  {
    if events == [] then [] else ReportedPlates(events[..|events| - 1]) + [PlateOf(events[|events| - 1])]
  }

  /** The file a history leaves current: the last one reported. */
  function CurrentFile(events: seq<Event>): Option<string> {
    if events == [] then None
    else KeepNew(CurrentFile(events[..|events| - 1]), FileOf(events[|events| - 1]))
  }

  /** The state a history leaves current: the last one reported. */
  function CurrentState(events: seq<Event>): Option<PrintStatus> {
    if events == [] then None
    else KeepNew(CurrentState(events[..|events| - 1]), StateOf(events[|events| - 1]))
  }

  /** The points where a file was first seen. */
  function NewFiles(events: seq<Event>): (files: seq<Option<string>>)
    ensures |files| == |events|
  {
    var n := |events| - 1;
    if events == [] then [] else NewFiles(events[..n]) + [NewFileOf(CurrentFile(events[..n]), events[n])]
  }

  /** The points where a busy job ended. */
  function JobEnds(events: seq<Event>): (ends: seq<Option<()>>)
    ensures |ends| == |events|
  {
    var n := |events| - 1;
    if events == [] then [] else JobEnds(events[..n]) + [EndOf(CurrentState(events[..n]), events[n])]
  }

  /** The start commands recorded, each with its connection. */
  function Starts(events: seq<Event>): (starts: seq<Option<JobStart>>)
    ensures |starts| == |events|
  {
    var n := |events| - 1;
    if events == [] then [] else Starts(events[..n]) + [StartOf(events[n], Boundaries(events[..n]) % GENERATIONS)]
  }

  /** `x` is the last value of `s`, unless something in `cancel` came after it. */
  function LastUncancelled<S, T>(s: seq<Option<S>>, cancel: seq<Option<T>>): Option<S> {
    var k, c := LastSome(s), LastSome(cancel);
    if k.None? || (c.Some? && k.value < c.value) then None else s[k.value]
  }

  /** `s[k]` is the last value, and nothing in `cancel` came after it. */
  ghost predicate IsLastUncancelled<S, T>(s: seq<Option<S>>, cancel: seq<Option<T>>, k: nat)
    requires |s| == |cancel|
  {
    k < |s| && s[k].Some? && forall i | k < i < |s| :: s[i].None? && cancel[i].None?
  }

  lemma LastUncancelledIs<S, T>(s: seq<Option<S>>, cancel: seq<Option<T>>)
    requires |s| == |cancel|
    ensures LastUncancelled(s, cancel).Some? ==> exists k: nat :: IsLastUncancelled(s, cancel, k)
    ensures forall k: nat | IsLastUncancelled(s, cancel, k) :: LastUncancelled(s, cancel) == s[k]
  {
    if LastUncancelled(s, cancel).Some? {
      assert IsLastUncancelled(s, cancel, LastSome(s).value);
    }
    forall k: nat | IsLastUncancelled(s, cancel, k)
      ensures LastSome(s) == Some(k)
    {
    }
  }

  // ----- one more event -----

  lemma LastSomeSnoc<T>(s: seq<Option<T>>, x: Option<T>)
    ensures LastSome(s + [x]) == if x.Some? then Some(|s|) else LastSome(s)
  {
    assert (s + [x])[..|s|] == s;
  }

  lemma LastUncancelledSnoc<S, T>(s: seq<Option<S>>, cancel: seq<Option<T>>, x: Option<S>, y: Option<T>)
    requires |s| == |cancel|
    ensures LastUncancelled(s + [x], cancel + [y])
         == if x.Some? then x else if y.Some? then None else LastUncancelled(s, cancel)
  {
    LastSomeSnoc(s, x);
    LastSomeSnoc(cancel, y);
  }

  lemma TracesSnoc(events: seq<Event>, e: Event)
    ensures ReportedPlates(events + [e]) == ReportedPlates(events) + [PlateOf(e)]
    ensures CurrentFile(events + [e]) == KeepNew(CurrentFile(events), FileOf(e))
    ensures CurrentState(events + [e]) == KeepNew(CurrentState(events), StateOf(e))
    ensures NewFiles(events + [e]) == NewFiles(events) + [NewFileOf(CurrentFile(events), e)]
    ensures JobEnds(events + [e]) == JobEnds(events) + [EndOf(CurrentState(events), e)]
    ensures Starts(events + [e]) == Starts(events) + [StartOf(e, Replay(events).generation)]
  {
    GenerationCountsBoundaries(events);
    assert (events + [e])[..|events|] == events;
  }

  lemma {:induction false} CacheFollowsReports(events: seq<Event>)
    ensures Replay(events).gcodeFile == CurrentFile(events)
    ensures Replay(events).gcodeState == CurrentState(events)
  {
    if events != [] {
      CacheFollowsReports(events[..|events| - 1]);
    }
  }

  lemma JobStep(events: seq<Event>, e: Event)
    requires Replay(events).plateIdx == LastUncancelled(ReportedPlates(events), NewFiles(events))
    requires Replay(events).jobStart == LastUncancelled(Starts(events), JobEnds(events))
    ensures Replay(events + [e]).plateIdx == LastUncancelled(ReportedPlates(events + [e]), NewFiles(events + [e]))
    ensures Replay(events + [e]).jobStart == LastUncancelled(Starts(events + [e]), JobEnds(events + [e]))
  {
    hide LastUncancelled, Replay, ReportedPlates, NewFiles, Starts, JobEnds, CurrentFile, CurrentState, LastSegment;
    ReplaySnoc(events, e);
    TracesSnoc(events, e);
    CacheFollowsReports(events);
    LastUncancelledSnoc(ReportedPlates(events), NewFiles(events), PlateOf(e), NewFileOf(CurrentFile(events), e));
    LastUncancelledSnoc(Starts(events), JobEnds(events),
                        StartOf(e, Replay(events).generation), EndOf(CurrentState(events), e));
  }

  lemma {:induction false} JobCacheFollowsHistory(events: seq<Event>)
    ensures Replay(events).plateIdx == LastUncancelled(ReportedPlates(events), NewFiles(events))
    ensures Replay(events).jobStart == LastUncancelled(Starts(events), JobEnds(events))
    decreases |events|, 2
  {
    hide LastUncancelled, Replay, ReportedPlates, NewFiles, Starts, JobEnds;
    if events == [] {
      JobCacheStartsEmpty();
    } else {
      JobCacheSnoc(events[..|events| - 1], events[|events| - 1]);
      assert events == events[..|events| - 1] + [events[|events| - 1]];
    }
  }

  lemma JobCacheStartsEmpty()
    ensures Replay([]).plateIdx == LastUncancelled(ReportedPlates([]), NewFiles([]))
    ensures Replay([]).jobStart == LastUncancelled(Starts([]), JobEnds([]))
  {
  }

  lemma {:induction false} JobCacheSnoc(events: seq<Event>, e: Event)
    ensures Replay(events + [e]).plateIdx == LastUncancelled(ReportedPlates(events + [e]), NewFiles(events + [e]))
    ensures Replay(events + [e]).jobStart == LastUncancelled(Starts(events + [e]), JobEnds(events + [e]))
    decreases |events| + 1, 1
  {
    hide LastUncancelled, Replay, ReportedPlates, NewFiles, Starts, JobEnds;
    JobCacheFollowsHistory(events);
    JobStep(events, e);
  }

  // ----- the plate of the running job -----

  /** A start command that reached the cache and could be recorded. */
  predicate RecordsStart(e: Event) {
    e.Started? && NamesJob(e.fields)
  }

  /** What such an event records: its connection is that of the boundaries before it. */
  function RecordedBy(events: seq<Event>, k: nat): JobStart
    requires k < |events| && RecordsStart(events[k])
  {
    JobStart(FileNameOf(events[k].fields), events[k].fields.plate.value, Boundaries(events[..k]) % GENERATIONS)
  }

  /** Event `i` ended a busy job. */
  predicate EndsJob(events: seq<Event>, i: nat)
    requires i < |events|
  {
    EndOf(CurrentState(events[..i]), events[i]).Some?
  }

  /** The start recorded by event `k` was neither replaced nor dropped since. */
  predicate IsHeld(events: seq<Event>, k: nat) {
    && k < |events| && RecordsStart(events[k])
    && forall i | k < i < |events| :: !RecordsStart(events[i]) && !EndsJob(events, i)
  }

  lemma {:induction false} StartAt(events: seq<Event>, k: nat)
    requires k < |events|
    ensures Starts(events)[k] == StartOf(events[k], Boundaries(events[..k]) % GENERATIONS)
  {
    hide Boundaries, StartOf;
    var n := |events| - 1;
    if k < n {
      var init := events[..n];
      StartAt(init, k);
      assert init[..k] == events[..k] && init[k] == events[k];
      assert Starts(events)[k] == Starts(init)[k];
    }
  }

  lemma {:induction false} EndAt(events: seq<Event>, k: nat)
    requires k < |events|
    ensures JobEnds(events)[k].Some? <==> EndsJob(events, k)
  {
    hide CurrentState, EndOf;
    var n := |events| - 1;
    if k < n {
      var init := events[..n];
      EndAt(init, k);
      assert init[..k] == events[..k] && init[k] == events[k];
      assert JobEnds(events)[k] == JobEnds(init)[k];
    }
  }

  /** The cache holds the start recorded by event `k` exactly when it was neither replaced nor dropped. */
  lemma HeldIsLast(events: seq<Event>, k: nat)
    ensures IsHeld(events, k) <==> IsLastUncancelled(Starts(events), JobEnds(events), k)
  {
    hide Starts, JobEnds, Boundaries, EndsJob, FileNameOf, NamesJob;
    forall i: nat | i < |events|
      ensures Starts(events)[i].Some? <==> RecordsStart(events[i])
      ensures JobEnds(events)[i].Some? <==> EndsJob(events, i)
    {
      StartAt(events, i);
      EndAt(events, i);
    }
  }

  lemma HeldStartIs(events: seq<Event>)
    ensures forall k: nat | IsHeld(events, k) :: Replay(events).jobStart == Some(RecordedBy(events, k))
    ensures Replay(events).jobStart.Some? ==> exists k: nat :: IsHeld(events, k)
  {
    hide Starts, JobEnds, Boundaries, IsLastUncancelled, LastUncancelled;
    hide FileNameOf, NamesJob, Replay, ReportedPlates, NewFiles, IsHeld;
    JobCacheFollowsHistory(events);
    LastUncancelledIs(Starts(events), JobEnds(events));
    forall k: nat
      ensures IsHeld(events, k) <==> IsLastUncancelled(Starts(events), JobEnds(events), k)
    {
      HeldIsLast(events, k);
    }
    forall k: nat | IsHeld(events, k)
      ensures k < |events| && RecordsStart(events[k])
      ensures Replay(events).jobStart == Some(RecordedBy(events, k))
    {
      HeldRecords(events, k);
      StartAt(events, k);
    }
  }

  lemma HeldRecords(events: seq<Event>, k: nat)
    requires IsHeld(events, k)
    ensures k < |events| && RecordsStart(events[k])
  {
  }

  /** A multiple of 2^32 boundaries, or none, followed event `k`. */
  predicate OnThisGeneration(events: seq<Event>, k: nat)
    requires k <= |events|
  {
    Boundaries(events[k..]) % GENERATIONS == 0
  }

  /** A recorded start carries the current generation exactly when a multiple of 2^32 boundaries followed it. */
  lemma StartIsOfConnection(events: seq<Event>, k: nat)
    requires k < |events| && RecordsStart(events[k])
    ensures RecordedBy(events, k).generation == Replay(events).generation <==> OnThisGeneration(events, k)
    ensures Boundaries(events) < GENERATIONS ==>
              (OnThisGeneration(events, k) <==> Boundaries(events[k..]) == 0)
  {
    hide *;
    var before, after := Boundaries(events[..k]), Boundaries(events[k..]);
    GenerationCountsBoundaries(events);
    BoundariesAppend(events[..k], events[k..]);
    assert events[..k] + events[k..] == events;
    Residues(before, after);
    GenerationsAre(events, k);
  }

  lemma GenerationsAre(events: seq<Event>, k: nat)
    requires k < |events| && RecordsStart(events[k])
    ensures RecordedBy(events, k).generation == Boundaries(events[..k]) % GENERATIONS
    ensures OnThisGeneration(events, k) <==> Boundaries(events[k..]) % GENERATIONS == 0
  {
    hide Boundaries, FileNameOf, NamesJob;
  }

  lemma Residues(a: nat, b: nat)
    ensures a % GENERATIONS == (a + b) % GENERATIONS <==> b % GENERATIONS == 0
    ensures a + b < GENERATIONS ==> (b % GENERATIONS == 0 <==> b == 0)
  {
    SameResidue(a + b, b);
  }

  /**
   The start recorded by event `k` is trusted: it is held, it carries the current generation, and
   it names the running file.
   */
  predicate IsTrusted(events: seq<Event>, k: nat) {
    && IsHeld(events, k)
    && OnThisGeneration(events, k)
    && CurrentFile(events).Some?
    && FileNameOf(events[k].fields) == LastSegment(CurrentFile(events).value)
  }

  lemma RunningStartIsTrusted(events: seq<Event>)
    ensures Replay(events).RunningJobStart().Some? ==> exists k: nat :: IsTrusted(events, k)
    ensures forall k: nat | IsTrusted(events, k) :: Replay(events).RunningJobStart() == Some(RecordedBy(events, k))
  {
    hide Replay, CurrentFile, LastSegment, Boundaries, IsHeld, OnThisGeneration, FileNameOf, NamesJob;
    HeldStartIs(events);
    CacheFollowsReports(events);
    forall k: nat | IsHeld(events, k)
      ensures IsTrusted(events, k) <==> Replay(events).RunningJobStart().Some?
    {
      HeldRecords(events, k);
      StartIsOfConnection(events, k);
    }
  }

  /**
   Where a plate answered for a running job comes from, over every history. A telemetry plate is
   the latest positive one reported since the current file was first seen. Otherwise it is the
   plate of a recorded start that is trusted.
   */
  lemma PlateAnswerComesFrom(events: seq<Event>, answer: PlateAnswer)
    ensures Replay(events).JobPlate() == Some(answer) && answer.source == Telemetry
       <==> && LastUncancelled(ReportedPlates(events), NewFiles(events)) == Some(answer.plate)
            && answer.source == Telemetry
    ensures Replay(events).JobPlate() == Some(answer) && answer.source == StartCommand
       <==> && LastUncancelled(ReportedPlates(events), NewFiles(events)).None?
            && answer.source == StartCommand
            && exists k: nat :: GivesPlate(events, k, answer.plate)
  {
    hide Replay, Starts, LastUncancelled, ReportedPlates;
    hide NewFiles, JobEnds, Cache.RunningJobStart, IsTrusted, FileNameOf;
    JobCacheFollowsHistory(events);
    RunningStartIsTrusted(events);
    forall k: nat | IsTrusted(events, k)
      ensures k < |events| && RecordsStart(events[k])
      ensures GivesPlate(events, k, events[k].fields.plate.value)
    {
      TrustedRecords(events, k);
    }
  }

  /** The start recorded by event `k` is trusted, and names this plate. */
  predicate GivesPlate(events: seq<Event>, k: nat, plate: nat) {
    IsTrusted(events, k) && events[k].fields.plate == Some(plate)
  }

  lemma TrustedRecords(events: seq<Event>, k: nat)
    requires IsTrusted(events, k)
    ensures k < |events| && RecordsStart(events[k])
  {
  }

  // ----- the latest accepted start of a log -----

  /** The event is an accepted start command, whether it reached the cache or not. */
  predicate IsStart(e: Event) {
    e.Started? || e.Overlooked?
  }

  /** No accepted start is logged twice. */
  ghost predicate LoggedOnce(events: seq<Event>) {
    forall i, j | 0 <= i < j < |events| && IsStart(events[i]) && IsStart(events[j]) ::
      events[i].arrival != events[j].arrival
  }

  /** The starts that reached the cache did so in the order they were received. */
  ghost predicate ClassifiedInOrder(events: seq<Event>) {
    forall i, j | 0 <= i < j < |events| && events[i].Started? && events[j].Started? ::
      events[i].arrival < events[j].arrival
  }

  /** Of the accepted starts logged, `events[k]` is the one received last. */
  ghost predicate IsLatestLogged(events: seq<Event>, k: nat) {
    && k < |events| && IsStart(events[k])
    && forall i | 0 <= i < |events| && i != k && IsStart(events[i]) :: events[i].arrival < events[k].arrival
  }

  /**
   The start held by the cache is the last one of the log exactly when that one's echo was
   classified, and names a job. Otherwise the cache holds an older start, or none.
   */
  lemma HeldStartIsLatestIff(events: seq<Event>, k: nat)
    requires ClassifiedInOrder(events) && IsLatestLogged(events, k)
    requires forall i | k < i < |events| :: !EndsJob(events, i)
    ensures IsHeld(events, k) <==> RecordsStart(events[k])
  {
    hide EndsJob, NamesJob;
  }

  /** The start the cache trusts is the last one of the log exactly when that one was classified, and names a job. */
  lemma TrustedStartIsLatestIff(events: seq<Event>, r: nat, k: nat)
    requires ClassifiedInOrder(events) && IsLatestLogged(events, k) && IsTrusted(events, r)
    ensures r == k <==> RecordsStart(events[k])
  {
    hide EndsJob, OnThisGeneration, CurrentFile, LastSegment, NamesJob, FileNameOf;
    TrustedRecords(events, r);
  }

  /** The last start of the log describes the running job: nothing since speaks against it. */
  ghost predicate DescribesRunningJob(events: seq<Event>, k: nat) {
    && IsLatestLogged(events, k) && NamesJob(events[k].fields)
    && (forall i | k < i < |events| :: !EndsJob(events, i))
    && Boundaries(events[k..]) == 0
    && CurrentFile(events).Some?
    && FileNameOf(events[k].fields) == LastSegment(CurrentFile(events).value)
  }

  /** A start that describes the running job is trusted exactly when its echo was classified. */
  lemma LatestStartIsTrustedIff(events: seq<Event>, k: nat)
    requires ClassifiedInOrder(events) && DescribesRunningJob(events, k)
    ensures IsTrusted(events, k) <==> events[k].Started?
  {
    hide EndsJob, Boundaries, CurrentFile, LastSegment, FileNameOf, IsHeld;
    HeldStartIsLatestIff(events, k);
    if IsTrusted(events, k) {
      TrustedRecords(events, k);
    }
  }

  /**
   A plate answered from a start command is that of the last start of the log exactly when that one
   was classified, and names a job. Otherwise it is the plate of an older start.
   */
  lemma AnswerIsLatestIff(events: seq<Event>, answer: PlateAnswer, k: nat)
    requires ClassifiedInOrder(events) && IsLatestLogged(events, k)
    requires Replay(events).JobPlate() == Some(answer) && answer.source == StartCommand
    ensures GivesPlate(events, k, answer.plate) <==> RecordsStart(events[k])
    ensures exists r: nat :: GivesPlate(events, r, answer.plate) && (r == k <==> RecordsStart(events[k]))
  {
    hide Replay, IsTrusted, NamesJob, LastUncancelled, ReportedPlates, NewFiles, ClassifiedInOrder, Cache.JobPlate;
    PlateAnswerComesFrom(events, answer);
    var r: nat :| GivesPlate(events, r, answer.plate);
    TrustedStartIsLatestIff(events, r, k);
    if IsTrusted(events, k) {
      TrustedRecords(events, k);
    }
  }
}
