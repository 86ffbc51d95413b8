/** Waiting for a homing cycle, over the readings of the homing flag. */
module HomingWait {
  import opened Wrappers
  import opened Sequences
  import opened ConnectionCache
  import opened MessageBuffer
  import opened ClientSpec

  const HOMING_WAIT_TIMEOUT_MS: nat := 90_000

  /** What one poll of the wait meets, and the clock after it. */
  datatype HomingPoll = HomingPoll(dial: Dial, now: nat, later: nat, read: Result<Message, TransportError>, after: nat)

  function HomingBudget(clockIsReal: bool, start: nat): WaitBudget {
    WaitBudget(start, Some(HOMING_WAIT_TIMEOUT_MS), clockIsReal, 0)
  }

  /** The homing reading a state answers: its flag, as trusted on the current connection. */
  function HomedReading(s: State): Option<bool> {
    Replay(s.events).IsAllAxesHomed()
  }

  /** The wait from a state on; `None` when the polls do not decide it. */
  function WaitFrom(s: State, polls: seq<HomingPoll>, budget: WaitBudget, sawNotAllHomed: bool)
    : (State, Option<Result<(), Error>>)
    decreases |polls|
  {
    if polls == [] then (s, None)
    else
      var p := polls[0];
      var (t, event) := s.Poll(p.dial, p.now, p.later, p.read);
      if event.Err? then (t, Some(Err(event.error)))
      else
        var reading := HomedReading(t);
        if reading == Some(true) && sawNotAllHomed then (t, Some(Ok(())))
        else
          var (spent, expired) := budget.AfterMessage(p.after);
          if expired then (t, Some(Err(Timeout)))
          else WaitFrom(t, polls[1..], spent, sawNotAllHomed || reading == Some(false))
  }

  function PollOf(p: HomingPoll): Op {
    Polling(p.dial, p.now, p.later, p.read)
  }

  /** The state after the first `n` polls. */
  function After(s: State, polls: seq<HomingPoll>, n: nat): State
    requires n <= |polls|
  {
    Run(s, Map(PollOf, polls[..n]))
  }

  /** The reading after `n` polls. */
  function ReadingAfter(s: State, polls: seq<HomingPoll>, n: nat): Option<bool>
    requires n <= |polls|
  {
    HomedReading(After(s, polls, n))
  }

  /** The readings up to poll `n` end all-homed, with a not-all-homed one before. */
  ghost predicate CycleSeen(s: State, polls: seq<HomingPoll>, sawBefore: bool, n: nat) {
    && 0 < n <= |polls|
    && ReadingAfter(s, polls, n) == Some(true)
    && (sawBefore || exists k: nat :: 0 < k < n && ReadingAfter(s, polls, k) == Some(false))
  }

  /** Whether the wait is over once the `n`-th poll is done. */
  predicate OutOfBudget(budget: WaitBudget, polls: seq<HomingPoll>, n: nat)
    requires 0 < n <= |polls|
  {
    if budget.realClock then
      budget.timeoutMs.Some? && (polls[n - 1].after - budget.startMs) % U64_SIZE >= budget.timeoutMs.value
    else budget.messages + n >= POLL_UNTIL_MAX_MESSAGES
  }

  predicate PollFails(s: State, p: HomingPoll) {
    s.Poll(p.dial, p.now, p.later, p.read).1.Err?
  }

  /** None of the first `n` polls fails, and the budget lasts for them. */
  ghost predicate Uninterrupted(s: State, polls: seq<HomingPoll>, budget: WaitBudget, n: nat) {
    && n <= |polls|
    && (forall k: nat | k < n :: !PollFails(After(s, polls, k), polls[k]))
    && (forall k: nat | 0 < k < n :: !OutOfBudget(budget, polls, k))
  }

  /** The wait ends with success at poll `n`. */
  ghost predicate SucceedsAt(s: State, polls: seq<HomingPoll>, budget: WaitBudget, saw: bool, n: nat) {
    CycleSeen(s, polls, saw, n) && Uninterrupted(s, polls, budget, n)
  }

  lemma AfterFirst(s: State, polls: seq<HomingPoll>, n: nat)
    requires 0 < n <= |polls|
    ensures After(s, polls, n) == After(Step(s, PollOf(polls[0])), polls[1..], n - 1)
    ensures After(s, polls, 0) == s && After(s, polls, 1) == Step(s, PollOf(polls[0]))
  {
    assert polls[..n] == [polls[0]] + polls[1..][..n - 1];
    assert Map(PollOf, polls[..n]) == [PollOf(polls[0])] + Map(PollOf, polls[1..][..n - 1]);
    RunFirst(s, PollOf(polls[0]), Map(PollOf, polls[1..][..n - 1]));
    assert Map(PollOf, polls[..1]) == [PollOf(polls[0])] + [];
    RunFirst(s, PollOf(polls[0]), []);
  }

  lemma {:induction false} RunFirst(s: State, op: Op, ops: seq<Op>)
    ensures Run(s, [op] + ops) == Run(Step(s, op), ops)
  {
    var all := [op] + ops;
    if ops == [] {
      assert all[..0] == [] && Run(s, []) == s;
    } else {
      var n := |ops| - 1;
      RunFirst(s, op, ops[..n]);
      assert all[..|all| - 1] == [op] + ops[..n] && all[|all| - 1] == ops[n];
    }
  }

  /** What one poll that decides nothing leaves of the wait. */
  lemma SucceedsShifts(s: State, polls: seq<HomingPoll>, budget: WaitBudget, saw: bool, n: nat)
    requires 0 < n < |polls| && !PollFails(s, polls[0])
    ensures var t := Step(s, PollOf(polls[0]));
            var (spent, expired) := budget.AfterMessage(polls[0].after);
            SucceedsAt(s, polls, budget, saw, n + 1)
            <==> !expired && SucceedsAt(t, polls[1..], spent, saw || ReadingAfter(s, polls, 1) == Some(false), n)
  {
    hide After, HomedReading, CycleSeen, Uninterrupted;
    var t := Step(s, PollOf(polls[0]));
    var (spent, expired) := budget.AfterMessage(polls[0].after);
    forall k: nat | k < |polls|
      ensures After(s, polls, k + 1) == After(t, polls[1..], k)
    {
      AfterFirst(s, polls, k + 1);
    }
    AfterFirst(s, polls, 1);
    CycleShifts(s, polls, saw, n, t);
    forall k: nat | 0 < k < |polls|
      ensures OutOfBudget(budget, polls, k + 1) <==> OutOfBudget(spent, polls[1..], k)
    {
      assert polls[1..][k - 1] == polls[k];
    }
    UninterruptedShifts(s, polls, budget, n, t, spent);
  }

  lemma CycleShifts(s: State, polls: seq<HomingPoll>, saw: bool, n: nat, t: State)
    requires 0 < n < |polls|
    requires forall k: nat | k < |polls| :: After(s, polls, k + 1) == After(t, polls[1..], k)
    ensures CycleSeen(s, polls, saw, n + 1)
       <==> CycleSeen(t, polls[1..], saw || ReadingAfter(s, polls, 1) == Some(false), n)
  {
    hide After, HomedReading;
    forall k: nat | 0 < k <= n
      ensures ReadingAfter(s, polls, k + 1) == ReadingAfter(t, polls[1..], k)
    {
    }
    if k: nat :| 0 < k < n + 1 && ReadingAfter(s, polls, k) == Some(false) {
      if k > 1 {
        assert ReadingAfter(t, polls[1..], k - 1) == Some(false);
      }
    }
    if k: nat :| 0 < k < n && ReadingAfter(t, polls[1..], k) == Some(false) {
      assert ReadingAfter(s, polls, k + 1) == Some(false);
    }
  }

  lemma UninterruptedShifts(s: State, polls: seq<HomingPoll>, budget: WaitBudget, n: nat, t: State, spent: WaitBudget)
    requires 0 < n < |polls| && After(s, polls, 0) == s && !PollFails(s, polls[0])
    requires forall k: nat | k < |polls| :: After(s, polls, k + 1) == After(t, polls[1..], k)
    requires forall k: nat | 0 < k < |polls| :: OutOfBudget(budget, polls, k + 1) <==> OutOfBudget(spent, polls[1..], k)
    ensures Uninterrupted(s, polls, budget, n + 1) <==>
              !OutOfBudget(budget, polls, 1) && Uninterrupted(t, polls[1..], spent, n)
  {
    hide After, PollFails, OutOfBudget;
    var rest := polls[1..];
    if Uninterrupted(s, polls, budget, n + 1) {
      forall k: nat | k < n
        ensures !PollFails(After(t, rest, k), rest[k])
      {
        assert !PollFails(After(s, polls, k + 1), polls[k + 1]);
      }
      forall k: nat | 0 < k < n
        ensures !OutOfBudget(spent, rest, k)
      {
        assert !OutOfBudget(budget, polls, k + 1);
      }
    }
    if !OutOfBudget(budget, polls, 1) && Uninterrupted(t, rest, spent, n) {
      forall k: nat | k < n + 1
        ensures !PollFails(After(s, polls, k), polls[k])
      {
        if k > 0 {
          assert !PollFails(After(t, rest, k - 1), rest[k - 1]);
        }
      }
      forall k: nat | 0 < k < n + 1
        ensures !OutOfBudget(budget, polls, k)
      {
        if k > 1 {
          assert !OutOfBudget(spent, rest, k - 1);
        }
      }
    }
  }

  /**
   The wait succeeds exactly when, before any poll fails or the budget runs out, a reading with
   some axis not homed is followed by one with all of them homed. A printer that was homed all
   along, or that never homes, does not end it with success.
   */
  lemma {:induction false} HomingSucceedsIffCycleSeen(s: State, polls: seq<HomingPoll>, budget: WaitBudget, saw: bool)
    ensures WaitFrom(s, polls, budget, saw).1 == Some(Ok(())) <==> exists n: nat :: SucceedsAt(s, polls, budget, saw, n)
    decreases |polls|
  {
    hide HomedReading, State.Poll;
    if polls != [] {
      var t := Step(s, PollOf(polls[0]));
      AfterFirst(s, polls, 1);
      assert ReadingAfter(s, polls, 1) == HomedReading(t);
      if PollFails(s, polls[0]) {
        assert PollFails(After(s, polls, 0), polls[0]);
      } else if HomedReading(t) == Some(true) && saw {
        assert SucceedsAt(s, polls, budget, saw, 1);
      } else {
        HomingGoesOn(s, polls, budget, saw, t);
      }
    }
  }

  lemma {:induction false} HomingGoesOn(s: State, polls: seq<HomingPoll>, budget: WaitBudget, saw: bool, t: State)
    requires 0 < |polls| && !PollFails(s, polls[0]) && t == Step(s, PollOf(polls[0]))
    requires ReadingAfter(s, polls, 1) == HomedReading(t)
    requires !(HomedReading(t) == Some(true) && saw)
    ensures WaitFrom(s, polls, budget, saw).1 == Some(Ok(())) <==> exists n: nat :: SucceedsAt(s, polls, budget, saw, n)
    decreases |polls|, 0
  {
    hide SucceedsAt, ReadingAfter, HomedReading, State.Poll;
    var (spent, expired) := budget.AfterMessage(polls[0].after);
    var saw' := saw || HomedReading(t) == Some(false);
    HomingSucceedsIffCycleSeen(t, polls[1..], spent, saw');
    FirstPollDecidesNothing(s, polls, budget, saw, t);
    forall n: nat | 0 < n < |polls|
      ensures SucceedsAt(s, polls, budget, saw, n + 1) <==> !expired && SucceedsAt(t, polls[1..], spent, saw', n)
    {
      SucceedsShifts(s, polls, budget, saw, n);
    }
    forall n: nat
      ensures SucceedsAt(s, polls, budget, saw, n) ==> n <= |polls|
      ensures SucceedsAt(t, polls[1..], spent, saw', n) ==> 0 < n < |polls|
    {
      SucceedsInRange(s, polls, budget, saw, n);
      SucceedsInRange(t, polls[1..], spent, saw', n);
    }
    if n: nat :| SucceedsAt(s, polls, budget, saw, n) {
      var m: nat := n - 1;
      assert SucceedsAt(s, polls, budget, saw, m + 1);
      assert SucceedsAt(t, polls[1..], spent, saw', m);
    }
    if !expired {
      if m: nat :| SucceedsAt(t, polls[1..], spent, saw', m) {
        assert SucceedsAt(s, polls, budget, saw, m + 1);
      }
    }
  }

  lemma FirstPollDecidesNothing(s: State, polls: seq<HomingPoll>, budget: WaitBudget, saw: bool, t: State)
    requires 0 < |polls| && ReadingAfter(s, polls, 1) == HomedReading(t)
    requires !(HomedReading(t) == Some(true) && saw)
    ensures forall n: nat | n <= 1 :: !SucceedsAt(s, polls, budget, saw, n)
  {
    hide ReadingAfter, HomedReading, Uninterrupted;
  }

  lemma SucceedsInRange(s: State, polls: seq<HomingPoll>, budget: WaitBudget, saw: bool, n: nat)
    ensures SucceedsAt(s, polls, budget, saw, n) ==> 0 < n <= |polls|
  {
  }

  /** The reading that ends the wait was written since the latest connection boundary. */
  lemma HomedReadingIsFresh(s: State)
    requires Boundaries(s.events) < GENERATIONS
    ensures HomedReading(s).Some? <==> Fresh(s.events, HomeWrites(s.events)).Some?
    ensures HomedReading(s).Some? ==> HomedReading(s).value == (Fresh(s.events, HomeWrites(s.events)).value % 8 == 7)
  {
    AccessorsAreFresh(s.events);
  }

  // ----- how else it ends -----

  /** The first `n` polls came through, and the budget lasted for them. */
  ghost predicate CameThrough(s: State, polls: seq<HomingPoll>, budget: WaitBudget, n: nat) {
    && n <= |polls|
    && (forall k: nat | k < n :: !PollFails(After(s, polls, k), polls[k]))
    && (forall k: nat | 0 < k <= n :: !OutOfBudget(budget, polls, k))
  }

  /** The poll after `n` fails with `e`, or the budget is out with it. */
  ghost predicate FailsAfter(s: State, polls: seq<HomingPoll>, budget: WaitBudget, n: nat, e: Error) {
    && n < |polls| && CameThrough(s, polls, budget, n)
    && var r := After(s, polls, n).Poll(polls[n].dial, polls[n].now, polls[n].later, polls[n].read).1;
       r == Err(e) || (r.Ok? && OutOfBudget(budget, polls, n + 1) && e == Timeout)
  }

  /**
   A wait that does not succeed ends with the failure of the first poll that fails, or with a timeout
   after the first one that exceeds the budget. It is undecided only when all the polls came through.
   */
  lemma {:induction false} HomingEndsOtherwise(s: State, polls: seq<HomingPoll>, budget: WaitBudget, saw: bool)
    returns (n: nat)
    ensures match WaitFrom(s, polls, budget, saw).1
            case None => CameThrough(s, polls, budget, |polls|)
            case Some(Ok(_)) => true
            case Some(Err(e)) => FailsAfter(s, polls, budget, n, e)
    decreases |polls|
  {
    hide HomedReading, State.Poll, After;
    n := 0;
    if polls != [] {
      AfterFirst(s, polls, 1);
      var t := Step(s, PollOf(polls[0]));
      var (spent, expired) := budget.AfterMessage(polls[0].after);
      var r := WaitFrom(s, polls, budget, saw).1;
      if !PollFails(s, polls[0]) && !expired && !(HomedReading(t) == Some(true) && saw) {
        var saw' := saw || HomedReading(t) == Some(false);
        var m := HomingEndsOtherwise(t, polls[1..], spent, saw');
        n := m + 1;
        if r.None? {
          ThroughShifts(s, polls, budget, |polls| - 1);
        } else if r.value.Err? {
          ThroughShifts(s, polls, budget, m);
          AfterFirst(s, polls, n);
        }
      }
    }
  }

  /** A first poll that came through and decides nothing is one more. */
  lemma ThroughShifts(s: State, polls: seq<HomingPoll>, budget: WaitBudget, n: nat)
    requires polls != [] && !PollFails(s, polls[0]) && !budget.AfterMessage(polls[0].after).1
    requires CameThrough(Step(s, PollOf(polls[0])), polls[1..], budget.AfterMessage(polls[0].after).0, n)
    ensures CameThrough(s, polls, budget, n + 1)
    ensures n + 1 < |polls| ==> (OutOfBudget(budget, polls, n + 2)
                                 <==> OutOfBudget(budget.AfterMessage(polls[0].after).0, polls[1..], n + 1))
  {
    hide HomedReading, State.Poll, After;
    var t, rest, spent := Step(s, PollOf(polls[0])), polls[1..], budget.AfterMessage(polls[0].after).0;
    AfterFirst(s, polls, 1);
    forall k: nat | k < n + 1
      ensures !PollFails(After(s, polls, k), polls[k])
    {
      if k > 0 {
        AfterFirst(s, polls, k);
        assert !PollFails(After(t, rest, k - 1), rest[k - 1]);
      }
    }
    forall k: nat | 0 < k <= n + 1
      ensures !OutOfBudget(budget, polls, k)
    {
      if k > 1 {
        assert !OutOfBudget(spent, rest, k - 1);
      }
    }
  }

  /** The wait lasts 90 seconds, or 200 polls without a real clock. */
  lemma HomingLasts(clockIsReal: bool, start: nat, polls: seq<HomingPoll>, n: nat)
    requires 0 < n <= |polls|
    ensures OutOfBudget(HomingBudget(clockIsReal, start), polls, n) <==>
              if clockIsReal then (polls[n - 1].after - start) % 0x1_0000_0000_0000_0000 >= 90_000 else n >= 200
  {
  }
}
