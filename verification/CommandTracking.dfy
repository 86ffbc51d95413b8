/**
 Bookkeeping that gives every echoing command its outcome: commands awaiting an echo, outcomes
 waiting to be handed out, and the outcomes handed out recently.
 */
module CommandTracking {
  import opened Wrappers
  import opened Sequences

  const PENDING_COMMAND_LIMIT: nat := 200
  const RESOLVED_OUTCOME_LIMIT: nat := 32

  datatype AckExpectation = Echoes | SettlesOnPublish

  /** What tells one published command from another. */
  datatype CommandHandle = CommandHandle(command: string, sequenceId: nat, ack: AckExpectation)
  {
    predicate IsAnsweredBy(echo: CommandEcho) {
      echo.command == command && echo.sequenceId == Some(sequenceId)
    }
  }

  datatype Verdict = Accepted | Refused(reason: string) | NoVerdict

  datatype CommandOutcome = Answered(verdict: Verdict) | TimedOut | ConnectionLost | SettledOnPublish

  /** The printer's echo of a command, ours or another client's. */
  datatype CommandEcho = CommandEcho(command: string, sequenceId: Option<nat>, verdict: Verdict)

  datatype PendingCommand = PendingCommand(handle: CommandHandle, deadline: Option<nat>)
  {
    predicate Expired(now: nat) {
      deadline.Some? && now >= deadline.value
    }
  }

  datatype CommandResolution = CommandResolution(handle: CommandHandle, outcome: CommandOutcome)

  function HandleOf(p: PendingCommand): CommandHandle { p.handle }

  function ResolvedHandle(r: CommandResolution): CommandHandle { r.handle }

  /** The tracker's queues as a value, and what each operation does to them. */
  datatype Tracker = Tracker(
    pending: seq<PendingCommand>, ready: seq<CommandResolution>, resolved: seq<CommandResolution>)
  {
    function Track(handle: CommandHandle, deadline: Option<nat>): Tracker {
      if handle.ack != Echoes then this
      else if |pending| < PENDING_COMMAND_LIMIT then this.(pending := pending + [PendingCommand(handle, deadline)])
      else this.(
        pending := pending[1..] + [PendingCommand(handle, deadline)],
        ready := ready + [CommandResolution(pending[0].handle, TimedOut)])
    }

    /** The oldest pending command `echo` answers, or `|pending|`. */
    function AnsweredIndex(echo: CommandEcho): (k: nat)
      ensures k <= |pending|
    {
      Position(pending, (p: PendingCommand) => p.handle.IsAnsweredBy(echo))
    }

    function TakeAnswered(echo: CommandEcho): (Tracker, Option<CommandHandle>) {
      var k := AnsweredIndex(echo);
      if k == |pending| then (this, None)
      else (this.(pending := Without(pending, k)), Some(pending[k].handle))
    }

    function ExpiredIndex(now: nat): (k: nat)
      ensures k <= |pending|
    {
      Position(pending, (p: PendingCommand) => p.Expired(now))
    }

    function NextUnanswered(now: Option<nat>): (Tracker, Option<CommandResolution>) {
      if ready != [] then (this.(ready := ready[1..]), Some(ready[0]))
      else if now.None? then (this, None)
      else
        var k := ExpiredIndex(now.value);
        if k == |pending| then (this, None)
        else (this.(pending := Without(pending, k)), Some(CommandResolution(pending[k].handle, TimedOut)))
    }

    function ConnectionEnded(): Tracker {
      this.(
        pending := [],
        ready := ready + Map((p: PendingCommand) => CommandResolution(p.handle, ConnectionLost), pending))
    }

    function Remember(resolution: CommandResolution): Tracker {
      this.(resolved := (if |resolved| >= RESOLVED_OUTCOME_LIMIT then resolved[1..] else resolved) + [resolution])
    }

    function ReadyIndex(handle: CommandHandle): (k: nat)
      ensures k <= |ready|
    {
      Position(ready, (r: CommandResolution) => r.handle == handle)
    }

    function ResolvedIndex(handle: CommandHandle): (k: nat)
      ensures k <= |resolved|
    {
      Position(resolved, (r: CommandResolution) => r.handle == handle)
    }

    function TakeKnown(handle: CommandHandle): (r: (Tracker, Option<CommandOutcome>))
      ensures r.1.None? ==> r.0 == this
    {
      var k := ReadyIndex(handle);
      if k < |ready| then (this.(ready := Without(ready, k)), Some(ready[k].outcome))
      else
        var m := ResolvedIndex(handle);
        (this, if m < |resolved| then Some(resolved[m].outcome) else None)
    }

    predicate IsPending(handle: CommandHandle) {
      exists p <- pending :: p.handle == handle
    }

    function Forget(handle: CommandHandle): Tracker {
      this.(pending := Keep(pending, (p: PendingCommand) => p.handle != handle))
    }
  }

  const NO_COMMANDS: Tracker := Tracker([], [], [])

  class CommandTracker {
    var pending: seq<PendingCommand>
    var ready: seq<CommandResolution>
    var resolved: seq<CommandResolution>

    function View(): Tracker
      reads this
    {
      Tracker(pending, ready, resolved)
    }

    constructor ()
      ensures View() == NO_COMMANDS
    {
      pending, ready, resolved := [], [], [];
    }

    /** One more command waits for its echo; a full queue gives up on its oldest one. */
    method Track(handle: CommandHandle, deadline: Option<nat>)
      modifies this
      ensures View() == old(View()).Track(handle, deadline)
    {
      if handle.ack != Echoes {
        return;
      }
      if |pending| >= PENDING_COMMAND_LIMIT {
        var oldest := pending[0];
        pending := pending[1..];
        ready := ready + [CommandResolution(oldest.handle, TimedOut)];
      }
      pending := pending + [PendingCommand(handle, deadline)];
    }

    /** Takes the command that `echo` is for off the pending ones. */
    method TakeAnswered(echo: CommandEcho) returns (handle: Option<CommandHandle>)
      modifies this
      ensures (View(), handle) == old(View()).TakeAnswered(echo)
    {
      var k := 0;
      while k < |pending| && !pending[k].handle.IsAnsweredBy(echo)
        invariant k <= |pending|
        invariant forall i | 0 <= i < k :: !pending[i].handle.IsAnsweredBy(echo)
      {
        k := k + 1;
      }
      PositionIs(pending, (p: PendingCommand) => p.handle.IsAnsweredBy(echo), k);
      if k == |pending| {
        return None;
      }
      handle := Some(pending[k].handle);
      pending := Without(pending, k);
    }

    /** Takes a queued outcome, or else times out the first command past its deadline. */
    method NextUnanswered(now: Option<nat>) returns (resolution: Option<CommandResolution>)
      modifies this
      ensures (View(), resolution) == old(View()).NextUnanswered(now)
    {
      if ready != [] {
        resolution := Some(ready[0]);
        ready := ready[1..];
        return;
      }
      if now.None? {
        return None;
      }
      var k := 0;
      while k < |pending| && !pending[k].Expired(now.value)
        invariant k <= |pending|
        invariant forall i | 0 <= i < k :: !pending[i].Expired(now.value)
      {
        k := k + 1;
      }
      PositionIs(pending, (p: PendingCommand) => p.Expired(now.value), k);
      if k == |pending| {
        return None;
      }
      resolution := Some(CommandResolution(pending[k].handle, TimedOut));
      pending := Without(pending, k);
    }

    /** Queues an outcome for each command the connection takes with it. */
    method ConnectionEnded()
      modifies this
      ensures View() == old(View()).ConnectionEnded()
    {
      ghost var lost := Map((p: PendingCommand) => CommandResolution(p.handle, ConnectionLost), pending);
      for k := 0 to |pending|
        invariant pending == old(pending) && resolved == old(resolved)
        invariant ready == old(ready) + lost[..k]
      {
        assert lost[..k + 1] == lost[..k] + [lost[k]];
        ready := ready + [CommandResolution(pending[k].handle, ConnectionLost)];
      }
      assert lost[..|pending|] == lost;
      pending := [];
    }

    /** Adds to the memory of outcomes, which forgets its oldest when full. */
    method Remember(resolution: CommandResolution)
      modifies this
      ensures View() == old(View()).Remember(resolution)
    {
      if |resolved| >= RESOLVED_OUTCOME_LIMIT {
        resolved := resolved[1..];
      }
      resolved := resolved + [resolution];
    }

    /** Looks for an outcome of `handle`: a queued one is consumed, a remembered one stays. */
    method TakeKnown(handle: CommandHandle) returns (outcome: Option<CommandOutcome>)
      modifies this
      ensures (View(), outcome) == old(View()).TakeKnown(handle)
    {
      var k := PositionOfHandle(ready, handle);
      if k < |ready| {
        outcome := Some(ready[k].outcome);
        ready := Without(ready, k);
        return;
      }
      var m := PositionOfHandle(resolved, handle);
      outcome := if m < |resolved| then Some(resolved[m].outcome) else None;
    }

    static method PositionOfHandle(s: seq<CommandResolution>, handle: CommandHandle) returns (k: nat)
      ensures k == Position(s, (r: CommandResolution) => r.handle == handle)
    {
      k := 0;
      while k < |s| && s[k].handle != handle
        invariant k <= |s|
        invariant forall i | 0 <= i < k :: s[i].handle != handle
      {
        k := k + 1;
      }
      PositionIs(s, (r: CommandResolution) => r.handle == handle, k);
    }

    /** Drops whatever is pending under `handle`. */
    method Forget(handle: CommandHandle)
      modifies this
      ensures View() == old(View()).Forget(handle)
    {
      ghost var other := (p: PendingCommand) => p.handle != handle;
      var kept: seq<PendingCommand> := [];
      for k := 0 to |pending|
        invariant pending == old(pending) && ready == old(ready) && resolved == old(resolved)
        invariant kept == Keep(pending[..k], other)
      {
        assert pending[..k + 1][..k] == pending[..k];
        if pending[k].handle != handle {
          kept := kept + [pending[k]];
        }
      }
      assert pending[..|pending|] == pending;
      pending := kept;
    }
  }

  lemma {:induction false} PositionIs<T>(s: seq<T>, f: T -> bool, k: nat)
    requires k <= |s| && (k < |s| ==> f(s[k]))
    requires forall i | 0 <= i < k :: !f(s[i])
    ensures Position(s, f) == k
  {
  }
}
