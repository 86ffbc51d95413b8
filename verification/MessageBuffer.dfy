/**
 Messages read while waiting for another one are buffered, up to a number of bytes.

 The oldest are evicted first, so what is kept is always the longest suffix that fits.
 */
module MessageBuffer {
  import opened Wrappers
  import opened Sequences
  import opened CommandTracking
  import opened ConnectionCache

  const PENDING_BUFFER_MAX_BYTES: nat := 2_097_152
  const MAX_PAYLOAD_BYTES: nat := 1_048_576

  /** The topic and the payload of a frame: what is left of the largest one after the topic's length field. */
  const MAX_MESSAGE_BYTES: nat := MAX_PAYLOAD_BYTES - 2

  /** A telemetry report; `isPush` when it says so in its command, `frame` its status fields. */
  datatype TelemetryReport = TelemetryReport(isPush: bool, frame: Option<StatusFrame>)

  datatype VersionReply = VersionReply(sequenceId: nat, firmware: Option<string>)

  /**
   A message off the report topic, by what its payload reads as: a report, a command echo, the
   fields of a start command, a version reply. One payload can read as several of these.
   */
  datatype RawMessage = RawMessage(size: nat, report: Option<TelemetryReport>, echo: Option<CommandEcho>,
    start: Option<StartFields>, version: Option<VersionReply>)

  /** A message that can be received: a larger frame is rejected before it is read. */
  type Message = m: RawMessage | m.size <= MAX_MESSAGE_BYTES
    witness RawMessage(0, None, None, None, None)

  function TotalSize(s: seq<Message>): nat {
    if s == [] then 0 else s[0].size + TotalSize(s[1..])
  }

  /** The longest suffix within the byte limit. */
  function Fit(s: seq<Message>): (kept: seq<Message>)
    ensures TotalSize(kept) <= PENDING_BUFFER_MAX_BYTES
  {
    if TotalSize(s) <= PENDING_BUFFER_MAX_BYTES then s else Fit(s[1..])
  }

  /** What has to go for the rest to fit. */
  function Evicted(s: seq<Message>): (evicted: seq<Message>)
    ensures evicted + Fit(s) == s
  {
    if TotalSize(s) <= PENDING_BUFFER_MAX_BYTES then [] else [s[0]] + Evicted(s[1..])
  }

  lemma {:induction false} TotalSizeAppend(a: seq<Message>, b: seq<Message>)
    ensures TotalSize(a + b) == TotalSize(a) + TotalSize(b)
  {
    if a == [] {
      assert a + b == b;
    } else {
      TotalSizeAppend(a[1..], b);
      assert (a + b)[1..] == a[1..] + b;
    }
  }

  /** What is kept is a suffix, and one message more would not have fitted. */
  lemma {:induction false} FitIsLongestSuffix(s: seq<Message>) returns (dropped: nat)
    ensures dropped <= |s| && Fit(s) == s[dropped..]
    ensures forall k | 0 <= k < dropped :: TotalSize(s[k..]) > PENDING_BUFFER_MAX_BYTES
  {
    if TotalSize(s) <= PENDING_BUFFER_MAX_BYTES {
      dropped := 0;
    } else {
      var more := FitIsLongestSuffix(s[1..]);
      dropped := more + 1;
      assert s[1..][more..] == s[dropped..];
      forall k | 0 <= k < dropped
        ensures TotalSize(s[k..]) > PENDING_BUFFER_MAX_BYTES
      {
        if k > 0 {
          assert s[1..][k - 1..] == s[k..];
        }
      }
    }
  }

  /** Buffering is lossless exactly when everything fits. */
  lemma FitIsLosslessIff(s: seq<Message>)
    ensures Fit(s) == s <==> TotalSize(s) <= 2_097_152
  {
  }

  /** Two messages always fit, so it takes a third to lose one. */
  lemma TwoMessagesFit(a: Message, b: Message)
    ensures Fit([a, b]) == [a, b]
  {
    assert TotalSize([a, b]) == a.size + TotalSize([b]);
    assert TotalSize([b]) == b.size + TotalSize([]);
  }

  /** Evicting as messages come in leaves what one eviction at the end would. */
  lemma {:induction false} FitAppend(s: seq<Message>, t: seq<Message>)
    ensures Fit(Fit(s) + t) == Fit(s + t)
  {
    if TotalSize(s) > PENDING_BUFFER_MAX_BYTES {
      FitAppend(s[1..], t);
      TotalSizeAppend(s, t);
      assert (s + t)[1..] == s[1..] + t;
    }
  }

  class PendingMessages {
    var messages: seq<Message>
    var bytes: nat

    ghost predicate Valid()
      reads this
    {
      bytes == TotalSize(messages) <= PENDING_BUFFER_MAX_BYTES
    }

    constructor ()
      ensures Valid() && messages == []
    {
      messages, bytes := [], 0;
    }

    /** Stashes a message, evicting the oldest ones until it fits. */
    method PushPending(msg: Message)
      requires Valid()
      modifies this
      ensures Valid() && messages == Fit(old(messages) + [msg])
    {
      TotalSizeAppend(messages, [msg]);
      while messages != [] && bytes + msg.size > PENDING_BUFFER_MAX_BYTES
        invariant Valid()
        invariant Fit(messages + [msg]) == Fit(old(messages) + [msg])
        invariant TotalSize(messages + [msg]) == bytes + msg.size
        decreases |messages|
      {
        assert (messages + [msg])[1..] == messages[1..] + [msg];
        TotalSizeAppend(messages[1..], [msg]);
        bytes := bytes - messages[0].size;
        messages := messages[1..];
      }
      bytes := bytes + msg.size;
      messages := messages + [msg];
    }

    /** Removes the first message `matcher` accepts, leaving the others in order. */
    method TakePendingMatching(matcher: Message -> bool) returns (taken: Option<Message>)
      requires Valid()
      modifies this
      ensures Valid()
      ensures var k := Position(old(messages), matcher);
              if k == |old(messages)| then taken == None && messages == old(messages)
              else taken == Some(old(messages)[k]) && messages == Without(old(messages), k)
    {
      var k := 0;
      while k < |messages| && !matcher(messages[k])
        invariant k <= |messages|
        invariant forall i | 0 <= i < k :: !matcher(messages[i])
      {
        k := k + 1;
      }
      PositionIs(messages, matcher, k);
      if k == |messages| {
        return None;
      }
      TotalSizeWithout(messages, k);
      taken := Some(messages[k]);
      bytes := bytes - messages[k].size;
      messages := Without(messages, k);
    }

    /** Pops the oldest message. */
    method TakePending() returns (taken: Option<Message>)
      requires Valid()
      modifies this
      ensures Valid()
      ensures if old(messages) == [] then taken == None && messages == []
              else taken == Some(old(messages)[0]) && messages == old(messages)[1..]
    {
      if messages == [] {
        return None;
      }
      taken := Some(messages[0]);
      bytes := bytes - messages[0].size;
      messages := messages[1..];
    }
  }

  lemma TotalSizeWithout(s: seq<Message>, k: nat)
    requires k < |s|
    ensures TotalSize(s) == TotalSize(Without(s, k)) + s[k].size
  {
    TotalSizeAppend(s[..k], s[k..]);
    TotalSizeAppend(s[..k], s[k + 1..]);
    assert s == s[..k] + s[k..];
    assert s[k..][1..] == s[k + 1..];
  }
}
