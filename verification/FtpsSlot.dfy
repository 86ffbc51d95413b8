/**
 The FTPS session and the configuration it is dialled with.

 A connect moves the configuration into the session and a disconnect moves it back, so the two
 slots together have to hold it at all times.
 */
module FtpsSlot {
  import opened Wrappers

  /** A connector, a dialer and a timer, told apart by where they came from. */
  datatype FtpsConfig = FtpsConfig(supplied: nat)

  datatype FtpsError = NotConfigured | DialFailed(code: nat)

  /** What dialling and logging in would do now. */
  datatype Dial = Refused(code: nat) | Accepted

  // ----- the slots as a value -----

  datatype Session = Session(config: FtpsConfig, poisoned: bool)

  /** `dialable` says that the identity has an address and an access code to dial with. */
  datatype Slots = Slots(session: Option<Session>, config: Option<FtpsConfig>, dialable: bool)
  {
    function Configure(c: FtpsConfig): Slots {
      this.(session := None, config := Some(c))
    }

    function Disconnect(): Slots {
      if session.None? then this else this.(session := None, config := Some(session.value.config))
    }

    function Attach(session: Session): Slots {
      Disconnect().(session := Some(session))
    }

    /** Dials with the configuration, which only a success consumes. */
    function DialWith(dial: Dial): (Slots, Option<FtpsError>)
      requires config.Some?
    {
      if !dialable then (this, Some(NotConfigured))
      else if dial.Refused? then (this, Some(DialFailed(dial.code)))
      else (this.(session := Some(Session(config.value, false)), config := None), None)
    }

    /** Only a session that is usable spares the dial. */
    function Ensure(dial: Dial): (Slots, Option<FtpsError>) {
      if session.Some? && !session.value.poisoned then (this, None)
      else
        var s := Disconnect();
        if s.config.None? then (s, Some(NotConfigured)) else s.DialWith(dial)
    }

    /** The FTPS part of connecting every channel; `None` when it is not attempted. */
    function ConnectAll(dial: Dial): (Slots, Option<Option<FtpsError>>) {
      if session.Some? || config.None? then (this, None)
      else
        var (s, failure) := DialWith(dial);
        (s, Some(failure))
    }

    /** A transport failure on the session. */
    function Poison(): Slots {
      if session.None? then this else this.(session := Some(session.value.(poisoned := true)))
    }

    /** The configuration a session is on or the next dial would use. */
    function Effective(): Option<FtpsConfig> {
      if session.Some? then Some(session.value.config) else config
    }
  }

  const UNCONFIGURED: Slots := Slots(None, None, true)

  datatype Op =
    | Configuring(config: FtpsConfig)
    | AttachingBuilder(session: Session)
    | Attaching(session: Session)
    | Ensuring(dial: Dial)
    | ConnectingAll(dial: Dial)
    | Disconnecting
    | Poisoning

  function Step(s: Slots, op: Op): Slots {
    match op
    case Configuring(config) => s.Configure(config)
    case AttachingBuilder(session) => s.(session := Some(session), config := None)
    case Attaching(session) => s.Attach(session)
    case Ensuring(dial) => s.Ensure(dial).0
    case ConnectingAll(dial) => s.ConnectAll(dial).0
    case Disconnecting => s.Disconnect()
    case Poisoning => s.Poison()
  }

  function Run(s: Slots, ops: seq<Op>): Slots {
    if ops == [] then s else Step(Run(s, ops[..|ops| - 1]), ops[|ops| - 1])
  }

  /** The configuration supplied last, with a builder or with an attached session. */
  function LastSupplied(ops: seq<Op>): Option<FtpsConfig> {
    if ops == [] then None
    else
      match ops[|ops| - 1]
      case Configuring(config) => Some(config)
      case AttachingBuilder(session) => Some(session.config)
      case Attaching(session) => Some(session.config)
      case _ => LastSupplied(ops[..|ops| - 1])
  }

  /**
   The configuration is never lost. Over every run of successful and failed calls, poisoned
   sessions included, a session is on the configuration supplied last, and without a session
   that configuration is in its slot for the next dial.
   */
  lemma {:induction false} ConfigurationIsNeverLost(dialable: bool, ops: seq<Op>)
    ensures Run(UNCONFIGURED.(dialable := dialable), ops).Effective() == LastSupplied(ops)
    ensures Run(UNCONFIGURED.(dialable := dialable), ops).dialable == dialable
  {
    if ops != [] {
      ConfigurationIsNeverLost(dialable, ops[..|ops| - 1]);
    }
  }

  /**
   After the last supply, a dial that is accepted always gives a usable session on the
   configuration supplied last, however many attempts failed before.
   */
  lemma RetrySucceeds(ops: seq<Op>)
    requires LastSupplied(ops).Some?
    ensures var (s, failure) := Run(UNCONFIGURED, ops).Ensure(Accepted);
            failure == None && s.session == Some(Session(LastSupplied(ops).value, false))
  {
    ConfigurationIsNeverLost(true, ops);
  }

  predicate IsUsable(session: Option<Session>) {
    session.Some? && !session.value.poisoned
  }

  /**
   What connecting FTPS reports. Success means a usable session: the one there was, or a new one on
   the effective configuration. A failure means none, the configuration kept in its slot, and either
   nothing to dial with or the refusal of the dial.
   */
  lemma EnsureReports(s: Slots, dial: Dial)
    ensures var (t, failure) := s.Ensure(dial);
            && (failure.None? <==> IsUsable(t.session))
            && (IsUsable(s.session) ==> t == s)
            && (!IsUsable(s.session) && failure.None? ==>
                  dial == Accepted && t.config == None && s.Effective() == Some(t.session.value.config))
            && (failure.Some? ==> t.session == None && t.config == s.Effective())
            && (failure == Some(NotConfigured) <==> !IsUsable(s.session) && (s.Effective().None? || !s.dialable))
            && forall code: nat :: failure == Some(DialFailed(code)) <==>
                 !IsUsable(s.session) && s.Effective().Some? && s.dialable && dial == Refused(code)
  {
  }

  /** And connecting every channel: FTPS is dialled exactly without a session and with a configuration. */
  lemma ConnectAllReports(s: Slots, dial: Dial)
    ensures var (t, outcome) := s.ConnectAll(dial);
            && (outcome.Some? <==> s.session.None? && s.config.Some?)
            && (outcome.None? || outcome.value.Some? ==> t == s)
            && (outcome == Some(None) <==> s.session.None? && s.config.Some? && s.dialable && dial == Accepted)
            && (outcome == Some(None) ==> t.session == Some(Session(s.config.value, false)) && t.config == None)
            && forall code: nat :: outcome == Some(Some(DialFailed(code))) <==>
                 s.session.None? && s.config.Some? && s.dialable && dial == Refused(code)
  {
  }

  /** Connecting every channel leaves what connecting FTPS alone leaves, unless the session is poisoned. */
  lemma ConnectAllMatchesEnsureIff(s: Slots, dial: Dial)
    ensures s.ConnectAll(dial).0 == s.Ensure(dial).0 <==> !(s.session.Some? && s.session.value.poisoned)
  {
  }

  /** On a poisoned session `connect_all` leaves the FTPS channel alone, and connecting FTPS redials it. */
  lemma PoisonedSessionIsNotRedialled(config: FtpsConfig)
    ensures var s := Run(UNCONFIGURED, [Configuring(config), Ensuring(Accepted), Poisoning]);
            && s.ConnectAll(Accepted) == (s, None) && s.session == Some(Session(config, true))
            && s.Ensure(Accepted) == (s.(session := Some(Session(config, false))), None)
  {
    var ops := [Configuring(config), Ensuring(Accepted), Poisoning];
    assert ops[..2] == [Configuring(config), Ensuring(Accepted)] && ops[..2][..1] == [Configuring(config)];
    assert ops[..2][..1][..0] == [];
    assert Run(UNCONFIGURED, ops[..2][..1]) == UNCONFIGURED.Configure(config);
    assert Run(UNCONFIGURED, ops[..2]) == UNCONFIGURED.(session := Some(Session(config, false)));
  }

  // ----- the client's slots -----

  class FtpsClient {
    const config: FtpsConfig
    var poisoned: bool

    constructor (c: FtpsConfig)
      ensures config == c && !poisoned
    {
      config, poisoned := c, false;
    }
  }

  class ClientSlots {
    var ftps: FtpsClient?
    var ftpsConfig: Option<FtpsConfig>
    const dialable: bool

    function View(): Slots
      reads this, ftps
    {
      Slots(if ftps == null then None else Some(Session(ftps.config, ftps.poisoned)), ftpsConfig, dialable)
    }

    constructor WithFtps(config: FtpsConfig, hasAddress: bool)
      ensures View() == UNCONFIGURED.(dialable := hasAddress).Configure(config)
    {
      ftps, ftpsConfig, dialable := null, Some(config), hasAddress;
    }

    /** Disconnects the session, if there is one, keeping its configuration. */
    method DisconnectFtps()
      modifies this
      ensures View() == old(View()).Disconnect() && ftps == null
    {
      if ftps != null {
        ftpsConfig := Some(ftps.config);
        ftps := null;
      }
    }

    /** Injects a session the caller connected. */
    method AttachFtps(client: FtpsClient)
      modifies this
      ensures View() == old(View()).Attach(Session(client.config, client.poisoned))
    {
      DisconnectFtps();
      ftps := client;
    }

    /** Builds the session of a dial that succeeded, consuming the configuration. */
    method InstallFtps()
      requires ftpsConfig.Some?
      modifies this
      ensures fresh(ftps) && ftpsConfig == None
      ensures View() == old(View()).(session := Some(Session(old(ftpsConfig).value, false)), config := None)
    {
      ftps := new FtpsClient(ftpsConfig.value);
      ftpsConfig := None;
    }

    method EnsureFtps(dial: Dial) returns (failure: Option<FtpsError>)
      modifies this
      ensures (View(), failure) == old(View()).Ensure(dial)
    {
      if ftps != null && ftps.poisoned {
        DisconnectFtps();
      } else if ftps != null {
        return None;
      }
      if ftpsConfig.None? || !dialable {
        return Some(NotConfigured);
      }
      if dial.Refused? {
        return Some(DialFailed(dial.code));
      }
      InstallFtps();
      return None;
    }

    /** The FTPS part of `connect_all`: dials on borrowed configuration, installs on success. */
    method ConnectAll(dial: Dial) returns (outcome: Option<Option<FtpsError>>)
      modifies this
      ensures (View(), outcome) == old(View()).ConnectAll(dial)
    {
      var wanted := ftps == null && ftpsConfig.Some?;
      if !wanted {
        return None;
      }
      if !dialable {
        return Some(Some(NotConfigured));
      }
      if dial.Refused? {
        return Some(Some(DialFailed(dial.code)));
      }
      InstallFtps();
      return Some(None);
    }
  }
}
