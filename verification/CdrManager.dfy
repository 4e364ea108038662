/** Call detail records: set up with a call, kept in the workspace while it lasts, written to
    the log when it ends, and thrown away when it never connects. */
module CdrManager {
  import opened ChannelLimits
  import DomainLimits
  import opened Wrappers

  const TWO64 := 0x1_0000_0000_0000_0000
  const FLUSH_INTERVAL := 600000
  const STALE_AGE := 300000

  /** Times are milliseconds; a zero connect or disconnect time means "not yet". */
  datatype Record = Record(session: string, callId: string, user: string, host: string,
                           setupTime: nat, connectTime: nat, disconnectTime: nat)

  datatype Cdr = Cdr(workspace: map<string, Record>, log: seq<Record>, limits: Limiter, domains: DomainLimits.Domains,
                     lastFlush: nat) {
    /** The limit tables are in order. */
    ghost predicate Valid() { WellFormed(limits) && domains.Valid() }
  }

  /** The start line of the response an event carries, as far as the handlers look at it. */
  datatype Status = Challenge | Success | Failure

  datatype CallEvent =
    | Setup(session: string, callId: string, user: string, host: string, now: nat)
    | Final(session: string, callId: string, status: Status, now: nat)
    | Terminated(session: string, callId: string, now: nat)
    | Sweep(now: nat)

  // ---------------------------------------------------------------------------
  // What the handlers compute
  // ---------------------------------------------------------------------------

  predicate Stale(r: Record, now: nat) {
    r.connectTime == 0 && r.setupTime + STALE_AGE < now
  }

  /** Removes stale records when forced or when the last sweep is long enough ago. */
  function Swept(c: Cdr, now: nat, force: bool): Cdr {
    if force || (now - c.lastFlush) % TWO64 > FLUSH_INTERVAL then
      c.(lastFlush := now, workspace := map s | s in c.workspace && !Stale(c.workspace[s], now) :: c.workspace[s])
    else c
  }

  /** The call leaves the channel limits under its dialled user and under its caller's host. */
  function Uncounted(l: Limiter, callId: string, r: Record): (m: Limiter)
    requires WellFormed(l)
    ensures WellFormed(m)
  {
    Removed(Removed(l, callId, r.user).0, callId, r.host).0
  }

  /** The call is counted under its dialled user and under its caller's host. */
  function SetUp(c: Cdr, e: CallEvent): Cdr
    requires e.Setup? && c.Valid()
  {
    c.(workspace := c.workspace[e.session := Record(e.session, e.callId, e.user, e.host, e.now, 0, 0)],
       limits := Added(c.limits, e.callId, e.user).0,
       domains := c.domains.Add(e.callId, e.host).0)
  }

  function LimitOf(c: Option<Counter>): nat { if c.Some? then c.value.limit else 0 }

  function CountOf(c: Option<Counter>): nat { if c.Some? then c.value.active else 0 }

  /** The count and limit given to the caller; a count of 0 beside a limit of 0 for neither. */
  function Enforced(prefix: Option<Counter>, domain: Option<Counter>): Counter {
    if LimitOf(prefix) < LimitOf(domain) && CountOf(prefix) != 0 then Counter(LimitOf(prefix), CountOf(prefix))
    else if LimitOf(prefix) > LimitOf(domain) && CountOf(domain) != 0 then Counter(LimitOf(domain), CountOf(domain))
    else Counter(0, 0)
  }

  /** Writes the record to the log and drops it; sweeps; then frees the channel. */
  function Flushed(c: Cdr, session: string, callId: string, now: nat): Cdr
    requires session in c.workspace && c.Valid()
  {
    var r := c.workspace[session].(disconnectTime := now);
    var d := Swept(c.(workspace := c.workspace - {session}, log := c.log + [r]), now, false);
    d.(limits := Uncounted(c.limits, callId, r))
  }

  function HandledFinal(c: Cdr, e: CallEvent): Cdr
    requires e.Final? && c.Valid()
  {
    if e.session !in c.workspace then c
    else
      var r := c.workspace[e.session];
      match e.status
      case Challenge => c.(workspace := c.workspace - {e.session}, limits := Uncounted(c.limits, e.callId, r))
      case Success => c.(workspace := c.workspace[e.session := r.(connectTime := e.now)])
      case Failure => Flushed(c, e.session, e.callId, e.now)
  }

  function HandledTerminated(c: Cdr, e: CallEvent): Cdr
    requires e.Terminated? && c.Valid()
  {
    if e.session !in c.workspace then c else Flushed(c, e.session, e.callId, e.now)
  }

  function Handled(c: Cdr, e: CallEvent): (d: Cdr)
    requires c.Valid()
    ensures d.Valid()
  {
    match e
    case Setup(_, _, _, _, _) => DomainLimits.AddValid(c.domains, e.callId, e.host); SetUp(c, e)
    case Final(_, _, _, _) => HandledFinal(c, e)
    case Terminated(_, _, _) => HandledTerminated(c, e)
    case Sweep(now) => Swept(c, now, true)
  }

  // ---------------------------------------------------------------------------
  // The class
  // ---------------------------------------------------------------------------

  class Manager {
    var workspace: map<string, Record>
    var log: seq<Record>
    var lastFlush: nat
    const limits: Limits
    const domains: DomainLimits.Limits

    function State(): Cdr
      reads this, limits, domains
    {
      Cdr(workspace, log, limits.State(), domains.State(), lastFlush)
    }

    ghost predicate Valid()
      reads this, limits, domains
    {
      limits.Valid() && domains.State().Valid()
    }

    constructor (channelLimits: Limits, domainLimits: DomainLimits.Limits, now: nat)
      requires channelLimits.Valid() && domainLimits.State().Valid()
      ensures Valid() && limits == channelLimits && domains == domainLimits
      ensures State() == Cdr(map[], [], channelLimits.State(), domainLimits.State(), now)
    {
      workspace, log, lastFlush, limits, domains := map[], [], now, channelLimits, domainLimits;
    }

    method FlushStaleRecords(now: nat, force: bool)
      modifies this`workspace, this`lastFlush
      ensures State() == Swept(old(State()), now, force)
    {
      if force || (now - lastFlush) % TWO64 > FLUSH_INTERVAL {
        lastFlush := now;
        var keys := workspace.Keys;
        while keys != {}
          invariant lastFlush == now && keys <= workspace.Keys <= old(workspace).Keys
          invariant forall s :: s in workspace ==> workspace[s] == old(workspace)[s]
          invariant forall s :: s in old(workspace) && s !in keys ==>
                      (s in workspace <==> !Stale(old(workspace)[s], now))
          decreases |keys|
        {
          var key :| key in keys;
          keys := keys - {key};
          var cdr := workspace[key];
          if cdr.connectTime == 0 && cdr.setupTime + STALE_AGE < now {
            workspace := workspace - {key};
          }
        }
        assert workspace == Swept(old(State()), now, force).workspace;
      }
    }

    method RemoveFromChannels(callId: string, cdr: Record)
      requires Valid()
      modifies limits
      ensures Valid() && limits.State() == Uncounted(old(limits.State()), callId, cdr)
    {
      var _ := limits.RemoveCall(callId, cdr.user);
      var _ := limits.RemoveCall(callId, cdr.host);
    }

    method FlushRecord(session: string, cdr: Record, now: nat)
      modifies this
      ensures State() == Swept(old(State()).(workspace := old(workspace) - {session}, log := old(log) + [cdr]), now, false)
    {
      workspace := workspace - {session};
      log := log + [cdr];
      FlushStaleRecords(now, false);
    }

    method OnCallSetup(e: CallEvent) returns (counted: Counter)
      requires Valid() && e.Setup?
      modifies this, limits, domains
      ensures Valid() && State() == SetUp(old(State()), e)
      ensures counted == Enforced(Added(old(limits.State()), e.callId, e.user).1,
                                  old(domains.State()).Add(e.callId, e.host).1)
    {
      hide Added, Published;
      workspace := workspace[e.session := Record(e.session, e.callId, e.user, e.host, e.now, 0, 0)];
      var prefix := limits.AddCall(e.callId, e.user);
      var prefixCount, prefixLimit := CountOf(prefix), LimitOf(prefix);
      var domain := domains.AddCall(e.callId, e.host);
      var domainCount, domainLimit := CountOf(domain), LimitOf(domain);
      var callCount, channelLimit := 0, 0;
      if prefixLimit < domainLimit && prefixCount != 0 {
        channelLimit := prefixLimit;
        callCount := prefixCount;
      } else if prefixLimit > domainLimit && domainCount != 0 {
        channelLimit := domainLimit;
        callCount := domainCount;
      }
      counted := Counter(channelLimit, callCount);
    }

    method OnHandleFinal(e: CallEvent)
      requires Valid() && e.Final?
      modifies this, limits
      ensures Valid() && State() == HandledFinal(old(State()), e)
    {
      if e.session !in workspace {
        return;
      }
      var cdr := workspace[e.session];
      if e.status == Challenge {
        workspace := workspace - {e.session};
        RemoveFromChannels(e.callId, cdr);
        return;
      } else if e.status == Success {
        cdr := cdr.(connectTime := e.now);
        workspace := workspace[e.session := cdr];
      } else {
        cdr := cdr.(disconnectTime := e.now);
        FlushRecord(e.session, cdr, e.now);
        RemoveFromChannels(e.callId, cdr);
      }
    }

    method OnHandleTerminated(e: CallEvent)
      requires Valid() && e.Terminated?
      modifies this, limits
      ensures Valid() && State() == HandledTerminated(old(State()), e)
    {
      if e.session !in workspace {
        return;
      }
      var cdr := workspace[e.session].(disconnectTime := e.now);
      FlushRecord(e.session, cdr, e.now);
      RemoveFromChannels(e.callId, cdr);
    }
  }
}
