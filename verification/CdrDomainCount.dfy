/** What the limits do to a call: when one is enforced, and that the count of a domain only grows. */
module CdrDomainCount {
  import opened ChannelLimits
  import opened Containers
  import opened CdrManager
  import opened CdrLifeCycle
  import opened DomainLimits
  import opened Wrappers

  // ---------------------------------------------------------------------------
  // Which limit is enforced
  // ---------------------------------------------------------------------------

  /** What is reported for a call that `e` sets up. */
  function Verdict(c: Cdr, e: CallEvent): Counter
    requires c.Valid() && e.Setup?
  {
    Enforced(Added(c.limits, e.callId, e.user).1, c.domains.Add(e.callId, e.host).1)
  }

  /** The INVITE is answered "Channel Count Exceeded". */
  predicate Refused(c: Cdr, e: CallEvent)
    requires c.Valid() && e.Setup?
  {
    Verdict(c, e).active > Verdict(c, e).limit
  }

  /** Both a prefix and a domain match the call, and their limits differ. */
  predicate Compared(c: Cdr, e: CallEvent)
    requires c.Valid() && e.Setup?
    ensures Compared(c, e) ==> Target(c.limits, e.user).Some? && Target(c.limits, e.user).value in c.limits.calls
  {
    TargetRegistered(c.limits, e.user);
    var p := Target(c.limits, e.user);
    p.Some? && e.host in c.domains.calls && c.limits.limits[p.value] != c.domains.limits[e.host]
  }

  /** What is reported is the lower of the two limits beside the number of calls under it, this
      one included, and nothing if there are not two to compare. */
  lemma VerdictIs(c: Cdr, e: CallEvent)
    requires c.Valid() && e.Setup?
    ensures Verdict(c, e) ==
      if !Compared(c, e) then Counter(0, 0)
      else
        var p := Target(c.limits, e.user).value;
        if c.limits.limits[p] < c.domains.limits[e.host]
        then Counter(c.limits.limits[p], |c.limits.calls[p].Keys + {e.callId}|)
        else Counter(c.domains.limits[e.host], |c.domains.calls[e.host].Keys + {e.callId}|)
  {
    AddedReports(c.limits, e.callId, e.user);
    AddReports(c.domains, e.callId, e.host);
    hide Added, Domains.Add, Target;
    var p := Target(c.limits, e.user);
    if p.Some? {
      assert e.callId in c.limits.calls[p.value].Keys + {e.callId};
    }
    if e.host in c.domains.calls {
      assert e.callId in c.domains.calls[e.host].Keys + {e.callId};
    }
  }

  /** So a call is refused if and only if both a prefix and a domain match it, their limits
      differ, and the one with the lower limit holds more calls than that, this one included. */
  lemma RefusedIff(c: Cdr, e: CallEvent)
    requires c.Valid() && e.Setup?
    ensures Refused(c, e) <==>
      Compared(c, e) &&
      var p := Target(c.limits, e.user).value;
      if c.limits.limits[p] < c.domains.limits[e.host]
      then |c.limits.calls[p].Keys + {e.callId}| > c.limits.limits[p]
      else |c.domains.calls[e.host].Keys + {e.callId}| > c.domains.limits[e.host]
  {
    VerdictIs(c, e);
    hide Verdict, Target;
  }

  /** So a prefix limit alone stops nothing, however many calls are up. */
  lemma LoneLimitIgnored(c: Cdr, e: CallEvent)
    requires c.Valid() && e.Setup? && e.host !in c.domains.calls
    ensures !Refused(c, e)
  {
    RefusedIff(c, e);
    hide Added;
  }

  // ---------------------------------------------------------------------------
  // Domain counts
  // ---------------------------------------------------------------------------

  predicate SetsUp(e: CallEvent, host: string, call: string) {
    e.Setup? && e.host == host && e.callId == call
  }

  predicate WasSetUp(es: seq<CallEvent>, host: string, call: string) {
    exists i :: 0 <= i < |es| && SetsUp(es[i], host, call)
  }

  /** A call is counted under a registered domain if and only if it was ever set up from there:
      no end of a call takes it out. */
  lemma {:induction false} DomainCallsStay(limits: Limiter, domains: Domains, start: nat, es: seq<CallEvent>,
                                           host: string, call: string)
    requires WellFormed(limits) && domains.Valid() && host in domains.calls
    ensures var d := CdrLifeCycle.Run(limits, domains, start, es).c.domains;
      host in d.calls && (call in d.calls[host] <==> call in domains.calls[host] || WasSetUp(es, host, call))
  {
    if es != [] {
      hide CdrLifeCycle.Step, Handled, WasSetUp;
      var n := |es| - 1;
      DomainCallsStay(limits, domains, start, es[..n], host, call);
      var t := CdrLifeCycle.Run(limits, domains, start, es[..n]);
      StepHandles(t, es[n]);
      HandledDomains(t.c, es[n], host, call);
      WasSetUpMore(es, host, call);
    } else {
      assert !WasSetUp(es, host, call);
    }
  }

  /** In particular one that was set up and has ended. */
  lemma EndedCallCounted(limits: Limiter, domains: Domains, start: nat, e: CallEvent, f: CallEvent)
    requires WellFormed(limits) && domains.Valid()
    requires e.Setup? && e.host in domains.calls && f.Terminated? && f.session == e.session
    ensures var d := CdrLifeCycle.Run(limits, domains, start, [e, f]).c.domains;
      e.host in d.calls && e.callId in d.calls[e.host]
  {
    DomainCallsStay(limits, domains, start, [e, f], e.host, e.callId);
    assert SetsUp([e, f][0], e.host, e.callId);
  }

  lemma HandledDomains(c: Cdr, e: CallEvent, host: string, call: string)
    requires c.Valid() && host in c.domains.calls
    ensures var d := Handled(c, e).domains;
      host in d.calls && (call in d.calls[host] <==> call in c.domains.calls[host] || SetsUp(e, host, call))
  {
    HandledDomainsAre(c, e);
    hide Handled;
    if e.Setup? {
      AddMembers(c.domains, e.callId, e.host, host, call);
    }
  }

  lemma HandledDomainsAre(c: Cdr, e: CallEvent)
    requires c.Valid()
    ensures Handled(c, e).domains == if e.Setup? then c.domains.Add(e.callId, e.host).0 else c.domains
  {
    hide Uncounted, Added, WellFormed;
  }

  lemma AddMembers(d: Domains, session: string, domain: string, host: string, call: string)
    requires d.Valid() && host in d.calls
    ensures var a := d.Add(session, domain).0;
      host in a.calls && (call in a.calls[host] <==> call in d.calls[host] || (domain == host && session == call))
  {}

  lemma WasSetUpMore(es: seq<CallEvent>, host: string, call: string)
    requires es != []
    ensures var n := |es| - 1;
      WasSetUp(es, host, call) <==> WasSetUp(es[..n], host, call) || SetsUp(es[n], host, call)
  {
    var n := |es| - 1;
    if i :| 0 <= i < n && SetsUp(es[i], host, call) {
      assert es[..n][i] == es[i];
    }
    if i :| 0 <= i < n && SetsUp(es[..n][i], host, call) {
      assert SetsUp(es[i], host, call);
    }
  }

  /** The published count of a domain never falls, whatever ends. */
  lemma DomainCountGrows(limits: Limiter, domains: Domains, start: nat, es: seq<CallEvent>, more: seq<CallEvent>,
                         host: string)
    requires WellFormed(limits) && domains.Valid() && host in domains.calls
    ensures var d, u := CdrLifeCycle.Run(limits, domains, start, es).c.domains, CdrLifeCycle.Run(limits, domains, start, es + more).c.domains;
      host in d.published && host in u.published && d.published[host].active <= u.published[host].active
  {
    hide CdrLifeCycle.Run, WasSetUp;
    var d, u := CdrLifeCycle.Run(limits, domains, start, es).c.domains, CdrLifeCycle.Run(limits, domains, start, es + more).c.domains;
    DomainCallsStay(limits, domains, start, es, host, "");
    DomainCallsStay(limits, domains, start, es + more, host, "");
    forall call | call in d.calls[host] ensures call in u.calls[host] {
      DomainCallsStay(limits, domains, start, es, host, call);
      DomainCallsStay(limits, domains, start, es + more, host, call);
      WasSetUpLonger(es, more, host, call);
    }
    SmallerMap(d.calls[host], u.calls[host]);
  }

  lemma WasSetUpLonger(es: seq<CallEvent>, more: seq<CallEvent>, host: string, call: string)
    ensures WasSetUp(es, host, call) ==> WasSetUp(es + more, host, call)
  {
    if i :| 0 <= i < |es| && SetsUp(es[i], host, call) {
      assert (es + more)[i] == es[i];
    }
  }

  lemma SmallerMap(a: map<string, string>, b: map<string, string>)
    requires a.Keys <= b.Keys
    ensures |a| <= |b|
  {
    SubsetSize(a.Keys, b.Keys);
    assert |a| == |a.Keys| && |b| == |b.Keys|;
  }
}
