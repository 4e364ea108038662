/** Which calls the channel limits count while call records come and go. */
module CdrChannelCount {
  import opened ChannelLimits
  import opened CdrManager
  import opened CdrLifeCycle
  import opened DomainLimits
  import opened Wrappers

  /** Each set-up uses a session id and a call id not used before, and every later event of
      a session carries the call id it was set up with. */
  ghost predicate Fresh(t: Trace, e: CallEvent) {
    && (e.Setup? ==> e.session !in t.setups && forall s :: s in t.setups ==> t.setups[s].callId != e.callId)
    && ((e.Final? || e.Terminated?) && e.session in t.setups ==> e.callId == t.setups[e.session].callId)
  }

  ghost predicate Orderly(limits: Limiter, domains: Domains, start: nat, es: seq<CallEvent>)
    requires WellFormed(limits) && domains.Valid()
  {
    es != [] ==>
      var front := es[..|es| - 1];
      Orderly(limits, domains, start, front) && Fresh(CdrLifeCycle.Run(limits, domains, start, front), es[|es| - 1])
  }

  /** The session's record is still there, or was swept away as stale. */
  ghost predicate Holds(t: Trace, s: string) {
    s in t.setups && (s in t.c.workspace || s in t.stale)
  }

  /** Session `s` accounts for call `c` being counted under `p`. */
  ghost predicate Accounts(l: Limiter, t: Trace, p: string, c: string, s: string) {
    Holds(t, s) && t.setups[s].callId == c && Target(l, t.setups[s].user) == Some(p)
  }

  /** The registration tables are those of `l`. */
  ghost predicate SameTables(l: Limiter, m: Limiter) {
    WellFormed(m) && m.calls.Keys == l.calls.Keys && m.aliases == l.aliases && m.shortest == l.shortest
  }

  /** Records in the workspace, and those swept away, belong to sessions set up before. */
  ghost predicate Recorded(t: Trace) {
    && (forall s :: s in t.c.workspace ==>
          && s in t.setups && s !in t.stale && t.c.workspace[s].user == t.setups[s].user
          && t.c.workspace[s].session == s && t.c.workspace[s].callId == t.setups[s].callId)
    && (forall s :: s in t.stale ==> s in t.setups)
  }

  ghost predicate UniqueCallIds(setups: map<string, Record>) {
    forall s, s' :: s in setups && s' in setups && setups[s].callId == setups[s'].callId ==> s == s'
  }

  ghost predicate Shape(l: Limiter, t: Trace) {
    SameTables(l, t.c.limits) && Recorded(t) && UniqueCallIds(t.setups)
  }

  ghost predicate CountsHeld(l: Limiter, t: Trace)
    requires SameTables(l, t.c.limits)
  {
    forall p, c :: p in l.calls ==> (c in t.c.limits.calls[p] <==> Counted(l, t, p, c))
  }

  ghost predicate Counted(l: Limiter, t: Trace, p: string, c: string) {
    exists s :: Accounts(l, t, p, c, s)
  }

  /** Starting with empty caches, in every orderly run a call is counted under a prefix
      exactly while its record is in the workspace, or forever once it was swept away. */
  lemma {:induction false} CountedCalls(l: Limiter, domains: Domains, start: nat, es: seq<CallEvent>)
    requires WellFormed(l) && domains.Valid() && forall p :: p in l.calls ==> l.calls[p] == map[]
    requires Orderly(l, domains, start, es)
    ensures var t := CdrLifeCycle.Run(l, domains, start, es); Shape(l, t) && CountsHeld(l, t)
  {
    if es != [] {
      var front, e := es[..|es| - 1], es[|es| - 1];
      CountedCalls(l, domains, start, front);
      hide CdrLifeCycle.Step, Fresh, Shape, CountsHeld;
      CountedStep(l, CdrLifeCycle.Run(l, domains, start, front), e);
    }
  }

  lemma CountedStep(l: Limiter, t: Trace, e: CallEvent)
    requires t.c.Valid() && Shape(l, t) && CountsHeld(l, t) && Fresh(t, e)
    ensures var u := CdrLifeCycle.Step(t, e); Shape(l, u) && CountsHeld(l, u)
  {
    assert WellFormed(t.c.limits);
    hide CdrLifeCycle.Step, Recorded, CountsHeld, SameTables, UniqueCallIds, Fresh, WellFormed;
    if e.Setup? {
      CountedSetup(l, t, e);
    } else if Ends(t, e) {
      CountedEnd(l, t, e);
    } else {
      if e.Sweep? {
        SweepRecorded(t, e.now);
      } else {
        QuietRecorded(t, e);
      }
      CountedSame(l, t, CdrLifeCycle.Step(t, e));
    }
  }

  /** Connecting a call, or an event for a session without a record. */
  lemma QuietRecorded(t: Trace, e: CallEvent)
    requires t.c.Valid() && Recorded(t) && (e.Final? || e.Terminated?) && !Ends(t, e)
    ensures var u := CdrLifeCycle.Step(t, e);
      && Recorded(u) && u.setups == t.setups && u.c.limits == t.c.limits
      && forall s :: s in t.setups ==> (Holds(u, s) <==> Holds(t, s))
  {
    hide WellFormed;
  }

  lemma SweepRecorded(t: Trace, now: nat)
    requires t.c.Valid() && Recorded(t)
    ensures var u := CdrLifeCycle.Step(t, Sweep(now));
      && Recorded(u) && u.setups == t.setups && u.c.limits == t.c.limits
      && forall s :: s in t.setups ==> (Holds(u, s) <==> Holds(t, s))
  {
    hide WellFormed, Swept, Gone;
    SweptMembers(t.c, now, true);
  }

  /** Nothing that matters changed. */
  lemma CountedSame(l: Limiter, t: Trace, u: Trace)
    requires SameTables(l, t.c.limits) && CountsHeld(l, t) && u.setups == t.setups && u.c.limits == t.c.limits
    requires forall s :: s in t.setups ==> (Holds(u, s) <==> Holds(t, s))
    ensures CountsHeld(l, u)
  {
    hide Counted, Holds;
    forall p, c | p in l.calls
      ensures c in u.c.limits.calls[p] <==> Counted(l, u, p, c)
    {
      SameAccounts(l, t, u, p, c);
    }
  }

  lemma SameAccounts(l: Limiter, t: Trace, u: Trace, p: string, c: string)
    requires u.setups == t.setups && forall s :: s in t.setups ==> (Holds(u, s) <==> Holds(t, s))
    ensures Counted(l, u, p, c) <==> Counted(l, t, p, c)
  {
    hide Target;
    if s :| Accounts(l, u, p, c, s) { assert Accounts(l, t, p, c, s); }
    if s :| Accounts(l, t, p, c, s) { assert Accounts(l, u, p, c, s); }
  }

  lemma CountedSetup(l: Limiter, t: Trace, e: CallEvent)
    requires t.c.Valid() && Shape(l, t) && CountsHeld(l, t) && Fresh(t, e) && e.Setup?
    ensures var u := CdrLifeCycle.Step(t, e); Shape(l, u) && CountsHeld(l, u)
  {
    hide Target, Added, Counted, UniqueCallIds;
    var u := CdrLifeCycle.Step(t, e);
    AddedEffect(l, t.c.limits, e.callId, e.user);
    SetupRecorded(t, e);
    hide CdrLifeCycle.Step, Recorded, Fresh;
    forall p, c | p in l.calls
      ensures c in u.c.limits.calls[p] <==> Counted(l, u, p, c)
    {
      SetupAccounts(l, t, u, e, p, c);
    }
  }

  ghost predicate SetupOf(t: Trace, u: Trace, e: CallEvent)
    requires e.Setup?
  {
    && e.session !in t.setups && u.stale == t.stale
    && u.setups.Keys == t.setups.Keys + {e.session} && u.c.workspace.Keys == t.c.workspace.Keys + {e.session}
    && (forall s :: s in t.setups ==> u.setups[s] == t.setups[s])
    && u.setups[e.session].callId == e.callId && u.setups[e.session].user == e.user
  }

  lemma SetupRecorded(t: Trace, e: CallEvent)
    requires t.c.Valid() && Recorded(t) && UniqueCallIds(t.setups) && Fresh(t, e) && e.Setup?
    ensures var u := CdrLifeCycle.Step(t, e);
      && Recorded(u) && UniqueCallIds(u.setups) && SetupOf(t, u, e)
      && u.c.limits == Added(t.c.limits, e.callId, e.user).0
  {
    hide WellFormed, Added, UniqueCallIds;
    var u := CdrLifeCycle.Step(t, e);
    assert u.setups == t.setups[e.session := u.c.workspace[e.session]];
    FreshCallId(t.setups, e.session, u.c.workspace[e.session]);
  }

  lemma FreshCallId(setups: map<string, Record>, session: string, r: Record)
    requires UniqueCallIds(setups) && session !in setups
    requires forall s :: s in setups ==> setups[s].callId != r.callId
    ensures UniqueCallIds(setups[session := r])
  {}

  lemma SetupAccounts(l: Limiter, t: Trace, u: Trace, e: CallEvent, p: string, c: string)
    requires e.Setup? && SetupOf(t, u, e)
    ensures Counted(l, u, p, c) <==> Counted(l, t, p, c) || (c == e.callId && Target(l, e.user) == Some(p))
  {
    hide Target;
    if c == e.callId && Target(l, e.user) == Some(p) {
      assert Accounts(l, u, p, c, e.session);
    }
    if s :| Accounts(l, t, p, c, s) { assert Accounts(l, u, p, c, s); }
    if s :| Accounts(l, u, p, c, s) {
      if s != e.session { assert Accounts(l, t, p, c, s); }
    }
  }

  predicate Ends(t: Trace, e: CallEvent) {
    ((e.Final? && !e.status.Success?) || e.Terminated?) && e.session in t.c.workspace
  }

  lemma CountedEnd(l: Limiter, t: Trace, e: CallEvent)
    requires t.c.Valid() && Shape(l, t) && CountsHeld(l, t) && Fresh(t, e) && Ends(t, e)
    ensures var u := CdrLifeCycle.Step(t, e); Shape(l, u) && CountsHeld(l, u)
  {
    hide Target, Removed, Counted, UniqueCallIds, Uncounted;
    var u, r := CdrLifeCycle.Step(t, e), t.c.workspace[e.session];
    EndRecorded(t, e);
    UncountedEffect(l, t.c.limits, e.callId, r);
    assert e.callId == t.setups[e.session].callId && r.user == t.setups[e.session].user;
    hide CdrLifeCycle.Step, Fresh, Recorded;
    forall p, c | p in l.calls
      ensures c in u.c.limits.calls[p] <==> Counted(l, u, p, c)
    {
      EndAccounts(l, t, u, e.session, p, c);
    }
  }

  ghost predicate EndOf(t: Trace, u: Trace, ended: string) {
    && u.setups == t.setups && ended in t.setups && Holds(t, ended)
    && forall s :: s in t.setups ==> (Holds(u, s) <==> Holds(t, s) && s != ended)
  }

  lemma EndRecorded(t: Trace, e: CallEvent)
    requires t.c.Valid() && Recorded(t) && Ends(t, e)
    ensures var u := CdrLifeCycle.Step(t, e);
      && Recorded(u) && EndOf(t, u, e.session)
      && u.c.limits == Uncounted(t.c.limits, e.callId, t.c.workspace[e.session])
  {
    hide CdrLifeCycle.Step, Cdr.Valid, Recorded, EndOf, Uncounted;
    if e.Final? && e.status.Challenge? {
      ChallengeRecorded(t, e);
    } else {
      EndLimits(t, e);
      LogRecorded(t, e);
    }
  }

  lemma ChallengeRecorded(t: Trace, e: CallEvent)
    requires t.c.Valid() && Recorded(t) && Ends(t, e) && e.Final? && e.status.Challenge?
    ensures var u := CdrLifeCycle.Step(t, e);
      && Recorded(u) && EndOf(t, u, e.session)
      && u.c.limits == Uncounted(t.c.limits, e.callId, t.c.workspace[e.session])
  {
    hide WellFormed, Removed;
  }

  lemma LogRecorded(t: Trace, e: CallEvent)
    requires t.c.Valid() && Recorded(t) && Logs(t, e)
    ensures var u := CdrLifeCycle.Step(t, e); Recorded(u) && EndOf(t, u, e.session)
  {
    LogMembers(t, e);
    EndLimits(t, e);
    hide CdrLifeCycle.Step, Cdr.Valid, Uncounted, Recorded, EndOf;
    LeftRecorded(t, CdrLifeCycle.Step(t, e), e.session);
    LeftEnds(t, CdrLifeCycle.Step(t, e), e.session);
  }

  /** `ended` left the workspace; others stayed or were swept. */
  ghost predicate Left(t: Trace, u: Trace, ended: string) {
    && u.setups == t.setups && ended in t.c.workspace
    && (forall s :: s in u.c.workspace ==> s in t.c.workspace && s != ended && u.c.workspace[s] == t.c.workspace[s])
    && (forall s :: s in u.stale <==> s in t.stale || (s in t.c.workspace && s != ended && s !in u.c.workspace))
  }

  lemma LeftRecorded(t: Trace, u: Trace, ended: string)
    requires Recorded(t) && Left(t, u, ended)
    ensures Recorded(u)
  {}

  lemma LeftEnds(t: Trace, u: Trace, ended: string)
    requires Recorded(t) && Left(t, u, ended)
    ensures EndOf(t, u, ended)
  {}

  lemma LogMembers(t: Trace, e: CallEvent)
    requires t.c.Valid() && Logs(t, e)
    ensures Left(t, CdrLifeCycle.Step(t, e), e.session)
  {
    var w, u := Written(t.c, e.session, e.now), CdrLifeCycle.Step(t, e);
    assert w.workspace == t.c.workspace - {e.session} && e.session in t.c.workspace;
    LoggedIs(t, e);
    EndSetups(t, e);
    SweptMembers(w, e.now, false);
    hide *;
    LeftFrom(t, u, e.session, Gone(t.c.workspace - {e.session}, u.c.workspace));
  }

  lemma LeftFrom(t: Trace, u: Trace, ended: string, gone: multiset<string>)
    requires u.setups == t.setups && ended in t.c.workspace && u.stale == t.stale + gone
    requires forall s :: s in u.c.workspace ==>
      s in t.c.workspace - {ended} && u.c.workspace[s] == (t.c.workspace - {ended})[s]
    requires forall s :: s in gone <==> s in t.c.workspace - {ended} && s !in u.c.workspace
    ensures Left(t, u, ended)
  {
    assert forall s :: s in u.stale <==> s in t.stale || s in gone;
  }

  lemma EndSetups(t: Trace, e: CallEvent)
    requires t.c.Valid() && Logs(t, e)
    ensures CdrLifeCycle.Step(t, e).setups == t.setups
  {}

  lemma EndLimits(t: Trace, e: CallEvent)
    requires t.c.Valid() && Logs(t, e)
    ensures var u := CdrLifeCycle.Step(t, e);
      u.setups == t.setups && u.c.limits == Uncounted(t.c.limits, e.callId, t.c.workspace[e.session])
  {
    hide WellFormed, Removed, Swept, Gone;
  }

  lemma SweptMembers(c: Cdr, now: nat, force: bool)
    ensures var d := Swept(c, now, force);
      && (forall s :: s in d.workspace ==> s in c.workspace && d.workspace[s] == c.workspace[s])
      && (forall s :: s in Gone(c.workspace, d.workspace) <==> s in c.workspace && s !in d.workspace)
      && d.limits == c.limits && d.log == c.log
  {}

  lemma EndAccounts(l: Limiter, t: Trace, u: Trace, ended: string, p: string, c: string)
    requires EndOf(t, u, ended) && UniqueCallIds(t.setups)
    ensures Counted(l, u, p, c) <==> Counted(l, t, p, c) && c != t.setups[ended].callId
    ensures c == t.setups[ended].callId ==> (Counted(l, t, p, c) <==> Target(l, t.setups[ended].user) == Some(p))
  {
    hide Target;
    if s :| Accounts(l, t, p, c, s) {
      if s != ended { assert Accounts(l, u, p, c, s); }
    }
    if s :| Accounts(l, u, p, c, s) { assert Accounts(l, t, p, c, s); }
    if c == t.setups[ended].callId && Target(l, t.setups[ended].user) == Some(p) {
      assert Accounts(l, t, p, c, ended);
    }
  }

  lemma AddedEffect(l: Limiter, m: Limiter, c: string, dial: string)
    requires SameTables(l, m)
    ensures var n := Added(m, c, dial).0;
      && SameTables(l, n)
      && (forall p, x :: p in l.calls ==>
            (x in n.calls[p] <==> x in m.calls[p] || (x == c && Target(l, dial) == Some(p))))
  {
    SameTarget(l, m, dial);
    hide Target, Recount;
    if Target(m, dial).Some? {
      RecountKeeps(m, Target(m, dial).value, m.calls[Target(m, dial).value][c := dial]);
    }
  }

  lemma SameTarget(l: Limiter, m: Limiter, dial: string)
    requires SameTables(l, m)
    ensures Target(m, dial) == Target(l, dial) && (Target(m, dial).Some? ==> Target(m, dial).value in m.calls)
  {}

  lemma RemovedEffect(l: Limiter, m: Limiter, c: string, dial: string)
    requires SameTables(l, m)
    ensures var n := Removed(m, c, dial).0;
      && SameTables(l, n)
      && (forall p, x :: p in l.calls ==>
            (x in n.calls[p] <==> x in m.calls[p] && !(x == c && Target(l, dial) == Some(p))))
  {
    SameTarget(l, m, dial);
    hide Target, Recount;
    if Target(m, dial).Some? {
      RecountKeeps(m, Target(m, dial).value, m.calls[Target(m, dial).value] - {c});
    }
  }

  lemma UncountedEffect(l: Limiter, m: Limiter, c: string, r: Record)
    requires SameTables(l, m)
    ensures var n := Uncounted(m, c, r);
      && SameTables(l, n)
      && (forall p, x :: p in l.calls ==>
            (x in n.calls[p] <==>
               x in m.calls[p] && !(x == c && (Target(l, r.user) == Some(p) || Target(l, r.host) == Some(p)))))
  {
    hide Target, Removed;
    RemovedEffect(l, m, c, r.user);
    RemovedEffect(l, Removed(m, c, r.user).0, c, r.host);
  }

  // ---------------------------------------------------------------------------
  // Logged calls
  // ---------------------------------------------------------------------------

  /** A call whose record is gone is still counted if and only if the record was swept away. */
  lemma LeakedIff(l: Limiter, domains: Domains, start: nat, es: seq<CallEvent>, s: string, p: string)
    requires WellFormed(l) && domains.Valid() && forall p :: p in l.calls ==> l.calls[p] == map[]
    requires Orderly(l, domains, start, es)
    requires var t := CdrLifeCycle.Run(l, domains, start, es);
      s in t.setups && s !in t.c.workspace && p in l.calls && Target(l, t.setups[s].user) == Some(p)
    ensures var t := CdrLifeCycle.Run(l, domains, start, es);
      p in t.c.limits.calls && (t.setups[s].callId in t.c.limits.calls[p] <==> s in t.stale)
  {
    CountedCalls(l, domains, start, es);
    var t := CdrLifeCycle.Run(l, domains, start, es);
    hide CdrLifeCycle.Run, Target, Orderly;
    if s in t.stale {
      assert Accounts(l, t, p, t.setups[s].callId, s);
    } else if other :| Accounts(l, t, p, t.setups[s].callId, other) {
      assert false;
    }
  }

  /** Such a run: a call set up, never answered, and swept five minutes later. */
  lemma SweepLeaksCall(l: Limiter, domains: Domains, e: CallEvent, p: string)
    requires WellFormed(l) && domains.Valid() && e.Setup? && Target(l, e.user) == Some(p)
    ensures var c := CdrLifeCycle.Run(l, domains, e.now, [e, Sweep(e.now + STALE_AGE + 1)]).c;
      c.workspace == map[] && c.log == [] && p in c.limits.calls && e.callId in c.limits.calls[p]
  {
    var sweep := Sweep(e.now + STALE_AGE + 1);
    TwoEvents(l, domains, e.now, e, sweep);
    AddedEffect(l, l, e.callId, e.user);
    TargetRegistered(l, e.user);
    SweptAlone(l, domains, e);
    hide CdrLifeCycle.Run, Target, Added, WellFormed, Handled;
  }

  lemma SweptAlone(l: Limiter, domains: Domains, e: CallEvent)
    requires WellFormed(l) && domains.Valid() && e.Setup?
    ensures var c := Handled(Handled(Cdr(map[], [], l, domains, e.now), e), Sweep(e.now + STALE_AGE + 1));
      c.workspace == map[] && c.log == [] && c.limits == Added(l, e.callId, e.user).0
  {
    hide Added, WellFormed;
    var c := Handled(Cdr(map[], [], l, domains, e.now), e);
    assert c.workspace == map[e.session := Record(e.session, e.callId, e.user, e.host, e.now, 0, 0)];
  }

  lemma TwoEvents(l: Limiter, domains: Domains, start: nat, e: CallEvent, f: CallEvent)
    requires WellFormed(l) && domains.Valid()
    ensures CdrLifeCycle.Run(l, domains, start, [e, f]).c ==
            Handled(Handled(Cdr(map[], [], l, domains, start), e), f)
  {
    hide Handled;
    assert [e, f][..1] == [e] && [e][..0] == [];
    StepHandles(CdrLifeCycle.Run(l, domains, start, []), e);
    StepHandles(CdrLifeCycle.Run(l, domains, start, [e]), f);
  }

  /** A logged session was set up with that call id and no longer holds a record. */
  ghost predicate LogClosed(t: Trace) {
    forall i :: 0 <= i < |t.c.log| ==>
      var r := t.c.log[i];
      r.session in t.setups && t.setups[r.session].callId == r.callId && !Holds(t, r.session)
  }

  /** In every orderly run, a call that has been logged is counted under no prefix. */
  lemma LoggedCallsNotCounted(l: Limiter, domains: Domains, start: nat, es: seq<CallEvent>, i: nat, p: string)
    requires WellFormed(l) && domains.Valid() && forall p :: p in l.calls ==> l.calls[p] == map[]
    requires Orderly(l, domains, start, es)
    requires p in l.calls && i < |CdrLifeCycle.Run(l, domains, start, es).c.log|
    ensures var c := CdrLifeCycle.Run(l, domains, start, es).c;
      p in c.limits.calls && c.log[i].callId !in c.limits.calls[p]
  {
    var t := CdrLifeCycle.Run(l, domains, start, es);
    CountedCalls(l, domains, start, es);
    LogStaysClosed(l, domains, start, es);
    if s :| Accounts(l, t, p, t.c.log[i].callId, s) {
      assert false;
    }
  }

  lemma {:induction false} LogStaysClosed(l: Limiter, domains: Domains, start: nat, es: seq<CallEvent>)
    requires WellFormed(l) && domains.Valid() && forall p :: p in l.calls ==> l.calls[p] == map[]
    requires Orderly(l, domains, start, es)
    ensures LogClosed(CdrLifeCycle.Run(l, domains, start, es))
  {
    if es != [] {
      var front, e := es[..|es| - 1], es[|es| - 1];
      LogStaysClosed(l, domains, start, front);
      CountedCalls(l, domains, start, front);
      hide CdrLifeCycle.Step, Fresh, LogClosed, CountsHeld;
      LogStep(CdrLifeCycle.Run(l, domains, start, front), e);
    }
  }

  lemma LogStep(t: Trace, e: CallEvent)
    requires t.c.Valid() && Recorded(t) && LogClosed(t) && Fresh(t, e)
    ensures LogClosed(CdrLifeCycle.Step(t, e))
  {
    hide WellFormed, Added, Removed, Swept, Gone, Uncounted;
    if Ends(t, e) {
      EndRecorded(t, e);
      var r := t.c.workspace[e.session].(disconnectTime := e.now);
      SweptMembers(t.c.(workspace := t.c.workspace - {e.session}, log := t.c.log + [r]), e.now, false);
    } else if e.Sweep? {
      SweepRecorded(t, e.now);
      SweptMembers(t.c, e.now, true);
    }
  }
}
