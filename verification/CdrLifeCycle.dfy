/** Call detail records over whole runs: any interleaving of set-ups, final responses,
    terminations and sweeps. */
module CdrLifeCycle {
  import opened ChannelLimits
  import opened CdrManager
  import opened DomainLimits

  /** The manager together with what became of the records that were not logged: how often each
      session's record was dropped on a challenge, swept or overwritten. */
  datatype Trace = Trace(c: Cdr, setups: map<string, Record>, challenged: multiset<string>, stale: multiset<string>,
                         replaced: multiset<string>)

  ghost function Start(limits: Limiter, domains: Domains, now: nat): Trace {
    Trace(Cdr(map[], [], limits, domains, now), map[], multiset{}, multiset{}, multiset{})
  }

  ghost function Gone(before: map<string, Record>, after: map<string, Record>): multiset<string> {
    multiset(before.Keys - after.Keys)
  }

  ghost function Step(t: Trace, e: CallEvent): Trace
    requires t.c.Valid()
  {
    var d := Handled(t.c, e);
    match e
    case Setup(s, _, _, _, _) =>
      t.(c := d, setups := t.setups[s := d.workspace[s]],
         replaced := t.replaced + (if s in t.c.workspace then multiset{s} else multiset{}))
    case Sweep(_) =>
      t.(c := d, stale := t.stale + Gone(t.c.workspace, d.workspace))
    case _ =>
      if e.session !in t.c.workspace || (e.Final? && e.status.Success?) then t.(c := d)
      else if e.Final? && e.status.Challenge? then t.(c := d, challenged := t.challenged + multiset{e.session})
      else t.(c := d, stale := t.stale + Gone(t.c.workspace - {e.session}, d.workspace))
  }

  ghost function Run(limits: Limiter, domains: Domains, start: nat, es: seq<CallEvent>): (t: Trace)
    requires WellFormed(limits) && domains.Valid()
    ensures t.c.Valid()
  {
    if es == [] then Start(limits, domains, start)
    else Step(Run(limits, domains, start, es[..|es| - 1]), es[|es| - 1])
  }

  // ---------------------------------------------------------------------------
  // Every set-up is accounted for
  // ---------------------------------------------------------------------------

  /** How often each session was set up. */
  ghost function SetupsOf(es: seq<CallEvent>): multiset<string> {
    if es == [] then multiset{}
    else SetupsOf(es[..|es| - 1]) + (if es[|es| - 1].Setup? then multiset{es[|es| - 1].session} else multiset{})
  }

  /** How many records the log holds of each session. */
  ghost function Sessions(log: seq<Record>): multiset<string> {
    if log == [] then multiset{} else Sessions(log[..|log| - 1]) + multiset{log[|log| - 1].session}
  }

  lemma SessionsMore(log: seq<Record>, r: Record)
    ensures Sessions(log + [r]) == Sessions(log) + multiset{r.session}
  {
    assert (log + [r])[..|log|] == log;
  }

  ghost predicate Keyed(c: Cdr) {
    forall s :: s in c.workspace ==> c.workspace[s].session == s
  }

  ghost predicate Balanced(t: Trace, setups: multiset<string>) {
    && Keyed(t.c)
    && setups == multiset(t.c.workspace.Keys) + Sessions(t.c.log) + t.challenged + t.stale + t.replaced
  }

  /** In every run, each set-up still has its record in the workspace or met exactly one end:
      the records in the log are exactly the set-ups left over from the others. So the log never
      holds more records of a session than there were set-ups of it. */
  lemma {:induction false} SetupsBalance(limits: Limiter, domains: Domains, start: nat, es: seq<CallEvent>)
    requires WellFormed(limits) && domains.Valid()
    ensures Balanced(Run(limits, domains, start, es), SetupsOf(es))
    ensures forall s :: Sessions(Run(limits, domains, start, es).c.log)[s] <= SetupsOf(es)[s]
  {
    hide Step;
    if es != [] {
      SetupsBalance(limits, domains, start, es[..|es| - 1]);
      StepBalances(Run(limits, domains, start, es[..|es| - 1]), es[|es| - 1], SetupsOf(es[..|es| - 1]));
    }
  }

  /** A session set up once is in the log at most once. */
  lemma LoggedOnce(limits: Limiter, domains: Domains, start: nat, es: seq<CallEvent>, i: nat, j: nat)
    requires WellFormed(limits) && domains.Valid()
    requires i < j < |Run(limits, domains, start, es).c.log|
    requires SetupsOf(es)[Run(limits, domains, start, es).c.log[i].session] <= 1
    ensures var log := Run(limits, domains, start, es).c.log; log[i].session != log[j].session
  {
    SetupsBalance(limits, domains, start, es);
    hide Run;
    var log := Run(limits, domains, start, es).c.log;
    if log[i].session == log[j].session {
      TwiceInLog(log, i, j);
    }
  }

  lemma {:induction false} OnceInLog(log: seq<Record>, i: nat)
    requires i < |log|
    ensures Sessions(log)[log[i].session] >= 1
  {
    if i < |log| - 1 {
      OnceInLog(log[..|log| - 1], i);
    }
  }

  lemma {:induction false} TwiceInLog(log: seq<Record>, i: nat, j: nat)
    requires i < j < |log| && log[i].session == log[j].session
    ensures Sessions(log)[log[i].session] >= 2
  {
    if j < |log| - 1 {
      TwiceInLog(log[..|log| - 1], i, j);
    } else {
      OnceInLog(log[..|log| - 1], i);
    }
  }

  lemma StepBalances(t: Trace, e: CallEvent, n: multiset<string>)
    requires t.c.Valid() && Balanced(t, n)
    ensures Balanced(Step(t, e), n + (if e.Setup? then multiset{e.session} else multiset{}))
  {
    hide Balanced, Handled, Cdr.Valid;
    if e.Setup? {
      SetupBalances(t, e, n);
    } else {
      assert n + multiset{} == n;
      if e.Sweep? {
        SweepBalances(t, e.now, n);
      } else if e.session !in t.c.workspace || (e.Final? && e.status.Success?) {
        QuietBalances(t, e, n);
      } else if e.Final? && e.status.Challenge? {
        ChallengeBalances(t, e, n);
      } else {
        LoggedBalances(t, e, n);
      }
    }
  }

  lemma QuietBalances(t: Trace, e: CallEvent, n: multiset<string>)
    requires t.c.Valid() && Balanced(t, n) && (e.Final? || e.Terminated?)
    requires e.session !in t.c.workspace || (e.Final? && e.status.Success?)
    ensures Balanced(Step(t, e), n)
  {
    hide Uncounted, Sessions, Flushed;
    assert Step(t, e).c.workspace.Keys == t.c.workspace.Keys;
  }

  lemma SetupBalances(t: Trace, e: CallEvent, n: multiset<string>)
    requires t.c.Valid() && Balanced(t, n) && e.Setup?
    ensures Balanced(Step(t, e), n + multiset{e.session})
  {
    hide Added, Sessions, Cdr.Valid;
    var u, w, s := Step(t, e), t.c.workspace, e.session;
    assert u.c.workspace.Keys == w.Keys + {s};
    assert multiset(w.Keys + {s}) + (if s in w then multiset{s} else multiset{}) == multiset(w.Keys) + multiset{s};
  }

  lemma SweepBalances(t: Trace, now: nat, n: multiset<string>)
    requires t.c.Valid() && Balanced(t, n)
    ensures Balanced(Step(t, Sweep(now)), n)
  {
    hide Swept, Gone, Cdr.Valid, Sessions;
    var u, w := Step(t, Sweep(now)), t.c.workspace;
    SweepSplits(t.c, now, true);
    Moved(n, multiset(w.Keys), Sessions(t.c.log) + t.challenged, t.stale, t.replaced,
          multiset(u.c.workspace.Keys), Gone(w, u.c.workspace));
  }

  lemma ChallengeBalances(t: Trace, e: CallEvent, n: multiset<string>)
    requires t.c.Valid() && Balanced(t, n)
    requires e.Final? && e.status.Challenge? && e.session in t.c.workspace
    ensures Balanced(Step(t, e), n)
  {
    hide Uncounted, Cdr.Valid, Sessions;
    var u, w := Step(t, e), t.c.workspace;
    DropSplits(w, e.session);
    Moved(n, multiset(w.Keys), Sessions(t.c.log), t.challenged, t.stale + t.replaced,
          multiset(u.c.workspace.Keys), multiset{e.session});
  }

  /** The manager between writing a record and sweeping. */
  function Written(c: Cdr, session: string, now: nat): Cdr
    requires session in c.workspace
  {
    c.(workspace := c.workspace - {session}, log := c.log + [c.workspace[session].(disconnectTime := now)])
  }

  ghost predicate Logs(t: Trace, e: CallEvent) {
    ((e.Final? && e.status.Failure?) || e.Terminated?) && e.session in t.c.workspace
  }

  lemma LoggedIs(t: Trace, e: CallEvent)
    requires t.c.Valid() && Logs(t, e)
    ensures var u, w := Step(t, e), Written(t.c, e.session, e.now);
      && u.c.workspace == Swept(w, e.now, false).workspace && u.c.log == Swept(w, e.now, false).log
      && u.challenged == t.challenged && u.replaced == t.replaced
      && u.stale == t.stale + Gone(w.workspace, u.c.workspace)
  {
    hide Uncounted, Cdr.Valid, Swept, Gone;
  }

  lemma LoggedKeyed(t: Trace, e: CallEvent)
    requires t.c.Valid() && Logs(t, e) && Keyed(t.c)
    ensures Keyed(Step(t, e).c)
  {
    LoggedIs(t, e);
    hide Step, Cdr.Valid, Swept, Gone;
    SweepSplits(Written(t.c, e.session, e.now), e.now, false);
  }

  lemma LoggedBalances(t: Trace, e: CallEvent, n: multiset<string>)
    requires t.c.Valid() && Balanced(t, n) && Logs(t, e)
    ensures Balanced(Step(t, e), n)
  {
    LoggedIs(t, e);
    LoggedKeyed(t, e);
    var u, w := Step(t, e), Written(t.c, e.session, e.now);
    var r := t.c.workspace[e.session].(disconnectTime := e.now);
    assert r.session == e.session && w.workspace == t.c.workspace - {e.session} && w.log == t.c.log + [r];
    hide Step, Cdr.Valid, Swept, Gone, Sessions, Keyed, Written, Logs;
    DropSplits(t.c.workspace, e.session);
    SessionsMore(t.c.log, r);
    SweepSplits(w, e.now, false);
    MovedTwice(n, multiset(t.c.workspace.Keys), multiset(w.workspace.Keys), multiset(u.c.workspace.Keys),
               Sessions(t.c.log), multiset{e.session}, t.challenged, t.stale, Gone(w.workspace, u.c.workspace), t.replaced);
  }

  /** Of what left `k0`, `x` went to `l` and `g` to `s`. */
  lemma MovedTwice<T>(n: multiset<T>, k0: multiset<T>, k1: multiset<T>, k2: multiset<T>, l: multiset<T>, x: multiset<T>,
                      c: multiset<T>, s: multiset<T>, g: multiset<T>, r: multiset<T>)
    requires n == k0 + l + c + s + r && k0 == k1 + x && k1 == k2 + g
    ensures n == k2 + (l + x) + c + (s + g) + r
  {}

  /** Moving `x` from one pile to another keeps the total. */
  lemma Moved<T>(total: multiset<T>, from: multiset<T>, a: multiset<T>, to: multiset<T>, b: multiset<T>,
                 left: multiset<T>, x: multiset<T>)
    requires total == from + (a + to + b) && from == left + x
    ensures total == left + (a + (to + x) + b)
  {}

  lemma DropSplits(w: map<string, Record>, s: string)
    requires s in w
    ensures multiset(w.Keys) == multiset((w - {s}).Keys) + multiset{s}
  {
    assert (w - {s}).Keys == w.Keys - {s};
  }

  lemma SweepSplits(c: Cdr, now: nat, force: bool)
    ensures var d := Swept(c, now, force);
      && d.workspace.Keys <= c.workspace.Keys && d.log == c.log
      && (forall s :: s in d.workspace ==> d.workspace[s] == c.workspace[s])
      && multiset(c.workspace.Keys) == multiset(d.workspace.Keys) + Gone(c.workspace, d.workspace)
  {}

  // ---------------------------------------------------------------------------
  // Connected calls
  // ---------------------------------------------------------------------------

  predicate Connected(c: Cdr, s: string) { s in c.workspace && c.workspace[s].connectTime != 0 }

  /** No sweep, and nothing that happens to other sessions, touches the record of a connected
      call, however long it lasts: it leaves the workspace only by an event of its own session. */
  lemma {:induction false} ConnectedStays(limits: Limiter, domains: Domains, start: nat, es: seq<CallEvent>,
                                          more: seq<CallEvent>, s: string)
    requires WellFormed(limits) && domains.Valid()
    requires Connected(Run(limits, domains, start, es).c, s)
    requires forall e :: e in more ==> e.Sweep? || e.session != s
    ensures var before, after := Run(limits, domains, start, es).c, Run(limits, domains, start, es + more).c;
      s in after.workspace && after.workspace[s] == before.workspace[s]
  {
    if more == [] {
      assert es + more == es;
    } else {
      hide Step, Handled;
      var n := |more| - 1;
      var front, e := es + more[..n], more[n];
      ConnectedStays(limits, domains, start, es, more[..n], s);
      assert (es + more)[..|es + more| - 1] == front && e in more;
      StepHandles(Run(limits, domains, start, front), e);
      OthersLeaveConnected(Run(limits, domains, start, front).c, e, s);
    }
  }

  lemma OthersLeaveConnected(c: Cdr, e: CallEvent, s: string)
    requires c.Valid() && Connected(c, s) && (e.Sweep? || e.session != s)
    ensures s in Handled(c, e).workspace && Handled(c, e).workspace[s] == c.workspace[s]
  {
    hide Uncounted, Added, Cdr.Valid;
  }

  // ---------------------------------------------------------------------------
  // Times
  // ---------------------------------------------------------------------------

  function Clock(es: seq<CallEvent>, start: nat): nat {
    if es == [] then start else es[|es| - 1].now
  }

  predicate Monotone(es: seq<CallEvent>, start: nat) {
    && (forall i :: 0 <= i < |es| ==> start <= es[i].now)
    && (forall i, j :: 0 <= i < j < |es| ==> es[i].now <= es[j].now)
  }

  predicate Timely(r: Record, now: nat) {
    r.setupTime <= now && r.connectTime <= now && (r.connectTime != 0 ==> r.setupTime <= r.connectTime)
  }

  predicate Billed(r: Record) {
    r.setupTime <= r.disconnectTime && (r.connectTime != 0 ==> r.setupTime <= r.connectTime <= r.disconnectTime)
  }

  /** Every logged call was set up, then connected if it ever was, then disconnected. */
  predicate TimesOrdered(c: Cdr, now: nat) {
    && (forall i :: 0 <= i < |c.log| ==> Billed(c.log[i]))
    && (forall s :: s in c.workspace ==> Timely(c.workspace[s], now))
  }

  /** That holds in every run whose clock never goes back. */
  lemma {:induction false} LoggedTimesOrdered(limits: Limiter, domains: Domains, start: nat, es: seq<CallEvent>)
    requires WellFormed(limits) && domains.Valid() && Monotone(es, start)
    ensures TimesOrdered(Run(limits, domains, start, es).c, Clock(es, start))
  {
    if es != [] {
      hide Step, Handled, TimesOrdered, Monotone;
      var front, e := es[..|es| - 1], es[|es| - 1];
      StepHandles(Run(limits, domains, start, front), e);
      MonotoneFront(es, start);
      LoggedTimesOrdered(limits, domains, start, front);
      HandledTimes(Run(limits, domains, start, front).c, e, Clock(front, start));
    }
  }

  lemma MonotoneFront(es: seq<CallEvent>, start: nat)
    requires Monotone(es, start) && es != []
    ensures Monotone(es[..|es| - 1], start) && Clock(es[..|es| - 1], start) <= es[|es| - 1].now
  {}

  lemma StepHandles(t: Trace, e: CallEvent)
    requires t.c.Valid()
    ensures Step(t, e).c == Handled(t.c, e)
  {}

  lemma HandledTimes(c: Cdr, e: CallEvent, before: nat)
    requires c.Valid() && before <= e.now && TimesOrdered(c, before)
    ensures TimesOrdered(Handled(c, e), e.now)
  {
    hide Uncounted, Added, Cdr.Valid;
  }
}
