/** Call detail records told by the events alone: which records are in the workspace after a run,
    what they say, and what has been written to the log. */
module CdrHistory {
  import opened ChannelLimits
  import opened CdrManager
  import opened CdrLifeCycle
  import opened DomainLimits
  import opened Wrappers

  // ---------------------------------------------------------------------------
  // What the events say
  // ---------------------------------------------------------------------------

  predicate SetsUp(e: CallEvent, s: string) { e.Setup? && e.session == s }

  predicate Connects(e: CallEvent, s: string) { e.Final? && e.session == s && e.status.Success? }

  predicate Dismisses(e: CallEvent, s: string) { e.Final? && e.session == s && e.status.Challenge? }

  predicate Closes(e: CallEvent, s: string) {
    (e.Terminated? && e.session == s) || (e.Final? && e.session == s && e.status.Failure?)
  }

  /** What the last set-up of the session gave, and the time of the last answer since, 0 if there
      was none. */
  function RecordOf(es: seq<CallEvent>, s: string): Option<Record> {
    if es == [] then None
    else
      var front, e := es[..|es| - 1], es[|es| - 1];
      if SetsUp(e, s) then Some(Record(s, e.callId, e.user, e.host, e.now, 0, 0))
      else
        var r := RecordOf(front, s);
        if Connects(e, s) && r.Some? then Some(r.value.(connectTime := e.now)) else r
  }

  /** The session has gone without an answer for more than five minutes. */
  predicate Abandoned(es: seq<CallEvent>, s: string, now: nat) {
    var r := RecordOf(es, s);
    r.Some? && r.value.connectTime == 0 && now > r.value.setupTime + 5 * 60 * 1000
  }

  /** More than ten minutes have gone by, in unsigned 64-bit arithmetic. */
  predicate Overdue(last: nat, now: nat) { (now - last) % 0x1_0000_0000_0000_0000 > 10 * 60 * 1000 }

  /** After `es`, event `e` sweeps: on request, or as it closes a record and the last sweep is
      overdue. */
  predicate Sweeps(start: nat, es: seq<CallEvent>, e: CallEvent)
    decreases |es|, 1
  {
    e.Sweep? ||
    (Closes(e, e.session) && Kept(start, es, e.session) && Overdue(LastSweep(start, es), e.now))
  }

  function LastSweep(start: nat, es: seq<CallEvent>): nat
    decreases |es|, 0
  {
    if es == [] then start
    else
      var front, e := es[..|es| - 1], es[|es| - 1];
      if Sweeps(start, front, e) then e.now else LastSweep(start, front)
  }

  /** The session was set up, and since then was neither closed nor dismissed, nor abandoned at
      any sweep. */
  predicate Kept(start: nat, es: seq<CallEvent>, s: string)
    decreases |es|, 0
  {
    es != [] &&
    var front, e := es[..|es| - 1], es[|es| - 1];
    SetsUp(e, s) ||
    (Kept(start, front, s) && !Closes(e, s) && !Dismisses(e, s)
     && !(Sweeps(start, front, e) && Abandoned(front, s, e.now)))
  }

  /** A record is written whenever a session that is kept is closed. */
  function Log(start: nat, es: seq<CallEvent>): seq<Record> {
    if es == [] then []
    else
      var front, e := es[..|es| - 1], es[|es| - 1];
      if !e.Sweep? && Closes(e, e.session) && Kept(start, front, e.session) && RecordOf(front, e.session).Some?
      then Log(start, front) + [RecordOf(front, e.session).value.(disconnectTime := e.now)]
      else Log(start, front)
  }

  // ---------------------------------------------------------------------------
  // What the manager holds
  // ---------------------------------------------------------------------------

  ghost predicate HoldsOf(c: Cdr, start: nat, es: seq<CallEvent>, s: string) {
    && (s in c.workspace <==> Kept(start, es, s))
    && (s in c.workspace ==> RecordOf(es, s) == Some(c.workspace[s]))
  }

  ghost predicate Records(c: Cdr, start: nat, es: seq<CallEvent>, s: string) {
    HoldsOf(c, start, es, s) && c.log == Log(start, es) && c.lastFlush == LastSweep(start, es)
  }

  /** In every run the workspace holds the records of exactly the sessions kept, each as its
      events describe it, and the log exactly the records of the sessions closed, in order. */
  lemma {:induction false} RecordsAre(limits: Limiter, domains: Domains, start: nat, es: seq<CallEvent>, s: string)
    requires WellFormed(limits) && domains.Valid()
    ensures var c := CdrLifeCycle.Run(limits, domains, start, es).c;
      && (s in c.workspace <==> Kept(start, es, s))
      && (s in c.workspace ==> RecordOf(es, s) == Some(c.workspace[s]))
      && c.log == Log(start, es) && c.lastFlush == LastSweep(start, es)
  {
    if es != [] {
      var front, e := es[..|es| - 1], es[|es| - 1];
      RecordsAre(limits, domains, start, front, s);
      if !e.Sweep? {
        RecordsAre(limits, domains, start, front, e.session);
      }
      var t := CdrLifeCycle.Run(limits, domains, start, front);
      StepHandles(t, e);
      hide CdrLifeCycle.Step, Handled;
      StepRecords(t.c, start, es, s);
    }
  }

  /** The last event of a run, for the four of them. */
  lemma LastEvent(start: nat, es: seq<CallEvent>, s: string)
    requires es != []
    ensures var front, e := es[..|es| - 1], es[|es| - 1];
      && (Kept(start, es, s) <==>
            SetsUp(e, s) ||
            (Kept(start, front, s) && !Closes(e, s) && !Dismisses(e, s)
             && !(Sweeps(start, front, e) && Abandoned(front, s, e.now))))
      && RecordOf(es, s) == (if SetsUp(e, s) then Some(Record(s, e.callId, e.user, e.host, e.now, 0, 0))
                             else if Connects(e, s) && RecordOf(front, s).Some?
                             then Some(RecordOf(front, s).value.(connectTime := e.now)) else RecordOf(front, s))
      && LastSweep(start, es) == (if Sweeps(start, front, e) then e.now else LastSweep(start, front))
      && Log(start, es) == (if !e.Sweep? && Closes(e, e.session) && Kept(start, front, e.session) && RecordOf(front, e.session).Some?
                            then Log(start, front) + [RecordOf(front, e.session).value.(disconnectTime := e.now)]
                            else Log(start, front))
  {
    hide Sweeps, Abandoned, Closes, Dismisses, Connects, SetsUp;
  }

  lemma StepRecords(c: Cdr, start: nat, es: seq<CallEvent>, s: string)
    requires c.Valid() && es != [] && Records(c, start, es[..|es| - 1], s)
    requires var e := es[|es| - 1]; !e.Sweep? ==> HoldsOf(c, start, es[..|es| - 1], e.session)
    ensures Records(Handled(c, es[|es| - 1]), start, es, s)
  {
    var e := es[|es| - 1];
    if e.Sweep? {
      SweepRecords(c, start, es, s);
    } else if Closes(e, e.session) && e.session in c.workspace {
      CloseRecords(c, start, es, s);
    } else {
      OtherRecords(c, start, es, s);
    }
  }

  lemma OtherRecords(c: Cdr, start: nat, es: seq<CallEvent>, s: string)
    requires c.Valid() && es != [] && Records(c, start, es[..|es| - 1], s)
    requires var e := es[|es| - 1];
      !e.Sweep? && HoldsOf(c, start, es[..|es| - 1], e.session) && !(Closes(e, e.session) && e.session in c.workspace)
    ensures Records(Handled(c, es[|es| - 1]), start, es, s)
  {
    LastEvent(start, es, s);
    hide Uncounted, Added, Cdr.Valid, Abandoned, Overdue, Kept, RecordOf, Log, LastSweep;
  }

  /** A sweep drops exactly the abandoned sessions. */
  lemma SweptRecords(c: Cdr, start: nat, es: seq<CallEvent>, s: string, now: nat, force: bool)
    requires HoldsOf(c, start, es, s)
    ensures var d, swept := Swept(c, now, force), force || Overdue(c.lastFlush, now);
      && (s in d.workspace <==> Kept(start, es, s) && !(swept && Abandoned(es, s, now)))
      && (s in d.workspace ==> d.workspace[s] == c.workspace[s])
      && d.log == c.log && d.lastFlush == if swept then now else c.lastFlush
  {
    hide Kept, RecordOf;
  }

  lemma SweepRecords(c: Cdr, start: nat, es: seq<CallEvent>, s: string)
    requires c.Valid() && es != [] && Records(c, start, es[..|es| - 1], s) && es[|es| - 1].Sweep?
    ensures Records(Handled(c, es[|es| - 1]), start, es, s)
  {
    LastEvent(start, es, s);
    SweptRecords(c, start, es[..|es| - 1], s, es[|es| - 1].now, true);
    hide Swept, Abandoned, Cdr.Valid, Kept, RecordOf, Log, LastSweep;
  }

  lemma CloseRecords(c: Cdr, start: nat, es: seq<CallEvent>, s: string)
    requires c.Valid() && es != [] && Records(c, start, es[..|es| - 1], s)
    requires var e := es[|es| - 1];
      !e.Sweep? && HoldsOf(c, start, es[..|es| - 1], e.session) && Closes(e, e.session) && e.session in c.workspace
    ensures Records(Handled(c, es[|es| - 1]), start, es, s)
  {
    var front, e := es[..|es| - 1], es[|es| - 1];
    var d := Handled(c, e);
    var w := Written(c, e.session, e.now);
    LastEvent(start, es, s);
    HandledCloses(c, e);
    if s != e.session {
      SweptRecords(w, start, front, s, e.now, false);
    } else {
      SweptKeys(w, e.now, false);
    }
    hide Swept, Abandoned, Overdue, Cdr.Valid, Handled, Kept, RecordOf, Log, LastSweep;
  }

  lemma SweptKeys(c: Cdr, now: nat, force: bool)
    ensures var d := Swept(c, now, force);
      && d.workspace.Keys <= c.workspace.Keys && d.log == c.log
      && d.lastFlush == if force || Overdue(c.lastFlush, now) then now else c.lastFlush
  {}

  lemma HandledCloses(c: Cdr, e: CallEvent)
    requires c.Valid() && !e.Sweep? && Closes(e, e.session) && e.session in c.workspace
    ensures var d, w := Handled(c, e), Swept(Written(c, e.session, e.now), e.now, false);
      d.workspace == w.workspace && d.log == w.log && d.lastFlush == w.lastFlush
  {
    hide Uncounted, Swept, Cdr.Valid;
  }
}
