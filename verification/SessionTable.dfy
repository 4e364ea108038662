/** The media proxy's session table and its per-address session counters. */
module SessionTable {
  import opened Containers
  import opened Wrappers

  const TWO32 := 0x1_0000_0000
  const TWO64 := 0x1_0000_0000_0000_0000

  /** `sessions` maps a session id to the address it is monitored on, "" if it is not counted. */
  datatype Table = Table(sessions: map<string, string>, counter: map<string, nat>)

  datatype Outcome = Found | Created | TooManySessions | NoSuchSession

  /** An INVITE or its response may create a session; any other request needs one. */
  datatype Request = Request(session: string, invite: bool, counted: bool, route: string)

  // ---------------------------------------------------------------------------
  // What the operations compute
  // ---------------------------------------------------------------------------

  function CountAt(counter: map<string, nat>, a: string): nat {
    if a in counter then counter[a] else 0
  }

  function Incremented(counter: map<string, nat>, a: string): map<string, nat> {
    counter[a := CountAt(counter, a) + 1]
  }

  /** The counters are unsigned: taking one from zero wraps. */
  function Decremented(counter: map<string, nat>, a: string): map<string, nat> {
    if a in counter then counter[a := (counter[a] - 1) % TWO64] else counter
  }

  function Handled(t: Table, max: nat, r: Request): (Table, Outcome) {
    if r.session in t.sessions then (t, Found)
    else if !r.invite then (t, NoSuchSession)
    else if |t.sessions| > max then (t, TooManySessions)
    else
      (Table(t.sessions[r.session := if r.counted then r.route else ""],
             if r.counted then Incremented(t.counter, r.route) else t.counter), Created)
  }

  function Released(t: Table, session: string): Table {
    if session !in t.sessions then t
    else
      Table(t.sessions - {session},
            if t.sessions[session] != "" then Decremented(t.counter, t.sessions[session]) else t.counter)
  }

  // ---------------------------------------------------------------------------
  // What they keep
  // ---------------------------------------------------------------------------

  /** The sessions monitored on an address. */
  function MonitoredOn(sessions: map<string, string>, a: string): set<string> {
    set s | s in sessions && sessions[s] == a
  }

  /** Each non-empty address is counted as often as it is monitored. */
  ghost predicate Agrees(t: Table) {
    forall a :: a != "" ==> CountAt(t.counter, a) == |MonitoredOn(t.sessions, a)|
  }

  ghost predicate Consistent(t: Table, max: nat) {
    Agrees(t) && |t.sessions| <= max + 1
  }

  lemma HandledConsistent(t: Table, max: nat, r: Request)
    requires Consistent(t, max)
    ensures Consistent(Handled(t, max, r).0, max)
  {
    var (u, o) := Handled(t, max, r);
    if o == Created {
      var route := u.sessions[r.session];
      forall a | a != "" ensures CountAt(u.counter, a) == |MonitoredOn(u.sessions, a)| {
        var before := MonitoredOn(t.sessions, a);
        assert MonitoredOn(u.sessions, a) == if route == a then before + {r.session} else before;
      }
    }
  }

  /** Removing a session keeps the counters in step; they are decremented only from above zero,
      so they never wrap. */
  lemma ReleasedConsistent(t: Table, max: nat, session: string)
    requires Consistent(t, max) && max < TWO32
    ensures Consistent(Released(t, session), max)
    ensures session in t.sessions && t.sessions[session] != "" ==>
      var a := t.sessions[session];
      a in t.counter && t.counter[a] > 0 && Released(t, session).counter == t.counter[a := t.counter[a] - 1]
  {
    if session in t.sessions {
      var u, route := Released(t, session), t.sessions[session];
      assert session in MonitoredOn(t.sessions, route);
      SubsetSize(MonitoredOn(t.sessions, route), t.sessions.Keys);
      forall a | a != "" ensures CountAt(u.counter, a) == |MonitoredOn(u.sessions, a)| {
        OneLess(t.sessions, session, a);
      }
      assert u.sessions.Keys == t.sessions.Keys - {session};
    }
  }

  lemma OneLess(sessions: map<string, string>, session: string, a: string)
    requires session in sessions
    ensures |MonitoredOn(sessions - {session}, a)| == |MonitoredOn(sessions, a)| - (if sessions[session] == a then 1 else 0)
  {
    var before := MonitoredOn(sessions, a);
    assert MonitoredOn(sessions - {session}, a) == if sessions[session] == a then before - {session} else before;
  }

  // ---------------------------------------------------------------------------
  // Runs
  // ---------------------------------------------------------------------------

  datatype Op = HandleSdp(r: Request) | RemoveSession(session: string) | Collect(inactive: seq<string>)

  /** Collection releases the inactive sessions one after the other. */
  function ReleasedAll(t: Table, inactive: seq<string>): Table {
    if inactive == [] then t else Released(ReleasedAll(t, inactive[..|inactive| - 1]), inactive[|inactive| - 1])
  }

  /** The inactive sessions in the order the walk meets them. */
  function Chosen(order: seq<string>, inactive: set<string>): seq<string> {
    if order == [] then []
    else
      var last := order[|order| - 1];
      Chosen(order[..|order| - 1], inactive) + (if last in inactive then [last] else [])
  }

  lemma {:induction false} ChosenMembers(order: seq<string>, inactive: set<string>, s: string)
    ensures s in Chosen(order, inactive) <==> s in order && s in inactive
  {
    if order != [] {
      ChosenMembers(order[..|order| - 1], inactive, s);
      assert order == order[..|order| - 1] + [order[|order| - 1]];
    }
  }

  function Step(t: Table, max: nat, op: Op): Table {
    match op
    case HandleSdp(r) => Handled(t, max, r).0
    case RemoveSession(session) => Released(t, session)
    case Collect(inactive) => ReleasedAll(t, inactive)
  }

  function Run(max: nat, ops: seq<Op>): Table {
    if ops == [] then Table(map[], map[]) else Step(Run(max, ops[..|ops| - 1]), max, ops[|ops| - 1])
  }

  lemma {:induction false} ReleasedAllConsistent(t: Table, max: nat, inactive: seq<string>)
    requires Consistent(t, max) && max < TWO32
    ensures Consistent(ReleasedAll(t, inactive), max)
  {
    hide Consistent, Released;
    if inactive != [] {
      ReleasedAllConsistent(t, max, inactive[..|inactive| - 1]);
      ReleasedConsistent(ReleasedAll(t, inactive[..|inactive| - 1]), max, inactive[|inactive| - 1]);
    }
  }

  /** Exactly the named sessions are gone. */
  lemma {:induction false} ReleasedAllSessions(t: Table, inactive: seq<string>, s: string)
    ensures var u := ReleasedAll(t, inactive);
      && (s in u.sessions <==> s in t.sessions && s !in inactive)
      && (s in u.sessions ==> u.sessions[s] == t.sessions[s])
  {
    if inactive != [] {
      var front, last := inactive[..|inactive| - 1], inactive[|inactive| - 1];
      ReleasedAllSessions(t, front, s);
      assert inactive == front + [last];
    }
  }

  /** In every run each non-empty address's counter is the number of live sessions monitored on
      it, and the table holds at most one session more than the configured maximum. */
  lemma {:induction false} CountersAgree(max: nat, ops: seq<Op>)
    requires max < TWO32
    ensures Consistent(Run(max, ops), max)
  {
    hide Handled, Released, ReleasedAll, Consistent;
    if ops == [] {
      StartConsistent(max);
    } else {
      var t, op := Run(max, ops[..|ops| - 1]), ops[|ops| - 1];
      CountersAgree(max, ops[..|ops| - 1]);
      match op
      case HandleSdp(r) => HandledConsistent(t, max, r);
      case RemoveSession(session) => ReleasedConsistent(t, max, session);
      case Collect(inactive) => ReleasedAllConsistent(t, max, inactive);
    }
  }

  lemma StartConsistent(max: nat)
    ensures Consistent(Table(map[], map[]), max)
  {
    assert forall a :: MonitoredOn(map[], a) == {};
  }

  // ---------------------------------------------------------------------------
  // Sessions by their own history
  // ---------------------------------------------------------------------------

  /** The address a session is monitored on by the operations on it alone, or none if it is not
      live: it is created by the first INVITE that finds room, and lives until it is removed or
      collected. */
  function Monitored(max: nat, ops: seq<Op>, s: string): Option<string> {
    if ops == [] then None
    else
      var front, op := ops[..|ops| - 1], ops[|ops| - 1];
      var before := Monitored(max, front, s);
      match op
      case HandleSdp(r) =>
        if before.None? && r.session == s && r.invite && |Run(max, front).sessions| < max + 1
        then Some(if r.counted then r.route else "") else before
      case RemoveSession(session) => if session == s then None else before
      case Collect(inactive) => if s in inactive then None else before
  }

  lemma {:induction false} SessionsAre(max: nat, ops: seq<Op>, s: string)
    ensures var t := Run(max, ops);
      Monitored(max, ops, s) == if s in t.sessions then Some(t.sessions[s]) else None
  {
    if ops != [] {
      var front, op := ops[..|ops| - 1], ops[|ops| - 1];
      SessionsAre(max, front, s);
      if op.Collect? {
        ReleasedAllSessions(Run(max, front), op.inactive, s);
      }
      hide ReleasedAll, Incremented, Decremented;
    }
  }

  /** In every run a live session is found. Another one needs an INVITE, and room below one more
      than the maximum, and is then created. */
  lemma OutcomeIs(max: nat, ops: seq<Op>, r: Request)
    requires max < TWO32
    ensures var t := Run(max, ops);
      match Handled(t, max, r).1
      case Found => Monitored(max, ops, r.session).Some?
      case NoSuchSession => Monitored(max, ops, r.session).None? && !r.invite
      case TooManySessions => Monitored(max, ops, r.session).None? && r.invite && |t.sessions| == max + 1
      case Created =>
        Monitored(max, ops, r.session).None? && r.invite && |t.sessions| <= max
        && Monitored(max, ops + [HandleSdp(r)], r.session) == Some(if r.counted then r.route else "")
  {
    SessionsAre(max, ops, r.session);
    SessionsAre(max, ops + [HandleSdp(r)], r.session);
    CountersAgree(max, ops);
    assert (ops + [HandleSdp(r)])[..|ops|] == ops;
    hide Monitored, Agrees;
  }

  /** How many sessions were created to be counted on the empty address. */
  function CreatedOnEmpty(max: nat, ops: seq<Op>): nat {
    if ops == [] then 0
    else
      var front, op := ops[..|ops| - 1], ops[|ops| - 1];
      CreatedOnEmpty(max, front) +
      (if op.HandleSdp? && op.r.counted && op.r.route == "" && op.r.invite && Monitored(max, front, op.r.session).None?
          && |Run(max, front).sessions| < max + 1 then 1 else 0)
  }

  /** The empty address means "not counted" when a session ends, so its counter holds all those
      ever created, live or not. */
  lemma {:induction false} EmptyAddressCount(max: nat, ops: seq<Op>)
    ensures CountAt(Run(max, ops).counter, "") == CreatedOnEmpty(max, ops)
  {
    if ops != [] {
      var front, op := ops[..|ops| - 1], ops[|ops| - 1];
      EmptyAddressCount(max, front);
      match op
      case HandleSdp(r) => SessionsAre(max, front, r.session);
      case RemoveSession(session) =>
      case Collect(inactive) => ReleasedEmpty(Run(max, front), inactive);
      hide Monitored, ReleasedAll;
    }
  }

  lemma {:induction false} ReleasedEmpty(t: Table, inactive: seq<string>)
    ensures CountAt(ReleasedAll(t, inactive).counter, "") == CountAt(t.counter, "")
  {
    if inactive != [] {
      ReleasedEmpty(t, inactive[..|inactive| - 1]);
    }
  }

  // ---------------------------------------------------------------------------
  // The configured maximum
  // ---------------------------------------------------------------------------

  /** An INVITE for an unknown session arrives while the table is full. */
  predicate Overfills(t: Table, max: nat, op: Op) {
    op.HandleSdp? && op.r.invite && op.r.session !in t.sessions && |t.sessions| == max
  }

  /** One operation keeps a table within the maximum if and only if it is not such an INVITE. */
  lemma StepWithinIff(t: Table, max: nat, op: Op)
    requires |t.sessions| <= max
    ensures |Step(t, max, op).sessions| <= max <==> !Overfills(t, max, op)
  {
    match op
    case HandleSdp(r) =>
    case RemoveSession(session) => ReleasedSmaller(t, [session]);
    case Collect(inactive) => ReleasedSmaller(t, inactive);
  }

  lemma {:induction false} ReleasedSmaller(t: Table, inactive: seq<string>)
    ensures |ReleasedAll(t, inactive).sessions| <= |t.sessions|
    ensures |inactive| == 1 ==> ReleasedAll(t, inactive) == Released(t, inactive[0])
  {
    if inactive != [] {
      var front, last := inactive[..|inactive| - 1], inactive[|inactive| - 1];
      ReleasedSmaller(t, front);
      var u := ReleasedAll(t, front);
      if last in u.sessions {
        assert (u.sessions - {last}).Keys == u.sessions.Keys - {last};
      }
    }
  }

  /** The table after the first `k` operations of a run. */
  function After(max: nat, ops: seq<Op>, k: nat): Table
    requires k <= |ops|
  {
    Run(max, ops[..k])
  }

  /** At that point there are more sessions than the maximum. */
  predicate TooManyAt(max: nat, ops: seq<Op>, k: nat) {
    k <= |ops| && |After(max, ops, k).sessions| > max
  }

  predicate OverfilledAt(max: nat, ops: seq<Op>, k: nat) {
    k < |ops| && Overfills(After(max, ops, k), max, ops[k])
  }

  lemma FrontAgrees(max: nat, ops: seq<Op>, k: nat)
    requires k < |ops|
    ensures var front := ops[..|ops| - 1];
      && (TooManyAt(max, front, k) <==> TooManyAt(max, ops, k))
      && (k < |front| ==> (OverfilledAt(max, front, k) <==> OverfilledAt(max, ops, k)))
  {
    hide Run, Overfills;
    assert ops[..|ops| - 1][..k] == ops[..k];
  }

  lemma LastAgrees(max: nat, ops: seq<Op>)
    ensures TooManyAt(max, ops, |ops|) <==> |Run(max, ops).sessions| > max
    ensures ops != [] ==> var n := |ops| - 1;
      OverfilledAt(max, ops, n) <==> Overfills(Run(max, ops[..n]), max, ops[n])
  {
    hide Run, Overfills;
    assert ops[..|ops|] == ops;
  }

  ghost predicate Within(max: nat, ops: seq<Op>) {
    forall k: nat :: k <= |ops| ==> !TooManyAt(max, ops, k)
  }

  ghost predicate NeverOverfilled(max: nat, ops: seq<Op>) {
    forall k: nat :: k < |ops| ==> !OverfilledAt(max, ops, k)
  }

  lemma MorePoints(max: nat, ops: seq<Op>)
    requires ops != []
    ensures var front := ops[..|ops| - 1];
      && (Within(max, ops) <==> Within(max, front) && !TooManyAt(max, ops, |ops|))
      && (NeverOverfilled(max, ops) <==> NeverOverfilled(max, front) && !OverfilledAt(max, ops, |ops| - 1))
  {
    hide TooManyAt, OverfilledAt;
    var front := ops[..|ops| - 1];
    forall k: nat | k < |ops| ensures TooManyAt(max, front, k) <==> TooManyAt(max, ops, k) {
      FrontAgrees(max, ops, k);
    }
    forall k: nat | k < |front| ensures OverfilledAt(max, front, k) <==> OverfilledAt(max, ops, k) {
      FrontAgrees(max, ops, k);
    }
  }

  /** A run never holds more than the maximum of sessions if and only if no INVITE for an unknown
      session ever arrives while exactly that many are live. */
  lemma {:induction false} StaysWithinIff(max: nat, ops: seq<Op>)
    ensures Within(max, ops) <==> NeverOverfilled(max, ops)
  {
    hide TooManyAt, OverfilledAt, Step, Overfills;
    LastAgrees(max, ops);
    if ops != [] {
      var front := ops[..|ops| - 1];
      StaysWithinIff(max, front);
      MorePoints(max, ops);
      LastAgrees(max, front);
      if Within(max, front) {
        StepWithinIff(Run(max, front), max, ops[|ops| - 1]);
      }
    }
  }

  /** Session identifiers of every length. */
  function Name(n: nat): string { seq(n, _ => 'x') }

  /** The first `n` of them, each invited. */
  function Invitations(n: nat): seq<Op> {
    if n == 0 then [] else Invitations(n - 1) + [HandleSdp(Request(Name(n), true, true, "route"))]
  }

  /** Up to the maximum every invited session gets in; of more than that, one too many does. */
  lemma {:induction false} OneSessionTooMany(max: nat, n: nat)
    ensures var t := Run(max, Invitations(n));
      |t.sessions| == (if n <= max then n else max + 1) && forall s :: s in t.sessions ==> |s| <= n
  {
    if n > 0 {
      OneSessionTooMany(max, n - 1);
      var ops := Invitations(n);
      assert ops[..|ops| - 1] == Invitations(n - 1);
      hide Run, Invitations;
    }
  }

  // ---------------------------------------------------------------------------
  // The class
  // ---------------------------------------------------------------------------

  class Manager {
    var sessions: map<string, string>
    var counter: map<string, nat>
    const sessionMax: nat

    function State(): Table
      reads this
    {
      Table(sessions, counter)
    }

    ghost predicate Valid()
      reads this
    {
      sessionMax < TWO32 && Consistent(State(), sessionMax)
    }

    constructor (max: nat)
      requires max < TWO32
      ensures Valid() && State() == Table(map[], map[]) && sessionMax == max
    {
      sessions, counter, sessionMax := map[], map[], max;
      new;
      StartConsistent(max);
    }

    method HandleSdp(r: Request) returns (outcome: Outcome)
      requires Valid()
      modifies this
      ensures Valid() && (State(), outcome) == Handled(old(State()), sessionMax, r)
    {
      HandledConsistent(State(), sessionMax, r);
      if r.invite {
        if r.session in sessions {
          return Found;
        }
        if |sessions| > sessionMax {
          return TooManySessions;
        }
        var monitored := "";
        if r.counted {
          monitored := r.route;
          IncrementSessionCount(monitored);
        }
        sessions := sessions[r.session := monitored];
        return Created;
      }
      return if r.session in sessions then Found else NoSuchSession;
    }

    method RemoveSession(session: string)
      requires Valid()
      modifies this
      ensures Valid() && State() == Released(old(State()), session)
    {
      ReleasedConsistent(State(), sessionMax, session);
      if session in sessions {
        if sessions[session] != "" {
          DecrementSessionCount(sessions[session]);
        }
        sessions := sessions - {session};
      }
    }

    /** Walks the table, `order` giving its iteration order, and drops the inactive sessions. */
    method CollectInactiveSessions(order: seq<string>, inactive: set<string>)
      requires Valid()
      requires forall s :: s in sessions ==> s in order
      modifies this
      ensures Valid() && State() == ReleasedAll(old(State()), Chosen(order, inactive))
      ensures sessions == old(sessions) - inactive
    {
      var i := 0;
      while i < |order|
        invariant 0 <= i <= |order| && Valid()
        invariant State() == ReleasedAll(old(State()), Chosen(order[..i], inactive))
      {
        hide Released, Consistent;
        var session := order[i];
        assert order[..i + 1][..i] == order[..i];
        ghost var before := Chosen(order[..i], inactive);
        if session in inactive {
          RemoveSession(session);
          assert (before + [session])[..|before|] == before;
          assert Chosen(order[..i + 1], inactive) == before + [session];
        } else {
          assert Chosen(order[..i + 1], inactive) == before + [] == before;
        }
        i := i + 1;
      }
      assert order[..i] == order;
      forall s ensures s in sessions <==> s in old(sessions) - inactive {
        ReleasedAllSessions(old(State()), Chosen(order, inactive), s);
        ChosenMembers(order, inactive, s);
      }
      forall s | s in sessions ensures sessions[s] == old(sessions)[s] {
        ReleasedAllSessions(old(State()), Chosen(order, inactive), s);
      }
    }

    method IncrementSessionCount(a: string)
      modifies this`counter
      ensures counter == Incremented(old(counter), a)
    {
      if a in counter {
        counter := counter[a := counter[a] + 1];
      } else {
        counter := counter[a := 1];
      }
    }

    method DecrementSessionCount(a: string)
      modifies this`counter
      ensures counter == Decremented(old(counter), a)
    {
      if a in counter {
        counter := counter[a := (counter[a] - 1) % TWO64];
      }
    }

    method GetSessionCount(a: string) returns (n: nat)
      requires Valid()
      ensures a != "" ==> n == |MonitoredOn(sessions, a)|
      ensures n == CountAt(counter, a)
    {
      n := if a in counter then counter[a] else 0;
    }
  }
}
