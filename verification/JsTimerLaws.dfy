/** What every interleaving of scripts, expiries, cancellations and the event loop keeps. */
module JsTimerLaws {
  import opened JsTimers
  import opened Wrappers

  function Times(ts: seq<Timer>, id: nat): nat {
    if ts == [] then 0 else Times(ts[..|ts| - 1], id) + (if ts[|ts| - 1].id == id then 1 else 0)
  }

  lemma {:induction false} TimesConcat(a: seq<Timer>, b: seq<Timer>, id: nat)
    ensures Times(a + b, id) == Times(a, id) + Times(b, id)
  {
    if b == [] {
      assert a + b == a;
    } else {
      assert (a + b)[..|a + b| - 1] == a + b[..|b| - 1];
      TimesConcat(a, b[..|b| - 1], id);
    }
  }

  lemma TimesMore(ts: seq<Timer>, t: Timer, id: nat)
    ensures Times(ts + [t], id) == Times(ts, id) + (if t.id == id then 1 else 0)
  {
    assert (ts + [t])[..|ts|] == ts;
  }

  lemma {:induction false} OnceCounts(ts: seq<Timer>, i: nat)
    requires i < |ts|
    ensures Times(ts, ts[i].id) >= 1
  {
    if i < |ts| - 1 {
      OnceCounts(ts[..|ts| - 1], i);
    }
  }

  lemma {:induction false} TwiceCounts(ts: seq<Timer>, i: nat, j: nat)
    requires i < j < |ts| && ts[i].id == ts[j].id
    ensures Times(ts, ts[i].id) >= 2
  {
    if j < |ts| - 1 {
      TwiceCounts(ts[..|ts| - 1], i, j);
    } else {
      OnceCounts(ts[..|ts| - 1], i);
    }
  }

  // ---------------------------------------------------------------------------
  // The invariant
  // ---------------------------------------------------------------------------

  function One(b: bool): nat { if b then 1 else 0 }

  /** In how many places timer `id` is: under construction, pending, held by a handler, queued or
      executed (counted with multiplicity), cancelled, or refused by the full queue. */
  function Places(s: System, id: nat): nat {
    One(InMaking(s, id)) + One(id in s.m.timers) + One(id in s.holding) + Times(s.queued, id)
    + One(id in s.cancelled) + One(id in s.refused)
  }

  ghost predicate OnePlace(s: System) {
    forall id: nat :: Places(s, id) == One(1 <= id <= s.m.counter)
  }

  /** The timer is the one scheduled under its id. */
  predicate Genuine(s: System, t: Timer) {
    1 <= t.id <= |s.scheduled| && t.callback == s.scheduled[t.id - 1]
  }

  ghost predicate Faithful(s: System) {
    && s.m.counter == |s.scheduled|
    && s.queued == s.executed + s.m.queue
    && (s.m.making.Some? ==> Genuine(s, Timer(s.m.making.value.id, s.m.making.value.callback)))
    && (forall id :: id in s.m.timers ==> s.m.timers[id].id == id && Genuine(s, s.m.timers[id]))
    && (forall id :: id in s.holding ==> s.holding[id].id == id && Genuine(s, s.holding[id]))
    && (forall t :: t in s.queued ==> Genuine(s, t))
    && (forall id :: id in s.cancelling ==> id in s.cancelled)
  }

  /** The expiry of a timer is still to come: nothing has read another identifier for it. */
  predicate Coming(s: System, id: nat) {
    id in s.armed || id in s.fired || (id in s.reading && s.reading[id] == id)
  }

  predicate Expiring(s: System, id: nat) {
    id in s.armed || id in s.fired || id in s.reading
  }

  /** How handlers stand to their timers. */
  ghost predicate Handlers(s: System) {
    && (forall id: nat :: Expiring(s, id) || id in s.early ==> 1 <= id <= s.m.counter)
    && (forall id :: id in s.armed ==> id !in s.fired && id !in s.reading)
    && (forall id :: id in s.fired ==> id !in s.reading)
    && (forall id :: id in s.early ==> !Coming(s, id))
    && (forall id :: id in s.reading && s.reading[id] != id ==> id in s.early || id in s.late)
    && (forall id: nat :: InMaking(s, id) || id in s.m.timers ==> Coming(s, id) || id in s.early)
  }

  lemma StepFaithful(s: System, a: Action)
    requires Faithful(s) && Enabled(s, a)
    ensures Faithful(Step(s, a))
  {
    var u := Step(s, a);
    assert forall t :: Genuine(s, t) ==> Genuine(u, t);
    match a
    case ExpireQueue(id) =>
      if !Full(s.m) {
        assert u.queued == s.executed + s.m.queue + [s.holding[id]];
      }
    case Work =>
      assert s.m.queue == [s.m.queue[0]] + s.m.queue[1..];
    case _ =>
  }

  lemma StepPlaces(s: System, a: Action, id: nat)
    requires Faithful(s) && OnePlace(s) && Enabled(s, a)
    ensures Places(Step(s, a), id) == One(1 <= id <= Step(s, a).m.counter)
  {
    assert Places(s, id) == One(1 <= id <= s.m.counter);
    hide OnePlace, Times;
    match a
    case ExpireRemove(k) => RemovePlaces(s, k, id);
    case ExpireQueue(k) => QueuePlaces(s, k, id);
    case CancelRemove(target) => CancelPlaces(s, target, id);
    case _ =>
  }

  lemma RemovePlaces(s: System, k: nat, id: nat)
    requires Faithful(s) && k in s.reading && !s.m.Locked() && Places(s, id) <= 1
    ensures Places(Removed(s, k), id) == Places(s, id)
  {
    hide Times;
  }

  lemma QueuePlaces(s: System, k: nat, id: nat)
    requires Faithful(s) && k in s.holding && Places(s, id) <= 1
    ensures Places(Step(s, ExpireQueue(k)), id) == Places(s, id)
  {
    var t := s.holding[k];
    assert t.id == k;
    hide Faithful, Places;
    if Full(s.m) {
      RefusePlaces(s, k, id);
    } else {
      HandOverPlaces(s, k, t, s.m.queue + [t], id);
    }
  }

  lemma RefusePlaces(s: System, k: nat, id: nat)
    requires k in s.holding && Places(s, id) <= 1
    ensures Places(s.(holding := s.holding - {k}, refused := s.refused + {k}), id) == Places(s, id)
  {
    hide Times;
  }

  lemma HandOverPlaces(s: System, k: nat, t: Timer, queue: seq<Timer>, id: nat)
    requires k in s.holding && t.id == k && Places(s, id) <= 1
    ensures Places(s.(m := s.m.(queue := queue), holding := s.holding - {k}, queued := s.queued + [t]), id) == Places(s, id)
  {
    TimesMore(s.queued, t, id);
    hide Times;
  }

  lemma CancelPlaces(s: System, target: int, id: nat)
    requires Faithful(s) && !s.m.Locked() && Places(s, id) <= 1
    ensures Places(Cancelled(s, target), id) == Places(s, id)
  {
    hide Times;
  }

  lemma StepHandlers(s: System, a: Action)
    requires Faithful(s) && OnePlace(s) && Handlers(s) && Enabled(s, a)
    ensures Handlers(Step(s, a))
  {
    hide Handlers, Faithful, OnePlace;
    match a
    case Arm(callback) => ArmHandlers(s, callback);
    case SetId => MakingHandlers(s, a);
    case Insert => MakingHandlers(s, a);
    case Fire(id) => FireHandlers(s, id);
    case ReadId(id, garbage) => ReadHandlers(s, id, garbage);
    case ExpireRemove(id) => RemoveHandlers(s, id);
    case ExpireQueue(id) => QuietHandlers(s, a);
    case CancelRemove(target) => QuietHandlers(s, a);
    case CancelIo(id) => CancelHandlers(s, id);
    case Work => QuietHandlers(s, a);
  }

  lemma ArmHandlers(s: System, callback: Callback)
    requires Handlers(s) && !s.m.Locked()
    ensures Handlers(Step(s, Arm(callback)))
  {
    var u, id := Step(s, Arm(callback)), s.m.counter + 1;
    assert !Expiring(s, id) && id !in s.early;
    assert forall x: nat :: x != id ==> (Coming(u, x) <==> Coming(s, x)) && (Expiring(u, x) <==> Expiring(s, x));
  }

  lemma MakingHandlers(s: System, a: Action)
    requires Handlers(s) && Enabled(s, a) && (a.SetId? || a.Insert?)
    ensures Handlers(Step(s, a))
  {
    var u := Step(s, a);
    assert forall x: nat :: (Coming(u, x) <==> Coming(s, x)) && (Expiring(u, x) <==> Expiring(s, x));
    assert forall x: nat :: InMaking(u, x) || x in u.m.timers ==> InMaking(s, x) || x in s.m.timers;
  }

  lemma FireHandlers(s: System, id: nat)
    requires Handlers(s) && id in s.armed
    ensures Handlers(Step(s, Fire(id)))
  {
    var u := Step(s, Fire(id));
    assert Coming(s, id) && Expiring(s, id) && Coming(u, id);
    assert forall x: nat :: x != id ==> (Coming(u, x) <==> Coming(s, x)) && (Expiring(u, x) <==> Expiring(s, x));
  }

  lemma ReadHandlers(s: System, id: nat, garbage: int)
    requires Handlers(s) && id in s.fired
    ensures Handlers(Read(s, id, garbage))
  {
    var u := Read(s, id, garbage);
    assert forall x: nat :: x != id ==> (Coming(u, x) <==> Coming(s, x)) && (Expiring(u, x) <==> Expiring(s, x));
    assert Coming(s, id) && Expiring(s, id);
  }

  lemma RemoveHandlers(s: System, id: nat)
    requires Handlers(s) && id in s.reading && !s.m.Locked()
    ensures Handlers(Removed(s, id))
  {
    var u := Removed(s, id);
    assert forall x: nat :: x != id ==> (Coming(u, x) <==> Coming(s, x)) && (Expiring(u, x) <==> Expiring(s, x));
  }

  lemma CancelHandlers(s: System, id: nat)
    requires Handlers(s) && Faithful(s) && OnePlace(s) && id in s.cancelling
    ensures Handlers(Step(s, CancelIo(id)))
  {
    assert Places(s, id) <= 1 && id in s.cancelled;
    var u := Step(s, CancelIo(id));
    assert forall x: nat :: x != id ==> (Coming(u, x) <==> Coming(s, x)) && (Expiring(u, x) <==> Expiring(s, x));
  }

  lemma QuietHandlers(s: System, a: Action)
    requires Handlers(s) && Enabled(s, a) && (a.ExpireQueue? || a.CancelRemove? || a.Work?)
    ensures Handlers(Step(s, a))
  {
    var u := Step(s, a);
    assert forall x: nat :: (Coming(u, x) <==> Coming(s, x)) && (Expiring(u, x) <==> Expiring(s, x));
  }

  ghost predicate Valid(s: System) {
    Faithful(s) && OnePlace(s) && Handlers(s)
  }

  /** The invariant of all interleavings. */
  lemma {:induction false} Invariant(capacity: nat, acts: seq<Action>)
    requires Replay(capacity, acts).Some?
    ensures Valid(Replay(capacity, acts).value)
  {
    if acts == [] {
      BootValid(capacity);
    } else {
      hide Step, Enabled, Faithful, OnePlace, Handlers;
      var front, a := acts[..|acts| - 1], acts[|acts| - 1];
      Invariant(capacity, front);
      var s := Replay(capacity, front).value;
      StepFaithful(s, a);
      StepOnePlace(s, a);
      StepHandlers(s, a);
    }
  }

  lemma BootValid(capacity: nat)
    ensures Valid(Boot(capacity))
  {}

  lemma StepOnePlace(s: System, a: Action)
    requires Faithful(s) && OnePlace(s) && Enabled(s, a)
    ensures OnePlace(Step(s, a))
  {
    hide Step, Faithful, Enabled;
    forall id: nat ensures Places(Step(s, a), id) == One(1 <= id <= Step(s, a).m.counter) {
      StepPlaces(s, a, id);
    }
  }

  // ---------------------------------------------------------------------------
  // Safety
  // ---------------------------------------------------------------------------

  /** In every interleaving each scheduled timer is in exactly one place, and an id never
      scheduled is in none, whatever handlers read. */
  lemma ExactlyOnePlace(capacity: nat, acts: seq<Action>, id: nat)
    requires Replay(capacity, acts).Some?
    ensures var s := Replay(capacity, acts).value;
      One(InMaking(s, id)) + One(id in s.m.timers) + One(id in s.holding) + Times(s.m.queue, id) + Times(s.executed, id)
      + One(id in s.cancelled) + One(id in s.refused) == if 1 <= id <= s.m.counter then 1 else 0
  {
    Invariant(capacity, acts);
    hide Replay;
    var s := Replay(capacity, acts).value;
    assert Places(s, id) == One(1 <= id <= s.m.counter);
    TimesConcat(s.executed, s.m.queue, id);
  }

  /** Callbacks run in the order they were queued, each scheduled callback at most once, and
      only under the id it was scheduled with. */
  lemma RunsOnceInOrder(capacity: nat, acts: seq<Action>)
    requires Replay(capacity, acts).Some?
    ensures var s := Replay(capacity, acts).value;
      && s.executed <= s.queued
      && (forall i, j :: 0 <= i < j < |s.executed| ==> s.executed[i].id != s.executed[j].id)
      && (forall i :: 0 <= i < |s.executed| ==> Genuine(s, s.executed[i]))
  {
    Invariant(capacity, acts);
    hide Replay;
    var s := Replay(capacity, acts).value;
    forall i, j | 0 <= i < j < |s.executed| ensures s.executed[i].id != s.executed[j].id {
      assert Places(s, s.executed[i].id) <= 1;
      if s.executed[i].id == s.executed[j].id {
        TwiceCounts(s.queued, i, j);
      }
    }
    forall i | 0 <= i < |s.executed| ensures Genuine(s, s.executed[i]) {
      assert s.queued[i] in s.queued;
    }
  }

  /** Once a cancel has removed a timer its callback never runs, whatever follows. */
  lemma CancelWins(capacity: nat, acts: seq<Action>, more: seq<Action>, id: nat)
    requires Replay(capacity, acts).Some? && Replay(capacity, acts + more).Some?
    requires id in Replay(capacity, acts).value.cancelled
    ensures var s := Replay(capacity, acts + more).value;
      forall i :: 0 <= i < |s.executed| ==> s.executed[i].id != id
  {
    StillCancelled(capacity, acts, more, id);
    Invariant(capacity, acts + more);
    hide Replay;
    var s := Replay(capacity, acts + more).value;
    forall i | 0 <= i < |s.executed| ensures s.executed[i].id != id {
      assert s.queued[i] == s.executed[i];
      OnceCounts(s.queued, i);
      assert Places(s, id) <= 1;
    }
  }

  lemma {:induction false} StillCancelled(capacity: nat, acts: seq<Action>, more: seq<Action>, id: nat)
    requires Replay(capacity, acts).Some? && Replay(capacity, acts + more).Some?
    requires id in Replay(capacity, acts).value.cancelled
    ensures id in Replay(capacity, acts + more).value.cancelled
  {
    if more == [] {
      assert acts + more == acts;
    } else {
      assert (acts + more)[..|acts + more| - 1] == acts + more[..|more| - 1];
      StillCancelled(capacity, acts, more[..|more| - 1], id);
    }
  }

  // ---------------------------------------------------------------------------
  // When expiries come
  // ---------------------------------------------------------------------------

  /** No scheduling and no expiry is under way. */
  predicate AtRest(s: System) {
    !s.m.Locked() && s.armed == {} && s.fired == {} && s.reading == map[] && s.holding == map[]
  }

  /** The expiry of a pending timer is still to come if and only if its handler did not read the
      identifier before it was set. */
  lemma ExpiryComesIff(capacity: nat, acts: seq<Action>, id: nat)
    requires Replay(capacity, acts).Some? && id in Replay(capacity, acts).value.m.timers
    ensures var s := Replay(capacity, acts).value; Coming(s, id) <==> id !in s.early
  {
    Invariant(capacity, acts);
    hide Replay;
  }

  lemma ReplayMore(capacity: nat, acts: seq<Action>, a: Action)
    requires Replay(capacity, acts).Some? && Enabled(Replay(capacity, acts).value, a)
    ensures Replay(capacity, acts + [a]) == Some(Step(Replay(capacity, acts).value, a))
  {
    assert (acts + [a])[..|acts|] == acts;
  }

  /** The interleaving that loses a timer: its handler runs between the arming of the I/O timer and
      the assignment of the identifier. `g` is what it finds in the object. */
  lemma EarlyReadLosesTimer(capacity: nat, callback: Callback, g: int)
    requires g != 1
    ensures var r := Replay(capacity, [Arm(callback)] + [Fire(1)] + [ReadId(1, g)] + [SetId] + [Insert] + [ExpireRemove(1)]);
      && r.Some? && AtRest(r.value) && r.value.queued == []
      && 1 in r.value.m.timers && r.value.cancelled == {} && r.value.refused == {} && r.value.early == {1}
  {
    hide Replay;
    var t, made := Timer(1, callback), Making(1, callback, false);
    var s0 := Boot(capacity);
    var s1 := s0.(m := s0.m.(counter := 1, making := Some(made)), armed := {1}, scheduled := [callback]);
    var s3 := s1.(armed := {}, reading := map[1 := g], early := {1});
    var s5 := s3.(m := s1.m.(making := None, timers := map[1 := t]));
    Started(capacity);
    assert [] + [Arm(callback)] == [Arm(callback)];
    ReplayMore(capacity, [], Arm(callback));
    assert Step(s0, Arm(callback)) == s1;
    ReplayMore(capacity, [Arm(callback)], Fire(1));
    ReplayMore(capacity, [Arm(callback)] + [Fire(1)], ReadId(1, g));
    assert Step(Step(s1, Fire(1)), ReadId(1, g)) == s3;
    ReplayMore(capacity, [Arm(callback)] + [Fire(1)] + [ReadId(1, g)], SetId);
    ReplayMore(capacity, [Arm(callback)] + [Fire(1)] + [ReadId(1, g)] + [SetId], Insert);
    assert Step(Step(s3, SetId), Insert) == s5;
    ReplayMore(capacity, [Arm(callback)] + [Fire(1)] + [ReadId(1, g)] + [SetId] + [Insert], ExpireRemove(1));
    assert Step(s5, ExpireRemove(1)) == s5.(reading := map[]);
  }

  lemma Started(capacity: nat)
    ensures Replay(capacity, []) == Some(Boot(capacity))
  {}

  /** A lost timer stays lost until a script cancels it, or some handler happens to read its
      identifier in place of its own. */
  lemma {:induction false} StaysLost(capacity: nat, acts: seq<Action>, more: seq<Action>, id: nat)
    requires Replay(capacity, acts).Some? && Replay(capacity, acts + more).Some?
    requires Lost(Replay(capacity, acts).value, id)
    requires forall a :: a in more ==> a != CancelRemove(id) && !(a.ReadId? && a.garbage == id)
    ensures Lost(Replay(capacity, acts + more).value, id)
  {
    if more == [] {
      assert acts + more == acts;
    } else {
      var n := |more| - 1;
      assert (acts + more)[..|acts + more| - 1] == acts + more[..n];
      assert forall a :: a in more[..n] ==> a in more;
      StaysLost(capacity, acts, more[..n], id);
      Invariant(capacity, acts + more[..n]);
      hide Step, Enabled, Valid, Lost;
      assert more[n] in more;
      StepLost(Replay(capacity, acts + more[..n]).value, more[n], id);
    }
  }

  /** Pending, with a handler that was too early, and no other handler about to take it. */
  ghost predicate Lost(s: System, id: nat) {
    id in s.m.timers && id in s.early && forall h :: h in s.reading ==> s.reading[h] != id
  }

  lemma StepLost(s: System, a: Action, id: nat)
    requires Valid(s) && Enabled(s, a) && Lost(s, id)
    requires a != CancelRemove(id) && !(a.ReadId? && a.garbage == id)
    ensures Lost(Step(s, a), id)
  {
    hide Faithful, OnePlace;
    assert !Coming(s, id);
  }

  /** One timer is pending. */
  function OnePending(capacity: nat, a: Callback): System {
    var s := Boot(capacity);
    s.(m := s.m.(counter := 1, timers := map[1 := Timer(1, a)]), armed := {1}, scheduled := [a])
  }

  /** And the handler of a second one has read the first one's identifier. */
  function TwoPending(capacity: nat, a: Callback, b: Callback): System {
    var s := OnePending(capacity, a);
    s.(m := s.m.(counter := 2, timers := map[1 := Timer(1, a), 2 := Timer(2, b)]), scheduled := [a, b],
       reading := map[2 := 1], early := {2})
  }

  lemma FirstScheduled(capacity: nat, a: Callback)
    ensures Replay(capacity, [Arm(a)] + [SetId] + [Insert]) == Some(OnePending(capacity, a))
  {
    hide Replay;
    var s0 := Boot(capacity);
    Started(capacity);
    assert [] + [Arm(a)] == [Arm(a)];
    ReplayMore(capacity, [], Arm(a));
    ReplayMore(capacity, [Arm(a)], SetId);
    ReplayMore(capacity, [Arm(a)] + [SetId], Insert);
    assert Step(Step(Step(s0, Arm(a)), SetId), Insert) == OnePending(capacity, a);
  }

  lemma SecondMisread(capacity: nat, acts: seq<Action>, a: Callback, b: Callback)
    requires Replay(capacity, acts) == Some(OnePending(capacity, a))
    ensures Replay(capacity, acts + [Arm(b)] + [Fire(2)] + [ReadId(2, 1)] + [SetId] + [Insert])
         == Some(TwoPending(capacity, a, b))
  {
    hide Replay;
    var s := OnePending(capacity, a);
    var misread := s.(m := s.m.(counter := 2, making := Some(Making(2, b, false))), scheduled := [a, b],
                      reading := map[2 := 1], early := {2});
    ReplayMore(capacity, acts, Arm(b));
    ReplayMore(capacity, acts + [Arm(b)], Fire(2));
    ReplayMore(capacity, acts + [Arm(b)] + [Fire(2)], ReadId(2, 1));
    assert Step(Step(Step(s, Arm(b)), Fire(2)), ReadId(2, 1)) == misread;
    ReplayMore(capacity, acts + [Arm(b)] + [Fire(2)] + [ReadId(2, 1)], SetId);
    ReplayMore(capacity, acts + [Arm(b)] + [Fire(2)] + [ReadId(2, 1)] + [SetId], Insert);
    assert Step(Step(misread, SetId), Insert) == TwoPending(capacity, a, b);
  }

  lemma FirstRuns(capacity: nat, acts: seq<Action>, a: Callback, b: Callback)
    requires Replay(capacity, acts) == Some(TwoPending(capacity, a, b))
    ensures var r := Replay(capacity, acts + [ExpireRemove(2)] + [ExpireQueue(1)] + [Work]);
      r.Some? && r.value.executed == [Timer(1, a)] && 1 in r.value.armed
  {
    hide Replay;
    var s := TwoPending(capacity, a, b);
    ReplayMore(capacity, acts, ExpireRemove(2));
    assert Step(s, ExpireRemove(2)).holding == map[1 := Timer(1, a)];
    ReplayMore(capacity, acts + [ExpireRemove(2)], ExpireQueue(1));
    ReplayMore(capacity, acts + [ExpireRemove(2)] + [ExpireQueue(1)], Work);
  }

  /** The interleaving that runs a callback before its time: the handler of a second timer reads the
      first one's identifier. */
  lemma EarlyReadRunsAnother(capacity: nat, a: Callback, b: Callback)
    ensures var r := Replay(capacity, [Arm(a)] + [SetId] + [Insert] + [Arm(b)] + [Fire(2)] + [ReadId(2, 1)] + [SetId]
                                      + [Insert] + [ExpireRemove(2)] + [ExpireQueue(1)] + [Work]);
      r.Some? && r.value.executed == [Timer(1, a)] && 1 in r.value.armed
  {
    hide Replay, OnePending, TwoPending;
    FirstScheduled(capacity, a);
    SecondMisread(capacity, [Arm(a)] + [SetId] + [Insert], a, b);
    FirstRuns(capacity, [Arm(a)] + [SetId] + [Insert] + [Arm(b)] + [Fire(2)] + [ReadId(2, 1)] + [SetId] + [Insert], a, b);
  }
}
