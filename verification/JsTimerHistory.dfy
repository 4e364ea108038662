/** What handlers that read a wrong identifier do: exactly which timers are lost, which run before
    their time, and which handlers touch a timer object that is gone. */
module JsTimerHistory {
  import opened JsTimers
  import opened JsTimerLaws
  import opened JsTimerQueue
  import opened Wrappers

  // ---------------------------------------------------------------------------
  // Timers that run before their time
  // ---------------------------------------------------------------------------

  /** The timer was taken out to run while its own expiry is still under way. */
  predicate Premature(s: System, id: nat) {
    (id in s.holding || Times(s.queued, id) > 0) && Expiring(s, id)
  }

  /** The handler of another timer takes this one out. */
  predicate Takes(s: System, a: Action, id: nat) {
    a.ExpireRemove? && a.id in s.reading && a.id != id && s.reading[a.id] == id && id in s.m.timers
  }

  /** And does so before this one's own handler has been through. */
  predicate Steals(s: System, a: Action, id: nat) {
    Takes(s, a, id) && Expiring(s, id)
  }

  /** At some point of the run the timer was premature. */
  predicate WasPremature(capacity: nat, acts: seq<Action>, id: nat)
    requires Replay(capacity, acts).Some?
  {
    Premature(Replay(capacity, acts).value, id) ||
    (acts != [] && WasPremature(capacity, acts[..|acts| - 1], id))
  }

  /** Some action of the run stole it. */
  predicate WasStolen(capacity: nat, acts: seq<Action>, id: nat)
    requires Replay(capacity, acts).Some?
  {
    acts != [] &&
    var front, a := acts[..|acts| - 1], acts[|acts| - 1];
    WasStolen(capacity, front, id) || Steals(Replay(capacity, front).value, a, id)
  }

  /** Some action of the run took it out for another timer. */
  predicate WasTaken(capacity: nat, acts: seq<Action>, id: nat)
    requires Replay(capacity, acts).Some?
  {
    acts != [] &&
    var front, a := acts[..|acts| - 1], acts[|acts| - 1];
    WasTaken(capacity, front, id) || Takes(Replay(capacity, front).value, a, id)
  }

  lemma PrematureStep(s: System, a: Action, id: nat)
    requires Valid(s) && Enabled(s, a) && !Premature(s, id)
    ensures Premature(Step(s, a), id) <==> Steals(s, a, id)
  {
    match a
    case Arm(callback) => ArmPremature(s, callback, id);
    case ExpireRemove(h) => RemovePremature(s, h, id);
    case ExpireQueue(k) => QueuePremature(s, k, id);
    case _ =>
      hide Times;
  }

  lemma ArmPremature(s: System, callback: Callback, id: nat)
    requires OnePlace(s) && !s.m.Locked() && !Premature(s, id)
    ensures !Premature(Step(s, Arm(callback)), id)
  {
    assert Places(s, s.m.counter + 1) == 0;
    hide OnePlace, Times;
  }

  lemma RemovePremature(s: System, h: nat, id: nat)
    requires Faithful(s) && Handlers(s) && h in s.reading && !Premature(s, id)
    ensures Premature(Removed(s, h), id) <==> Steals(s, ExpireRemove(h), id)
  {
    assert h !in s.armed && h !in s.fired;
    assert s.reading[h] in s.m.timers ==> s.m.timers[s.reading[h]].id == s.reading[h];
    hide Times, Faithful, Handlers;
  }

  lemma QueuePremature(s: System, k: nat, id: nat)
    requires Faithful(s) && k in s.holding && !Premature(s, id)
    ensures !Premature(Step(s, ExpireQueue(k)), id)
  {
    assert s.holding[k].id == k;
    TimesMore(s.queued, s.holding[k], id);
    hide Times, Faithful;
  }

  /** In every interleaving, a callback is taken out to run before its own expiry has been handled
      if and only if the handler of another timer, with this one's identifier in hand, takes it. */
  lemma {:induction false} PrematureIff(capacity: nat, acts: seq<Action>, id: nat)
    requires Replay(capacity, acts).Some?
    ensures WasPremature(capacity, acts, id) <==> WasStolen(capacity, acts, id)
  {
    if acts != [] {
      hide Step, Enabled, Premature, Steals, Valid;
      var front, a := acts[..|acts| - 1], acts[|acts| - 1];
      PrematureIff(capacity, front, id);
      Invariant(capacity, front);
      var s := Replay(capacity, front).value;
      if !WasPremature(capacity, front, id) {
        NotPremature(capacity, front, id);
        PrematureStep(s, a, id);
      }
    }
  }

  lemma NotPremature(capacity: nat, acts: seq<Action>, id: nat)
    requires Replay(capacity, acts).Some? && !WasPremature(capacity, acts, id)
    ensures !Premature(Replay(capacity, acts).value, id)
  {
    hide Premature, Replay;
  }

  /** Only a handler that read a wrong identifier steals. */
  lemma {:induction false} StolenByMisreader(capacity: nat, acts: seq<Action>, id: nat)
    requires Replay(capacity, acts).Some? && WasStolen(capacity, acts, id)
    ensures var s := Replay(capacity, acts).value; s.early != {} || s.late != {}
  {
    var front, a := acts[..|acts| - 1], acts[|acts| - 1];
    var s := Replay(capacity, front).value;
    MisreadersStay(s, a);
    if WasStolen(capacity, front, id) {
      StolenByMisreader(capacity, front, id);
    } else {
      Invariant(capacity, front);
      assert Handlers(s);
    }
    hide Step, Handlers, Enabled;
  }

  lemma MisreadersStay(s: System, a: Action)
    requires Enabled(s, a)
    ensures s.early <= Step(s, a).early && s.late <= Step(s, a).late
  {}

  /** So as long as no handler did, a callback is queued only after its own expiry was handled. */
  lemma RunsAfterExpiry(capacity: nat, acts: seq<Action>, i: nat)
    requires Replay(capacity, acts).Some?
    requires var s := Replay(capacity, acts).value; s.early == {} && s.late == {} && i < |s.queued|
    ensures var s := Replay(capacity, acts).value; !Expiring(s, s.queued[i].id)
  {
    var s := Replay(capacity, acts).value;
    var id := s.queued[i].id;
    OnceCounts(s.queued, i);
    if Expiring(s, id) {
      assert Premature(s, id) && WasPremature(capacity, acts, id);
      PrematureIff(capacity, acts, id);
      StolenByMisreader(capacity, acts, id);
    }
  }

  // ---------------------------------------------------------------------------
  // Timers that are lost
  // ---------------------------------------------------------------------------

  /** Scheduled, and no longer pending. */
  predicate Out(s: System, id: nat) {
    1 <= id <= s.m.counter && !InMaking(s, id) && id !in s.m.timers
  }

  lemma StepOut(s: System, a: Action, id: nat)
    requires OnePlace(s) && Enabled(s, a) && (Out(s, id) || Takes(s, a, id))
    ensures Out(Step(s, a), id)
  {
    assert Places(s, id) == One(1 <= id <= s.m.counter);
    hide OnePlace, Times;
  }

  lemma {:induction false} TakenOut(capacity: nat, acts: seq<Action>, id: nat)
    requires Replay(capacity, acts).Some? && WasTaken(capacity, acts, id)
    ensures Out(Replay(capacity, acts).value, id)
  {
    hide Step, Enabled, Takes, Out, OnePlace;
    var front, a := acts[..|acts| - 1], acts[|acts| - 1];
    Invariant(capacity, front);
    if WasTaken(capacity, front, id) {
      TakenOut(capacity, front, id);
    }
    StepOut(Replay(capacity, front).value, a, id);
  }

  /** Its handler was too early, and still it is neither pending nor cancelled. */
  predicate Rescued(s: System, id: nat) {
    id in s.early && !InMaking(s, id) && id !in s.m.timers && id !in s.cancelled
  }

  lemma StepRescued(s: System, a: Action, id: nat)
    requires Faithful(s) && Handlers(s) && Enabled(s, a) && Rescued(Step(s, a), id)
    ensures Rescued(s, id) || Takes(s, a, id)
  {
    assert id in s.early ==> !Coming(s, id);
    assert a.CancelRemove? && a.target in s.m.timers ==> s.m.timers[a.target].id == a.target;
    hide Handlers, Faithful;
  }

  lemma {:induction false} RescuedByTaking(capacity: nat, acts: seq<Action>, id: nat)
    requires Replay(capacity, acts).Some? && Rescued(Replay(capacity, acts).value, id)
    ensures WasTaken(capacity, acts, id)
  {
    if acts != [] {
      hide Step, Enabled, Takes, Rescued, Faithful, Handlers;
      var front, a := acts[..|acts| - 1], acts[|acts| - 1];
      var s := Replay(capacity, front).value;
      Invariant(capacity, front);
      StepRescued(s, a, id);
      if Rescued(s, id) {
        RescuedByTaking(capacity, front, id);
      }
    }
  }

  /** When nothing is under way, a timer that was neither cancelled nor refused has been queued, and
      with an empty queue has run, if and only if its handler did not read the identifier before
      it was set, or the handler of another timer happened to take it out. Without a bound, or
      with room for every timer, none is refused. */
  lemma ExpiryAlwaysQueued(capacity: nat, acts: seq<Action>, id: nat)
    requires Replay(capacity, acts).Some?
    requires var s := Replay(capacity, acts).value;
      && AtRest(s) && 1 <= id <= s.m.counter && id !in s.cancelled
      && (id !in s.refused || capacity == 0 || |s.scheduled| <= capacity)
    ensures var s := Replay(capacity, acts).value;
      && (Times(s.queued, id) == 1 <==> id !in s.early || WasTaken(capacity, acts, id))
      && (s.m.queue == [] ==> (Times(s.executed, id) == 1 <==> id !in s.early || WasTaken(capacity, acts, id)))
  {
    var s := Replay(capacity, acts).value;
    Invariant(capacity, acts);
    if capacity == 0 || |s.scheduled| <= capacity {
      NeverRefused(capacity, acts);
    }
    if WasTaken(capacity, acts, id) {
      TakenOut(capacity, acts, id);
    }
    if Rescued(s, id) {
      RescuedByTaking(capacity, acts, id);
    }
    hide Replay, WasTaken;
    assert Places(s, id) == 1;
    if s.m.queue == [] {
      assert s.executed + s.m.queue == s.executed;
    }
  }

  // ---------------------------------------------------------------------------
  // Timer objects that are gone
  // ---------------------------------------------------------------------------

  lemma {:induction false} InSequence(ts: seq<Timer>, id: nat)
    ensures Times(ts, id) > 0 <==> exists i :: 0 <= i < |ts| && ts[i].id == id
  {
    if ts != [] {
      var n := |ts| - 1;
      InSequence(ts[..n], id);
      if i :| 0 <= i < n && ts[i].id == id {
        assert ts[..n][i].id == id;
      }
      if i :| 0 <= i < n && ts[..n][i].id == id {
        assert ts[i].id == id;
      }
    }
  }

  /** A handler that is about to read its identifier finds its timer object gone if and only if a
      cancellation of the timer is complete, or the timer has run or was refused; the latter two
      after another handler took it out. */
  lemma FreedIff(capacity: nat, acts: seq<Action>, id: nat)
    requires Replay(capacity, acts).Some? && id in Replay(capacity, acts).value.fired
    ensures var s := Replay(capacity, acts).value;
      !Alive(s, id) <==>
        (id in s.cancelled && id !in s.cancelling) || Times(s.executed, id) == 1 || id in s.refused
  {
    Invariant(capacity, acts);
    hide Replay;
    var s := Replay(capacity, acts).value;
    assert Expiring(s, id) && Places(s, id) == 1;
    TimesConcat(s.executed, s.m.queue, id);
    InSequence(s.m.queue, id);
    hide Times, Handlers, OnePlace;
  }

  /** Such an interleaving: the timer fires, and is cancelled before its handler starts. */
  lemma CancelledTooLate(capacity: nat, callback: Callback)
    ensures var r := Replay(capacity, [Arm(callback)] + [SetId] + [Insert] + [Fire(1)] + [CancelRemove(1)] + [CancelIo(1)]);
      r.Some? && 1 in r.value.fired && !Alive(r.value, 1)
  {
    hide Replay;
    FirstScheduled(capacity, callback);
    var s, acts := OnePending(capacity, callback), [Arm(callback)] + [SetId] + [Insert];
    ReplayMore(capacity, acts, Fire(1));
    ReplayMore(capacity, acts + [Fire(1)], CancelRemove(1));
    ReplayMore(capacity, acts + [Fire(1)] + [CancelRemove(1)], CancelIo(1));
  }

  // ---------------------------------------------------------------------------
  // Timers that cannot fire any more
  // ---------------------------------------------------------------------------

  /** The cancellation is complete. */
  predicate Disarmed(s: System, id: nat) { id in s.cancelled && id !in s.cancelling }

  lemma StepDisarms(s: System, a: Action, id: nat)
    requires Valid(s) && Enabled(s, a) && (Disarmed(s, id) ==> id !in s.armed)
    ensures Disarmed(Step(s, a), id) ==> id !in Step(s, a).armed
  {
    if a.Arm? {
      assert Places(s, s.m.counter + 1) == 0;
    }
    hide OnePlace, Handlers, Times;
  }

  /** In every interleaving, once a cancellation is complete the timer's expiry can no longer fire. */
  lemma CancelDisarms(capacity: nat, acts: seq<Action>, id: nat)
    requires Replay(capacity, acts).Some?
    requires Disarmed(Replay(capacity, acts).value, id)
    ensures !Enabled(Replay(capacity, acts).value, Fire(id))
  {
    NotArmed(capacity, acts, id);
  }

  lemma {:induction false} NotArmed(capacity: nat, acts: seq<Action>, id: nat)
    requires Replay(capacity, acts).Some?
    ensures var s := Replay(capacity, acts).value; Disarmed(s, id) ==> id !in s.armed
  {
    if acts != [] {
      hide Step, Enabled, Valid, Disarmed;
      var front := acts[..|acts| - 1];
      NotArmed(capacity, front, id);
      Invariant(capacity, front);
      StepDisarms(Replay(capacity, front).value, acts[|acts| - 1], id);
    } else {
      assert Replay(capacity, acts) == Some(Boot(capacity));
    }
  }
}
