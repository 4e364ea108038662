/** The bounded queue of callbacks: exactly when it refuses a timer. */
module JsTimerQueue {
  import opened JsTimers
  import opened JsTimerLaws
  import opened Wrappers

  lemma {:induction false} CapacityStays(capacity: nat, acts: seq<Action>)
    requires Replay(capacity, acts).Some?
    ensures Replay(capacity, acts).value.m.capacity == capacity
  {
    if acts != [] {
      CapacityStays(capacity, acts[..|acts| - 1]);
    }
  }

  /** The queue has a bound and as many callbacks wait as it allows: those queued and not yet run. */
  predicate NoRoom(capacity: nat, s: System) {
    capacity != 0 && |s.queued| - |s.executed| >= capacity
  }

  /** In every interleaving a step refuses a timer if and only if it hands the timer over while
      there is no room; with room it queues it. */
  lemma RefusesIff(capacity: nat, acts: seq<Action>, a: Action, id: nat)
    requires Replay(capacity, acts).Some? && Enabled(Replay(capacity, acts).value, a)
    ensures var s := Replay(capacity, acts).value;
      && (id in Step(s, a).refused && id !in s.refused <==> a == ExpireQueue(id) && NoRoom(capacity, s))
      && (Times(Step(s, a).queued, id) == Times(s.queued, id) + One(a == ExpireQueue(id) && !NoRoom(capacity, s)))
  {
    Invariant(capacity, acts);
    CapacityStays(capacity, acts);
    var s := Replay(capacity, acts).value;
    hide Replay;
    if a.ExpireQueue? {
      assert Places(s, a.id) <= 1 && s.holding[a.id].id == a.id;
      TimesMore(s.queued, s.holding[a.id], id);
    }
    hide Times, OnePlace, Handlers;
  }

  /** So there are never more waiting than the bound. */
  lemma {:induction false} QueueBounded(capacity: nat, acts: seq<Action>)
    requires Replay(capacity, acts).Some? && capacity != 0
    ensures var s := Replay(capacity, acts).value; |s.queued| - |s.executed| == |s.m.queue| <= capacity
  {
    Invariant(capacity, acts);
    if acts != [] {
      var front, a := acts[..|acts| - 1], acts[|acts| - 1];
      QueueBounded(capacity, front);
      CapacityStays(capacity, front);
      StepBounded(Replay(capacity, front).value, a);
    }
    hide Replay, Step, OnePlace, Handlers;
  }

  lemma StepBounded(s: System, a: Action)
    requires Enabled(s, a) && |s.m.queue| <= s.m.capacity && s.m.capacity != 0
    ensures |Step(s, a).m.queue| <= s.m.capacity
  {}

  // ---------------------------------------------------------------------------
  // Enough room
  // ---------------------------------------------------------------------------

  /** How many of the timers have an identifier up to `n`. */
  function Total(ts: seq<Timer>, n: nat): nat {
    if n == 0 then 0 else Total(ts, n - 1) + Times(ts, n)
  }

  lemma {:induction false} TotalMore(ts: seq<Timer>, t: Timer, n: nat)
    ensures Total(ts + [t], n) == Total(ts, n) + One(1 <= t.id <= n)
  {
    if n > 0 {
      TotalMore(ts, t, n - 1);
      TimesMore(ts, t, n);
    }
  }

  lemma {:induction false} TotalIsLength(ts: seq<Timer>, n: nat)
    requires forall t :: t in ts ==> 1 <= t.id <= n
    ensures Total(ts, n) == |ts|
  {
    if ts == [] {
      TotalNone(n);
    } else {
      var front, t := ts[..|ts| - 1], ts[|ts| - 1];
      TotalIsLength(front, n);
      TotalMore(front, t, n);
      assert front + [t] == ts;
    }
  }

  lemma {:induction false} TotalNone(n: nat)
    ensures Total([], n) == 0
  {
    if n > 0 {
      TotalNone(n - 1);
    }
  }

  lemma {:induction false} TotalAtMost(ts: seq<Timer>, n: nat, id: nat)
    requires forall x: nat :: Times(ts, x) <= 1
    requires Times(ts, id) == 0
    ensures Total(ts, n) + One(1 <= id <= n) <= n
  {
    if n > 0 {
      TotalAtMost(ts, n - 1, id);
    }
  }

  /** While one timer is still held, fewer than all are queued. */
  lemma HeldLeavesRoom(s: System, id: nat)
    requires Valid(s) && id in s.holding
    ensures |s.queued| < |s.scheduled|
  {
    assert Places(s, id) == 1;
    forall x: nat ensures Times(s.queued, x) <= 1 {
      assert Places(s, x) <= 1;
    }
    TotalIsLength(s.queued, s.m.counter);
    TotalAtMost(s.queued, s.m.counter, id);
    hide Times, Total, Handlers;
  }

  /** Without a bound, or with one no smaller than the number of timers scheduled, none is ever
      refused. */
  lemma {:induction false} NeverRefused(capacity: nat, acts: seq<Action>)
    requires Replay(capacity, acts).Some?
    requires capacity == 0 || |Replay(capacity, acts).value.scheduled| <= capacity
    ensures Replay(capacity, acts).value.refused == {}
  {
    if acts != [] {
      var front, a := acts[..|acts| - 1], acts[|acts| - 1];
      var s := Replay(capacity, front).value;
      assert |s.scheduled| <= |Step(s, a).scheduled|;
      NeverRefused(capacity, front);
      Invariant(capacity, front);
      if a.ExpireQueue? {
        RefusesIff(capacity, front, a, a.id);
        HeldLeavesRoom(s, a.id);
      }
      hide Replay, Valid;
    }
  }
}
