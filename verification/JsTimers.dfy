/** JavaScript timers: scheduled by script, expired by I/O threads, cancelled by script, and
    executed by the event loop. Each step below is what one thread does between two points at
    which another can be seen: a lock taken or released, an I/O timer armed, or the identifier in
    the timer object written or read. */
module JsTimers {
  import opened Wrappers

  type Callback = nat
  datatype Timer = Timer(id: nat, callback: Callback)

  /** A timer object whose constructor has armed the I/O timer; its identifier may not be set yet.
      While there is one, its maker holds the lock. */
  datatype Making = Making(id: nat, callback: Callback, idSet: bool)

  /** The manager's shared state: the map of pending timers, the id counter, the object under
      construction, and the bounded queue of callbacks that wait for the event loop. */
  datatype Manager = Manager(timers: map<int, Timer>, counter: nat, making: Option<Making>, queue: seq<Timer>,
                             capacity: nat) {
    predicate Locked() { making.Some? }
  }

  // ---------------------------------------------------------------------------
  // The operations and the class
  // ---------------------------------------------------------------------------

  /** The counter is taken and the I/O timer armed. */
  function Armed(m: Manager, callback: Callback): Manager {
    m.(counter := m.counter + 1, making := Some(Making(m.counter + 1, callback, false)))
  }

  /** Only then is the identifier stored in the object. */
  function Identified(m: Manager): Manager
    requires m.Locked()
  {
    m.(making := Some(m.making.value.(idSet := true)))
  }

  function Inserted(m: Manager): Manager
    requires m.Locked()
  {
    var t := m.making.value;
    m.(timers := m.timers[t.id := Timer(t.id, t.callback)], making := None)
  }

  function Found(m: Manager, id: int): Option<Timer> {
    if id in m.timers then Some(m.timers[id]) else None
  }

  function Erased(m: Manager, id: int): Manager {
    m.(timers := m.timers - {id})
  }

  predicate Full(m: Manager) { m.capacity != 0 && |m.queue| >= m.capacity }

  /** A full queue refuses the entry, and nobody looks at the result. */
  function Queued(m: Manager, t: Timer): Manager {
    if Full(m) then m else m.(queue := m.queue + [t])
  }

  class TimerManager {
    var timers: map<int, Timer>
    var timerIdCounter: nat
    var making: Option<Making>
    var queue: seq<Timer>
    const capacity: nat

    function State(): Manager
      reads this
    {
      Manager(timers, timerIdCounter, making, queue, capacity)
    }

    constructor (maxSize: nat)
      ensures State() == Manager(map[], 0, None, [], maxSize)
    {
      timers, timerIdCounter, making, queue, capacity := map[], 0, None, [], maxSize;
    }

    method ArmTimer(callback: Callback)
      requires !State().Locked()
      modifies this
      ensures State() == Armed(old(State()), callback)
    {
      timerIdCounter := timerIdCounter + 1;
      making := Some(Making(timerIdCounter, callback, false));
    }

    method SetId()
      requires State().Locked()
      modifies this
      ensures State() == Identified(old(State()))
    {
      making := Some(making.value.(idSet := true));
    }

    method Insert() returns (id: nat)
      requires State().Locked()
      modifies this
      ensures State() == Inserted(old(State())) && id == old(making).value.id
    {
      id := making.value.id;
      timers := timers[id := Timer(id, making.value.callback)];
      making := None;
    }

    /** Its three parts, when no expiry comes in between. */
    method ScheduleTimer(callback: Callback) returns (id: nat)
      requires !State().Locked()
      modifies this
      ensures State() == Inserted(Identified(Armed(old(State()), callback)))
      ensures id == old(timerIdCounter) + 1 && id in timers && timers[id] == Timer(id, callback) && !State().Locked()
    {
      ArmTimer(callback);
      SetId();
      id := Insert();
    }

    method RemoveTimer(id: int) returns (t: Option<Timer>)
      requires !State().Locked()
      modifies this
      ensures State() == Erased(old(State()), id) && t == Found(old(State()), id)
    {
      t := None;
      if id in timers {
        t := Some(timers[id]);
      }
      timers := timers - {id};
    }

    /** Returns whether the I/O timer has to be cancelled as well. */
    method CancelTimer(id: int) returns (cancelIo: bool)
      requires !State().Locked()
      modifies this
      ensures State() == Erased(old(State()), id) && cancelIo == (id in old(timers))
    {
      var t := RemoveTimer(id);
      cancelIo := t.Some?;
    }

    method Execute(t: Timer)
      modifies this
      ensures State() == Queued(old(State()), t)
    {
      if capacity != 0 && |queue| >= capacity {
        return;
      }
      queue := queue + [t];
    }

    /** `id` is what the handler read from its timer object. */
    method OnTimerExpire(id: int)
      requires !State().Locked()
      modifies this
      ensures id !in old(timers) ==> State() == old(State())
      ensures id in old(timers) ==> State() == Queued(Erased(old(State()), id), old(timers)[id])
    {
      var t := RemoveTimer(id);
      if t.Some? {
        Execute(t.value);
      } else {
        assert timers == old(timers);
      }
    }

    /** One round of the event loop: the callback to run now, if any. */
    method DoOneWork() returns (run: Option<Timer>)
      modifies this
      ensures old(queue) == [] ==> run == None && State() == old(State())
      ensures old(queue) != [] ==> run == Some(old(queue)[0]) && State() == old(State()).(queue := old(queue)[1..])
    {
      if |queue| == 0 {
        return None;
      }
      run := Some(queue[0]);
      queue := queue[1..];
    }
  }

  // ---------------------------------------------------------------------------
  // Threads
  // ---------------------------------------------------------------------------

  /** `armed`: I/O timers that can still fire. `fired`: expiry handlers that have not read their
      timer's identifier yet. `reading`: handlers on their way to the lock, with what they read.
      `holding`: timers removed by a handler that has not queued them yet. `cancelling`: timers
      removed by a canceller that has not cancelled the I/O timer yet. `early` and `late`: handlers
      that read something else than their identifier, because it was not set yet or because the
      timer object was gone. */
  datatype System = System(m: Manager, armed: set<nat>, fired: set<nat>, reading: map<nat, int>,
                           holding: map<nat, Timer>, cancelling: set<nat>,
                           scheduled: seq<Callback>, queued: seq<Timer>, executed: seq<Timer>,
                           cancelled: set<nat>, refused: set<nat>, early: set<nat>, late: set<nat>)

  function Boot(capacity: nat): System {
    System(Manager(map[], 0, None, [], capacity), {}, {}, map[], map[], {}, [], [], [], {}, {}, {}, {})
  }

  datatype Action =
    | Arm(callback: Callback)
    | SetId
    | Insert
    | Fire(id: nat)
    | ReadId(id: nat, garbage: int)
    | ExpireRemove(id: nat)
    | ExpireQueue(id: nat)
    | CancelRemove(target: int)
    | CancelIo(id: nat)
    | Work

  predicate InMaking(s: System, id: nat) { s.m.making.Some? && s.m.making.value.id == id }

  /** Something still refers to the timer object; the handler itself does not keep it alive. */
  predicate Alive(s: System, id: nat) {
    InMaking(s, id) || id in s.m.timers || id in s.holding || id in s.cancelling ||
    exists i :: 0 <= i < |s.m.queue| && s.m.queue[i].id == id
  }

  /** The object is still there and has its identifier. */
  predicate Readable(s: System, id: nat) {
    Alive(s, id) && !(InMaking(s, id) && !s.m.making.value.idSet)
  }

  predicate Enabled(s: System, a: Action) {
    match a
    case Arm(_) => !s.m.Locked()
    case SetId => s.m.Locked() && !s.m.making.value.idSet
    case Insert => s.m.Locked() && s.m.making.value.idSet
    case Fire(id) => id in s.armed
    case ReadId(id, _) => id in s.fired
    case ExpireRemove(id) => id in s.reading && !s.m.Locked()
    case ExpireQueue(id) => id in s.holding
    case CancelRemove(_) => !s.m.Locked()
    case CancelIo(id) => id in s.cancelling
    case Work => s.m.queue != []
  }

  function Read(s: System, id: nat, garbage: int): System {
    var v := if Readable(s, id) then id else garbage;
    s.(fired := s.fired - {id}, reading := s.reading[id := v],
       early := if v != id && InMaking(s, id) then s.early + {id} else s.early,
       late := if v != id && !InMaking(s, id) then s.late + {id} else s.late)
  }

  function Removed(s: System, id: nat): System
    requires id in s.reading
  {
    var t := Found(s.m, s.reading[id]);
    s.(m := Erased(s.m, s.reading[id]), reading := s.reading - {id},
       holding := if t.Some? then s.holding[t.value.id := t.value] else s.holding)
  }

  function Cancelled(s: System, target: int): System {
    if target !in s.m.timers then s
    else
      var id := s.m.timers[target].id;
      s.(m := Erased(s.m, target), cancelled := s.cancelled + {id}, cancelling := s.cancelling + {id})
  }

  function Step(s: System, a: Action): System
    requires Enabled(s, a)
  {
    match a
    case Arm(callback) =>
      var m := Armed(s.m, callback);
      s.(m := m, armed := s.armed + {m.counter}, scheduled := s.scheduled + [callback])
    case SetId => s.(m := Identified(s.m))
    case Insert => s.(m := Inserted(s.m))
    case Fire(id) => s.(armed := s.armed - {id}, fired := s.fired + {id})
    case ReadId(id, garbage) => Read(s, id, garbage)
    case ExpireRemove(id) => Removed(s, id)
    case ExpireQueue(id) =>
      var t, m := s.holding[id], Queued(s.m, s.holding[id]);
      if |m.queue| == |s.m.queue| then s.(m := m, holding := s.holding - {id}, refused := s.refused + {id})
      else s.(m := m, holding := s.holding - {id}, queued := s.queued + [t])
    case CancelRemove(target) => Cancelled(s, target)
    case CancelIo(id) => s.(cancelling := s.cancelling - {id}, armed := s.armed - {id})
    case Work => s.(m := s.m.(queue := s.m.queue[1..]), executed := s.executed + [s.m.queue[0]])
  }

  /** The state after an interleaving, if every action was enabled in its turn. */
  function Replay(capacity: nat, acts: seq<Action>): Option<System> {
    if acts == [] then Some(Boot(capacity))
    else
      var r := Replay(capacity, acts[..|acts| - 1]);
      if r.Some? && Enabled(r.value, acts[|acts| - 1]) then Some(Step(r.value, acts[|acts| - 1])) else None
  }
}
