/** Events emitted by any thread are handed to script by the one event-loop thread: every emit
    pushes an event and queues a task, and each task pops an event. The event queue and task
    queue have a lock each; the steps below are what happens under one of them. */
module JsEvents {
  import opened Wrappers

  datatype Event = Event(json: string, fd: int)

  /** Other components queue tasks too. */
  datatype Task = EmitTask | OtherTask(id: nat)

  // ---------------------------------------------------------------------------
  // The classes
  // ---------------------------------------------------------------------------

  class TaskManager {
    var tasks: seq<Task>

    constructor ()
      ensures tasks == []
    {
      tasks := [];
    }

    method QueueTask(t: Task)
      modifies this
      ensures tasks == old(tasks) + [t]
    {
      tasks := tasks + [t];
    }

    /** What to execute now, if there is anything. */
    method DoOneWork() returns (t: Option<Task>)
      modifies this
      ensures old(tasks) == [] ==> t == None && tasks == []
      ensures old(tasks) != [] ==> t == Some(old(tasks)[0]) && tasks == old(tasks)[1..]
    {
      if tasks == [] {
        return None;
      }
      t := Some(tasks[0]);
      tasks := tasks[1..];
    }
  }

  class EventEmitter {
    var events: seq<Event>
    const taskManager: TaskManager

    constructor (manager: TaskManager)
      ensures events == [] && taskManager == manager
    {
      events, taskManager := [], manager;
    }

    method Emit(e: Event)
      modifies this, taskManager
      ensures events == old(events) + [e] && taskManager.tasks == old(taskManager.tasks) + [EmitTask]
    {
      events := events + [e];
      taskManager.QueueTask(EmitTask);
    }

    /** What each task does: the event to hand to the queue manager, if there is one. */
    method OnEmitEvent() returns (e: Option<Event>)
      modifies this
      ensures old(events) == [] ==> e == None && events == []
      ensures old(events) != [] ==> e == Some(old(events)[0]) && events == old(events)[1..]
    {
      if events == [] {
        return None;
      }
      e := Some(events[0]);
      events := events[1..];
    }
  }

  // ---------------------------------------------------------------------------
  // Threads
  // ---------------------------------------------------------------------------

  /** The event loop between two locks: about to call onEmitEvent, or with an event popped
      and not yet handed over. */
  datatype Loop = Idle | Popped(task: Task) | Holding(event: Event)

  /** `pushing` is set while an emitter that has pushed its event, and still holds the event
      lock, has not queued its task yet. */
  datatype System = System(events: seq<Event>, tasks: seq<Task>, pushing: bool, loop: Loop,
                           emitted: seq<Event>, delivered: seq<Event>, misses: nat)

  const BOOT := System([], [], false, Idle, [], [], 0)

  datatype Action =
    | PushEvent(e: Event)    // emit takes the event lock
    | PushTask               // and queues its task, then lets go
    | OtherPush(id: nat)     // some other component queues a task
    | PopTask                // the loop takes a task
    | RunTask                // and executes it; onEmitEvent takes the event lock
    | Deliver                // the event reaches the queue manager

  predicate Enabled(s: System, a: Action) {
    match a
    case PushEvent(_) => !s.pushing
    case PushTask => s.pushing
    case OtherPush(_) => true
    case PopTask => s.loop.Idle? && s.tasks != []
    case RunTask => s.loop.Popped? && (s.loop.task.EmitTask? ==> !s.pushing)
    case Deliver => s.loop.Holding?
  }

  function Step(s: System, a: Action): System
    requires Enabled(s, a)
  {
    match a
    case PushEvent(e) => s.(events := s.events + [e], pushing := true, emitted := s.emitted + [e])
    case PushTask => s.(tasks := s.tasks + [EmitTask], pushing := false)
    case OtherPush(id) => s.(tasks := s.tasks + [OtherTask(id)])
    case PopTask => s.(tasks := s.tasks[1..], loop := Popped(s.tasks[0]))
    case RunTask =>
      if s.loop.task.OtherTask? then s.(loop := Idle)
      else if s.events == [] then s.(loop := Idle, misses := s.misses + 1)
      else s.(events := s.events[1..], loop := Holding(s.events[0]))
    case Deliver => s.(loop := Idle, delivered := s.delivered + [s.loop.event])
  }

  function Replay(acts: seq<Action>): Option<System> {
    if acts == [] then Some(BOOT)
    else
      var r := Replay(acts[..|acts| - 1]);
      if r.Some? && Enabled(r.value, acts[|acts| - 1]) then Some(Step(r.value, acts[|acts| - 1])) else None
  }

  // ---------------------------------------------------------------------------
  // What every interleaving keeps
  // ---------------------------------------------------------------------------

  function EmitTasks(tasks: seq<Task>): nat {
    if tasks == [] then 0 else (if tasks[0].EmitTask? then 1 else 0) + EmitTasks(tasks[1..])
  }

  lemma {:induction false} EmitTasksAppend(tasks: seq<Task>, t: Task)
    ensures EmitTasks(tasks + [t]) == EmitTasks(tasks) + (if t.EmitTask? then 1 else 0)
  {
    if tasks != [] {
      assert (tasks + [t])[1..] == tasks[1..] + [t];
      EmitTasksAppend(tasks[1..], t);
    }
  }

  function InHand(l: Loop): seq<Event> { if l.Holding? then [l.event] else [] }

  /** Tasks that will still pop an event: queued, about to be queued, or just popped. */
  function Pending(s: System): nat {
    EmitTasks(s.tasks) + (if s.pushing then 1 else 0) + (if s.loop == Popped(EmitTask) then 1 else 0)
  }

  predicate Valid(s: System) {
    && |s.events| == Pending(s)
    && s.emitted == s.delivered + InHand(s.loop) + s.events
    && s.misses == 0
  }

  lemma StepValid(s: System, a: Action)
    requires Valid(s) && Enabled(s, a)
    ensures Valid(Step(s, a))
  {
    var u := Step(s, a);
    match a
    case PushEvent(e) =>
      assert u.emitted == s.delivered + InHand(s.loop) + (s.events + [e]);
    case PushTask =>
      EmitTasksAppend(s.tasks, EmitTask);
    case OtherPush(id) =>
      EmitTasksAppend(s.tasks, OtherTask(id));
    case PopTask =>
      assert s.tasks == [s.tasks[0]] + s.tasks[1..];
    case RunTask =>
      if s.loop.task.EmitTask? {
        assert s.events == [s.events[0]] + s.events[1..];
      }
    case Deliver =>
  }

  lemma {:induction false} Invariant(acts: seq<Action>)
    requires Replay(acts).Some?
    ensures Valid(Replay(acts).value)
  {
    if acts != [] {
      Invariant(acts[..|acts| - 1]);
      StepValid(Replay(acts[..|acts| - 1]).value, acts[|acts| - 1]);
    }
  }

  /** In every interleaving of emitters with the loop there is exactly one pending task per
      undelivered event, and no task ever finds the queue empty. */
  lemma OneTaskPerEvent(acts: seq<Action>)
    requires Replay(acts).Some?
    ensures var s := Replay(acts).value; |s.events| == Pending(s) && s.misses == 0
  {
    Invariant(acts);
  }

  /** Events are handed over in the order they were emitted, none twice and none skipped. */
  lemma DeliveredInOrder(acts: seq<Action>)
    requires Replay(acts).Some?
    ensures var s := Replay(acts).value;
      s.delivered <= s.emitted && |s.delivered| == |s.emitted| - |InHand(s.loop)| - Pending(s)
  {
    Invariant(acts);
  }

  /** No event is stranded: with no emit in progress, the loop idle and its task queue empty,
      every emitted event has been handed over. */
  lemma NothingStranded(acts: seq<Action>)
    requires Replay(acts).Some?
    requires var s := Replay(acts).value; !s.pushing && s.loop.Idle? && s.tasks == []
    ensures Replay(acts).value.delivered == Replay(acts).value.emitted
  {
    Invariant(acts);
    var s := Replay(acts).value;
    assert s.events == [];
    assert s.delivered + [] + [] == s.delivered;
  }

  /** And work remains possible while anything is undelivered: some step is enabled. */
  lemma NeverBlocked(acts: seq<Action>)
    requires Replay(acts).Some?
    requires Replay(acts).value.delivered != Replay(acts).value.emitted
    ensures var s := Replay(acts).value;
      Enabled(s, PushTask) || Enabled(s, PopTask) || Enabled(s, RunTask) || Enabled(s, Deliver)
  {
    var s := Replay(acts).value;
    if !s.pushing && s.loop.Idle? && s.tasks == [] {
      NothingStranded(acts);
    }
  }

  // ---------------------------------------------------------------------------
  // Tasks
  // ---------------------------------------------------------------------------

  /** The tasks queued by the actions, in order. */
  function Posted(acts: seq<Action>): seq<Task> {
    if acts == [] then []
    else
      var front, a := acts[..|acts| - 1], acts[|acts| - 1];
      match a
      case PushTask => Posted(front) + [EmitTask]
      case OtherPush(id) => Posted(front) + [OtherTask(id)]
      case _ => Posted(front)
  }

  function Pops(acts: seq<Action>): nat {
    if acts == [] then 0 else Pops(acts[..|acts| - 1]) + (if acts[|acts| - 1].PopTask? then 1 else 0)
  }

  /** In every interleaving the loop takes all tasks, its own and those of other components, in the
      order they were queued: as many are gone as it took, and the rest is waiting. */
  lemma {:induction false} TasksInOrder(acts: seq<Action>)
    requires Replay(acts).Some?
    ensures var s := Replay(acts).value;
      && Pops(acts) <= |Posted(acts)| && s.tasks == Posted(acts)[Pops(acts)..]
      && (s.loop.Popped? ==> Pops(acts) > 0 && s.loop.task == Posted(acts)[Pops(acts) - 1])
  {
    if acts != [] {
      TasksInOrder(acts[..|acts| - 1]);
    }
  }

  /** Steps that finish what was begun. */
  predicate Finishes(a: Action) { a.PushTask? || a.PopTask? || a.RunTask? || a.Deliver? }

  /** How many such steps are left at most. */
  function Work(s: System): nat {
    3 * |s.tasks| + (if s.pushing then 4 else 0)
    + (match s.loop case Idle => 0 case Popped(_) => 2 case Holding(_) => 1)
  }

  lemma StepWorks(s: System, a: Action)
    requires Enabled(s, a) && Finishes(a)
    ensures Work(Step(s, a)) < Work(s)
  {}

  /** Without new emits the loop comes to rest, and then everything emitted has been delivered. */
  lemma {:induction false} ComesToRest(acts: seq<Action>, more: seq<Action>)
    requires Replay(acts).Some? && Replay(acts + more).Some? && forall a :: a in more ==> Finishes(a)
    ensures var s, u := Replay(acts).value, Replay(acts + more).value;
      && |more| + Work(u) <= Work(s)
      && ((forall a :: Finishes(a) ==> !Enabled(u, a)) ==> u.delivered == u.emitted)
  {
    if forall a :: Finishes(a) ==> !Enabled(Replay(acts + more).value, a) {
      AtRest(acts + more);
    }
    hide Step, Enabled, Work;
    if more == [] {
      assert acts + more == acts;
    } else {
      var front, a := more[..|more| - 1], more[|more| - 1];
      assert (acts + more)[..|acts + more| - 1] == acts + front && a in more;
      ComesToRest(acts, front);
      StepWorks(Replay(acts + front).value, a);
    }
  }

  lemma AtRest(acts: seq<Action>)
    requires Replay(acts).Some? && forall a :: Finishes(a) ==> !Enabled(Replay(acts).value, a)
    ensures Replay(acts).value.delivered == Replay(acts).value.emitted
  {
    hide Replay;
    assert Finishes(PushTask) && Finishes(PopTask) && Finishes(RunTask) && Finishes(Deliver);
    if Replay(acts).value.delivered != Replay(acts).value.emitted {
      NeverBlocked(acts);
    }
  }

  // ---------------------------------------------------------------------------
  // A run for every stream of events
  // ---------------------------------------------------------------------------

  /** Each event is emitted behind a task of some other component, and waited for. */
  function Serial(es: seq<Event>): seq<Action> {
    if es == [] then []
    else
      Serial(es[..|es| - 1]) + [OtherPush(|es|)] + [PushEvent(es[|es| - 1])] + [PushTask]
      + [PopTask] + [RunTask] + [PopTask] + [RunTask] + [Deliver]
  }

  lemma ReplayMore(acts: seq<Action>, a: Action)
    requires Replay(acts).Some? && Enabled(Replay(acts).value, a)
    ensures Replay(acts + [a]) == Some(Step(Replay(acts).value, a))
  {
    assert (acts + [a])[..|acts|] == acts;
  }

  lemma {:induction false} SerialDelivers(es: seq<Event>)
    ensures Replay(Serial(es)) == Some(System([], [], false, Idle, es, es, 0))
  {
    if es != [] {
      SerialDelivers(es[..|es| - 1]);
      OneMore(Serial(es[..|es| - 1]), es[..|es| - 1], es[|es| - 1], |es|);
      assert es[..|es| - 1] + [es[|es| - 1]] == es;
    }
    hide Replay;
  }

  lemma OneMore(acts: seq<Action>, es: seq<Event>, e: Event, n: nat)
    requires Replay(acts) == Some(System([], [], false, Idle, es, es, 0))
    ensures Replay(acts + [OtherPush(n)] + [PushEvent(e)] + [PushTask] + [PopTask] + [RunTask] + [PopTask] + [RunTask] + [Deliver])
         == Some(System([], [], false, Idle, es + [e], es + [e], 0))
  {
    hide Replay;
    var more := es + [e];
    ReplayMore(acts, OtherPush(n));
    var a1 := acts + [OtherPush(n)];
    assert Replay(a1).value == System([], [OtherTask(n)], false, Idle, es, es, 0);
    ReplayMore(a1, PushEvent(e));
    var a2 := a1 + [PushEvent(e)];
    assert Replay(a2).value == System([e], [OtherTask(n)], true, Idle, more, es, 0);
    ReplayMore(a2, PushTask);
    var a3 := a2 + [PushTask];
    assert Replay(a3).value == System([e], [OtherTask(n), EmitTask], false, Idle, more, es, 0);
    ReplayMore(a3, PopTask);
    var a4 := a3 + [PopTask];
    assert Replay(a4).value == System([e], [EmitTask], false, Popped(OtherTask(n)), more, es, 0);
    ReplayMore(a4, RunTask);
    var a5 := a4 + [RunTask];
    ReplayMore(a5, PopTask);
    var a6 := a5 + [PopTask];
    assert Replay(a6).value == System([e], [], false, Popped(EmitTask), more, es, 0);
    ReplayMore(a6, RunTask);
    var a7 := a6 + [RunTask];
    assert Replay(a7).value == System([], [], false, Holding(e), more, es, 0);
    ReplayMore(a7, Deliver);
  }
}
