/** The B2BUA's dialog table: for each Call-ID the dialogs of its sessions in the order they came,
    beside a store that keeps one record a session across restarts. */
module DialogState {
  import opened Wrappers

  const TWO64 := 0x1_0000_0000_0000_0000

  type Time = t: nat | t < TWO64

  /** The code asserts that no other index is given. */
  type LegIndex = i: int | 1 <= i <= 2 witness 1

  /** What the table looks at in one leg; the tags are those of its From and To headers. */
  datatype Leg = Leg(callId: string, fromTag: string, toTag: string)

  datatype Dialog = Dialog(sessionId: string, leg1: Leg, leg2: Leg, sessionAge: Time)

  /** What a search looks at in a message. */
  datatype Message = Message(callId: string, fromTag: string, toTag: string, isRequest: bool)

  datatype Table = Table(dialogs: map<string, seq<Dialog>>, store: map<string, Dialog>) {
    /** No Call-ID is left with an empty list: searches read the first and last of a list. */
    ghost predicate NoEmptyLists() { forall c :: c in dialogs ==> dialogs[c] != [] }
    /** The store files every record under its own session. */
    ghost predicate Keyed() { forall k :: k in store ==> store[k].sessionId == k }
    function List(callId: string): seq<Dialog> { if callId in dialogs then dialogs[callId] else [] }
  }

  // ---------------------------------------------------------------------------
  // Operations on the table
  // ---------------------------------------------------------------------------

  /** The first dialog of a session, or the length of the list. */
  function IndexOf(list: seq<Dialog>, sessionId: string): (i: nat)
    ensures i <= |list|
    ensures i < |list| ==> list[i].sessionId == sessionId
    ensures forall j :: 0 <= j < i ==> list[j].sessionId != sessionId
  {
    if list == [] || list[0].sessionId == sessionId then 0 else 1 + IndexOf(list[1..], sessionId)
  }

  function Added(s: Table, callId: string, d: Dialog): Table {
    s.(dialogs := s.dialogs[callId := s.List(callId) + [d]])
  }

  function WithLegs(d: Dialog, leg1: Option<Leg>, leg2: Option<Leg>): Dialog {
    d.(leg1 := if leg1.Some? then leg1.value else d.leg1, leg2 := if leg2.Some? then leg2.value else d.leg2)
  }

  /** New legs for the first dialog of the session. */
  function Relegged(list: seq<Dialog>, sessionId: string, leg1: Option<Leg>, leg2: Option<Leg>): seq<Dialog> {
    var i := IndexOf(list, sessionId);
    if i < |list| then list[i := WithLegs(list[i], leg1, leg2)] else list
  }

  function Replaced(s: Table, callId: string, sessionId: string, leg1: Option<Leg>, leg2: Option<Leg>): Table {
    if callId !in s.dialogs then s
    else s.(dialogs := s.dialogs[callId := Relegged(s.dialogs[callId], sessionId, leg1, leg2)])
  }

  function UpdatedLeg(s: Table, sessionId: string, leg: Leg, legIndex: LegIndex): Table {
    if legIndex == 1 then Replaced(s, leg.callId, sessionId, Some(leg), None)
    else Replaced(s, leg.callId, sessionId, None, Some(leg))
  }

  function Updated(s: Table, d: Dialog): Table {
    Replaced(s, d.leg1.callId, d.sessionId, Some(d.leg1), Some(d.leg2))
  }

  function Without<T>(list: seq<T>, i: nat): seq<T> {
    if i < |list| then list[..i] + list[i + 1..] else list
  }

  /** The first dialog of the session taken out, and its record with it. */
  function Removed(s: Table, callId: string, sessionId: string): Table {
    var left := Without(s.List(callId), IndexOf(s.List(callId), sessionId));
    Table(if left == [] then s.dialogs - {callId} else s.dialogs[callId := left], s.store - {sessionId})
  }

  function Persisted(s: Table, d: Dialog): Table {
    s.(store := s.store[d.sessionId := d])
  }

  // ---------------------------------------------------------------------------
  // Searching
  // ---------------------------------------------------------------------------

  predicate Answers(d: Dialog, sessionId: string, toTag: string) {
    d.sessionId == sessionId && (toTag == d.leg1.toTag || toTag == d.leg2.toTag)
  }

  function FirstAnswer(list: seq<Dialog>, sessionId: string, toTag: string): Option<Dialog> {
    if list == [] then None
    else if Answers(list[0], sessionId, toTag) then Some(list[0])
    else FirstAnswer(list[1..], sessionId, toTag)
  }

  function ByTag(first: Dialog, last: Dialog, tag: string): Option<Dialog> {
    if first.leg1.fromTag == tag then Some(first)
    else if last.leg2.fromTag == tag then Some(last)
    else None
  }

  function Found(s: Table, m: Message, sessionId: string): Option<Dialog> {
    var list := s.List(m.callId);
    if m.callId == "" || list == [] then None
    else if |list| == 1 then
      if sessionId != "" && list[0].sessionId != sessionId then None else Some(list[0])
    else if sessionId != "" then FirstAnswer(list, sessionId, m.toTag)
    else ByTag(list[0], list[|list| - 1], if m.isRequest then m.toTag else m.fromTag)
  }

  /** What a search leaves in its output argument: the dialog of a call's only session even if
      that is not the session asked for, and otherwise nothing unless it succeeds. */
  function Filled(s: Table, m: Message, sessionId: string): Option<Dialog> {
    var list := s.List(m.callId);
    if m.callId != "" && |list| == 1 then Some(list[0]) else Found(s, m, sessionId)
  }

  // ---------------------------------------------------------------------------
  // Restart
  // ---------------------------------------------------------------------------

  /** Less than a minute old by the clock's 64-bit arithmetic; an age ahead of the clock is not. */
  predicate Young(d: Dialog, now: Time) {
    (now - d.sessionAge) % TWO64 / 1000 < 60
  }

  function Admitted(s: Table, d: Dialog, now: Time): Table {
    if Young(d, now) then Added(s, d.leg1.callId, d) else s.(store := s.store - {d.sessionId})
  }

  function Populated(s: Table, ds: seq<Dialog>, now: Time): Table {
    if ds == [] then s else Admitted(Populated(s, ds[..|ds| - 1], now), ds[|ds| - 1], now)
  }

  /** The store's records in the order it lists them. */
  ghost predicate Lists(ds: seq<Dialog>, store: map<string, Dialog>) {
    && (forall k :: k in store ==> store[k] in ds)
    && (forall i :: 0 <= i < |ds| ==> ds[i].sessionId in store && store[ds[i].sessionId] == ds[i])
    && (forall i, j :: 0 <= i < j < |ds| ==> ds[i].sessionId != ds[j].sessionId)
  }

  // ---------------------------------------------------------------------------
  // The manager
  // ---------------------------------------------------------------------------

  class Manager {
    var dialogs: map<string, seq<Dialog>>
    var store: map<string, Dialog>

    ghost function State(): Table
      reads this
    {
      Table(dialogs, store)
    }

    ghost predicate Valid()
      reads this
    {
      State().NoEmptyLists() && State().Keyed()
    }

    constructor ()
      ensures Valid() && State() == Table(map[], map[])
    {
      dialogs, store := map[], map[];
    }

    method AddDialog(callId: string, d: Dialog)
      requires Valid()
      modifies this
      ensures Valid() && State() == Added(old(State()), callId, d)
    {
      if callId !in dialogs {
        dialogs := dialogs[callId := [d]];
        assert [] + [d] == [d];
      } else {
        dialogs := dialogs[callId := dialogs[callId] + [d]];
      }
    }

    /** The loop both updates and the removal run: where the session's first dialog is. */
    method FindSession(callId: string, sessionId: string) returns (i: nat)
      requires callId in dialogs
      ensures i == IndexOf(dialogs[callId], sessionId)
    {
      var list := dialogs[callId];
      i := 0;
      while i < |list|
        invariant i <= |list|
        invariant IndexOf(list, sessionId) == i + IndexOf(list[i..], sessionId)
      {
        if list[i].sessionId == sessionId {
          return;
        }
        i := i + 1;
      }
    }

    method UpdateLeg(sessionId: string, leg: Leg, legIndex: LegIndex)
      requires Valid()
      modifies this
      ensures Valid() && State() == UpdatedLeg(old(State()), sessionId, leg, legIndex)
    {
      if leg.callId in dialogs {
        var list := dialogs[leg.callId];
        var i := FindSession(leg.callId, sessionId);
        if i < |list| {
          if legIndex == 1 {
            dialogs := dialogs[leg.callId := list[i := list[i].(leg1 := leg)]];
          } else {
            dialogs := dialogs[leg.callId := list[i := list[i].(leg2 := leg)]];
          }
        }
      }
    }

    method Update(d: Dialog)
      requires Valid()
      modifies this
      ensures Valid() && State() == Updated(old(State()), d)
    {
      var callId := d.leg1.callId;
      if callId in dialogs {
        var list := dialogs[callId];
        var i := FindSession(callId, d.sessionId);
        if i < |list| {
          dialogs := dialogs[callId := list[i := list[i].(leg1 := d.leg1, leg2 := d.leg2)]];
        }
      }
    }

    method RemoveDialog(callId: string, sessionId: string)
      requires Valid()
      modifies this
      ensures Valid() && State() == Removed(old(State()), callId, sessionId)
    {
      if callId in dialogs {
        var list := dialogs[callId];
        var i := FindSession(callId, sessionId);
        if i < |list| {
          list := list[..i] + list[i + 1..];
        }
        dialogs := dialogs[callId := list];
        if list == [] {
          dialogs := dialogs - {callId};
        }
      } else {
        assert dialogs - {callId} == dialogs;
      }
      store := store - {sessionId};
    }

    method Persist(d: Dialog)
      requires Valid()
      modifies this
      ensures Valid() && State() == Persisted(old(State()), d)
    {
      store := store[d.sessionId := d];
    }

    /** The verdict, and the output argument if it was assigned. */
    method FindDialog(m: Message, sessionId: string) returns (found: bool, dialogData: Option<Dialog>)
      requires Valid()
      ensures found == Found(State(), m, sessionId).Some? && dialogData == Filled(State(), m, sessionId)
      ensures found ==> dialogData == Found(State(), m, sessionId)
    {
      dialogData := None;
      if m.callId == "" {
        return false, dialogData;
      }
      if m.callId in dialogs {
        var list := dialogs[m.callId];
        if |list| == 1 {
          dialogData := Some(list[0]);
          if sessionId != "" {
            return list[0].sessionId == sessionId, dialogData;
          }
          return true, dialogData;
        } else if sessionId != "" {
          var i := 0;
          while i < |list|
            invariant i <= |list|
            invariant FirstAnswer(list, sessionId, m.toTag) == FirstAnswer(list[i..], sessionId, m.toTag)
          {
            if list[i].sessionId == sessionId {
              if m.toTag == list[i].leg1.toTag || m.toTag == list[i].leg2.toTag {
                return true, Some(list[i]);
              }
            }
            i := i + 1;
          }
          return false, dialogData;
        }
        var tag := if m.isRequest then m.toTag else m.fromTag;
        if list[0].leg1.fromTag == tag {
          return true, Some(list[0]);
        } else if list[|list| - 1].leg2.fromTag == tag {
          return true, Some(list[|list| - 1]);
        }
      }
      return false, dialogData;
    }

    /** `ds` is what the store lists. */
    method PopulateFromStore(ds: seq<Dialog>, now: Time)
      requires Valid() && Lists(ds, store)
      modifies this
      ensures Valid() && State() == Populated(old(State()), ds, now)
    {
      var i := 0;
      while i < |ds|
        invariant i <= |ds|
        invariant Valid() && State() == Populated(old(State()), ds[..i], now)
      {
        if Young(ds[i], now) {
          AddDialog(ds[i].leg1.callId, ds[i]);
        } else {
          store := store - {ds[i].sessionId};
        }
        i := i + 1;
        assert ds[..i][..i - 1] == ds[..i - 1];
      }
      assert ds[..i] == ds;
    }
  }
}
