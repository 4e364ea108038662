/** What the dialog table and its store hold after any run, and what searches then find. */
module DialogStateLaws {
  import opened Division
  import opened Containers
  import opened DialogState
  import opened Wrappers

  datatype Op =
    | Add(callId: string, d: Dialog)
    | NewLeg(sessionId: string, leg: Leg, legIndex: LegIndex)
    | NewLegs(d: Dialog)
    | Remove(callId: string, sessionId: string)
    | Save(d: Dialog)

  function Step(s: Table, op: Op): Table {
    match op
    case Add(c, d) => Added(s, c, d)
    case NewLeg(sid, leg, i) => UpdatedLeg(s, sid, leg, i)
    case NewLegs(d) => Updated(s, d)
    case Remove(c, sid) => Removed(s, c, sid)
    case Save(d) => Persisted(s, d)
  }

  function Run(ops: seq<Op>): Table {
    if ops == [] then Table(map[], map[]) else Step(Run(ops[..|ops| - 1]), ops[|ops| - 1])
  }

  // ---------------------------------------------------------------------------
  // One call's list
  // ---------------------------------------------------------------------------

  function ListStep(list: seq<Dialog>, op: Op, c: string): seq<Dialog> {
    match op
    case Add(callId, d) => if callId == c then list + [d] else list
    case NewLeg(sid, leg, i) =>
      if leg.callId != c then list
      else if i == 1 then Relegged(list, sid, Some(leg), None) else Relegged(list, sid, None, Some(leg))
    case NewLegs(d) =>
      if d.leg1.callId == c then Relegged(list, d.sessionId, Some(d.leg1), Some(d.leg2)) else list
    case Remove(callId, sid) => if callId == c then Without(list, IndexOf(list, sid)) else list
    case Save(d) => list
  }

  /** An operation acts on each call's list apart from all others. */
  lemma StepActsOnLists(s: Table, op: Op, c: string)
    requires s.NoEmptyLists()
    ensures Step(s, op).NoEmptyLists() && Step(s, op).List(c) == ListStep(s.List(c), op, c)
  {
    match op
    case Add(callId, d) => AddActs(s, callId, d, c);
    case NewLeg(sid, leg, i) =>
      ReplaceActs(s, leg.callId, sid, Some(leg), None, c);
      ReplaceActs(s, leg.callId, sid, None, Some(leg), c);
      hide Replaced, Relegged;
    case NewLegs(d) =>
      ReplaceActs(s, d.leg1.callId, d.sessionId, Some(d.leg1), Some(d.leg2), c);
      hide Replaced, Relegged;
    case Remove(callId, sid) => RemoveActs(s, callId, sid, c);
    case Save(d) =>
  }

  lemma AddActs(s: Table, callId: string, d: Dialog, c: string)
    requires s.NoEmptyLists()
    ensures var u := Added(s, callId, d);
      u.NoEmptyLists() && u.List(c) == if callId == c then s.List(c) + [d] else s.List(c)
  {}

  lemma ReplaceActs(s: Table, callId: string, sid: string, leg1: Option<Leg>, leg2: Option<Leg>, c: string)
    requires s.NoEmptyLists()
    ensures var u := Replaced(s, callId, sid, leg1, leg2);
      u.NoEmptyLists() && u.List(c) == if callId == c then Relegged(s.List(c), sid, leg1, leg2) else s.List(c)
  {
    hide IndexOf;
  }

  lemma RemoveActs(s: Table, callId: string, sid: string, c: string)
    requires s.NoEmptyLists()
    ensures var u := Removed(s, callId, sid);
      u.NoEmptyLists() && u.List(c) == if callId == c then Without(s.List(c), IndexOf(s.List(c), sid)) else s.List(c)
  {
    hide IndexOf, Without;
  }

  /** Whatever was done, no Call-ID is left with an empty list and every record is filed under
      its own session. */
  lemma {:induction false} Invariant(ops: seq<Op>)
    ensures Run(ops).NoEmptyLists() && Run(ops).Keyed()
  {
    if ops != [] {
      hide Table.NoEmptyLists;
      var n := |ops| - 1;
      Invariant(ops[..n]);
      StepActsOnLists(Run(ops[..n]), ops[n], "");
    }
  }

  // ---------------------------------------------------------------------------
  // Sessions
  // ---------------------------------------------------------------------------

  function Ids(list: seq<Dialog>): seq<string> {
    seq(|list|, i requires 0 <= i < |list| => list[i].sessionId)
  }

  function WithoutFirst(ids: seq<string>, sid: string): seq<string> {
    if ids == [] then []
    else if ids[0] == sid then ids[1..]
    else [ids[0]] + WithoutFirst(ids[1..], sid)
  }

  function SessionsStep(ids: seq<string>, op: Op, c: string): seq<string> {
    if op.Add? && op.callId == c then ids + [op.d.sessionId]
    else if op.Remove? && op.callId == c then WithoutFirst(ids, op.sessionId)
    else ids
  }

  /** The sessions of a call by its additions and removals alone. */
  function Sessions(ops: seq<Op>, c: string): seq<string> {
    if ops == [] then [] else SessionsStep(Sessions(ops[..|ops| - 1], c), ops[|ops| - 1], c)
  }

  lemma SessionsMore(ops: seq<Op>, op: Op, c: string)
    ensures Sessions(ops + [op], c) == SessionsStep(Sessions(ops, c), op, c)
  {
    assert (ops + [op])[..|ops|] == ops;
  }

  lemma {:induction false} IdsWithout(list: seq<Dialog>, sid: string)
    ensures Ids(Without(list, IndexOf(list, sid))) == WithoutFirst(Ids(list), sid)
  {
    if list != [] {
      hide Ids, Without;
      var rest := list[1..];
      IdsTail(list);
      if list[0].sessionId != sid {
        IdsWithout(rest, sid);
        WithoutTail(list, IndexOf(rest, sid));
        IdsTail([list[0]] + Without(rest, IndexOf(rest, sid)));
      } else {
        WithoutHead(list);
      }
    }
  }

  lemma IdsTail(list: seq<Dialog>)
    requires list != []
    ensures Ids(list) == [list[0].sessionId] + Ids(list[1..])
  {}

  lemma WithoutTail<T>(list: seq<T>, i: nat)
    requires list != []
    ensures Without(list, 1 + i) == [list[0]] + Without(list[1..], i)
  {
    var rest := list[1..];
    if i < |rest| {
      assert list[..1 + i] == [list[0]] + rest[..i] && list[1 + i + 1..] == rest[i + 1..];
      Associates([list[0]], rest[..i], rest[i + 1..]);
    } else {
      assert list == [list[0]] + rest;
    }
  }

  lemma WithoutHead<T>(list: seq<T>)
    requires list != []
    ensures Without(list, 0) == list[1..]
  {}

  lemma IdsRelegged(list: seq<Dialog>, sid: string, leg1: Option<Leg>, leg2: Option<Leg>)
    ensures Ids(Relegged(list, sid, leg1, leg2)) == Ids(list)
  {
    hide IndexOf;
  }

  lemma IdsMore(list: seq<Dialog>, d: Dialog)
    ensures Ids(list + [d]) == Ids(list) + [d.sessionId]
  {}

  lemma IdsStep(list: seq<Dialog>, op: Op, c: string)
    ensures Ids(ListStep(list, op, c)) == SessionsStep(Ids(list), op, c)
  {
    hide Ids, Without, IndexOf, Relegged, WithoutFirst;
    match op
    case Add(_, d) => IdsMore(list, d);
    case NewLeg(sid, leg, _) =>
      IdsRelegged(list, sid, Some(leg), None);
      IdsRelegged(list, sid, None, Some(leg));
    case NewLegs(d) => IdsRelegged(list, d.sessionId, Some(d.leg1), Some(d.leg2));
    case Remove(_, sid) => IdsWithout(list, sid);
    case Save(_) =>
  }

  /** The list of a call names its sessions in the order they were added, whatever legs were
      rewritten since; and the call has an entry exactly while one of its sessions is left. */
  lemma {:induction false} SessionsKept(ops: seq<Op>, c: string)
    ensures Ids(Run(ops).List(c)) == Sessions(ops, c)
    ensures c in Run(ops).dialogs <==> Sessions(ops, c) != []
  {
    Invariant(ops);
    if ops != [] {
      hide ListStep, Ids, Step, SessionsStep, Table.NoEmptyLists;
      var n := |ops| - 1;
      SessionsKept(ops[..n], c);
      Invariant(ops[..n]);
      StepActsOnLists(Run(ops[..n]), ops[n], c);
      IdsStep(Run(ops[..n]).List(c), ops[n], c);
    }
    HasList(Run(ops), c);
  }

  lemma HasList(s: Table, c: string)
    requires s.NoEmptyLists()
    ensures c in s.dialogs <==> Ids(s.List(c)) != []
  {}

  /** Removing a session takes out one of its dialogs and disturbs no other session, so the session
      is still listed exactly if it was there twice. Its record goes in any case. */
  lemma RemovedSession(ops: seq<Op>, c: string, sid: string)
    ensures var before, s := Sessions(ops, c), Run(ops + [Remove(c, sid)]);
      && multiset(Ids(s.List(c))) == multiset(before) - multiset{sid}
      && (sid in Ids(s.List(c)) <==> multiset(before)[sid] >= 2)
      && sid !in s.store
  {
    hide Run, Ids;
    var more := ops + [Remove(c, sid)];
    SessionsKept(more, c);
    SessionsMore(ops, Remove(c, sid), c);
    WithoutFirstCount(Sessions(ops, c), sid);
    WithoutFirstMembers(Sessions(ops, c), sid, sid);
    RecordsKept(more, sid);
    RecordRemoved(ops, Remove(c, sid));
  }

  lemma RecordRemoved(ops: seq<Op>, op: Op)
    requires op.Remove?
    ensures Record(ops + [op], op.sessionId) == None
  {}

  lemma {:induction false} WithoutFirstCount(ids: seq<string>, sid: string)
    ensures multiset(WithoutFirst(ids, sid)) == multiset(ids) - multiset{sid}
  {
    if ids != [] {
      assert ids == [ids[0]] + ids[1..];
      WithoutFirstCount(ids[1..], sid);
    }
  }

  lemma WithoutFirstMembers(ids: seq<string>, sid: string, x: string)
    ensures x in WithoutFirst(ids, sid) <==> multiset(ids)[x] > (if x == sid then 1 else 0)
  {
    hide WithoutFirst;
    WithoutFirstCount(ids, sid);
    assert x in WithoutFirst(ids, sid) <==> x in multiset(WithoutFirst(ids, sid));
  }

  /** A session taken out for the last time is listed no more, whatever follows, until it is added
      again; searches by its identifier fail. */
  lemma {:induction false} RemovedForGood(ops: seq<Op>, c: string, sid: string, after: seq<Op>, m: Message)
    requires multiset(Sessions(ops, c))[sid] <= 1
    requires forall op :: op in after && op.Add? && op.callId == c ==> op.d.sessionId != sid
    requires m.callId == c && sid != ""
    ensures Found(Run(ops + [Remove(c, sid)] + after), m, sid) == None
  {
    hide Run, Found;
    SessionsAbsent(ops, c, sid, after);
    var all := ops + [Remove(c, sid)] + after;
    SessionsKept(all, c);
    UnlistedNotFound(Run(all), m, sid);
  }

  lemma {:induction false} SessionsAbsent(ops: seq<Op>, c: string, sid: string, after: seq<Op>)
    requires multiset(Sessions(ops, c))[sid] <= 1
    requires forall op :: op in after && op.Add? && op.callId == c ==> op.d.sessionId != sid
    ensures sid !in Sessions(ops + [Remove(c, sid)] + after, c)
  {
    hide Sessions;
    var start := ops + [Remove(c, sid)];
    if after == [] {
      assert start + after == start;
      SessionsMore(ops, Remove(c, sid), c);
      WithoutFirstMembers(Sessions(ops, c), sid, sid);
    } else {
      hide WithoutFirst;
      var n := |after| - 1;
      var before, op := start + after[..n], after[n];
      SessionsAbsent(ops, c, sid, after[..n]);
      assert start + after == before + [op];
      SessionsMore(before, op, c);
      assert op in after;
      if op.Remove? {
        StaysAbsent(Sessions(before, c), op.sessionId, sid);
      }
    }
  }

  lemma StaysAbsent(ids: seq<string>, removed: string, sid: string)
    requires sid !in ids
    ensures sid !in WithoutFirst(ids, removed)
  {
    WithoutFirstMembers(ids, removed, sid);
  }

  // ---------------------------------------------------------------------------
  // Searches
  // ---------------------------------------------------------------------------

  /** The dialog is one of the session, and the message's To tag is that of one of its legs. */
  predicate Asked(d: Dialog, sid: string, toTag: string) {
    d.sessionId == sid && toTag in {d.leg1.toTag, d.leg2.toTag}
  }

  ghost predicate FirstAt(list: seq<Dialog>, i: int, d: Dialog, sid: string, toTag: string) {
    && 0 <= i < |list| && list[i] == d && Asked(d, sid, toTag)
    && forall j :: 0 <= j < i ==> !Asked(list[j], sid, toTag)
  }

  lemma {:induction false} FirstAnswerMeans(list: seq<Dialog>, sid: string, toTag: string)
    ensures var r := FirstAnswer(list, sid, toTag);
      && (r.None? ==> forall d :: d in list ==> !Asked(d, sid, toTag))
      && (r.Some? ==> exists i :: FirstAt(list, i, r.value, sid, toTag))
  {
    if list != [] {
      var r, rest := FirstAnswer(list, sid, toTag), list[1..];
      if Asked(list[0], sid, toTag) {
        assert r == Some(list[0]) && FirstAt(list, 0, list[0], sid, toTag);
      } else {
        FirstAnswerMeans(rest, sid, toTag);
        assert r == FirstAnswer(rest, sid, toTag);
        hide FirstAnswer;
        if r.Some? {
          var i :| FirstAt(rest, i, r.value, sid, toTag);
          assert FirstAt(list, i + 1, r.value, sid, toTag);
        } else {
          assert forall d :: d in list ==> d == list[0] || d in rest;
        }
      }
    }
  }

  /** The output argument is what was found, but for one case: the only dialog of the call is left
      there although it is not of the session asked for. */
  lemma FilledIff(s: Table, m: Message, sid: string)
    ensures var list := s.List(m.callId);
      if m.callId != "" && sid != "" && exists d :: list == [d] && d.sessionId != sid
      then Found(s, m, sid) == None && Filled(s, m, sid) == Some(list[0])
      else Filled(s, m, sid) == Found(s, m, sid)
  {
    var list := s.List(m.callId);
    if |list| == 1 {
      assert list == [list[0]];
    }
    hide FirstAnswer, ByTag;
  }

  lemma UnlistedNotFound(s: Table, m: Message, sid: string)
    requires sid != "" && sid !in Ids(s.List(m.callId))
    ensures Found(s, m, sid) == None
  {
    var list := s.List(m.callId);
    assert forall i :: 0 <= i < |list| ==> Ids(list)[i] == list[i].sessionId;
    FirstAnswerMeans(list, sid, m.toTag);
  }

  /** A search finds a dialog of the message's call, of the session asked for if one was. */
  lemma FoundIsListed(s: Table, m: Message, sid: string)
    requires Found(s, m, sid).Some?
    ensures var d := Found(s, m, sid).value; d in s.List(m.callId) && (sid != "" ==> d.sessionId == sid)
  {
    FirstAnswerMeans(s.List(m.callId), sid, m.toTag);
  }

  /** The tag by which a message without a session identifier is matched. */
  function Tag(m: Message): string { if m.isRequest then m.toTag else m.fromTag }

  /** A message without a session identifier finds a dialog if and only if it is the call's only
      one, or the first and the message carries its caller's tag, or the last and the message
      carries the tag of its other leg but not that of the first. */
  lemma FoundWithoutSession(s: Table, m: Message, d: Dialog)
    ensures var list := s.List(m.callId);
      Found(s, m, "") == Some(d) <==>
        && m.callId != "" && list != []
        && ((|list| == 1 && d == list[0])
            || (|list| > 1 && d == list[0] && Tag(m) == list[0].leg1.fromTag)
            || (|list| > 1 && d == list[|list| - 1] && Tag(m) == d.leg2.fromTag && Tag(m) != list[0].leg1.fromTag))
  {
    hide FirstAnswer;
  }

  /** Some message finds `d` without naming its session. */
  ghost predicate Reachable(s: Table, callId: string, d: Dialog) {
    exists m: Message :: m.callId == callId && Found(s, m, "") == Some(d)
  }

  /** So a dialog can be found that way if and only if it is the first of its call, or the last with
      a tag of its own. */
  lemma ReachableIff(s: Table, callId: string, d: Dialog)
    requires callId != ""
    ensures var list := s.List(callId);
      Reachable(s, callId, d) <==>
        list != [] && (d == list[0] || (d == list[|list| - 1] && d.leg2.fromTag != list[0].leg1.fromTag))
  {
    hide Found;
    var list := s.List(callId);
    if list != [] {
      var first, last := list[0], list[|list| - 1];
      FoundWithoutSession(s, Message(callId, "", first.leg1.fromTag, true), first);
      FoundWithoutSession(s, Message(callId, "", last.leg2.fromTag, true), last);
    }
    if m: Message :| m.callId == callId && Found(s, m, "") == Some(d) {
      FoundWithoutSession(s, m, d);
    }
  }

  /** A call forked to three: the second dialog answers to no tag, its own included. */
  lemma MiddleNeverFound(callId: string, m: Message)
    requires callId != "" && m.callId == callId
    ensures var d1, d2, d3 := Forked(callId, "a"), Forked(callId, "b"), Forked(callId, "c");
      Found(Run([Add(callId, d1), Add(callId, d2), Add(callId, d3)]), m, "") != Some(d2)
  {
    var d1, d2, d3 := Forked(callId, "a"), Forked(callId, "b"), Forked(callId, "c");
    ThreeAdded(callId, d1, d2, d3);
    hide Run, Found;
    FoundWithoutSession(Run([Add(callId, d1), Add(callId, d2), Add(callId, d3)]), m, d2);
  }

  function Forked(callId: string, tag: string): Dialog {
    Dialog(tag, Leg(callId, "caller", "sbc"), Leg(callId, "sbc", tag), 0)
  }

  lemma ThreeAdded(c: string, d1: Dialog, d2: Dialog, d3: Dialog)
    ensures Run([Add(c, d1), Add(c, d2), Add(c, d3)]).List(c) == [d1, d2, d3]
  {
    var ops := [Add(c, d1), Add(c, d2), Add(c, d3)];
    assert ops[..2] == [Add(c, d1), Add(c, d2)] && ops[..2][..1] == [Add(c, d1)] && ops[..1][..0] == [];
    assert Run([]).List(c) == [];
    assert Run([Add(c, d1)]).List(c) == [] + [d1] == [d1];
    assert Run(ops[..2]).List(c) == [d1] + [d2];
    assert Run(ops).List(c) == [d1] + [d2] + [d3];
  }

  // ---------------------------------------------------------------------------
  // Records
  // ---------------------------------------------------------------------------

  /** A session's record by what was saved and removed alone. */
  function Record(ops: seq<Op>, sid: string): Option<Dialog> {
    if ops == [] then None
    else
      var op := ops[|ops| - 1];
      if op.Save? && op.d.sessionId == sid then Some(op.d)
      else if op.Remove? && op.sessionId == sid then None
      else Record(ops[..|ops| - 1], sid)
  }

  /** The store holds the last dialog saved for each session and not removed since. */
  lemma {:induction false} RecordsKept(ops: seq<Op>, sid: string)
    ensures var store := Run(ops).store;
      Record(ops, sid) == if sid in store then Some(store[sid]) else None
  {
    if ops != [] {
      RecordsKept(ops[..|ops| - 1], sid);
    }
  }

  // ---------------------------------------------------------------------------
  // The dialogs of a session
  // ---------------------------------------------------------------------------

  /** The dialogs of one session in a list. */
  function Of(list: seq<Dialog>, sid: string): seq<Dialog> {
    if list == [] then [] else (if list[0].sessionId == sid then [list[0]] else []) + Of(list[1..], sid)
  }

  function Renewed(ds: seq<Dialog>, leg1: Option<Leg>, leg2: Option<Leg>): seq<Dialog> {
    if ds == [] then [] else [WithLegs(ds[0], leg1, leg2)] + ds[1..]
  }

  /** One session's dialogs in one call, followed through an operation. */
  function DialogsStep(ds: seq<Dialog>, op: Op, c: string, sid: string): seq<Dialog> {
    match op
    case Add(callId, d) => if callId == c && d.sessionId == sid then ds + [d] else ds
    case NewLeg(id, leg, i) =>
      if leg.callId != c || id != sid || ds == [] then ds
      else [if i == 1 then ds[0].(leg1 := leg) else ds[0].(leg2 := leg)] + ds[1..]
    case NewLegs(d) =>
      if d.leg1.callId != c || d.sessionId != sid || ds == [] then ds
      else [ds[0].(leg1 := d.leg1, leg2 := d.leg2)] + ds[1..]
    case Remove(callId, id) => if callId == c && id == sid && ds != [] then ds[1..] else ds
    case Save(_) => ds
  }

  /** A session's dialogs in a call by the session's own history alone. */
  function Dialogs(ops: seq<Op>, c: string, sid: string): seq<Dialog> {
    if ops == [] then [] else DialogsStep(Dialogs(ops[..|ops| - 1], c, sid), ops[|ops| - 1], c, sid)
  }

  lemma OfNone(sid: string)
    ensures Of([], sid) == []
  {}

  lemma {:induction false} OfConcat(a: seq<Dialog>, b: seq<Dialog>, sid: string)
    ensures Of(a + b, sid) == Of(a, sid) + Of(b, sid)
  {
    hide Of;
    if a == [] {
      OfNone(sid);
      assert a + b == b && [] + Of(b, sid) == Of(b, sid);
    } else {
      var d, rest := a[0], a[1..];
      assert a == [d] + rest;
      Associates([d], rest, b);
      OfConcat(rest, b, sid);
      OfCons(d, rest, sid);
      OfCons(d, rest + b, sid);
      Associates([d], Of(rest, sid), Of(b, sid));
    }
  }

  lemma OfCons(d: Dialog, rest: seq<Dialog>, sid: string)
    ensures Of([d] + rest, sid) == (if d.sessionId == sid then [d] + Of(rest, sid) else Of(rest, sid))
  {
    assert ([d] + rest)[1..] == rest;
    assert [] + Of(rest, sid) == Of(rest, sid);
  }

  lemma ReleggedCons(d: Dialog, rest: seq<Dialog>, id: string, leg1: Option<Leg>, leg2: Option<Leg>)
    ensures Relegged([d] + rest, id, leg1, leg2) ==
      if d.sessionId == id then [WithLegs(d, leg1, leg2)] + rest else [d] + Relegged(rest, id, leg1, leg2)
  {
    assert ([d] + rest)[1..] == rest;
  }

  lemma {:induction false} OfRelegged(list: seq<Dialog>, id: string, leg1: Option<Leg>, leg2: Option<Leg>, sid: string)
    ensures Of(Relegged(list, id, leg1, leg2), sid) ==
      if id == sid then Renewed(Of(list, sid), leg1, leg2) else Of(list, sid)
  {
    if list != [] {
      hide Of, Relegged;
      var d, rest := list[0], list[1..];
      assert list == [d] + rest;
      OfRelegged(rest, id, leg1, leg2, sid);
      ReleggedCons(d, rest, id, leg1, leg2);
      OfCons(d, rest, sid);
      OfCons(d, Relegged(rest, id, leg1, leg2), sid);
      OfCons(WithLegs(d, leg1, leg2), rest, sid);
    }
  }

  lemma WithoutCons(d: Dialog, rest: seq<Dialog>, id: string)
    ensures Without([d] + rest, IndexOf([d] + rest, id)) ==
      if d.sessionId == id then rest else [d] + Without(rest, IndexOf(rest, id))
  {
    hide Without;
    var list := [d] + rest;
    assert list[1..] == rest && list[0] == d;
    if d.sessionId == id {
      assert IndexOf(list, id) == 0;
      WithoutHead(list);
    } else {
      assert IndexOf(list, id) == 1 + IndexOf(rest, id);
      WithoutTail(list, IndexOf(rest, id));
    }
  }

  lemma {:induction false} OfWithout(list: seq<Dialog>, id: string, sid: string)
    ensures Of(Without(list, IndexOf(list, id)), sid) ==
      if id == sid && Of(list, sid) != [] then Of(list, sid)[1..] else Of(list, sid)
  {
    if list != [] {
      hide Of, Without, IndexOf;
      var d, rest := list[0], list[1..];
      assert list == [d] + rest;
      OfWithout(rest, id, sid);
      WithoutCons(d, rest, id);
      OfCons(d, rest, sid);
      if d.sessionId == id {
        assert id == sid ==> ([d] + Of(rest, sid))[1..] == Of(rest, sid);
      } else {
        OfCons(d, Without(rest, IndexOf(rest, id)), sid);
      }
    }
  }

  lemma OfOne(d: Dialog, sid: string)
    ensures Of([d], sid) == if d.sessionId == sid then [d] else []
  {
    assert [d][1..] == [];
  }

  lemma OfAdded(list: seq<Dialog>, d: Dialog, sid: string)
    ensures Of(list + [d], sid) == if d.sessionId == sid then Of(list, sid) + [d] else Of(list, sid)
  {
    OfConcat(list, [d], sid);
    OfOne(d, sid);
    assert Of(list, sid) + [] == Of(list, sid);
  }

  lemma OfStep(list: seq<Dialog>, op: Op, c: string, sid: string)
    ensures Of(ListStep(list, op, c), sid) == DialogsStep(Of(list, sid), op, c, sid)
  {
    hide Of, Relegged, Without, IndexOf;
    match op
    case Add(_, d) => OfAdded(list, d, sid);
    case NewLeg(id, leg, _) =>
      OfRelegged(list, id, Some(leg), None, sid);
      OfRelegged(list, id, None, Some(leg), sid);
    case NewLegs(d) => OfRelegged(list, d.sessionId, Some(d.leg1), Some(d.leg2), sid);
    case Remove(_, id) => OfWithout(list, id, sid);
    case Save(_) =>
  }

  /** After any run the table holds for a session exactly the dialogs that its own additions,
      updates and removals make, in order, whatever goes on in other sessions and calls. */
  lemma {:induction false} DialogsKept(ops: seq<Op>, c: string, sid: string)
    ensures Of(Run(ops).List(c), sid) == Dialogs(ops, c, sid)
  {
    if ops != [] {
      hide Step, ListStep, DialogsStep, Of, Table.NoEmptyLists;
      var n := |ops| - 1;
      DialogsKept(ops[..n], c, sid);
      Invariant(ops[..n]);
      StepActsOnLists(Run(ops[..n]), ops[n], c);
      OfStep(Run(ops[..n]).List(c), ops[n], c, sid);
    }
  }

  lemma {:induction false} AnswerOf(list: seq<Dialog>, sid: string, toTag: string)
    ensures FirstAnswer(list, sid, toTag) == FirstAnswer(Of(list, sid), sid, toTag)
  {
    if list != [] {
      var d, rest := list[0], list[1..];
      AnswerOf(rest, sid, toTag);
      assert list == [d] + rest;
      OfCons(d, rest, sid);
      assert ([d] + Of(rest, sid))[1..] == Of(rest, sid);
    }
  }

  /** A search for a session, after any run, looks at nothing but the session's own history: it
      gives the first of its dialogs that carries the message's To tag, or the one there is if the
      call has no other session. */
  lemma SearchedSession(ops: seq<Op>, m: Message, sid: string)
    requires sid != ""
    ensures var ds := Dialogs(ops, m.callId, sid);
      Found(Run(ops), m, sid) ==
        if m.callId == "" || ds == [] then None
        else if |Sessions(ops, m.callId)| == 1 then Some(ds[0])
        else FirstAnswer(ds, sid, m.toTag)
  {
    DialogsKept(ops, m.callId, sid);
    SessionsKept(ops, m.callId);
    hide Run, Dialogs, Sessions;
    var list := Run(ops).List(m.callId);
    AnswerOf(list, sid, m.toTag);
    hide Of, FirstAnswer;
    NoAnswer(sid, m.toTag);
    if |list| == 1 {
      assert list == [list[0]];
      OfOne(list[0], sid);
    }
  }

  lemma NoAnswer(sid: string, toTag: string)
    ensures FirstAnswer([], sid, toTag) == None && Of([], sid) == []
  {}

  // ---------------------------------------------------------------------------
  // Loading the store
  // ---------------------------------------------------------------------------

  /** A record is young for a minute after its session's age, by a 64-bit clock that may wrap. */
  lemma YoungIff(d: Dialog, now: Time)
    ensures Young(d, now) <==>
      if d.sessionAge <= now then now - d.sessionAge < 60 * 1000
      else d.sessionAge - now > 0x1_0000_0000_0000_0000 - 60 * 1000
  {
    if d.sessionAge > now {
      ModUnique(now - d.sessionAge, TWO64, -1, TWO64 + now - d.sessionAge);
    } else {
      ModUnique(now - d.sessionAge, TWO64, 0, now - d.sessionAge);
    }
  }

  function Restored(ds: seq<Dialog>, now: Time, c: string): seq<Dialog> {
    if ds == [] then []
    else
      var d := ds[|ds| - 1];
      Restored(ds[..|ds| - 1], now, c) + (if Young(d, now) && d.leg1.callId == c then [d] else [])
  }

  lemma {:induction false} PopulatedLists(s: Table, ds: seq<Dialog>, now: Time, c: string)
    ensures Populated(s, ds, now).List(c) == s.List(c) + Restored(ds, now, c)
    ensures forall k :: k in Populated(s, ds, now).store <==>
      k in s.store && forall d :: d in ds && d.sessionId == k ==> Young(d, now)
    ensures forall k :: k in Populated(s, ds, now).store ==> Populated(s, ds, now).store[k] == s.store[k]
  {
    if ds != [] {
      var n := |ds| - 1;
      PopulatedLists(s, ds[..n], now, c);
      assert forall d :: d in ds <==> d in ds[..n] || d == ds[n];
    }
  }

  /** The record a load puts into the list of call `c`. */
  function Loaded(ops: seq<Op>, now: Time, c: string, sid: string): seq<Dialog> {
    var r := Record(ops, sid);
    if r.Some? && Young(r.value, now) && r.value.leg1.callId == c then [r.value] else []
  }

  lemma {:induction false} RestoredOf(ds: seq<Dialog>, now: Time, c: string, sid: string)
    ensures Of(Restored(ds, now, c), sid) == Restored(Of(ds, sid), now, c)
  {
    if ds == [] {
    } else {
      hide Young;
      var n := |ds| - 1;
      var front, d := ds[..n], ds[n];
      assert ds == front + [d];
      RestoredOf(front, now, c, sid);
      OfConcat(front, [d], sid);
      OfOne(d, sid);
      OfConcat(Restored(front, now, c), if Young(d, now) && d.leg1.callId == c then [d] else [], sid);
      if d.sessionId == sid {
        RestoredMore(Of(front, sid), d, now, c);
      } else {
        assert Of(front, sid) + [] == Of(front, sid);
      }
    }
  }

  lemma RestoredMore(ds: seq<Dialog>, d: Dialog, now: Time, c: string)
    ensures Restored(ds + [d], now, c) ==
      Restored(ds, now, c) + (if Young(d, now) && d.leg1.callId == c then [d] else [])
  {
    assert (ds + [d])[..|ds|] == ds;
  }

  /** What the store lists of a session is its record. */
  lemma {:induction false} ListedOf(ds: seq<Dialog>, sid: string, r: Option<Dialog>)
    requires forall d :: d in ds && d.sessionId == sid ==> r == Some(d)
    requires r.Some? ==> r.value.sessionId == sid
    requires forall i, j :: 0 <= i < j < |ds| ==> ds[i].sessionId != ds[j].sessionId
    ensures Of(ds, sid) == if r.Some? && r.value in ds then [r.value] else []
  {
    if ds != [] {
      ListedOf(ds[1..], sid, r);
      assert ds == [ds[0]] + ds[1..];
      OfCons(ds[0], ds[1..], sid);
    }
  }

  /** Loading the store an earlier run left adds to each call's list, for each session, exactly the
      record that run last saved, if it names the call in its first leg and is less than a minute
      old. Older records are dropped from the store and the others kept. */
  lemma LoadAdds(ops: seq<Op>, dialogs: map<string, seq<Dialog>>, ds: seq<Dialog>, now: Time, c: string, sid: string)
    requires Lists(ds, Run(ops).store)
    ensures var before := Table(dialogs, Run(ops).store);
      var s := Populated(before, ds, now);
      && Of(s.List(c), sid) == Of(before.List(c), sid) + Loaded(ops, now, c, sid)
      && (sid in s.store <==> Record(ops, sid).Some? && Young(Record(ops, sid).value, now))
  {
    var before := Table(dialogs, Run(ops).store);
    RecordsKept(ops, sid);
    Invariant(ops);
    StoreOf(ds, before.store, sid);
    PopulatedLists(before, ds, now, c);
    hide Run, Record, Young, Populated, Of;
    var listed := if sid in before.store then [before.store[sid]] else [];
    OfConcat(before.List(c), Restored(ds, now, c), sid);
    RestoredOf(ds, now, c, sid);
    if sid in before.store {
      assert listed == [] + [before.store[sid]];
      RestoredMore([], before.store[sid], now, c);
    }
  }

  lemma StoreOf(ds: seq<Dialog>, store: map<string, Dialog>, sid: string)
    requires Lists(ds, store) && (sid in store ==> store[sid].sessionId == sid)
    ensures Of(ds, sid) == if sid in store then [store[sid]] else []
    ensures forall d :: d in ds && d.sessionId == sid ==> sid in store && d == store[sid]
    ensures sid in store ==> store[sid] in ds
  {
    hide Of;
    ListedOf(ds, sid, if sid in store then Some(store[sid]) else None);
  }

  /** A manager started over that store therefore has exactly those records. */
  lemma RestartRestores(ops: seq<Op>, ds: seq<Dialog>, now: Time, c: string, sid: string)
    requires Lists(ds, Run(ops).store)
    ensures Of(Populated(Table(map[], Run(ops).store), ds, now).List(c), sid) == Loaded(ops, now, c, sid)
  {
    LoadAdds(ops, map[], ds, now, c, sid);
    NoAnswer(sid, "");
    assert [] + Loaded(ops, now, c, sid) == Loaded(ops, now, c, sid);
  }

  /** But a load is no more than an addition: over a table that is in use, as when the thread is
      started, a session is listed as often as before if and only if nothing is loaded for it, and
      once too often otherwise. */
  lemma LoadAgain(ops: seq<Op>, ds: seq<Dialog>, now: Time, c: string, sid: string)
    requires Lists(ds, Run(ops).store)
    ensures var s := Populated(Run(ops), ds, now);
      && Of(s.List(c), sid) == Dialogs(ops, c, sid) + Loaded(ops, now, c, sid)
      && (|Of(s.List(c), sid)| == |Dialogs(ops, c, sid)| <==> Loaded(ops, now, c, sid) == [])
  {
    LoadAdds(ops, Run(ops).dialogs, ds, now, c, sid);
    DialogsKept(ops, c, sid);
    assert Table(Run(ops).dialogs, Run(ops).store) == Run(ops);
  }

  /** A dialog added and saved before the thread starts is listed twice once it has. */
  lemma LoadListsTwice(c: string, d: Dialog, now: Time)
    requires d.leg1.callId == c && Young(d, now)
    ensures Lists([d], Run([Add(c, d), Save(d)]).store)
    ensures Of(Populated(Run([Add(c, d), Save(d)]), [d], now).List(c), d.sessionId) == [d, d]
  {
    var ops := [Add(c, d), Save(d)];
    AddedAndSaved(c, d);
    hide Run, Of, Dialogs, Record, Young;
    LoadAgain(ops, [d], now, c, d.sessionId);
    assert [d] + [d] == [d, d];
  }

  lemma AddedAndSaved(c: string, d: Dialog)
    ensures var ops, sid := [Add(c, d), Save(d)], d.sessionId;
      Run(ops).store == map[sid := d] && Dialogs(ops, c, sid) == [d] && Record(ops, sid) == Some(d)
  {
    var ops, one := [Add(c, d), Save(d)], [Add(c, d)];
    assert ops[..1] == one && one[..0] == [];
    assert Run(one).store == map[];
    assert Dialogs(one, c, d.sessionId) == [] + [d] == [d];
  }
}
