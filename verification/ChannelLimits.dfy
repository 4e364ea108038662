/** Channel limits: live calls are counted under the registered dial prefix, or the prefix
    an alias stands for, that the dial string begins with. */
module ChannelLimits {
  import opened PrefixSearch
  import opened Wrappers

  datatype Counter = Counter(limit: nat, active: nat)

  /** `calls` maps each registered prefix to its cache of session id -> dial string, `published`
      is the counter record kept for it in the workspace. */
  datatype Limiter = Limiter(calls: map<string, map<string, string>>, limits: map<string, nat>,
                             aliases: map<string, string>, shortest: nat, published: map<string, Counter>)

  const NO_CALLS: map<string, string> := map[]
  const NO_LIMITS := Limiter(map[], map[], map[], 0, map[])

  // ---------------------------------------------------------------------------
  // What the operations compute
  // ---------------------------------------------------------------------------

  function WithAliases(l: Limiter, prefix: string, aliases: seq<string>): Limiter {
    if aliases == [] then l
    else
      var k, m := aliases[|aliases| - 1], WithAliases(l, prefix, aliases[..|aliases| - 1]);
      m.(aliases := m.aliases[k := prefix], shortest := Shorten(m.shortest, k))
  }

  function Registered(l: Limiter, prefix: string, aliases: seq<string>, limit: nat): Limiter {
    Installed(WithAliases(l, prefix, aliases), prefix, limit)
  }

  function Installed(m: Limiter, prefix: string, limit: nat): Limiter {
    m.(calls := m.calls[prefix := NO_CALLS], limits := m.limits[prefix := limit],
       shortest := Shorten(m.shortest, prefix), published := m.published[prefix := Counter(limit, 0)])
  }

  /** The prefix an alias stands for, or the empty string. */
  function AliasOf(l: Limiter, dial: string): string {
    var a := Lookup(l.aliases.Keys, l.shortest, dial);
    if a.Some? then l.aliases[a.value] else ""
  }

  /** The prefix a dial string is counted under, or the empty string for none; aliases win. */
  function Resolve(l: Limiter, dial: string): string {
    if AliasOf(l, dial) != "" then AliasOf(l, dial)
    else
      var p := Lookup(l.calls.Keys, l.shortest, dial);
      if p.Some? then p.value else ""
  }

  /** The prefix whose cache an operation on this dial string touches. */
  function Target(l: Limiter, dial: string): Option<string> {
    var p := Resolve(l, dial);
    if p != "" && p in l.calls then Some(p) else None
  }

  predicate WellFormed(l: Limiter) {
    l.limits.Keys == l.calls.Keys == l.published.Keys
  }

  /** Each published counter is the size of its cache beside its limit. */
  predicate Published(l: Limiter)
    requires WellFormed(l)
  {
    forall p :: p in l.calls ==> l.published[p] == Counter(l.limits[p], |l.calls[p]|)
  }

  lemma RecountPublished(l: Limiter, p: string, cache: map<string, string>)
    requires WellFormed(l) && Published(l) && p in l.calls
    ensures WellFormed(Recount(l, p, cache)) && Published(Recount(l, p, cache))
  {}

  lemma AliasPublished(l: Limiter, alias: string, prefix: string)
    requires WellFormed(l) && Published(l)
    ensures var m := l.(aliases := l.aliases[alias := prefix], shortest := Shorten(l.shortest, alias));
      WellFormed(m) && Published(m)
  {}

  lemma InstalledPublished(l: Limiter, prefix: string, limit: nat)
    requires WellFormed(l) && Published(l)
    ensures WellFormed(Installed(l, prefix, limit)) && Published(Installed(l, prefix, limit))
  {}

  lemma TargetRegistered(l: Limiter, dial: string)
    ensures Target(l, dial).Some? ==> Target(l, dial).value in l.calls
  {}

  lemma RecountKeeps(l: Limiter, p: string, cache: map<string, string>)
    requires WellFormed(l) && p in l.calls
    ensures var m := Recount(l, p, cache);
      && WellFormed(m) && m.calls.Keys == l.calls.Keys && m.aliases == l.aliases && m.shortest == l.shortest
      && m.calls[p] == cache && (forall q :: q in l.calls && q != p ==> m.calls[q] == l.calls[q])
  {}

  lemma KeysPut<K, V>(m: map<K, V>, k: K, v: V)
    ensures m[k := v].Keys == m.Keys + {k}
  {}

  function Recount(l: Limiter, p: string, cache: map<string, string>): Limiter
    requires p in l.limits
  {
    l.(calls := l.calls[p := cache], published := l.published[p := Counter(l.limits[p], |cache|)])
  }

  /** The limiter after a call is added, and the count and limit reported for it. */
  function Added(l: Limiter, session: string, dial: string): (Limiter, Option<Counter>)
    requires WellFormed(l)
  {
    var t := Target(l, dial);
    if t.None? then (l, None)
    else
      var m := Recount(l, t.value, l.calls[t.value][session := dial]);
      (m, Some(m.published[t.value]))
  }

  function Removed(l: Limiter, session: string, dial: string): (Limiter, nat)
    requires WellFormed(l)
  {
    var t := Target(l, dial);
    if t.None? then (l, 0)
    else
      var m := Recount(l, t.value, l.calls[t.value] - {session});
      (m, m.published[t.value].active)
  }

  // ---------------------------------------------------------------------------
  // The class
  // ---------------------------------------------------------------------------

  class Limits {
    var calls: map<string, map<string, string>>
    var prefixOrder: seq<string>
    var limits: map<string, nat>
    var aliases: map<string, string>
    var aliasOrder: seq<string>
    var shortest: nat
    var published: map<string, Counter>

    function State(): Limiter
      reads this
    {
      Limiter(calls, limits, aliases, shortest, published)
    }

    ghost predicate Valid()
      reads this
    {
      && WellFormed(State()) && Published(State())
      && Lists(prefixOrder, calls.Keys) && Lists(aliasOrder, aliases.Keys)
    }

    constructor ()
      ensures Valid() && State() == NO_LIMITS
    {
      calls, prefixOrder, limits, aliases, aliasOrder, shortest, published := map[], [], map[], map[], [], 0, map[];
    }

    method NoteLength(key: string)
      modifies this`shortest
      ensures shortest == Shorten(old(shortest), key)
    {
      if shortest == 0 || shortest > |key| {
        shortest := |key|;
      }
    }

    method RegisterAlias(alias: string, prefix: string)
      requires Valid()
      modifies this`aliases, this`aliasOrder, this`shortest
      ensures Valid()
      ensures State() == old(State()).(aliases := old(aliases)[alias := prefix], shortest := Shorten(old(shortest), alias))
    {
      AliasPublished(State(), alias, prefix);
      hide Lists, Published, WellFormed;
      aliasOrder := Insert(aliasOrder, aliases.Keys, alias);
      KeysPut(aliases, alias, prefix);
      aliases := aliases[alias := prefix];
      NoteLength(alias);
    }

    /** `aliasTokens` are the tokens after the first comma, trimmed. */
    method RegisterDialPrefix(prefix: string, aliasTokens: seq<string>, channelLimit: nat)
      requires Valid()
      modifies this
      ensures Valid() && State() == Registered(old(State()), prefix, aliasTokens, channelLimit)
    {
      hide Lists, WellFormed, Published;
      ghost var before := State();
      var i := 0;
      while i < |aliasTokens|
        invariant 0 <= i <= |aliasTokens| && Valid()
        invariant State() == WithAliases(before, prefix, aliasTokens[..i])
      {
        assert aliasTokens[..i + 1][..i] == aliasTokens[..i];
        RegisterAlias(aliasTokens[i], prefix);
        i := i + 1;
      }
      assert aliasTokens[..i] == aliasTokens;
      InstallPrefix(prefix, channelLimit);
    }

    method InstallPrefix(prefix: string, channelLimit: nat)
      requires Valid()
      modifies this
      ensures Valid() && State() == Installed(old(State()), prefix, channelLimit)
    {
      hide Lists, Published, WellFormed, Shorten;
      ghost var target := Installed(State(), prefix, channelLimit);
      InstalledPublished(State(), prefix, channelLimit);
      KeysPut(calls, prefix, NO_CALLS);
      prefixOrder := Insert(prefixOrder, calls.Keys, prefix);
      calls := calls[prefix := NO_CALLS];
      limits := limits[prefix := channelLimit];
      published := published[prefix := Counter(channelLimit, 0)];
      NoteLength(prefix);
      assert State() == target;
    }

    /** Stores a cache and publishes its size. */
    method StoreCache(p: string, cache: map<string, string>)
      requires Valid() && p in calls
      modifies this`calls, this`published
      ensures Valid() && State() == Recount(old(State()), p, cache)
    {
      hide Lists, Published;
      RecountPublished(State(), p, cache);
      calls := calls[p := cache];
      assert calls.Keys == old(calls).Keys;
      published := published[p := Counter(limits[p], |cache|)];
    }

    method ResolveAliasPrefix(dial: string) returns (prefix: string)
      requires Valid()
      ensures prefix == AliasOf(State(), dial)
    {
      var hit := Scan(aliasOrder, aliases.Keys, shortest, dial);
      prefix := if hit.Some? then aliases[hit.value] else "";
    }

    method MatchPrefix(dial: string) returns (lastMatch: string)
      requires Valid()
      ensures lastMatch == Resolve(State(), dial)
    {
      lastMatch := ResolveAliasPrefix(dial);
      if lastMatch == "" {
        var hit := Scan(prefixOrder, calls.Keys, shortest, dial);
        lastMatch := if hit.Some? then hit.value else "";
      }
    }

    method AddCall(session: string, dial: string) returns (result: Option<Counter>)
      requires Valid()
      modifies this`calls, this`published
      ensures Valid() && (State(), result) == Added(old(State()), session, dial)
    {
      hide Resolve, Lists, Published;
      var lastMatch := MatchPrefix(dial);
      if lastMatch != "" && lastMatch in calls {
        StoreCache(lastMatch, calls[lastMatch][session := dial]);
        return Some(published[lastMatch]);
      }
      return None;
    }

    method RemoveCall(session: string, dial: string) returns (count: nat)
      requires Valid()
      modifies this`calls, this`published
      ensures Valid() && (State(), count) == Removed(old(State()), session, dial)
    {
      hide Resolve, Lists, Published;
      var lastMatch := MatchPrefix(dial);
      count := 0;
      if lastMatch != "" && lastMatch in calls {
        StoreCache(lastMatch, calls[lastMatch] - {session});
        count := published[lastMatch].active;
      }
    }

    /** What a script reads is the active count published for the prefix. */
    method GetCallCount(prefix: string) returns (count: nat)
      requires Valid()
      ensures prefix != "" && prefix in published ==> count == published[prefix].active
      ensures prefix == "" || prefix !in published ==> count == 0
    {
      count := 0;
      if prefix != "" {
        if prefix in calls {
          count := |calls[prefix]|;
        }
      }
    }
  }

  // ---------------------------------------------------------------------------
  // Histories
  // ---------------------------------------------------------------------------

  datatype Event =
    | Register(prefix: string, aliases: seq<string>, limit: nat)
    | Add(session: string, dial: string)
    | Remove(session: string, dial: string)

  function Step(l: Limiter, e: Event): (m: Limiter)
    requires WellFormed(l)
    ensures WellFormed(m)
  {
    match e
    case Register(prefix, aliases, limit) =>
      AliasesOnly(l, prefix, aliases);
      Registered(l, prefix, aliases, limit)
    case Add(session, dial) => Added(l, session, dial).0
    case Remove(session, dial) => Removed(l, session, dial).0
  }

  lemma {:induction false} AliasesOnly(l: Limiter, prefix: string, aliases: seq<string>)
    ensures var m := WithAliases(l, prefix, aliases);
      m.calls == l.calls && m.limits == l.limits && m.published == l.published
  {
    if aliases != [] {
      AliasesOnly(l, prefix, aliases[..|aliases| - 1]);
    }
  }

  function Run(h: seq<Event>): (l: Limiter)
    ensures WellFormed(l)
  {
    if h == [] then NO_LIMITS else Step(Run(h[..|h| - 1]), h[|h| - 1])
  }

  /** Event `i` of the history puts `session` into the cache of `p`. */
  predicate Joins(h: seq<Event>, i: nat, p: string, session: string)
    requires i < |h|
  {
    h[i].Add? && h[i].session == session && Target(Run(h[..i]), h[i].dial) == Some(p)
  }

  /** Event `i` takes it out: the prefix is registered afresh, or the session removed. */
  predicate Leaves(h: seq<Event>, i: nat, p: string, session: string)
    requires i < |h|
  {
    || (h[i].Register? && h[i].prefix == p)
    || (h[i].Remove? && h[i].session == session && Target(Run(h[..i]), h[i].dial) == Some(p))
  }

  /** The session was added under `p` and nothing took it out since. */
  predicate Live(h: seq<Event>, p: string, session: string) {
    exists i :: 0 <= i < |h| && Joins(h, i, p, session)
                && forall j :: i < j < |h| ==> !Leaves(h, j, p, session)
  }

  /** Over every history, a cache holds exactly the live sessions of its prefix, and the
      published counter is its size and the prefix's limit. */
  lemma {:induction false} CacheHoldsLiveCalls(h: seq<Event>, p: string, session: string)
    requires p in Run(h).calls
    ensures session in Run(h).calls[p] <==> Live(h, p, session)
    ensures Run(h).published[p] == Counter(Run(h).limits[p], |Run(h).calls[p]|)
  {
    hide Target, Live, Registered;
    var front, e := h[..|h| - 1], h[|h| - 1];
    var l := Run(front);
    LiveStep(h, p, session);
    if p in l.calls {
      CacheHoldsLiveCalls(front, p, session);
    }
    CacheStep(l, e, p, session);
  }

  /** A set-up is told the limit of its prefix beside the number of calls there, its own included;
      without a prefix, nothing. */
  lemma AddedReports(l: Limiter, session: string, dial: string)
    requires WellFormed(l)
    ensures var t, r := Target(l, dial), Added(l, session, dial).1;
      if t.None? then r == None
      else t.value in l.calls && r == Some(Counter(l.limits[t.value], |l.calls[t.value].Keys + {session}|))
  {
    TargetRegistered(l, dial);
    hide Target;
    var t := Target(l, dial);
    if t.Some? {
      PutSize(l.calls[t.value], session, dial);
    }
  }

  lemma PutSize<K, V>(m: map<K, V>, k: K, v: V)
    ensures |m[k := v]| == |m.Keys + {k}| > 0
  {
    KeysPut(m, k, v);
    assert |m[k := v]| == |m[k := v].Keys|;
    assert k in m.Keys + {k};
  }

  /** A removal is told the number of calls left there. */
  lemma RemovedReports(l: Limiter, session: string, dial: string)
    requires WellFormed(l)
    ensures var t, n := Target(l, dial), Removed(l, session, dial).1;
      if t.None? then n == 0 else t.value in l.calls && n == |l.calls[t.value].Keys - {session}|
  {
    TargetRegistered(l, dial);
    hide Target;
    var t := Target(l, dial);
    if t.Some? {
      var m := l.calls[t.value] - {session};
      assert m.Keys == l.calls[t.value].Keys - {session} && |m| == |m.Keys|;
    }
  }

  /** The limit the prefix was last registered with. */
  function LastLimit(h: seq<Event>, p: string): Option<nat> {
    if h == [] then None
    else
      var e := h[|h| - 1];
      if e.Register? && e.prefix == p then Some(e.limit) else LastLimit(h[..|h| - 1], p)
  }

  lemma {:induction false} LimitsAre(h: seq<Event>, p: string)
    ensures LastLimit(h, p) == if p in Run(h).limits then Some(Run(h).limits[p]) else None
  {
    if h != [] {
      hide Target, Registered;
      var front, e := h[..|h| - 1], h[|h| - 1];
      LimitsAre(front, p);
      if e.Register? {
        RegisteredCaches(Run(front), e.prefix, e.aliases, e.limit);
      }
    }
  }

  /** Over every history, the count reported on a set-up is the number of live sessions of the
      prefix, the new one included, and the limit the one registered last. */
  lemma ReportedLive(h: seq<Event>, session: string, dial: string, p: string, live: set<string>)
    requires Target(Run(h), dial) == Some(p)
    requires forall s :: s in live <==> Live(h + [Add(session, dial)], p, s)
    ensures var r := Added(Run(h), session, dial).1;
      r.Some? && r.value.active == |live| && LastLimit(h, p) == Some(r.value.limit)
  {
    var e := Add(session, dial);
    AddedReports(Run(h), session, dial);
    LimitsAre(h, p);
    AfterEvent(h, e);
    hide Run, Live, Target, Added, Removed;
    LiveKeys(h + [e], p, live);
    AddedKeys(Run(h), session, dial, p);
  }

  /** And the count reported on a removal is the number of those left. */
  lemma LeftLive(h: seq<Event>, session: string, dial: string, p: string, live: set<string>)
    requires Target(Run(h), dial) == Some(p)
    requires forall s :: s in live <==> Live(h + [Remove(session, dial)], p, s)
    ensures Removed(Run(h), session, dial).1 == |live|
  {
    var e := Remove(session, dial);
    RemovedReports(Run(h), session, dial);
    AfterEvent(h, e);
    hide Run, Live, Target, Added, Removed;
    LiveKeys(h + [e], p, live);
    RemovedKeys(Run(h), session, dial, p);
  }

  lemma AfterEvent(h: seq<Event>, e: Event)
    requires !e.Register?
    ensures Run(h + [e]) == if e.Add? then Added(Run(h), e.session, e.dial).0 else Removed(Run(h), e.session, e.dial).0
  {
    hide Added, Removed;
    assert (h + [e])[..|h|] == h;
  }

  lemma LiveKeys(h: seq<Event>, p: string, live: set<string>)
    requires p in Run(h).calls && forall s :: s in live <==> Live(h, p, s)
    ensures Run(h).calls[p].Keys == live
  {
    hide Run, Live;
    forall s ensures s in Run(h).calls[p] <==> s in live {
      CacheHoldsLiveCalls(h, p, s);
    }
  }

  lemma AddedKeys(l: Limiter, session: string, dial: string, p: string)
    requires WellFormed(l) && Target(l, dial) == Some(p)
    ensures var m := Added(l, session, dial).0; p in m.calls && p in l.calls && m.calls[p].Keys == l.calls[p].Keys + {session}
  {
    TargetRegistered(l, dial);
    hide Target;
  }

  lemma RemovedKeys(l: Limiter, session: string, dial: string, p: string)
    requires WellFormed(l) && Target(l, dial) == Some(p)
    ensures var m := Removed(l, session, dial).0; p in m.calls && p in l.calls && m.calls[p].Keys == l.calls[p].Keys - {session}
  {
    TargetRegistered(l, dial);
    hide Target;
  }

  /** One event: who enters and leaves a cache, and that the counter follows. */
  lemma CacheStep(l: Limiter, e: Event, p: string, session: string)
    requires WellFormed(l) && p in Step(l, e).calls
    requires p in l.calls ==> l.published[p] == Counter(l.limits[p], |l.calls[p]|)
    ensures var m := Step(l, e);
      && m.published[p] == Counter(m.limits[p], |m.calls[p]|)
      && (p !in l.calls ==> e.Register? && e.prefix == p)
      && (session in m.calls[p] <==>
           || (e.Add? && e.session == session && Target(l, e.dial) == Some(p))
           || (p in l.calls && session in l.calls[p]
               && !(e.Register? && e.prefix == p)
               && !(e.Remove? && e.session == session && Target(l, e.dial) == Some(p))))
  {
    hide Resolve, Registered;
    if e.Register? {
      RegisteredCaches(l, e.prefix, e.aliases, e.limit);
    }
  }

  lemma RegisteredCaches(l: Limiter, prefix: string, aliases: seq<string>, limit: nat)
    ensures var m := Registered(l, prefix, aliases, limit);
      && m.calls == l.calls[prefix := NO_CALLS] && m.limits == l.limits[prefix := limit]
      && m.published == l.published[prefix := Counter(limit, 0)]
  {
    AliasesOnly(l, prefix, aliases);
  }

  /** How the last event changes who is live. */
  lemma LiveStep(h: seq<Event>, p: string, session: string)
    requires h != []
    ensures var last := |h| - 1;
      Live(h, p, session) <==>
        Joins(h, last, p, session) || (Live(h[..last], p, session) && !Leaves(h, last, p, session))
  {
    hide Joins, Leaves;
    var last := |h| - 1;
    var front := h[..last];
    SameEvents(h, p, session);
    if Live(h, p, session) {
      var i :| 0 <= i < |h| && Joins(h, i, p, session) && forall j :: i < j < |h| ==> !Leaves(h, j, p, session);
      if i < last {
        assert Joins(front, i, p, session);
      }
    }
    if Live(front, p, session) && !Leaves(h, last, p, session) {
      var i :| 0 <= i < last && Joins(front, i, p, session) && forall j :: i < j < last ==> !Leaves(front, j, p, session);
      assert Joins(h, i, p, session);
    }
  }

  lemma SameEvents(h: seq<Event>, p: string, session: string)
    requires h != []
    ensures var front := h[..|h| - 1];
      forall i :: 0 <= i < |front| ==>
        (Joins(front, i, p, session) <==> Joins(h, i, p, session))
        && (Leaves(front, i, p, session) <==> Leaves(h, i, p, session))
  {
    var front := h[..|h| - 1];
    forall i | 0 <= i < |front|
      ensures (Joins(front, i, p, session) <==> Joins(h, i, p, session))
              && (Leaves(front, i, p, session) <==> Leaves(h, i, p, session))
    {
      assert front[..i] == h[..i];
    }
  }
}
