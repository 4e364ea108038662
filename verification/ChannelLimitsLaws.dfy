/** Laws of the channel limiter across operations. */
module ChannelLimitsLaws {
  import opened PrefixSearch
  import opened ChannelLimits
  import opened Wrappers

  // ---------------------------------------------------------------------------
  // Adding and removing a call
  // ---------------------------------------------------------------------------

  /** Adding a call and removing it again, even through an alias, gives the limiter back
      exactly when the dial string matches nothing or the session was not counted before. */
  lemma AddThenRemove(l: Limiter, session: string, dial: string)
    requires WellFormed(l) && Published(l)
    ensures WellFormed(Added(l, session, dial).0)
    ensures Removed(Added(l, session, dial).0, session, dial).0 == l
       <==> Target(l, dial).None? || session !in l.calls[Target(l, dial).value]
  {
    hide Target, Recount;
    var t := Target(l, dial);
    if t.Some? {
      var p := t.value;
      TargetRegistered(l, dial);
      var cache := l.calls[p];
      var m := Added(l, session, dial).0;
      RecountKeeps(l, p, cache[session := dial]);
      SameKeysSameTarget(l, m, dial);
      RecountTwice(l, p, cache[session := dial], cache[session := dial] - {session});
      var r := Removed(m, session, dial).0;
      assert r == Recount(l, p, cache[session := dial] - {session});
      RecountKeeps(l, p, cache[session := dial] - {session});
      if session !in cache {
        assert cache[session := dial] - {session} == cache;
        RecountSame(l, p);
      } else {
        assert session in l.calls[p] && session !in r.calls[p];
      }
    }
  }

  lemma RecountTwice(l: Limiter, p: string, c1: map<string, string>, c2: map<string, string>)
    requires p in l.limits
    ensures Recount(Recount(l, p, c1), p, c2) == Recount(l, p, c2)
  {
    PutTwice(l.calls, p, c1, c2);
    PutTwice(l.published, p, Counter(l.limits[p], |c1|), Counter(l.limits[p], |c2|));
  }

  lemma PutTwice<K, V>(m: map<K, V>, k: K, a: V, b: V)
    ensures m[k := a][k := b] == m[k := b]
  {}

  lemma PutSame<K, V>(m: map<K, V>, k: K)
    requires k in m
    ensures m[k := m[k]] == m
  {}

  lemma RecountSame(l: Limiter, p: string)
    requires WellFormed(l) && Published(l) && p in l.calls
    ensures Recount(l, p, l.calls[p]) == l
  {
    PutSame(l.calls, p);
    PutSame(l.published, p);
  }

  lemma SameKeysSameTarget(l: Limiter, m: Limiter, dial: string)
    requires l.calls.Keys == m.calls.Keys && l.aliases == m.aliases && l.shortest == m.shortest
    ensures Target(l, dial) == Target(m, dial)
  {}

  // ---------------------------------------------------------------------------
  // When the search is exact
  // ---------------------------------------------------------------------------

  /** Every key a history registers, in order: aliases first, then their prefix. */
  function KeysOf(h: seq<Event>): seq<string> {
    if h == [] then []
    else
      var e := h[|h| - 1];
      KeysOf(h[..|h| - 1]) + (if e.Register? then e.aliases + [e.prefix] else [])
  }

  lemma {:induction false} ShortenMore(keys: seq<string>, more: seq<string>, l: Limiter, prefix: string)
    requires l.shortest == ShortenAll(keys)
    ensures WithAliases(l, prefix, more).shortest == ShortenAll(keys + more)
    ensures WithAliases(l, prefix, more).aliases.Keys == l.aliases.Keys + (set k | k in more)
  {
    if more == [] {
      assert keys + more == keys;
    } else {
      var front, last := more[..|more| - 1], more[|more| - 1];
      ShortenMore(keys, front, l, prefix);
      assert (keys + more)[..|keys + more| - 1] == keys + front;
      assert more == front + [last];
    }
  }

  ghost predicate Tracks(l: Limiter, keys: seq<string>) {
    && l.shortest == ShortenAll(keys)
    && forall k :: k in keys <==> k in l.calls.Keys || k in l.aliases.Keys
  }

  lemma {:induction false} ShortestTracksKeys(h: seq<Event>)
    ensures Tracks(Run(h), KeysOf(h))
  {
    if h != [] {
      hide Step, Tracks;
      var front, e := h[..|h| - 1], h[|h| - 1];
      ShortestTracksKeys(front);
      if e.Register? {
        RegisterTracks(Run(front), KeysOf(front), e);
      } else {
        CallTracks(Run(front), KeysOf(front), e);
      }
    }
  }

  lemma RegisterTracks(l: Limiter, keys: seq<string>, e: Event)
    requires WellFormed(l) && Tracks(l, keys) && e.Register?
    ensures Tracks(Step(l, e), keys + (e.aliases + [e.prefix]))
  {
    hide Target, Published;
    ShortenMore(keys, e.aliases, l, e.prefix);
    assert keys + (e.aliases + [e.prefix]) == keys + e.aliases + [e.prefix];
    assert (keys + e.aliases + [e.prefix])[..|keys + e.aliases|] == keys + e.aliases;
    RegisteredCaches(l, e.prefix, e.aliases, e.limit);
  }

  lemma CallTracks(l: Limiter, keys: seq<string>, e: Event)
    requires WellFormed(l) && Tracks(l, keys) && !e.Register?
    ensures Tracks(Step(l, e), keys + [])
  {
    hide Target;
    assert keys + [] == keys;
    assert Step(l, e).calls.Keys == l.calls.Keys;
  }

  /** The two lookups agree with scans of the whole maps on every dial string. */
  ghost predicate SearchExact(l: Limiter) {
    forall dial :: Lookup(l.calls.Keys, l.shortest, dial) == Shortest(l.calls.Keys, dial, 0)
                && Lookup(l.aliases.Keys, l.shortest, dial) == Shortest(l.aliases.Keys, dial, 0)
  }

  /** After any history, starting the scans late is harmless exactly when no empty prefix or
      alias was ever registered, or the last key registered was empty. */
  lemma SearchExactIff(h: seq<Event>)
    ensures var keys := KeysOf(h);
      SearchExact(Run(h)) <==> ("" !in keys || keys[|keys| - 1] == "")
  {
    var l, keys := Run(h), KeysOf(h);
    ShortestTracksKeys(h);
    ShortestIsSafe(keys);
    LateStartIsSafe(l.calls.Keys, l.shortest);
    LateStartIsSafe(l.aliases.Keys, l.shortest);
  }

  /** An empty registration in between hides a prefix `p` registered before it from every
      longer dial string, once a longer prefix `q` follows. */
  lemma EmptyPrefixHidesOthers(p: string, q: string, dial: string)
    requires 0 < |p| < |q| && p <= dial && |p| < |dial|
    ensures Resolve(Run([Register(p, [], 1), Register("", [], 1), Register(q, [], 1)]), dial) != p
  {
    ThreeRegistered(p, q);
    hide Run;
    LongStartMisses(Run([Register(p, [], 1), Register("", [], 1), Register(q, [], 1)]), p, dial);
  }

  lemma ThreeRegistered(p: string, q: string)
    requires 0 < |p| < |q|
    ensures var l := Run([Register(p, [], 1), Register("", [], 1), Register(q, [], 1)]);
      l.shortest == |q| && l.aliases.Keys == {}
  {
    var r0, r1, r2 := Register(p, [], 1), Register("", [], 1), Register(q, [], 1);
    PlainRegister([], p);
    PlainRegister([r0], "");
    PlainRegister([r0, r1], q);
    assert [] + [r0] == [r0] && [r0] + [r1] == [r0, r1] && [r0, r1] + [r2] == [r0, r1, r2];
    assert Run([]) == NO_LIMITS;
    hide Run;
  }

  lemma LongStartMisses(l: Limiter, p: string, dial: string)
    requires 0 < |p| < l.shortest && |p| < |dial| && l.aliases.Keys == {}
    ensures Resolve(l, dial) != p
  {
    hide Shortest;
  }

  lemma PlainRegister(h: seq<Event>, prefix: string)
    ensures var l, m := Run(h), Run(h + [Register(prefix, [], 1)]);
      && m.calls.Keys == l.calls.Keys + {prefix} && m.aliases == l.aliases
      && m.shortest == Shorten(l.shortest, prefix)
  {
    assert (h + [Register(prefix, [], 1)])[..|h|] == h;
  }

  // ---------------------------------------------------------------------------
  // Registration while calls are up
  // ---------------------------------------------------------------------------

  ghost predicate NoShorterKey(l: Limiter) {
    forall k :: k in l.calls.Keys || k in l.aliases.Keys ==> 0 < l.shortest <= |k|
  }

  /** No key is empty or missed by the search, and every alias stands for a registered prefix. */
  ghost predicate Sound(l: Limiter) {
    NoShorterKey(l) && forall k :: k in l.aliases ==> l.aliases[k] in l.calls
  }

  ghost predicate NonEmptyKeys(prefix: string, aliases: seq<string>) {
    prefix != "" && forall k :: k in aliases ==> k != ""
  }

  /** The shorter of two keys that begin the same dial string; they are one key if equally long. */
  function Shorter(x: Option<string>, y: Option<string>): Option<string> {
    if x.None? then y else if y.None? || |x.value| < |y.value| then x else y
  }

  lemma ShortestOfBoth(a: set<string>, b: set<string>, dial: string)
    ensures Shortest(a + b, dial, 0) == Shorter(Shortest(a, dial, 0), Shortest(b, dial, 0))
  {
    hide Shortest;
    var x, y, r := Shortest(a, dial, 0), Shortest(b, dial, 0), Shortest(a + b, dial, 0);
    if r.Some? {
      assert r.value in a || r.value in b;
      assert x.Some? ==> |r.value| <= |x.value|;
      assert y.Some? ==> |r.value| <= |y.value|;
      SameLength(r, x, dial);
      SameLength(r, y, dial);
    }
  }

  lemma SameLength(x: Option<string>, y: Option<string>, dial: string)
    ensures x.Some? && y.Some? && x.value <= dial && y.value <= dial && |x.value| == |y.value| ==> x == y
  {
    if x.Some? && y.Some? && x.value <= dial && y.value <= dial && |x.value| == |y.value| {
      assert x.value == dial[..|x.value|] == y.value;
    }
  }

  lemma ShortestOne(k: string, dial: string)
    ensures Shortest({k}, dial, 0) == if k <= dial then Some(k) else None
  {
    hide Shortest;
    var r := Shortest({k}, dial, 0);
    assert r.Some? ==> r.value in {k};
    assert r.None? ==> k in {k};
  }

  /** In a sound limiter the search is over whole maps. */
  lemma TargetIs(l: Limiter, dial: string)
    requires Sound(l)
    ensures Target(l, dial) ==
      var a := Shortest(l.aliases.Keys, dial, 0);
      if a.Some? then Some(l.aliases[a.value]) else Shortest(l.calls.Keys, dial, 0)
  {
    LateStartIsSafe(l.aliases.Keys, l.shortest);
    LateStartIsSafe(l.calls.Keys, l.shortest);
    hide Shortest, Lookup;
    var a, p := Shortest(l.aliases.Keys, dial, 0), Shortest(l.calls.Keys, dial, 0);
    assert Lookup(l.aliases.Keys, l.shortest, dial) == a && Lookup(l.calls.Keys, l.shortest, dial) == p;
    assert a.Some? ==> l.aliases[a.value] in l.calls.Keys;
    assert forall k :: k in l.calls.Keys ==> k != "";
  }

  /** Every history of non-empty registrations keeps the limiter sound. */
  lemma {:induction false} SoundRuns(h: seq<Event>)
    requires forall e :: e in h && e.Register? ==> NonEmptyKeys(e.prefix, e.aliases)
    ensures Sound(Run(h))
  {
    if h != [] {
      hide Step, Sound, NonEmptyKeys;
      var front, e := h[..|h| - 1], h[|h| - 1];
      SoundRuns(front);
      assert e in h;
      if e.Register? {
        RegisteredIs(Run(front), e.prefix, e.aliases, e.limit);
        StepRegisters(Run(front), e);
      } else {
        CallKeepsSound(Run(front), e);
      }
    } else {
      EmptySound();
    }
  }

  lemma EmptySound()
    ensures Sound(NO_LIMITS)
  {}

  lemma StepRegisters(l: Limiter, e: Event)
    requires WellFormed(l) && e.Register?
    ensures Step(l, e) == Registered(l, e.prefix, e.aliases, e.limit)
  {}

  lemma CallKeepsSound(l: Limiter, e: Event)
    requires WellFormed(l) && Sound(l) && !e.Register?
    ensures Sound(Step(l, e))
  {
    hide Target;
    assert Step(l, e).calls.Keys == l.calls.Keys;
  }

  /** What a registration does to the keys. */
  lemma RegisteredIs(l: Limiter, prefix: string, aliases: seq<string>, limit: nat)
    requires Sound(l) && NonEmptyKeys(prefix, aliases)
    ensures var m, added := Registered(l, prefix, aliases, limit), set k | k in aliases;
      && Sound(m)
      && m.calls.Keys == l.calls.Keys + {prefix} && m.aliases.Keys == l.aliases.Keys + added
      && (forall k :: k in added ==> m.aliases[k] == prefix)
      && (forall k :: k in l.aliases && k !in added ==> m.aliases[k] == l.aliases[k])
  {
    AliasEffect(l, prefix, aliases);
    hide WithAliases;
    var w := WithAliases(l, prefix, aliases);
    KeysPut(w.calls, prefix, NO_CALLS);
  }

  lemma {:induction false} AliasEffect(l: Limiter, prefix: string, aliases: seq<string>)
    requires forall k :: k in aliases ==> k != ""
    requires NoShorterKey(l)
    ensures var m := WithAliases(l, prefix, aliases);
      && m.aliases.Keys == l.aliases.Keys + (set k | k in aliases)
      && (forall k :: k in aliases ==> m.aliases[k] == prefix)
      && (forall k :: k in l.aliases && k !in aliases ==> m.aliases[k] == l.aliases[k])
      && NoShorterKey(m) && m.calls == l.calls
      && (m.shortest == 0 ==> l.shortest == 0)
  {
    if aliases != [] {
      var front, last := aliases[..|aliases| - 1], aliases[|aliases| - 1];
      assert aliases == front + [last];
      AliasEffect(l, prefix, front);
    }
  }

  /** Whether a registration will leave a dial string counted where it is. A new alias that wins
      sends it to the new prefix; an old alias that wins keeps it; without aliases the new prefix
      takes it unless it does not match or an old one is no longer. */
  ghost predicate KeepsTarget(l: Limiter, prefix: string, aliases: seq<string>, dial: string) {
    var before, added := Shortest(l.aliases.Keys, dial, 0), Shortest((set k | k in aliases), dial, 0);
    if added.Some? && (before.None? || |added.value| <= |before.value|) then Target(l, dial) == Some(prefix)
    else before.Some? || !(prefix <= dial) || exists k :: k in l.calls && k <= dial && |k| <= |prefix|
  }

  /** The dial string stays where it was, so calls under it can still be removed, if and only if
      that holds. */
  lemma RegisterKeepsTarget(l: Limiter, prefix: string, aliases: seq<string>, limit: nat, dial: string)
    requires Sound(l) && NonEmptyKeys(prefix, aliases)
    ensures Target(Registered(l, prefix, aliases, limit), dial) == Target(l, dial) <==>
            KeepsTarget(l, prefix, aliases, dial)
  {
    var m, added := Registered(l, prefix, aliases, limit), set k | k in aliases;
    RegisteredIs(l, prefix, aliases, limit);
    TargetIs(l, dial);
    TargetIs(m, dial);
    hide Target, Registered, Shortest, Sound, NonEmptyKeys, Shorter;
    AliasWinner(l.aliases, m.aliases, added, prefix, dial);
    PrefixWinner(l.calls.Keys, m.calls.Keys, prefix, dial);
  }

  /** Which alias a dial string finds after a registration. */
  lemma AliasWinner(l: map<string, string>, m: map<string, string>, added: set<string>, prefix: string, dial: string)
    requires m.Keys == l.Keys + added
    requires forall k :: k in added ==> m[k] == prefix
    requires forall k :: k in l && k !in added ==> m[k] == l[k]
    ensures var a, b, w := Shortest(l.Keys, dial, 0), Shortest(added, dial, 0), Shortest(m.Keys, dial, 0);
      if b.Some? && (a.None? || |b.value| <= |a.value|) then w.Some? && m[w.value] == prefix
      else if a.Some? then w.Some? && m[w.value] == l[a.value]
      else w.None?
  {
    ShortestOfBoth(l.Keys, added, dial);
    hide Shortest;
    var a, b := Shortest(l.Keys, dial, 0), Shortest(added, dial, 0);
    if a.Some? && (b.None? || |a.value| < |b.value|) {
      assert a.value !in added;
    }
  }

  /** Which prefix it finds. */
  lemma PrefixWinner(l: set<string>, m: set<string>, prefix: string, dial: string)
    requires m == l + {prefix}
    ensures Shortest(m, dial, 0) == Shortest(l, dial, 0) <==>
            !(prefix <= dial) || exists k :: k in l && k <= dial && |k| <= |prefix|
  {
    ShortestOfBoth(l, {prefix}, dial);
    ShortestOne(prefix, dial);
    hide Shortest;
    var c := Shortest(l, dial, 0);
    SameLength(c, Some(prefix), dial);
    if c.Some? {
      assert c.value in l && c.value <= dial;
    }
  }

  /** A call counted under `p` is still counted there after a registration and its own removal, if
      and only if the registration moved its dial string away from `p` and did not empty `p`. */
  lemma StrandedIff(l: Limiter, p: string, prefix: string, aliases: seq<string>, limit: nat, session: string, dial: string)
    requires WellFormed(l) && Sound(l) && NonEmptyKeys(prefix, aliases)
    requires Target(l, dial) == Some(p) && session in l.calls[p]
    ensures var m := Registered(l, prefix, aliases, limit);
      WellFormed(m) && (p in Removed(m, session, dial).0.calls && session in Removed(m, session, dial).0.calls[p]
        <==> p != prefix && !KeepsTarget(l, prefix, aliases, dial))
  {
    RegisteredCaches(l, prefix, aliases, limit);
    RegisterKeepsTarget(l, prefix, aliases, limit, dial);
    var m := Registered(l, prefix, aliases, limit);
    assert m.limits.Keys == m.calls.Keys == m.published.Keys;
    hide Target, Registered, KeepsTarget, Sound;
    RemovedFrom(m, session, dial, p);
  }

  lemma RemovedFrom(l: Limiter, session: string, dial: string, p: string)
    requires WellFormed(l) && p in l.calls
    ensures var r := Removed(l, session, dial).0;
      p in r.calls && (session in r.calls[p] <==> session in l.calls[p] && Target(l, dial) != Some(p))
  {
    TargetRegistered(l, dial);
    hide Target;
  }

  lemma LookupInKeys(keys: set<string>, shortest: nat, dial: string)
    ensures var r := Lookup(keys, shortest, dial);
      r.Some? ==> r.value in keys && r.value <= dial
  {}

  /** A shorter prefix `q` registered while a call is up under `p` strands the call: its
      removal looks under `q` and the count under `p` is not taken down. */
  lemma ShorterPrefixStrandsCall(l: Limiter, p: string, q: string, limit: nat, session: string, dial: string)
    requires WellFormed(l) && p in l.calls && session in l.calls[p]
    requires 0 < |q| < l.shortest && q != p && q <= dial
    requires forall k :: k in l.aliases ==> !(k <= dial)
    ensures var m := Registered(l, q, [], limit);
      && WellFormed(m) && p in Removed(m, session, dial).0.calls
      && session in Removed(m, session, dial).0.calls[p]
  {
    var m := Registered(l, q, [], limit);
    RegisteredCaches(l, q, [], limit);
    assert m.shortest == |q| && m.aliases == l.aliases;
    assert q == dial[..|q|];
    LookupInKeys(m.aliases.Keys, m.shortest, dial);
    assert Target(m, dial) == Some(q);
    hide Target;
  }
}
