/** Flood control: packets are counted per source; when the count reaches a threshold within a
    second, sources with a high count are banned for a while. */
module FloodControl {

  /** Addresses, by their place in the address order. */
  type Address = nat

  /** One entry of the ordered packet counter. */
  datatype Entry = Entry(source: Address, count: nat)

  /** Times are microseconds; a window violates the rate if it closed within this many. */
  const WINDOW := 1001000

  // ---------------------------------------------------------------------------
  // Counting
  // ---------------------------------------------------------------------------

  predicate Sorted(es: seq<Entry>) {
    forall i, j :: 0 <= i < j < |es| ==> es[i].source < es[j].source
  }

  predicate Positive(es: seq<Entry>) {
    forall i :: 0 <= i < |es| ==> es[i].count >= 1
  }

  function Sum(es: seq<Entry>): nat {
    if es == [] then 0 else es[0].count + Sum(es[1..])
  }

  function CountOf(es: seq<Entry>, a: Address): nat {
    if es == [] then 0 else (if es[0].source == a then es[0].count else 0) + CountOf(es[1..], a)
  }

  /** The counter with one more packet from `a`, at its place in the order. */
  function Bumped(es: seq<Entry>, a: Address): seq<Entry> {
    if es == [] || a < es[0].source then [Entry(a, 1)] + es
    else if es[0].source == a then [Entry(a, es[0].count + 1)] + es[1..]
    else [es[0]] + Bumped(es[1..], a)
  }

  lemma {:induction false} BumpedAbove(es: seq<Entry>, a: Address, low: Address)
    requires low < a && forall i :: 0 <= i < |es| ==> low < es[i].source
    ensures forall i :: 0 <= i < |Bumped(es, a)| ==> low < Bumped(es, a)[i].source
  {
    if es != [] && es[0].source < a {
      BumpedAbove(es[1..], a, low);
    }
  }

  lemma {:induction false} BumpedOrder(es: seq<Entry>, a: Address)
    requires Sorted(es) && Positive(es)
    ensures Sorted(Bumped(es, a)) && Positive(Bumped(es, a))
  {
    if es != [] && es[0].source < a {
      BumpedOrder(es[1..], a);
      BumpedAbove(es[1..], a, es[0].source);
    }
  }

  /** One packet more, and from `a`. */
  lemma {:induction false} BumpedCounts(es: seq<Entry>, a: Address, x: Address)
    ensures Sum(Bumped(es, a)) == Sum(es) + 1
    ensures Sorted(es) ==> CountOf(Bumped(es, a), x) == CountOf(es, x) + (if x == a then 1 else 0)
  {
    if es == [] || a < es[0].source {
      assert ([Entry(a, 1)] + es)[1..] == es;
    } else if es[0].source == a {
      assert ([Entry(a, es[0].count + 1)] + es[1..])[1..] == es[1..];
    } else {
      BumpedCounts(es[1..], a, x);
      assert ([es[0]] + Bumped(es[1..], a))[1..] == Bumped(es[1..], a);
    }
  }

  // ---------------------------------------------------------------------------
  // The window
  // ---------------------------------------------------------------------------

  datatype Config = Config(threshold: nat, rate: nat, autoBan: bool)

  /** Listed addresses, and a test against the listed networks, which is left abstract. */
  datatype Trust = Trust(listed: set<Address>, inNetwork: Address -> bool) {
    predicate Has(a: Address) { a in listed || inNetwork(a) }
  }

  datatype Window = Window(entries: seq<Entry>, iteration: nat, lastTime: int)

  /** The sources the watermark scan bans: those that exceed every count before them, reach the
      rate and are not trusted. */
  function Banned(es: seq<Entry>, watermark: nat, rate: nat, t: Trust): seq<Address> {
    if es == [] then []
    else if es[0].count > watermark then
      (if es[0].count >= rate && !t.Has(es[0].source) then [es[0].source] else [])
      + Banned(es[1..], es[0].count, rate, t)
    else Banned(es[1..], watermark, rate, t)
  }

  /** Whether a packet arriving at `now` closes the window as a violation. */
  predicate Violates(c: Config, w: Window, now: int) {
    w.iteration + 1 >= c.threshold && now - w.lastTime < WINDOW
  }

  function Logged(c: Config, w: Window, source: Address, now: int): Window {
    if w.iteration + 1 >= c.threshold then Window([], 0, now)
    else w.(entries := Bumped(w.entries, source), iteration := w.iteration + 1)
  }

  /** The sources this packet gets banned. */
  function NewBans(c: Config, w: Window, source: Address, now: int, t: Trust): seq<Address> {
    if Violates(c, w, now) && c.autoBan then Banned(Bumped(w.entries, source), 0, c.rate, t) else []
  }

  function BanAll(banned: map<Address, int>, as': seq<Address>, now: int): map<Address, int> {
    if as' == [] then banned else BanAll(banned, as'[..|as'| - 1], now)[as'[|as'| - 1] := now]
  }

  lemma NoBans(banned: map<Address, int>, now: int)
    ensures BanAll(banned, [], now) == banned
  {}

  lemma BanAllAppend(banned: map<Address, int>, as': seq<Address>, a: Address, now: int)
    ensures BanAll(banned, as' + [a], now) == BanAll(banned, as', now)[a := now]
  {
    assert (as' + [a])[..|as'|] == as';
  }

  lemma BannedNone(watermark: nat, rate: nat, t: Trust)
    ensures Banned([], watermark, rate, t) == []
  {}

  /** One round of the watermark loop. */
  lemma BannedStep(done: seq<Address>, es: seq<Entry>, i: nat, watermark: nat, rate: nat, t: Trust)
    requires i < |es|
    ensures var e := es[i];
      done + Banned(es[i..], watermark, rate, t) ==
      if e.count > watermark && e.count >= rate && !t.Has(e.source) then
        done + [e.source] + Banned(es[i + 1..], e.count, rate, t)
      else done + Banned(es[i + 1..], if e.count > watermark then e.count else watermark, rate, t)
  {
    assert es[i..][1..] == es[i + 1..];
  }

  /** A ban given at `since` has run out: its age in milliseconds exceeds the lifetime. */
  predicate Expired(since: int, now: int, lifeTime: nat) {
    lifeTime > 0 && now - since >= (lifeTime * 1000 + 1) * 1000
  }

  function Paroled(banned: map<Address, int>, now: int, lifeTime: nat): map<Address, int> {
    map a | a in banned && !Expired(banned[a], now, lifeTime) :: banned[a]
  }

  class AccessControl {
    var enabled: bool
    var config: Config
    var banLifeTime: nat
    var denyAll: bool
    var entries: seq<Entry>
    var iteration: nat
    var lastTime: int
    var whiteList: set<Address>
    var blackList: set<Address>
    var banned: map<Address, int>
    const inTrustedNetwork: Address -> bool
    const inBlockedNetwork: Address -> bool

    function CurrentWindow(): Window
      reads this
    {
      Window(entries, iteration, lastTime)
    }

    function Trusted(): Trust
      reads this
    {
      Trust(whiteList, inTrustedNetwork)
    }

    constructor (c: Config, now: int, trustedNetwork: Address -> bool, blockedNetwork: Address -> bool)
      ensures !enabled && config == c && CurrentWindow() == Window([], 0, now) && banned == map[]
      ensures whiteList == {} && blackList == {} && !denyAll && banLifeTime == 0
      ensures inTrustedNetwork == trustedNetwork && inBlockedNetwork == blockedNetwork
    {
      enabled, config, banLifeTime, denyAll := false, c, 0, false;
      entries, iteration, lastTime := [], 0, now;
      whiteList, blackList, banned := {}, {}, map[];
      inTrustedNetwork, inBlockedNetwork := trustedNetwork, blockedNetwork;
    }

    method IsWhiteListed(a: Address) returns (r: bool)
      ensures r == Trusted().Has(a)
    {
      r := a in whiteList;
      if !r {
        r := inTrustedNetwork(a);
      }
    }

    method BanAddress(a: Address, now: int)
      modifies this`banned
      ensures banned == if enabled then old(banned)[a := now] else old(banned)
    {
      if !enabled {
        return;
      }
      banned := banned[a := now];
    }

    /** `now` is the clock read when the window closes, `banTime` the one read on banning. */
    method LogPacket(source: Address, now: int, banTime: int) returns (violated: bool, violators: seq<Address>)
      modifies this`entries, this`iteration, this`lastTime, this`banned
      ensures !enabled ==> !violated && violators == [] && CurrentWindow() == old(CurrentWindow()) && banned == old(banned)
      ensures enabled ==>
        && violated == Violates(config, old(CurrentWindow()), now)
        && violators == NewBans(config, old(CurrentWindow()), source, now, Trusted())
        && CurrentWindow() == Logged(config, old(CurrentWindow()), source, now)
        && banned == BanAll(old(banned), violators, banTime)
    {
      violated, violators := false, [];
      if !enabled {
        return;
      }
      Count(source);
      iteration := iteration + 1;
      if iteration >= config.threshold {
        iteration := 0;
        if now - lastTime < WINDOW {
          violated := true;
          violators := ScanCounters(banTime);
        }
        entries := [];
        lastTime := now;
      }
    }

    method Count(source: Address)
      modifies this`entries
      ensures entries == Bumped(old(entries), source)
    {
      var i := 0;
      while i < |entries| && entries[i].source < source
        invariant 0 <= i <= |entries|
        invariant entries == old(entries)
        invariant Bumped(entries, source) == entries[..i] + Bumped(entries[i..], source)
      {
        assert entries[i..][1..] == entries[i + 1..];
        assert entries[..i] + ([entries[i]] + Bumped(entries[i + 1..], source))
            == entries[..i + 1] + Bumped(entries[i + 1..], source);
        i := i + 1;
      }
      if i < |entries| && entries[i].source == source {
        assert entries[i..][1..] == entries[i + 1..];
        entries := entries[..i] + ([Entry(source, entries[i].count + 1)] + entries[i + 1..]);
      } else {
        entries := entries[..i] + ([Entry(source, 1)] + entries[i..]);
      }
    }

    /** The watermark loop over the counter. */
    method ScanCounters(banTime: int) returns (violators: seq<Address>)
      requires enabled
      modifies this`banned
      ensures violators == if config.autoBan then Banned(entries, 0, config.rate, Trusted()) else []
      ensures banned == BanAll(old(banned), violators, banTime)
    {
      hide Banned, BanAll;
      violators := [];
      var watermark: nat, i := 0, 0;
      ghost var t := Trusted();
      NoBans(banned, banTime);
      assert entries[0..] == entries;
      assert [] + Banned(entries, 0, config.rate, t) == Banned(entries, 0, config.rate, t);
      while i < |entries|
        invariant 0 <= i <= |entries| && Trusted() == t
        invariant config.autoBan ==>
          Banned(entries, 0, config.rate, t) == violators + Banned(entries[i..], watermark, config.rate, t)
        invariant !config.autoBan ==> violators == []
        invariant banned == BanAll(old(banned), violators, banTime)
      {
        var e := entries[i];
        BannedStep(violators, entries, i, watermark, config.rate, t);
        BanAllAppend(old(banned), violators, e.source, banTime);
        if e.count > watermark {
          watermark := e.count;
          if watermark >= config.rate && config.autoBan {
            var trustedSource := IsWhiteListed(e.source);
            if !trustedSource {
              BanAddress(e.source, banTime);
              violators := violators + [e.source];
            }
          }
        }
        i := i + 1;
      }
      BannedNone(watermark, config.rate, t);
      assert entries[i..] == [] && violators + [] == violators;
    }

    method IsBannedAddress(source: Address, now: int) returns (r: bool)
      modifies this`banned
      ensures !enabled ==> !r && banned == old(banned)
      ensures enabled ==>
        && banned == Paroled(old(banned), now, banLifeTime)
        && (r <==> !Trusted().Has(source)
                   && (denyAll || source in banned || source in blackList || inBlockedNetwork(source)))
    {
      if !enabled {
        return false;
      }
      if banLifeTime > 0 {
        ReleaseExpired(now);
      } else {
        assert banned == Paroled(banned, now, banLifeTime);
      }
      var white := IsWhiteListed(source);
      r := !white && (denyAll || source in banned || source in blackList || inBlockedNetwork(source));
    }

    method ReleaseExpired(now: int)
      requires banLifeTime > 0
      modifies this`banned
      ensures banned == Paroled(old(banned), now, banLifeTime)
    {
      var parole, left := {}, banned.Keys;
      while left != {}
        invariant left <= banned.Keys && banned == old(banned)
        invariant forall a :: a in parole <==> a in banned && a !in left && Expired(banned[a], now, banLifeTime)
        decreases |left|
      {
        var a :| a in left;
        if now - banned[a] >= (banLifeTime * 1000 + 1) * 1000 {
          parole := parole + {a};
        }
        left := left - {a};
      }
      banned := banned - parole;
    }
  }
}
