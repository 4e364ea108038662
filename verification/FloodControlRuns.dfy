/** Flood control over whole runs, told by the packets alone: which packets are reported as a
    violation, and which sources they get banned. */
module FloodControlRuns {
  import opened Division
  import opened FloodControl
  import opened FloodControlLaws

  /** A window closes with every packet whose number is a multiple of this. */
  function Length(c: Config): nat
    ensures Length(c) > 0
  {
    AtLeastOne(c.threshold)
  }

  /** How many of `n` packets are in the window that is then open. */
  function Pending(c: Config, n: nat): (k: nat)
    ensures k <= n && k < Length(c)
  {
    n % Length(c)
  }

  /** The packets of the window that is open after `ps`. */
  function Open(c: Config, ps: seq<Packet>): seq<Packet> {
    ps[|ps| - Pending(c, |ps|)..]
  }

  /** When that window was opened. */
  function Opening(c: Config, start: int, ps: seq<Packet>): int {
    var closed := |ps| - Pending(c, |ps|);
    if closed == 0 then start else ps[closed - 1].now
  }

  /** How many of the packets come from `a`. */
  function From(ps: seq<Packet>, a: Address): nat {
    if ps == [] then 0 else From(ps[..|ps| - 1], a) + (if ps[|ps| - 1].source == a then 1 else 0)
  }

  lemma FromMore(ps: seq<Packet>, p: Packet, a: Address)
    ensures From(ps + [p], a) == From(ps, a) + (if p.source == a then 1 else 0)
  {
    assert (ps + [p])[..|ps|] == ps;
  }

  // ---------------------------------------------------------------------------
  // The window
  // ---------------------------------------------------------------------------

  lemma PendingMore(c: Config, n: nat)
    ensures Pending(c, n + 1) == if Pending(c, n) + 1 == Length(c) then 0 else Pending(c, n) + 1
  {
    ModStep(n + 1, Length(c));
  }

  /** One packet more is in the open window, or closes it. */
  lemma OpenMore(c: Config, start: int, ps: seq<Packet>)
    requires ps != []
    ensures var front, p := ps[..|ps| - 1], ps[|ps| - 1];
      if Pending(c, |front|) + 1 == Length(c)
      then Pending(c, |ps|) == 0 && Open(c, ps) == [] && Opening(c, start, ps) == p.now
      else Pending(c, |ps|) == Pending(c, |front|) + 1
           && Open(c, ps) == Open(c, front) + [p] && Opening(c, start, ps) == Opening(c, start, front)
  {
    PendingMore(c, |ps| - 1);
    hide Pending, Length;
  }

  /** After any packets the iteration count is the length of the open window, the last time its
      opening, and each counter the number of its packets from that source. */
  lemma {:induction false} WindowIs(c: Config, start: int, ps: seq<Packet>, a: Address)
    ensures var w := Run(c, start, ps);
      && w.iteration == Pending(c, |ps|) && w.lastTime == Opening(c, start, ps)
      && CountOf(w.entries, a) == From(Open(c, ps), a)
  {
    if ps != [] {
      var front, p := ps[..|ps| - 1], ps[|ps| - 1];
      var w := Run(c, start, front);
      WindowIs(c, start, front, a);
      CountsAddUp(c, start, front);
      BumpedCounts(w.entries, p.source, a);
      FromMore(Open(c, front), p, a);
      OpenMore(c, start, ps);
      hide Bumped, Open, Opening, From, ValidWindow, Run, Pending;
      assert Run(c, start, ps) == Logged(c, w, p.source, p.now) by { RunStep(c, start, ps); }
      assert CountOf([], a) == 0 == From([], a) by { NoCounts(a); }
    }
  }

  lemma RunStep(c: Config, start: int, ps: seq<Packet>)
    requires ps != []
    ensures var p := ps[|ps| - 1]; Run(c, start, ps) == Logged(c, Run(c, start, ps[..|ps| - 1]), p.source, p.now)
  {}

  lemma NoCounts(a: Address)
    ensures CountOf([], a) == 0 && From([], a) == 0
  {}

  // ---------------------------------------------------------------------------
  // Reports and bans
  // ---------------------------------------------------------------------------

  /** The packet is the last of its window, and the window took no more than a second, in whole
      milliseconds. */
  predicate TooFast(c: Config, start: int, ps: seq<Packet>, p: Packet) {
    Pending(c, |ps| + 1) == 0 && (p.now - Opening(c, start, ps)) / 1000 <= 1000
  }

  /** In every run exactly those packets are reported. */
  lemma ReportedIff(c: Config, start: int, ps: seq<Packet>, p: Packet)
    ensures Violates(c, Run(c, start, ps), p.now) <==> TooFast(c, start, ps, p)
  {
    WindowIs(c, start, ps, 0);
    PendingMore(c, |ps|);
    hide Run, Opening, Pending;
  }

  /** `a` sent enough of these packets, more than every source before it in the order, and is on
      no list of trusted addresses or networks. */
  predicate Offends(c: Config, t: Trust, ps: seq<Packet>, a: Address) {
    && From(ps, a) >= AtLeastOne(c.rate) && a !in t.listed && !t.inNetwork(a)
    && forall b: Address :: b < a ==> From(ps, b) < From(ps, a)
  }

  /** In every run a packet gets a source banned if and only if it is reported, bans are given
      automatically, and the source offends in the window the packet closes. */
  lemma BannedIff(c: Config, start: int, ps: seq<Packet>, p: Packet, t: Trust, a: Address)
    ensures a in NewBans(c, Run(c, start, ps), p.source, p.now, t) <==>
      c.autoBan && TooFast(c, start, ps, p) && Offends(c, t, Open(c, ps) + [p], a)
  {
    var w := Run(c, start, ps);
    ReportedIff(c, start, ps, p);
    CountsAddUp(c, start, ps);
    BumpedOrder(w.entries, p.source);
    var es, window := Bumped(w.entries, p.source), Open(c, ps) + [p];
    forall b: Address ensures CountOf(es, b) == From(window, b) {
      WindowIs(c, start, ps, b);
      BumpedCounts(w.entries, p.source, b);
      FromMore(Open(c, ps), p, b);
    }
    hide Bumped, Open, From, Run, TooFast, Violates, Banned;
    OffendersBanned(c, es, window, t, a);
  }

  lemma OffendersBanned(c: Config, es: seq<Entry>, ps: seq<Packet>, t: Trust, a: Address)
    requires Counter(es) && forall b: Address :: CountOf(es, b) == From(ps, b)
    ensures a in Banned(es, 0, c.rate, t) <==> Offends(c, t, ps, a)
  {
    hide Banned, From, CountOf;
    BannedMeans(es, 0, c.rate, t, a);
    if a in Banned(es, 0, c.rate, t) {
      var i :| 0 <= i < |es| && es[i].source == a && Record(es, i, 0) && es[i].count >= c.rate && !t.Has(a);
      CountAt(es, i);
      forall b: Address | b < a ensures CountOf(es, b) < CountOf(es, a) {
        if CountOf(es, b) > 0 {
          var j := Place(es, b);
          CountAt(es, j);
        }
      }
    }
    if Offends(c, t, ps, a) {
      assert CountOf(es, a) > 0;
      var i := Place(es, a);
      CountAt(es, i);
      forall j | 0 <= j < i ensures es[j].count < es[i].count {
        CountAt(es, j);
        assert es[j].source < a && CountOf(es, es[j].source) < CountOf(es, a);
      }
      assert Record(es, i, 0);
    }
  }

  /** Where a counted source stands. */
  lemma {:induction false} Place(es: seq<Entry>, a: Address) returns (i: nat)
    requires CountOf(es, a) > 0
    ensures i < |es| && es[i].source == a
  {
    if es[0].source == a {
      i := 0;
    } else {
      i := Place(es[1..], a);
      i := i + 1;
    }
  }

  lemma {:induction false} CountAt(es: seq<Entry>, i: nat)
    requires Counter(es) && i < |es|
    ensures CountOf(es, es[i].source) == es[i].count >= 1
  {
    if i == 0 {
      NotAfter(es[1..], es[0].source);
    } else {
      CountAt(es[1..], i - 1);
    }
  }

  lemma {:induction false} NotAfter(es: seq<Entry>, a: Address)
    requires forall i :: 0 <= i < |es| ==> a < es[i].source
    ensures CountOf(es, a) == 0
  {
    if es != [] {
      NotAfter(es[1..], a);
    }
  }

  /** Banning enters exactly the sources given, from that time on. */
  lemma {:induction false} BanAllMeans(banned: map<Address, int>, as': seq<Address>, now: int, a: Address)
    ensures var b := BanAll(banned, as', now);
      && (a in b <==> a in banned || a in as')
      && (a in b ==> b[a] == if a in as' then now else banned[a])
  {
    if as' != [] {
      var front, last := as'[..|as'| - 1], as'[|as'| - 1];
      BanAllMeans(banned, front, now, a);
      assert as' == front + [last];
    }
  }
}
