/** What flood control guarantees, and what it does not. */
module FloodControlLaws {
  import opened FloodControl

  // ---------------------------------------------------------------------------
  // Counting
  // ---------------------------------------------------------------------------

  /** A counter that holds one entry per source seen in the current window. */
  predicate Counter(es: seq<Entry>) { Sorted(es) && Positive(es) }

  function AtLeastOne(n: nat): nat { if n == 0 then 1 else n }

  predicate ValidWindow(c: Config, w: Window) {
    Counter(w.entries) && Sum(w.entries) == w.iteration < AtLeastOne(c.threshold)
  }

  datatype Packet = Packet(source: Address, now: int)

  function Run(c: Config, start: int, ps: seq<Packet>): Window {
    if ps == [] then Window([], 0, start)
    else
      var p := ps[|ps| - 1];
      Logged(c, Run(c, start, ps[..|ps| - 1]), p.source, p.now)
  }

  lemma LoggedValid(c: Config, w: Window, source: Address, now: int)
    requires ValidWindow(c, w)
    ensures ValidWindow(c, Logged(c, w, source, now))
    ensures Counter(Bumped(w.entries, source))
    ensures w.iteration + 1 >= c.threshold ==> Sum(Bumped(w.entries, source)) == AtLeastOne(c.threshold)
  {
    BumpedOrder(w.entries, source);
    BumpedCounts(w.entries, source, source);
  }

  /** After any packets, the per-source counts add up to the iteration count, which stays
      below the threshold. */
  lemma {:induction false} CountsAddUp(c: Config, start: int, ps: seq<Packet>)
    ensures ValidWindow(c, Run(c, start, ps))
  {
    if ps != [] {
      var p := ps[|ps| - 1];
      CountsAddUp(c, start, ps[..|ps| - 1]);
      LoggedValid(c, Run(c, start, ps[..|ps| - 1]), p.source, p.now);
    }
  }

  // ---------------------------------------------------------------------------
  // Who is banned
  // ---------------------------------------------------------------------------

  /** Entry `i` holds a strict new maximum. */
  predicate Record(es: seq<Entry>, i: nat, watermark: nat)
    requires i < |es|
  {
    es[i].count > watermark && forall j :: 0 <= j < i ==> es[j].count < es[i].count
  }

  /** A source is banned exactly when it set a strict new maximum in address order, reached the
      rate and is not trusted. */
  lemma {:induction false} BannedMeans(es: seq<Entry>, watermark: nat, rate: nat, t: Trust, a: Address)
    requires Sorted(es)
    ensures a in Banned(es, watermark, rate, t) <==>
      exists i :: 0 <= i < |es| && es[i].source == a && Record(es, i, watermark) && es[i].count >= rate && !t.Has(a)
  {
    if es != [] {
      var next := if es[0].count > watermark then es[0].count else watermark;
      BannedMeans(es[1..], next, rate, t, a);
      if i :| 0 <= i < |es| && es[i].source == a && Record(es, i, watermark) && es[i].count >= rate && !t.Has(a) {
        if i > 0 {
          assert es[1..][i - 1] == es[i];
          assert Record(es[1..], i - 1, next);
        } else {
          assert a in Banned(es, watermark, rate, t);
        }
      }
      if a in Banned(es, watermark, rate, t) {
        if a in Banned(es[1..], next, rate, t) {
          var i :| 0 <= i < |es[1..]| && es[1..][i].source == a && Record(es[1..], i, next)
                   && es[1..][i].count >= rate && !t.Has(a);
          RecordShift(es, i, watermark);
          assert es[i + 1].source == a;
        } else {
          assert Record(es, 0, watermark) && es[0].source == a;
        }
      }
    }
  }

  lemma RecordShift(es: seq<Entry>, i: nat, watermark: nat)
    requires es != [] && i < |es| - 1
    requires Record(es[1..], i, if es[0].count > watermark then es[0].count else watermark)
    ensures Record(es, i + 1, watermark)
  {
    forall j | 0 <= j < i + 1 ensures es[j].count < es[i + 1].count {
      if j > 0 {
        assert es[1..][j - 1].count < es[1..][i].count;
      }
    }
  }

  /** The first source that holds the highest count is banned if it reaches the rate and is
      not trusted. */
  lemma FirstMaximumBanned(es: seq<Entry>, rate: nat, t: Trust, i: nat)
    requires Counter(es) && i < |es| && es[i].count >= rate && !t.Has(es[i].source)
    requires forall j :: 0 <= j < |es| ==> es[j].count <= es[i].count
    requires forall j :: 0 <= j < i ==> es[j].count != es[i].count
    ensures es[i].source in Banned(es, 0, rate, t)
  {
    BannedMeans(es, 0, rate, t, es[i].source);
    assert Record(es, i, 0);
  }

  // ---------------------------------------------------------------------------
  // How many are banned
  // ---------------------------------------------------------------------------

  function Max(a: nat, b: nat): nat { if a < b then b else a }

  /** Each ban needs a count above the last, so k bans need k * b + k * (k - 1) / 2 packets,
      where b is the least count the first of them can have. */
  lemma {:induction false} BansNeedPackets(es: seq<Entry>, watermark: nat, rate: nat, t: Trust)
    ensures var k, b := |Banned(es, watermark, rate, t)|, Max(rate, watermark + 1);
      2 * k * b + k * (k - 1) <= 2 * Sum(es)
  {
    if es != [] {
      var c := es[0].count;
      if c > watermark {
        BansNeedPackets(es[1..], c, rate, t);
        var k, b, b' := |Banned(es[1..], c, rate, t)|, Max(rate, watermark + 1), Max(rate, c + 1);
        if c >= rate && !t.Has(es[0].source) {
          OneMoreBan(k, b, c, Sum(es[1..]));
        } else {
          Grow(k, b, b');
        }
      } else {
        BansNeedPackets(es[1..], watermark, rate, t);
      }
    }
  }

  lemma Grow(k: nat, b: nat, b': nat)
    requires b <= b'
    ensures 2 * k * b <= 2 * k * b'
  {}

  lemma OneMoreBan(k: nat, b: nat, c: nat, rest: nat)
    requires b <= c && 2 * k * (c + 1) + k * (k - 1) <= 2 * rest
    ensures 2 * (k + 1) * b + (k + 1) * k <= 2 * (c + rest)
  {
    Grow(k, b, c);
    calc {
      2 * (k + 1) * b + (k + 1) * k;
      2 * k * b + 2 * b + k * (k - 1) + 2 * k;
    <=
      2 * k * c + 2 * c + k * (k - 1) + 2 * k;
      2 * k * (c + 1) + k * (k - 1) + 2 * c;
    <=
      2 * (c + rest);
    }
  }

  /** The k sources banned by one packet satisfy k * rate + k * (k - 1) / 2 <= threshold. */
  lemma BansAreFew(c: Config, w: Window, source: Address, now: int, t: Trust)
    requires ValidWindow(c, w) && c.threshold >= 1
    ensures var k := |NewBans(c, w, source, now, t)|;
      2 * k * c.rate + k * (k - 1) <= 2 * c.threshold
  {
    if Violates(c, w, now) && c.autoBan {
      LoggedValid(c, w, source, now);
      var es := Bumped(w.entries, source);
      BansNeedPackets(es, 0, c.rate, t);
      Grow(|Banned(es, 0, c.rate, t)|, c.rate, Max(c.rate, 1));
    }
  }

  // ---------------------------------------------------------------------------
  // The documented rule
  // ---------------------------------------------------------------------------

  /** The rule as documented: every untrusted source at or above the rate is banned. */
  ghost predicate EveryViolatorBanned(es: seq<Entry>, rate: nat, t: Trust) {
    forall i :: 0 <= i < |es| && es[i].count >= rate && !t.Has(es[i].source) ==>
      es[i].source in Banned(es, 0, rate, t)
  }

  const NOBODY := Trust({}, (a: Address) => false)

  /** The scan bans only new maxima, so the rule holds for every full window exactly when no
      window has room for two violators. */
  lemma DocumentedRuleIff(threshold: nat, rate: nat)
    requires threshold >= 1
    ensures (forall es :: Counter(es) && Sum(es) == threshold ==> EveryViolatorBanned(es, rate, NOBODY))
       <==> 2 * AtLeastOne(rate) > threshold
  {
    if 2 * AtLeastOne(rate) > threshold {
      forall es | Counter(es) && Sum(es) == threshold ensures EveryViolatorBanned(es, rate, NOBODY) {
        LoneViolatorBanned(es, rate, NOBODY);
      }
    } else {
      SecondViolatorEscapes(threshold, rate);
    }
  }

  lemma LoneViolatorBanned(es: seq<Entry>, rate: nat, t: Trust)
    requires Counter(es) && 2 * AtLeastOne(rate) > Sum(es)
    ensures EveryViolatorBanned(es, rate, t)
  {
    forall i | 0 <= i < |es| && es[i].count >= rate && !t.Has(es[i].source)
      ensures es[i].source in Banned(es, 0, rate, t)
    {
      forall j | 0 <= j < i ensures es[j].count < es[i].count {
        TwoEntries(es, j, i);
      }
      BannedMeans(es, 0, rate, t, es[i].source);
      assert Record(es, i, 0);
    }
  }

  lemma {:induction false} OneEntry(es: seq<Entry>, i: nat)
    requires i < |es|
    ensures es[i].count <= Sum(es)
  {
    if i > 0 {
      OneEntry(es[1..], i - 1);
    }
  }

  lemma {:induction false} TwoEntries(es: seq<Entry>, i: nat, j: nat)
    requires i < j < |es|
    ensures es[i].count + es[j].count <= Sum(es)
  {
    if i > 0 {
      TwoEntries(es[1..], i - 1, j - 1);
    } else {
      OneEntry(es[1..], j - 1);
    }
  }

  /** Two sources that share the window: the second does not exceed the first and goes free. */
  lemma SecondViolatorEscapes(threshold: nat, rate: nat)
    requires 2 * AtLeastOne(rate) <= threshold
    ensures var es := [Entry(0, threshold - AtLeastOne(rate)), Entry(1, AtLeastOne(rate))];
      Counter(es) && Sum(es) == threshold && !EveryViolatorBanned(es, rate, NOBODY)
  {
    var r := AtLeastOne(rate);
    var es := [Entry(0, threshold - r), Entry(1, r)];
    assert es[1..] == [Entry(1, r)] && [Entry(1, r)][1..] == [];
    assert Sum([Entry(1, r)]) == r;
    BannedMeans(es, 0, rate, NOBODY, 1);
    assert es[1].count >= rate && !NOBODY.Has(1);
  }

  // ---------------------------------------------------------------------------
  // How long a ban lasts
  // ---------------------------------------------------------------------------

  function Queried(banned: map<Address, int>, times: seq<int>, lifeTime: nat): map<Address, int> {
    if times == [] then banned else Paroled(Queried(banned, times[..|times| - 1], lifeTime), times[|times| - 1], lifeTime)
  }

  /** Over any queries at times that do not go back, a ban is in force at the last query
      exactly while its age in whole milliseconds is no more than its lifetime in seconds, or
      for good without a lifetime, however many queries came before. */
  lemma {:induction false} BanLasts(banned: map<Address, int>, times: seq<int>, lifeTime: nat, a: Address)
    requires a in banned && times != []
    requires forall i, j :: 0 <= i < j < |times| ==> times[i] <= times[j]
    ensures var q := Queried(banned, times, lifeTime);
      && (a in q <==> lifeTime == 0 || (times[|times| - 1] - banned[a]) / 1000 <= lifeTime * 1000)
      && (a in q ==> q[a] == banned[a])
  {
    var front := times[..|times| - 1];
    if front != [] {
      BanLasts(banned, front, lifeTime, a);
      assert front[|front| - 1] == times[|times| - 2];
    }
  }
}
