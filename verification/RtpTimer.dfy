/** The resizer thread's adaptive wait: it sleeps so that ticks stay on a fixed grid however
    late or early each sleep returns. Times are unsigned 64-bit microseconds. */
module RtpTimer {

  const TWO64 := 0x1_0000_0000_0000_0000

  const TWO32 := 0x1_0000_0000
  const TWO31 := 0x8000_0000

  type u64 = x: int | 0 <= x < TWO64
  type u32 = x: int | 0 <= x < TWO32
  type i32 = x: int | -TWO31 <= x < TWO31

  /** The new last tick, and how long to sleep. */
  datatype Tick = Tick(lastTick: u64, sleep: u64)

  function Waited(lastTick: u64, duration: u64, now: u64): Tick {
    if duration == 0 then Tick(lastTick, 0)
    else if lastTick == 0 then Tick(now, duration)
    else
      var accuracy := (now - lastTick) % TWO64;
      if accuracy < duration then
        Tick((now + (duration - accuracy)) % TWO64, (duration + (duration - accuracy)) % TWO64)
      else if accuracy == duration then Tick(now, duration)
      else if accuracy - duration < duration then
        Tick((now - (accuracy - duration)) % TWO64, duration - (accuracy - duration))
      else
        Tick((now - ((accuracy - duration) - duration)) % TWO64, 0)
  }

  /** The low 32 bits as a signed integer. */
  function Signed32(x: int): i32 {
    var low := x % TWO32;
    if low < TWO31 then low else low - TWO32
  }

  /** The tick duration for a number of milliseconds: the product is a signed 32-bit integer, and
      widening it to an unsigned one keeps its sign. */
  function Micros(samples: i32): u64 { Signed32(samples * 1000) % TWO64 }

  /** It is the intended one exactly from 0 to 2147483 milliseconds. */
  lemma MicrosIff(samples: i32)
    ensures Micros(samples) == samples * 1000 <==> 0 <= samples <= 2147483
  {
    var p := samples * 1000;
    if 0 <= samples <= 2147483 {
      assert p % TWO32 == p;
    } else if samples > 2147483 {
      assert p >= TWO31;
      assert Signed32(p) < TWO31;
    }
  }

  class Resizer {
    var samples: i32
    var targetTime: u32
    var lastTick: u64
    var duration: u64

    constructor ()
      ensures samples == 0 && targetTime == 0 && lastTick == 0 && duration == 0
    {
      samples, targetTime, lastTick, duration := 0, 0, 0, 0;
    }

    /** The same number is the target time of the queue. */
    method SetSamples(n: i32)
      modifies this`samples, this`targetTime, this`duration
      ensures samples == n && targetTime == n % TWO32 && duration == Micros(n)
      ensures duration == n * 1000 <==> 0 <= n <= 2147483
    {
      MicrosIff(n);
      samples := n;
      targetTime := n % TWO32;
      duration := Micros(n);
    }

    method Reset()
      modifies this`lastTick
      ensures lastTick == 0
    {
      lastTick := 0;
    }

    /** `now` is the clock reading; the result is the time to sleep. */
    method Wait(now: u64) returns (sleep: u64)
      modifies this`lastTick
      ensures Tick(lastTick, sleep) == Waited(old(lastTick), duration, now)
    {
      if duration == 0 {
        return 0;
      }
      sleep := duration;
      if lastTick == 0 {
        lastTick := now;
      } else {
        var accuracy := (now - lastTick) % TWO64;
        lastTick := now;
        if accuracy < duration {
          sleep := (duration + (duration - accuracy)) % TWO64;
          lastTick := (lastTick + (duration - accuracy)) % TWO64;
        } else if accuracy > duration {
          if accuracy - duration < duration {
            sleep := duration - (accuracy - duration);
            lastTick := (lastTick - (accuracy - duration)) % TWO64;
          } else {
            sleep := 0;
            lastTick := (lastTick - ((accuracy - duration) - duration)) % TWO64;
          }
        }
      }
    }
  }

  // ---------------------------------------------------------------------------
  // One wait
  // ---------------------------------------------------------------------------

  /** The overrun branch is taken. */
  predicate Overruns(lastTick: u64, duration: u64, now: u64) {
    (now - lastTick) % TWO64 >= 2 * duration
  }

  /** Whatever the clock says, even if it went back, the tick moves by exactly one duration, or
      by two on an overrun, modulo 2^64. */
  lemma TickStaysOnGrid(lastTick: u64, duration: u64, now: u64)
    requires lastTick != 0 && duration > 0
    ensures Waited(lastTick, duration, now).lastTick ==
            (lastTick + (if Overruns(lastTick, duration, now) then 2 * duration else duration)) % TWO64
  {
    var accuracy := (now - lastTick) % TWO64;
    Cancel(now, lastTick, accuracy, duration);
    Cancel(now, lastTick, accuracy, 2 * duration);
  }

  lemma Cancel(now: u64, lastTick: u64, accuracy: int, step: int)
    requires accuracy == (now - lastTick) % TWO64
    ensures (now - accuracy + step) % TWO64 == (lastTick + step) % TWO64
  {
    if now >= lastTick {
      assert now - accuracy == lastTick;
    } else {
      assert now - accuracy == lastTick - TWO64;
    }
  }

  /** Outside an overrun, the sleep ends on the next grid point. */
  lemma SleepEndsOnGrid(lastTick: u64, duration: u64, now: u64)
    requires lastTick != 0 && duration > 0 && lastTick <= now && lastTick + 2 * duration < TWO64
    ensures var t := Waited(lastTick, duration, now);
      if Overruns(lastTick, duration, now) then t.sleep == 0 && t.lastTick == lastTick + 2 * duration <= now
      else t.lastTick == lastTick + duration && now + t.sleep == t.lastTick + duration
  {
    var accuracy := now - lastTick;
    Small(accuracy);
    Small(lastTick + duration);
    Small(lastTick + 2 * duration);
    if accuracy < duration {
      Small(duration + (duration - accuracy));
    }
  }

  lemma Small(x: int)
    requires 0 <= x < TWO64
    ensures x % TWO64 == x
  {}

  // ---------------------------------------------------------------------------
  // Runs
  // ---------------------------------------------------------------------------

  /** The state after waiting at each of the clock readings in turn, and how many overran. */
  datatype Progress = Progress(tick: Tick, overruns: nat)

  function Run(duration: u64, readings: seq<u64>): Progress {
    if readings == [] then Progress(Tick(0, 0), 0)
    else
      Advance(Run(duration, readings[..|readings| - 1]), duration, readings[|readings| - 1])
  }

  /** Any number of waits, starting with the last tick at `lastTick`. */
  function Waits(lastTick: u64, duration: u64, readings: seq<u64>): Tick {
    if readings == [] then Tick(lastTick, 0)
    else Waited(Waits(lastTick, duration, readings[..|readings| - 1]).lastTick, duration, readings[|readings| - 1])
  }

  /** Without a duration none of them sleeps or moves the last tick. */
  lemma {:induction false} NeverSleeps(lastTick: u64, readings: seq<u64>)
    ensures Waits(lastTick, 0, readings) == Tick(lastTick, 0)
  {
    if readings != [] {
      NeverSleeps(lastTick, readings[..|readings| - 1]);
    }
  }

  function Advance(p: Progress, duration: u64, now: u64): Progress {
    Progress(Waited(p.tick.lastTick, duration, now),
             p.overruns + if p.tick.lastTick != 0 && Overruns(p.tick.lastTick, duration, now) then 1 else 0)
  }

  /** No sleep returns more than one duration early, and the clock does not go back. */
  predicate SleepsWell(duration: u64, readings: seq<u64>) {
    forall i :: 0 < i < |readings| ==>
      readings[i - 1] <= readings[i] && readings[i - 1] + Run(duration, readings[..i]).tick.sleep <= readings[i] + duration
  }

  /** The n-th point of the grid. */
  function Grid(first: nat, n: nat, duration: nat): nat {
    if n == 0 then first else Grid(first, n - 1, duration) + duration
  }

  lemma {:induction false} GridPoint(first: nat, n: nat, duration: nat)
    ensures Grid(first, n, duration) == first + n * duration
  {
    if n > 0 {
      GridPoint(first, n - 1, duration);
      assert n * duration == (n - 1) * duration + duration;
    }
  }

  lemma {:induction false} GridGrows(first: nat, n: nat, m: nat, duration: nat)
    requires n <= m
    ensures first <= Grid(first, n, duration) <= Grid(first, m, duration)
    decreases m
  {
    if n < m {
      GridGrows(first, n, m - 1, duration);
    } else if n > 0 {
      GridGrows(first, n - 1, n - 1, duration);
    }
  }

  /** Long before the clock wraps. */
  predicate InRange(duration: u64, readings: seq<u64>) {
    duration > 0 && readings != [] && readings[0] > 0 && Grid(readings[0], 2 * |readings|, duration) < TWO64
  }

  /** The k-th tick is on the grid through the first reading, one step per wait and one more per
      overrun; the sleep ends on the next grid point unless this wait overran, which leaves the
      tick in the past and does not sleep. */
  predicate OnGrid(p: Progress, first: u64, k: nat, duration: u64, now: u64) {
    && k > 0 && p.overruns < k
    && p.tick.lastTick == Grid(first, k - 1 + p.overruns, duration)
    && (now + p.tick.sleep == p.tick.lastTick + duration || (p.tick.sleep == 0 && p.tick.lastTick <= now))
  }

  /** So in every such run: no drift builds up, however the individual sleeps were off. */
  lemma NoDrift(duration: u64, readings: seq<u64>)
    requires InRange(duration, readings) && SleepsWell(duration, readings)
    ensures OnGrid(Run(duration, readings), readings[0], |readings|, duration, readings[|readings| - 1])
    ensures var p := Run(duration, readings);
      p.tick.lastTick == readings[0] + (|readings| - 1 + p.overruns) * duration
  {
    Ticks(duration, readings);
    hide Run;
    GridPoint(readings[0], |readings| - 1 + Run(duration, readings).overruns, duration);
  }

  lemma {:induction false} Ticks(duration: u64, readings: seq<u64>)
    requires InRange(duration, readings) && SleepsWell(duration, readings)
    ensures OnGrid(Run(duration, readings), readings[0], |readings|, duration, readings[|readings| - 1])
  {
    var front := readings[..|readings| - 1];
    if front == [] {
      assert Run(duration, front) == Progress(Tick(0, 0), 0);
    } else {
      FrontHolds(duration, readings);
      Ticks(duration, front);
      NextReading(duration, readings);
      hide Advance, OnGrid, SleepsWell;
      GridStep(Run(duration, front), readings[0], |readings|, duration, readings[|readings| - 2], readings[|readings| - 1]);
    }
  }

  lemma GridStep(p: Progress, first: u64, k: nat, duration: u64, before: u64, now: u64)
    requires k > 1 && first > 0 && duration > 0 && Grid(first, 2 * k, duration) < TWO64
    requires OnGrid(p, first, k - 1, duration, before)
    requires before <= now && before + p.tick.sleep <= now + duration
    ensures OnGrid(Advance(p, duration, now), first, k, duration, now)
  {
    hide Waited, Grid, Overruns;
    GridRoom(first, k, p.overruns, duration, p.tick.lastTick);
    SleepEndsOnGrid(p.tick.lastTick, duration, now);
  }

  lemma FrontHolds(duration: u64, readings: seq<u64>)
    requires InRange(duration, readings) && SleepsWell(duration, readings) && |readings| > 1
    ensures var front := readings[..|readings| - 1];
      InRange(duration, front) && SleepsWell(duration, front) && front[0] == readings[0]
  {
    var front := readings[..|readings| - 1];
    forall i | 0 < i < |front|
      ensures front[i - 1] <= front[i] && front[i - 1] + Run(duration, front[..i]).tick.sleep <= front[i] + duration
    {
      assert front[..i] == readings[..i];
    }
    GridGrows(readings[0], 2 * |front|, 2 * |readings|, duration);
  }

  lemma GridRoom(first: u64, k: nat, overruns: nat, duration: u64, lastTick: u64)
    requires k > 1 && overruns < k - 1 && first > 0
    requires lastTick == Grid(first, k - 2 + overruns, duration)
    requires Grid(first, 2 * k, duration) < TWO64
    ensures lastTick > 0
    ensures lastTick + duration == Grid(first, k - 1 + overruns, duration)
    ensures lastTick + 2 * duration == Grid(first, k - 1 + (overruns + 1), duration) < TWO64
  {
    GridGrows(first, k - 2 + overruns, k - 2 + overruns, duration);
    GridGrows(first, k + overruns, 2 * k, duration);
    assert Grid(first, k - 1 + overruns, duration) == Grid(first, k - 2 + overruns, duration) + duration;
  }

  lemma NextReading(duration: u64, readings: seq<u64>)
    requires SleepsWell(duration, readings) && |readings| > 1
    ensures var k := |readings|;
      && readings[k - 2] <= readings[k - 1]
      && readings[k - 2] + Run(duration, readings[..k - 1]).tick.sleep <= readings[k - 1] + duration
      && readings[..k - 1][k - 2] == readings[k - 2]
  {}

  /** The unsigned subtraction in the wait never wraps: no reading is before the last tick. */
  lemma NeverWraps(duration: u64, readings: seq<u64>)
    requires InRange(duration, readings) && SleepsWell(duration, readings) && |readings| > 1
    ensures Run(duration, readings[..|readings| - 1]).tick.lastTick <= readings[|readings| - 1]
  {
    FrontHolds(duration, readings);
    Ticks(duration, readings[..|readings| - 1]);
    NextReading(duration, readings);
  }
}
