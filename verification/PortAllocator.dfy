/** UDP port pairs for proxied media: a cyclic 16-bit allocator in which 0 means "not started",
    and the loop that opens the four sockets of a session. */
module PortAllocator {
  import opened Division

  const TWO16 := 0x1_0000

  type u16 = x: int | 0 <= x < TWO16

  /** The port handed out when the counter holds `current`, and the counter afterwards. */
  function Handed(base: u16, current: u16): u16 {
    if current == 0 then base else current
  }

  function Advanced(base: u16, max: u16, current: u16): u16 {
    if current == 0 then (base + 2) % TWO16
    else
      var next := (current + 2) % TWO16;
      if next > max then base else next
  }

  class Allocator {
    const base: u16
    const max: u16
    var current: u16

    constructor (portBase: u16, portMax: u16)
      ensures base == portBase && max == portMax && current == 0
    {
      base, max, current := portBase, portMax, 0;
    }

    method GetNextAvailablePortTuple() returns (port: u16)
      modifies this
      ensures port == Handed(base, old(current)) && current == Advanced(base, max, old(current))
    {
      if current == 0 {
        current := (base + 2) % TWO16;
        return base;
      }
      port := current;
      current := (current + 2) % TWO16;
      if current > max {
        current := base;
      }
    }
  }

  // ---------------------------------------------------------------------------
  // The cycle
  // ---------------------------------------------------------------------------

  /** The counter after `k` allocations from a fresh allocator, and the k-th port. */
  function Counter(base: u16, max: u16, k: nat): u16 {
    if k == 0 then 0 else Advanced(base, max, Counter(base, max, k - 1))
  }

  function Port(base: u16, max: u16, k: nat): u16 {
    Handed(base, Counter(base, max, k))
  }

  /** How many ports of the base's parity the range holds. */
  function Slots(base: u16, max: u16): nat
    requires base <= max
  {
    (max - base) / 2 + 1
  }

  /** The k-th port is the base plus twice k modulo the number of slots. */
  ghost predicate CyclesFrom(base: u16, max: u16)
    requires base <= max
  {
    forall k: nat :: Port(base, max, k) == base + 2 * (k % Slots(base, max))
  }

  /** There is a second slot to go to, or the first step wraps to "not started" at once; and the
      step past the last port does not wrap to an odd port below the base. */
  predicate Cyclic(base: u16, max: u16) {
    (base + 2 <= max || base == 65534) && (max < 65535 || base % 2 == 0 || base == 1)
  }

  /** The allocator cycles through exactly the ports of its range if and only if the bounds
      satisfy that condition. */
  lemma CyclesIff(base: u16, max: u16)
    requires base <= max
    ensures CyclesFrom(base, max) <==> Cyclic(base, max)
  {
    if Cyclic(base, max) {
      forall k: nat ensures Port(base, max, k) == base + 2 * (k % Slots(base, max)) {
        PortInCycle(base, max, k);
      }
    } else if base + 2 <= max {
      WrapsBelowBase(base, max);
    } else {
      LeavesRange(base, max);
    }
  }

  lemma WrapsBelowBase(base: u16, max: u16)
    requires base + 2 <= max == 65535 && base % 2 == 1 && base != 1
    ensures !CyclesFrom(base, max)
  {
    var n := Slots(base, max);
    PastTheLast(base, max);
    ModUnique(n, n, 1, 0);
    hide Port, Slots;
    assert Port(base, max, n) != base + 2 * (n % n);
  }

  lemma PastTheLast(base: u16, max: u16)
    requires base + 2 <= max == 65535 && base % 2 == 1
    ensures Port(base, max, Slots(base, max)) == 1
  {
    var n := Slots(base, max);
    CounterClimbs(base, max, n - 1);
    PortIs(base, max, n);
    assert Counter(base, max, n) == Advanced(base, max, 65535) == 1;
  }

  lemma LeavesRange(base: u16, max: u16)
    requires base <= max < base + 2 && base != 65534
    ensures !CyclesFrom(base, max)
  {
    assert Counter(base, max, 0) == 0;
    assert Slots(base, max) == 1;
    PortIs(base, max, 1);
    assert Port(base, max, 1) != base + 2 * (1 % 1);
  }

  lemma PortIs(base: u16, max: u16, k: nat)
    ensures Port(base, max, k) == Handed(base, Counter(base, max, k))
  {}

  /** The counter stands at slot `i`. */
  predicate AtSlot(base: u16, current: u16, i: nat) {
    current == base + 2 * i || (current == 0 && i == 0)
  }

  lemma NextSlot(base: u16, max: u16, current: u16, i: nat)
    requires base <= max && Cyclic(base, max) && i < Slots(base, max) && AtSlot(base, current, i)
    ensures AtSlot(base, Advanced(base, max, current), if i + 1 == Slots(base, max) then 0 else i + 1)
  {}

  lemma {:induction false} PortInCycle(base: u16, max: u16, k: nat)
    requires base <= max && Cyclic(base, max)
    ensures AtSlot(base, Counter(base, max, k), k % Slots(base, max))
    ensures Port(base, max, k) == base + 2 * (k % Slots(base, max))
  {
    var n := Slots(base, max);
    if k > 0 {
      PortInCycle(base, max, k - 1);
      NextSlot(base, max, Counter(base, max, k - 1), (k - 1) % n);
      ModStep(k, n);
    }
  }

  /** Before the range is used up the counter just climbs. */
  lemma {:induction false} CounterClimbs(base: u16, max: u16, k: nat)
    requires base + 2 <= max && base > 0 && 0 < k < Slots(base, max)
    ensures Counter(base, max, k) == base + 2 * k
  {
    if k > 1 {
      CounterClimbs(base, max, k - 1);
    } else {
      assert Counter(base, max, 0) == 0;
    }
  }

  // ---------------------------------------------------------------------------
  // Opening a tuple
  // ---------------------------------------------------------------------------

  /** The data ports of the two legs in one attempt; each control port is one above. */
  datatype Attempt = Attempt(leg1: u16, leg2: u16)

  function ControlPort(data: u16): u16 { (data + 1) % TWO16 }

  /** The attempts made by an open that starts after `k` allocations. */
  function AttemptAt(base: u16, max: u16, k: nat, i: nat): Attempt {
    Attempt(Port(base, max, k + 2 * i), Port(base, max, k + 2 * i + 1))
  }

  /** `opens` says whether the four sockets of the i-th attempt can be opened; `k` is how many
      ports the allocator had handed out before. */
  method Open(a: Allocator, opens: (nat, Attempt) -> bool, ghost k: nat) returns (ok: bool, tried: seq<Attempt>)
    requires a.current == Counter(a.base, a.max, k)
    modifies a
    ensures forall i :: 0 <= i < |tried| ==> tried[i] == AttemptAt(a.base, a.max, k, i)
    ensures a.current == Counter(a.base, a.max, k + 2 * |tried|)
    ensures forall i :: 0 <= i < |tried| ==> (opens(i, tried[i]) <==> ok && i == |tried| - 1)
    ensures ok ==> tried != []
    ensures !ok ==> |tried| == if a.base <= a.max then (a.max - a.base) / 2 else 0
  {
    hide Handed, Advanced;
    tried := [];
    var retry := if a.base <= a.max then (a.max - a.base) / 2 else 0;
    var i := 0;
    while i < retry
      invariant 0 <= i <= retry && i == |tried|
      invariant a.current == Counter(a.base, a.max, k + 2 * i)
      invariant forall j :: 0 <= j < i ==> tried[j] == AttemptAt(a.base, a.max, k, j) && !opens(j, tried[j])
    {
      var leg1 := a.GetNextAvailablePortTuple();
      assert a.current == Counter(a.base, a.max, k + 2 * i + 1);
      var leg2 := a.GetNextAvailablePortTuple();
      assert a.current == Counter(a.base, a.max, k + 2 * i + 2);
      tried := tried + [Attempt(leg1, leg2)];
      if opens(i, tried[i]) {
        return true, tried;
      }
      i := i + 1;
    }
    return false, tried;
  }

  /** Every attempt uses four different ports; with an even base the data ports are even and
      their control ports the odd ones that follow. */
  lemma FourPortsPerAttempt(base: u16, max: u16, k: nat, i: nat)
    requires base + 2 <= max && Cyclic(base, max)
    ensures var t := AttemptAt(base, max, k, i);
      && t.leg1 != t.leg2 && ControlPort(t.leg1) != ControlPort(t.leg2)
      && ControlPort(t.leg1) !in {t.leg1, t.leg2} && ControlPort(t.leg2) !in {t.leg1, t.leg2}
      && (base % 2 == 0 ==> t.leg1 % 2 == 0 && t.leg2 % 2 == 0
                            && ControlPort(t.leg1) == t.leg1 + 1 && ControlPort(t.leg2) == t.leg2 + 1)
  {
    hide Port;
    var n, j := Slots(base, max), k + 2 * i;
    PortInCycle(base, max, j);
    PortInCycle(base, max, j + 1);
    ModStep(j + 1, n);
    PortsApart(base, max, j % n, (j + 1) % n);
  }

  lemma PortsApart(base: u16, max: u16, s: nat, s': nat)
    requires base + 2 <= max && s < Slots(base, max) && s' < Slots(base, max) && s != s'
    ensures var p, q := base + 2 * s, base + 2 * s';
      && p <= max && q <= max && p != q && ControlPort(p) != ControlPort(q)
      && ControlPort(p) !in {p, q} && ControlPort(q) !in {p, q}
      && (base % 2 == 0 ==> p % 2 == 0 && q % 2 == 0 && ControlPort(p) == p + 1 && ControlPort(q) == q + 1)
  {}

  /** Opening fails only after every data port of the range has been tried. */
  lemma FailsOnlyAfterAll(base: u16, max: u16, k: nat, slot: nat)
    requires base + 2 <= max && Cyclic(base, max) && slot < Slots(base, max)
    ensures exists i :: 0 <= i < (max - base) / 2
              && (AttemptAt(base, max, k, i).leg1 == base + 2 * slot || AttemptAt(base, max, k, i).leg2 == base + 2 * slot)
  {
    var n := Slots(base, max);
    var d := Reach(k, n, slot);
    PortInCycle(base, max, k + d);
    var i := d / 2;
    assert d == 2 * i || d == 2 * i + 1;
    assert i < n - 1;
    assert AttemptAt(base, max, k, i).leg1 == base + 2 * slot || AttemptAt(base, max, k, i).leg2 == base + 2 * slot;
  }

  /** How far ahead of `k` the next number is that leaves remainder `slot`. */
  function Reach(k: nat, n: nat, slot: nat): (d: nat)
    requires slot < n
    ensures d < n && (k + d) % n == slot
  {
    var r, q := k % n, k / n;
    assert k == q * n + r;
    if r <= slot then
      ModUnique(k + (slot - r), n, q, slot);
      slot - r
    else
      assert (q + 1) * n == q * n + n;
      ModUnique(k + (n - r + slot), n, q + 1, slot);
      n - r + slot
  }
}
