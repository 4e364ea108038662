/** The RTP re-packetization queue: packets of the monitored codec wait in `ins`
    until they can be split or merged to the target size; everything ready to be
    sent waits in `outs` and is renumbered on its way out. */
module RtpResizingQueue {
  import opened Wrappers

  const TWO16 := 0x1_0000
  const TWO32 := 0x1_0000_0000
  /** Capacity of the stack buffers payloads are copied through. */
  const BUFFER_SIZE: nat := 4098

  newtype octet = x: int | 0 <= x < 256
  type u16 = x: int | 0 <= x < TWO16
  type u32 = x: int | 0 <= x < TWO32

  /** The header fields the queue reads or rewrites, and the payload. */
  datatype Packet = Packet(payloadType: nat, sequence: u16, timestamp: u32, source: u32, payload: seq<octet>)

  datatype Config = Config(payloadType: nat, clockRate: u32, baseSampleSize: u32, baseTime: u32, targetTime: u32) {
    /** Both are divisors in the code; zero is a division fault there. */
    predicate Valid() { baseSampleSize > 0 && baseTime > 0 }

    function TargetSize(): u32
      requires Valid()
    {
      ((targetTime / baseTime) * baseSampleSize) % TWO32
    }

    function TargetClockRate(): u32
      requires Valid()
    {
      ((TargetSize() / baseSampleSize) * clockRate) % TWO32
    }
  }

  datatype Queue = Queue(ins: seq<Packet>, outs: seq<Packet>, lastSequence: u32, lastTimeSent: u32, resizing: bool)

  const EMPTY := Queue([], [], 0, 0, false)

  // ---------------------------------------------------------------------------
  // What enqueue and dequeue compute
  // ---------------------------------------------------------------------------

  /** The counter is seeded from a packet whenever it holds 0, the code's "unset". */
  function Seeded(q: Queue, p: Packet): Queue {
    if q.lastSequence == 0 then q.(lastSequence := (p.sequence - 1) % TWO32) else q
  }

  function Enqueued(c: Config, q: Queue, p: Packet): (Queue, bool)
    requires c.Valid()
  {
    if p.payloadType != c.payloadType then
      if q.resizing then (q.(outs := q.outs + [p]), true) else (q, false)
    else if q.resizing && p.payload == [] then
      (q, true)
    else
      var s := Seeded(q, p);
      if |p.payload| % c.baseSampleSize > 0 || |p.payload| == c.TargetSize() then
        (s.(outs := s.outs + [p]), true)
      else
        (s.(ins := s.ins + [p]), true)
  }

  /** How many packets at the front of the queue are older than the last one sent. */
  function LateCount(ins: seq<Packet>, sent: u32): (n: nat)
    ensures n <= |ins|
    ensures forall i :: 0 <= i < n ==> ins[i].timestamp < sent
    ensures n < |ins| ==> sent <= ins[n].timestamp
  {
    if ins != [] && ins[0].timestamp < sent then 1 + LateCount(ins[1..], sent) else 0
  }

  function Payloads(ps: seq<Packet>): seq<octet> {
    if ps == [] then [] else ps[0].payload + Payloads(ps[1..])
  }

  /** `count` samples of `target` bytes each; the last keeps the packet's time stamp
      and each earlier one is stamped one target clock rate before the next. */
  function Samples(p: Packet, rate: u32, target: nat, count: nat, body: seq<octet>): (ss: seq<Packet>)
    requires |body| == count * target
    ensures |ss| == count
    decreases count
  {
    if count == 0 then []
    else
      MulStep(count, target);
      [p.(timestamp := (p.timestamp - (count - 1) * rate) % TWO32, payload := body[..target])]
      + Samples(p, rate, target, count - 1, body[target..])
  }

  lemma MulStep(count: nat, target: nat)
    requires count > 0
    ensures count * target == target + (count - 1) * target
    ensures target <= count * target
  {}

  lemma DivExact(n: nat, d: nat)
    requires d > 0 && n % d == 0
    ensures n == (n / d) * d
  {}

  function Split(c: Config, p: Packet): seq<Packet>
    requires c.Valid() && c.TargetSize() > 0
    requires |p.payload| % c.TargetSize() == 0
  {
    DivExact(|p.payload|, c.TargetSize());
    Samples(p, c.TargetClockRate(), c.TargetSize(), |p.payload| / c.TargetSize(), p.payload)
  }

  /** The first packet carrying all the payloads, stamped with the last time. */
  function Merge(ps: seq<Packet>): Packet
    requires ps != []
  {
    ps[0].(payload := Payloads(ps), timestamp := ps[|ps| - 1].timestamp)
  }

  /** Pops the front of `outs`, renumbered with the next sequence number. */
  function Emitted(q: Queue): (Queue, Option<Packet>)
    requires q.outs != []
  {
    var p, n := q.outs[0], (q.lastSequence + 1) % TWO32;
    (q.(outs := q.outs[1..], lastSequence := n, lastTimeSent := p.timestamp, resizing := true),
     Some(p.(sequence := n % TWO16)))
  }

  function Pruned(q: Queue): Queue {
    q.(ins := q.ins[LateCount(q.ins, q.lastTimeSent)..])
  }

  /** Dequeue after late packets are gone, with something left in `ins` and `outs` empty. */
  function Resized(c: Config, q: Queue): (Queue, Option<Packet>)
    requires c.Valid() && q.outs == [] && q.ins != []
  {
    var target, front := c.TargetSize(), q.ins[0];
    var size := |front.payload|;
    if target == 0 || size == 0 then
      (q.(ins := q.ins[1..]), None)
    else if target < size then
      if size % target > 0 then
        // Not proportional: sent as it is, and `resizing` stays as it was.
        var n := (q.lastSequence + 1) % TWO32;
        (q.(ins := q.ins[1..], lastSequence := n, lastTimeSent := front.timestamp),
         Some(front.(sequence := n % TWO16)))
      else
        assert |Split(c, front)| > 0 by { DivPositive(size, target); }
        Emitted(q.(ins := q.ins[1..], outs := Split(c, front)))
    else
      var required := target / size;
      if required <= |q.ins| then
        DivPositive(target, size);
        Emitted(q.(ins := q.ins[required..], outs := [Merge(q.ins[..required])]))
      else
        (q, None)
  }

  lemma DivPositive(n: nat, d: nat)
    requires 0 < d <= n
    ensures n / d > 0
  {}

  function Dequeued(c: Config, q: Queue): (Queue, Option<Packet>)
    requires c.Valid()
  {
    if q.outs != [] then Emitted(q)
    else
      var r := Pruned(q);
      if r.ins == [] then (r, None) else Resized(c, r)
  }

  // ---------------------------------------------------------------------------
  // The class
  // ---------------------------------------------------------------------------

  /** The code copies payloads into its stack buffers unchecked. */
  datatype Fault = BufferOverrun

  /** The payload about to be split, or the payloads about to be merged, fit in a stack buffer. */
  predicate Fits(c: Config, q: Queue)
    requires c.Valid() && q.ins != []
  {
    var target, size := c.TargetSize(), |q.ins[0].payload|;
    if target == 0 || size == 0 then true
    else if target < size then size % target == 0 ==> size <= BUFFER_SIZE
    else target / size <= |q.ins| ==> |Payloads(q.ins[..target / size])| <= BUFFER_SIZE
  }

  predicate BuffersSuffice(c: Config, q: Queue)
    requires c.Valid()
  {
    q.outs == [] && Pruned(q).ins != [] ==> Fits(c, Pruned(q))
  }

  method CopyInto(buffer: array<octet>, offset: nat, payload: seq<octet>)
    requires offset + |payload| <= buffer.Length
    modifies buffer
    ensures buffer[..offset + |payload|] == old(buffer[..offset]) + payload
  {
    forall k | 0 <= k < |payload| {
      buffer[offset + k] := payload[k];
    }
  }

  class ResizingQueue {
    var config: Config
    var ins: seq<Packet>
    var outs: seq<Packet>
    var lastSequence: u32
    var lastTimeSent: u32
    var resizing: bool

    function State(): Queue
      reads this
    {
      Queue(ins, outs, lastSequence, lastTimeSent, resizing)
    }

    constructor (c: Config)
      ensures config == c && State() == EMPTY
    {
      config := c;
      ins, outs, lastSequence, lastTimeSent, resizing := [], [], 0, 0, false;
    }

    method SetPacketizationTargetTime(millis: u32)
      modifies this`config
      ensures config == old(config).(targetTime := millis)
    {
      config := config.(targetTime := millis);
    }

    method Enqueue(p: Packet) returns (accepted: bool)
      requires config.Valid()
      modifies this`ins, this`outs, this`lastSequence
      ensures (State(), accepted) == Enqueued(config, old(State()), p)
    {
      if !resizing && p.payloadType != config.payloadType {
        return false;
      } else if resizing && p.payloadType != config.payloadType {
        outs := outs + [p];
        return true;
      } else if resizing && |p.payload| == 0 {
        return true;
      }
      if lastSequence == 0 {
        lastSequence := (p.sequence - 1) % TWO32;
      }
      if |p.payload| % config.baseSampleSize > 0 {
        outs := outs + [p];
        return true;
      }
      if config.TargetSize() == |p.payload| {
        outs := outs + [p];
        return true;
      }
      ins := ins + [p];
      return true;
    }

    method PopReady() returns (r: Option<Packet>)
      requires outs != []
      modifies this`outs, this`lastSequence, this`lastTimeSent, this`resizing
      ensures (State(), r) == Emitted(old(State()))
    {
      var p := outs[0];
      lastTimeSent := p.timestamp;
      lastSequence := (lastSequence + 1) % TWO32;
      r := Some(p.(sequence := lastSequence % TWO16));
      outs := outs[1..];
      resizing := true;
    }

    method DropLate()
      modifies this`ins
      ensures State() == Pruned(old(State()))
    {
      while ins != []
        invariant ins[LateCount(ins, lastTimeSent)..] == Pruned(old(State())).ins
        decreases |ins|
      {
        if ins[0].timestamp < lastTimeSent {
          ins := ins[1..];
        } else {
          break;
        }
      }
    }

    method PushSamples(packet: Packet, rate: u32, target: nat, sampleCount: nat)
      requires |packet.payload| == sampleCount * target
      modifies this`outs
      ensures outs == old(outs) + Samples(packet, rate, target, sampleCount, packet.payload)
    {
      var offset, i := 0, 0;
      assert packet.payload[0..] == packet.payload;
      while i < sampleCount
        invariant 0 <= i <= sampleCount && 0 <= offset <= |packet.payload|
        invariant |packet.payload[offset..]| == (sampleCount - i) * target
        invariant outs + Samples(packet, rate, target, sampleCount - i, packet.payload[offset..])
                  == old(outs) + Samples(packet, rate, target, sampleCount, packet.payload)
      {
        ghost var rest := packet.payload[offset..];
        MulStep(sampleCount - i, target);
        assert rest[..target] == packet.payload[offset..offset + target];
        assert rest[target..] == packet.payload[offset + target..];
        var ts := (packet.timestamp - (sampleCount - i - 1) * rate) % TWO32;
        outs := outs + [packet.(timestamp := ts, payload := packet.payload[offset..offset + target])];
        offset := offset + target;
        i := i + 1;
      }
    }

    method SplitFront()
      requires config.Valid() && outs == [] && ins != []
      requires 0 < config.TargetSize() < |ins[0].payload| <= BUFFER_SIZE
      requires |ins[0].payload| % config.TargetSize() == 0
      modifies this`ins, this`outs
      ensures ins == old(ins)[1..]
      ensures outs == Split(config, old(ins)[0]) && outs != []
    {
      var packet, target := ins[0], config.TargetSize();
      var sampleCount := |packet.payload| / target;
      DivExact(|packet.payload|, target);
      DivPositive(|packet.payload|, target);
      PushSamples(packet, config.TargetClockRate(), target, sampleCount);
      assert [] + Split(config, packet) == Split(config, packet);
      ins := ins[1..];
    }

    method MergeFront(required: nat)
      requires 0 < required <= |ins| && outs == []
      requires |Payloads(ins[..required])| <= BUFFER_SIZE
      modifies this`ins, this`outs
      ensures ins == old(ins)[required..]
      ensures outs == [Merge(old(ins)[..required])]
    {
      hide Payloads;
      NoPayloads();
      ghost var all := ins[..required];
      var buffer := new octet[BUFFER_SIZE](_ => 0);
      var sample := ins[0];
      var offset, ts, i := 0, 0, 0;
      while i < required
        invariant 0 <= i <= required && ins == old(ins)[i..]
        invariant offset == |Payloads(all[..i])| <= BUFFER_SIZE
        invariant buffer[..offset] == Payloads(all[..i])
        invariant i > 0 ==> ts == all[i - 1].timestamp
        invariant outs == []
      {
        var payload := ins[0].payload;
        assert ins[0] == all[i];
        OneMorePayload(all, i);
        CopyInto(buffer, offset, payload);
        offset := offset + |payload|;
        ts := ins[0].timestamp;
        ins := ins[1..];
        i := i + 1;
      }
      assert all[..required] == all;
      outs := outs + [sample.(payload := buffer[..offset], timestamp := ts)];
    }

    /** Resizing down. */
    method Shrink() returns (r: Result<Option<Packet>, Fault>)
      requires config.Valid() && outs == [] && ins != [] && 0 < config.TargetSize() < |ins[0].payload|
      modifies this`ins, this`outs, this`lastSequence, this`lastTimeSent, this`resizing
      ensures r.Ok? <==> Fits(config, old(State()))
      ensures r.Ok? ==> (State(), r.value) == Resized(config, old(State()))
    {
      hide Split, Merge, Config.TargetSize, Payloads;
      var target, size := config.TargetSize(), |ins[0].payload|;
      if size % target > 0 {
        var packet := ins[0];
        lastTimeSent := packet.timestamp;
        lastSequence := (lastSequence + 1) % TWO32;
        ins := ins[1..];
        return Ok(Some(packet.(sequence := lastSequence % TWO16)));
      }
      if size > BUFFER_SIZE {
        return Err(BufferOverrun);
      }
      SplitFront();
      var sent := PopReady();
      return Ok(sent);
    }

    /** Resizing up. */
    method Grow() returns (r: Result<Option<Packet>, Fault>)
      requires config.Valid() && outs == [] && ins != [] && 0 < |ins[0].payload| <= config.TargetSize()
      modifies this`ins, this`outs, this`lastSequence, this`lastTimeSent, this`resizing
      ensures r.Ok? <==> Fits(config, old(State()))
      ensures r.Ok? ==> (State(), r.value) == Resized(config, old(State()))
    {
      hide Split, Merge, Config.TargetSize, Payloads;
      var required := config.TargetSize() / |ins[0].payload|;
      DivPositive(config.TargetSize(), |ins[0].payload|);
      if |ins| < required {
        return Ok(None);
      }
      if |Payloads(ins[..required])| > BUFFER_SIZE {
        return Err(BufferOverrun);
      }
      MergeFront(required);
      var sent := PopReady();
      return Ok(sent);
    }

    method Dequeue() returns (r: Result<Option<Packet>, Fault>)
      requires config.Valid()
      modifies this`ins, this`outs, this`lastSequence, this`lastTimeSent, this`resizing
      ensures r.Ok? <==> BuffersSuffice(config, old(State()))
      ensures r.Ok? ==> (State(), r.value) == Dequeued(config, old(State()))
    {
      if outs != [] {
        var sent := PopReady();
        return Ok(sent);
      }
      DropLate();
      hide Pruned, Config.TargetSize;
      if ins == [] {
        return Ok(None);
      }
      assert State() == Pruned(old(State()));
      var target, size := config.TargetSize(), |ins[0].payload|;
      if target == 0 || size == 0 {
        ins := ins[1..];
        return Ok(None);
      }
      hide Resized, Fits;
      if target < size {
        r := Shrink();
      } else {
        r := Grow();
      }
    }

    method DrainOne() returns (r: Result<Option<Packet>, Fault>)
      requires config.Valid()
      modifies this`ins, this`outs, this`lastSequence, this`lastTimeSent, this`resizing
      ensures r.Err? ==> !DrainFits(config, old(State()))
      ensures r.Ok? && r.value.None? ==> DrainFits(config, old(State())) && Drained(config, old(State())) == (State(), [])
      ensures r.Ok? && r.value.Some? ==>
        && (DrainFits(config, old(State())) <==> DrainFits(config, State()))
        && Drained(config, old(State())) == (Drained(config, State()).0, [r.value.value] + Drained(config, State()).1)
        && (|ins| < |old(ins)| || (ins == old(ins) && |outs| < |old(outs)|))
    {
      hide Dequeued, BuffersSuffice;
      ghost var before := State();
      r := Dequeue();
      DrainStep(config, before);
    }

    /** The proxy's drain loop: dequeues until the queue has nothing to send. */
    method Drain() returns (r: Result<seq<Packet>, Fault>)
      requires config.Valid()
      modifies this`ins, this`outs, this`lastSequence, this`lastTimeSent, this`resizing
      ensures r.Ok? <==> DrainFits(config, old(State()))
      ensures r.Ok? ==> (State(), r.value) == Drained(config, old(State()))
    {
      hide *;
      var sent: seq<Packet> := [];
      ghost var all := Drained(config, State());
      ghost var rest := all.1;
      while true
        invariant DrainFits(config, old(State())) <==> DrainFits(config, State())
        invariant Drained(config, State()) == (all.0, rest)
        invariant all.1 == sent + rest
        decreases |ins|, |outs|
      {
        var d := DrainOne();
        if d.Err? {
          return Err(d.error);
        }
        if d.value.None? {
          assert sent + [] == sent;
          return Ok(sent);
        }
        rest := rest[1..];
        assert sent + ([d.value.value] + rest) == (sent + [d.value.value]) + rest;
        sent := sent + [d.value.value];
      }
    }
  }

  // ---------------------------------------------------------------------------
  // Draining
  // ---------------------------------------------------------------------------

  /** A dequeue that yields a packet shrinks (|ins|, |outs|) lexicographically; one
      that does not leaves `outs` empty. */
  lemma DequeueProgress(c: Config, q: Queue)
    requires c.Valid()
    ensures var (r, p) := Dequeued(c, q);
      && (p.Some? ==> |r.ins| < |q.ins| || (r.ins == q.ins && |r.outs| < |q.outs|))
      && (p.None? ==> r.outs == [] && |r.ins| <= |q.ins|)
  {
    if q.outs == [] && Pruned(q).ins != [] {
      var target, size := c.TargetSize(), |Pruned(q).ins[0].payload|;
      if 0 < size <= target {
        DivPositive(target, size);
      }
    }
  }

  function Drained(c: Config, q: Queue): (Queue, seq<Packet>)
    requires c.Valid()
    decreases |q.ins|, |q.outs|
  {
    DequeueProgress(c, q);
    var (r, p) := Dequeued(c, q);
    if p.None? then (r, [])
    else
      var (s, ps) := Drained(c, r);
      (s, [p.value] + ps)
  }

  /** Every dequeue of the drain loop finds its buffers large enough. */
  predicate DrainFits(c: Config, q: Queue)
    requires c.Valid()
    decreases |q.ins|, |q.outs|
  {
    DequeueProgress(c, q);
    var (r, p) := Dequeued(c, q);
    BuffersSuffice(c, q) && (p.Some? ==> DrainFits(c, r))
  }

  lemma DrainStep(c: Config, q: Queue)
    requires c.Valid()
    ensures var (r, p) := Dequeued(c, q);
      && (DrainFits(c, q) <==> BuffersSuffice(c, q) && (p.Some? ==> DrainFits(c, r)))
      && (p.None? ==> Drained(c, q) == (r, []))
      && (p.Some? ==> Drained(c, q) == (Drained(c, r).0, [p.value] + Drained(c, r).1))
      && (p.Some? ==> |r.ins| < |q.ins| || (r.ins == q.ins && |r.outs| < |q.outs|))
  {
    DequeueProgress(c, q);
    hide Dequeued, BuffersSuffice;
  }

  // ---------------------------------------------------------------------------
  // Payload bytes
  // ---------------------------------------------------------------------------

  lemma {:induction false} PayloadsConcat(a: seq<Packet>, b: seq<Packet>)
    ensures Payloads(a + b) == Payloads(a) + Payloads(b)
  {
    if a == [] {
      assert a + b == b;
    } else {
      assert (a + b)[0] == a[0] && (a + b)[1..] == a[1..] + b;
      PayloadsConcat(a[1..], b);
    }
  }

  lemma NoPayloads()
    ensures Payloads([]) == []
  {}

  lemma OneMorePayload(ps: seq<Packet>, i: nat)
    requires i < |ps|
    ensures Payloads(ps[..i + 1]) == Payloads(ps[..i]) + ps[i].payload
    ensures |Payloads(ps[..i + 1])| <= |Payloads(ps)|
  {
    hide Payloads;
    assert ps[..i + 1] == ps[..i] + [ps[i]] && ps == ps[..i + 1] + ps[i + 1..];
    PayloadsConcat(ps[..i], [ps[i]]);
    PayloadsConcat(ps[..i + 1], ps[i + 1..]);
    PayloadsOne(ps[i]);
  }

  lemma PayloadsOne(p: Packet)
    ensures Payloads([p]) == p.payload
  {
    assert [p][1..] == [];
  }

  /** Splitting loses, adds and reorders no byte, and cuts to the target exactly. */
  lemma {:induction false} SamplesPayload(p: Packet, rate: u32, target: nat, count: nat, body: seq<octet>)
    requires |body| == count * target
    ensures Payloads(Samples(p, rate, target, count, body)) == body
    ensures forall s :: s in Samples(p, rate, target, count, body) ==> |s.payload| == target
    decreases count
  {
    if count > 0 {
      MulStep(count, target);
      var ss := Samples(p, rate, target, count, body);
      SamplesPayload(p, rate, target, count - 1, body[target..]);
      assert ss[1..] == Samples(p, rate, target, count - 1, body[target..]);
      assert body == body[..target] + body[target..];
    }
  }
}
