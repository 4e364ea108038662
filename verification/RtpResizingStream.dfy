/** A stream of equal packets: the queue is a pure re-framing of its byte stream. */
module RtpResizingStream {
  import opened Division
  import opened RtpResizingQueue
  import opened RtpResizingRuns
  import opened Wrappers

  /** Every packet carries `size` bytes of the monitored codec, a whole number of base
      samples, and one of `size` and the target divides the other. */
  predicate Reframes(c: Config, size: nat)
    requires c.Valid()
  {
    var target := c.TargetSize();
    size > 0 && target > 0 && size != target && size % c.baseSampleSize == 0
    && (size % target == 0 || target % size == 0)
  }

  /** The packets a run enqueues, in order. */
  function Offered(ops: seq<Op>): seq<Packet> {
    if ops == [] then []
    else
      var op := ops[|ops| - 1];
      Offered(ops[..|ops| - 1]) + (if op.Enq? then [op.p] else [])
  }

  predicate UniformOps(c: Config, size: nat, ops: seq<Op>) {
    && (forall i :: 0 <= i < |ops| ==> ops[i].c == c)
    && (forall p :: p in Offered(ops) ==> p.payloadType == c.payloadType && |p.payload| == size)
  }

  predicate InOrder(ps: seq<Packet>) {
    forall i, j :: 0 <= i < j < |ps| ==> ps[i].timestamp <= ps[j].timestamp
  }

  /** The time stamp no waiting packet is older than: that of the last packet to leave. */
  function Floor(q: Queue): u32 {
    if q.outs == [] then q.lastTimeSent else q.outs[|q.outs| - 1].timestamp
  }

  /** Nothing waiting is older than the floor or newer than `top`. */
  predicate UniformQueue(c: Config, size: nat, q: Queue, top: u32)
    requires c.Valid()
  {
    && (forall p :: p in q.ins ==> |p.payload| == size && Floor(q) <= p.timestamp <= top)
    && InOrder(q.ins) && Floor(q) <= top
    && (forall p :: p in q.outs ==> |p.payload| == c.TargetSize())
  }

  /** Nothing that waits is late. */
  lemma NothingLate(c: Config, size: nat, q: Queue, top: u32)
    requires c.Valid() && UniformQueue(c, size, q, top) && q.outs == []
    ensures LateCount(q.ins, q.lastTimeSent) == 0 && Pruned(q) == q
    ensures q.ins != [] ==> |q.ins[0].payload| == size
  {
    hide Config.TargetSize;
    if q.ins != [] {
      assert q.ins[0] in q.ins;
    }
    assert q.ins[0..] == q.ins;
  }

  /** No dequeue of an equal-packet stream drops anything, what it yields has the
      target size, and the queue keeps its shape. */
  lemma UniformDequeue(c: Config, size: nat, q: Queue, top: u32)
    requires c.Valid() && Reframes(c, size) && UniformQueue(c, size, q, top)
    ensures Discarded(c, q) == []
    ensures var (r, p) := Dequeued(c, q);
      UniformQueue(c, size, r, top) && (p.Some? ==> |p.value.payload| == c.TargetSize())
  {
    if q.outs != [] {
      UniformReady(c, size, q, top);
    } else {
      NothingLate(c, size, q, top);
      if q.ins != [] {
        UniformResized(c, size, q, top);
      }
    }
    hide Config.TargetSize, Resized, Emitted, UniformQueue, Pruned, LateCount;
  }

  lemma UniformReady(c: Config, size: nat, q: Queue, top: u32)
    requires c.Valid() && UniformQueue(c, size, q, top) && q.outs != []
    ensures var (r, p) := Emitted(q);
      UniformQueue(c, size, r, top) && |p.value.payload| == c.TargetSize()
  {
    hide Config.TargetSize;
    var (r, p) := Emitted(q);
    assert q.outs[0] in q.outs && forall x :: x in r.outs ==> x in q.outs;
  }

  lemma UniformResized(c: Config, size: nat, q: Queue, top: u32)
    requires c.Valid() && Reframes(c, size) && UniformQueue(c, size, q, top) && q.outs == [] && q.ins != []
    ensures var (r, p) := Resized(c, q);
      UniformQueue(c, size, r, top) && (p.Some? ==> |p.value.payload| == c.TargetSize())
  {
    hide Config.TargetSize, UniformQueue, Split, Merge, Emitted;
    var target := c.TargetSize();
    NothingLate(c, size, q, top);
    if target < size {
      DividesSmaller(size, target);
      SplitUniform(c, size, q, top);
    } else {
      DividesSmaller(target, size);
      var n := target / size;
      DivPositive(target, size);
      DivExact(target, size);
      if n <= |q.ins| {
        MergeUniform(c, size, q, n, top);
      }
    }
  }

  lemma DividesSmaller(big: nat, small: nat)
    requires 0 < small < big
    requires big % small == 0 || small % big == 0
    ensures big % small == 0
  {}

  lemma SplitUniform(c: Config, size: nat, q: Queue, top: u32)
    requires c.Valid() && UniformQueue(c, size, q, top) && q.ins != [] && q.outs == []
    requires 0 < c.TargetSize() < size && size % c.TargetSize() == 0
    requires |q.ins[0].payload| == size
    ensures Split(c, q.ins[0]) != []
    ensures var (r, p) := Emitted(q.(ins := q.ins[1..], outs := Split(c, q.ins[0])));
      UniformQueue(c, size, r, top) && |p.value.payload| == c.TargetSize()
  {
    hide Config.TargetSize, Config.TargetClockRate, UniformQueue, Emitted;
    var front, target, rate := q.ins[0], c.TargetSize(), c.TargetClockRate();
    var count := size / target;
    DivExact(size, target);
    DivPositive(size, target);
    SamplesPayload(front, rate, target, count, front.payload);
    LastSample(front, rate, target, count, front.payload);
    UniformEmit(c, size, q, 1, Samples(front, rate, target, count, front.payload), top);
  }

  lemma MergeUniform(c: Config, size: nat, q: Queue, n: nat, top: u32)
    requires c.Valid() && UniformQueue(c, size, q, top) && q.outs == []
    requires 0 < size && n * size == c.TargetSize() && 0 < n <= |q.ins|
    ensures var (r, p) := Emitted(q.(ins := q.ins[n..], outs := [Merge(q.ins[..n])]));
      UniformQueue(c, size, r, top) && |p.value.payload| == c.TargetSize()
  {
    hide Config.TargetSize, Emitted;
    UniformLength(q.ins[..n], size);
    UniformEmit(c, size, q, n, [Merge(q.ins[..n])], top);
  }

  /** Replacing the first `n` packets by target-sized ones, the last stamped like the
      n-th packet, and sending the first keeps the queue uniform. */
  lemma UniformEmit(c: Config, size: nat, q: Queue, n: nat, ready: seq<Packet>, top: u32)
    requires c.Valid() && UniformQueue(c, size, q, top) && q.outs == [] && 0 < n <= |q.ins|
    requires ready != [] && ready[|ready| - 1].timestamp == q.ins[n - 1].timestamp
    requires forall p :: p in ready ==> |p.payload| == c.TargetSize()
    ensures var (r, p) := Emitted(q.(ins := q.ins[n..], outs := ready));
      UniformQueue(c, size, r, top) && |p.value.payload| == c.TargetSize()
  {
    hide Config.TargetSize;
    var (r, p) := Emitted(q.(ins := q.ins[n..], outs := ready));
    assert ready[0] in ready;
    assert forall x :: x in r.outs ==> x in ready;
    forall x | x in r.ins
      ensures |x.payload| == size && q.ins[n - 1].timestamp <= x.timestamp
    {
      var i :| 0 <= i < |r.ins| && r.ins[i] == x;
      assert q.ins[n + i] == x;
    }
    SuffixInOrder(q.ins, n);
  }

  lemma SuffixInOrder(ps: seq<Packet>, n: nat)
    requires InOrder(ps) && n <= |ps|
    ensures InOrder(ps[n..])
  {}

  lemma Within(i: nat, count: nat, target: nat)
    requires i < count
    ensures 0 <= i * target <= (i + 1) * target <= count * target
  {
    Gap(count, i, target);
    assert (i + 1) * target == i * target + target;
  }

  /** Sample `i` of `count` is the i-th stretch of the bytes, stamped `count - 1 - i` rates before
      the packet it was cut from, modulo 2^32. */
  lemma {:induction false} SamplesAt(p: Packet, rate: u32, target: nat, count: nat, body: seq<octet>, i: nat)
    requires |body| == count * target && i < count
    ensures 0 <= i * target <= (i + 1) * target <= |body|
    ensures Samples(p, rate, target, count, body)[i] ==
            p.(timestamp := (p.timestamp - (count - 1 - i) * rate) % TWO32, payload := body[i * target..(i + 1) * target])
    decreases count
  {
    MulStep(count, target);
    Within(i, count, target);
    if i > 0 {
      var rest := body[target..];
      SamplesAt(p, rate, target, count - 1, rest, i - 1);
      assert i * target == (i - 1) * target + target && (i + 1) * target == i * target + target;
      assert rest[(i - 1) * target..i * target] == body[i * target..(i + 1) * target];
    }
  }

  lemma LastSample(p: Packet, rate: u32, target: nat, count: nat, body: seq<octet>)
    requires |body| == count * target && count > 0
    ensures Samples(p, rate, target, count, body)[count - 1].timestamp == p.timestamp
  {
    SamplesAt(p, rate, target, count, body, count - 1);
    hide Samples;
  }

  lemma {:induction false} UniformLength(ps: seq<Packet>, size: nat)
    requires forall p :: p in ps ==> |p.payload| == size
    ensures |Payloads(ps)| == |ps| * size
  {
    if ps != [] {
      UniformLength(ps[1..], size);
      MulStep(|ps|, size);
    }
  }

  /** Over every interleaving of enqueue and dequeue of such a stream, with time stamps
      that do not go back: nothing is refused or dropped, every emitted packet has exactly
      the target size, and emitted ++ ready ++ waiting is the enqueued byte stream. */
  lemma StreamPreserved(c: Config, size: nat, ops: seq<Op>)
    requires c.Valid() && ValidOps(ops) && Reframes(c, size)
    requires UniformOps(c, size, ops) && InOrder(Offered(ops))
    ensures var t := Run(ops);
      && t.discarded == [] && t.accepted == Offered(ops)
      && (forall p :: p in t.emitted ==> |p.payload| == c.TargetSize())
      && Payloads(t.emitted) + Payloads(t.q.outs) + Payloads(t.q.ins) == Payloads(Offered(ops))
  {
    StreamInvariant(c, size, ops);
  }

  predicate Streaming(c: Config, size: nat, t: Trace, offered: seq<Packet>)
    requires c.Valid()
  {
    && t.discarded == [] && t.accepted == offered
    && (forall p :: p in t.emitted ==> |p.payload| == c.TargetSize())
    && Payloads(t.emitted) + Payloads(t.q.outs) + Payloads(t.q.ins) == Payloads(offered)
    && UniformQueue(c, size, t.q, Latest(offered))
  }

  function Latest(ps: seq<Packet>): u32 {
    if ps == [] then 0 else ps[|ps| - 1].timestamp
  }

  lemma {:induction false} StreamInvariant(c: Config, size: nat, ops: seq<Op>)
    requires c.Valid() && ValidOps(ops) && Reframes(c, size)
    requires UniformOps(c, size, ops) && InOrder(Offered(ops))
    ensures Streaming(c, size, Run(ops), Offered(ops))
  {
    hide Config.TargetSize, Streaming, Step, Reframes;
    if ops == [] {
      StreamStart(c, size);
    } else {
      var front, op := ops[..|ops| - 1], ops[|ops| - 1];
      assert op.c == c;
      assert forall p :: p in Offered(front) ==> p in Offered(ops);
      assert forall i :: 0 <= i < |Offered(front)| ==> Offered(front)[i] == Offered(ops)[i];
      StreamInvariant(c, size, front);
      if op.Enq? {
        var last := |Offered(front)|;
        assert Offered(ops)[last] == op.p;
        assert op.p in Offered(ops);
        StreamEnqueue(c, size, Run(front), Offered(front), op.p);
      } else {
        assert Offered(ops) == Offered(front);
        StreamDequeue(c, size, Run(front), Offered(front));
      }
    }
  }

  lemma StreamStart(c: Config, size: nat)
    requires c.Valid()
    ensures Streaming(c, size, Run([]), [])
  {}

  lemma StreamEnqueue(c: Config, size: nat, t: Trace, offered: seq<Packet>, p: Packet)
    requires c.Valid() && Reframes(c, size) && Streaming(c, size, t, offered)
    requires p.payloadType == c.payloadType && |p.payload| == size
    requires Latest(offered) <= p.timestamp
    ensures Streaming(c, size, Step(t, Enq(c, p)), offered + [p])
  {
    hide Config.TargetSize, Payloads;
    var u := Step(t, Enq(c, p));
    assert u.q.ins == t.q.ins + [p] && u.q.outs == t.q.outs;
    PayloadsConcat(offered, [p]);
    PayloadsConcat(t.q.ins, [p]);
    Regroup3(Payloads(t.emitted), Payloads(t.q.outs), Payloads(t.q.ins), Payloads([p]));
  }

  lemma Regroup3<T>(a: seq<T>, b: seq<T>, c: seq<T>, d: seq<T>)
    ensures a + b + (c + d) == (a + b + c) + d
  {}

  lemma StreamDequeue(c: Config, size: nat, t: Trace, offered: seq<Packet>)
    requires c.Valid() && Reframes(c, size) && Streaming(c, size, t, offered)
    ensures Streaming(c, size, Step(t, Deq(c)), offered)
  {
    hide Config.TargetSize, Dequeued, Discarded, Reframes, UniformQueue;
    UniformDequeue(c, size, t.q, Latest(offered));
    DequeueKeepsOrder(c, t.q);
    var (q, p) := Dequeued(c, t.q);
    PayloadsConcat(t.emitted, Yielded(p));
    Regroup4(Payloads(t.emitted), Payloads(Yielded(p)), Payloads(q.outs), Payloads(q.ins),
             Payloads(t.q.outs), Payloads(t.q.ins));
  }

  lemma Regroup4<T>(e: seq<T>, y: seq<T>, o: seq<T>, i: seq<T>, o0: seq<T>, i0: seq<T>)
    requires [] + y + o + i == o0 + i0
    ensures (e + y) + o + i == e + o0 + i0
  {
    assert (e + y) + o + i == e + ([] + y + o + i);
    assert e + o0 + i0 == e + (o0 + i0);
  }

  // ---------------------------------------------------------------------------
  // Draining such a stream
  // ---------------------------------------------------------------------------

  /** Draining sends whole target-sized packets, in stream order, until less than one
      target's worth of bytes is left. */
  lemma {:induction false} DrainedResidue(c: Config, size: nat, q: Queue, top: u32)
    requires c.Valid() && Reframes(c, size) && UniformQueue(c, size, q, top)
    ensures var (r, sent) := Drained(c, q);
      && r.outs == [] && |Payloads(r.ins)| < c.TargetSize()
      && (forall p :: p in sent ==> |p.payload| == c.TargetSize())
      && Payloads(sent) + Payloads(r.ins) == Payloads(q.outs) + Payloads(q.ins)
    decreases |q.ins|, |q.outs|
  {
    hide Config.TargetSize, Dequeued, Reframes, UniformQueue, Discarded, Payloads;
    var (r, p) := Dequeued(c, q);
    DequeueProgress(c, q);
    UniformDequeue(c, size, q, top);
    DequeueKeepsOrder(c, q);
    NoPayloads();
    if p.None? {
      StuckIsShort(c, size, q, top);
    } else {
      DrainedResidue(c, size, r, top);
      var (s, rest) := Drained(c, r);
      PayloadsConcat([p.value], rest);
      Regroup5(Payloads([p.value]), Payloads(rest), Payloads(s.ins), Payloads(r.outs), Payloads(r.ins));
    }
  }

  lemma Regroup5<T>(y: seq<T>, rest: seq<T>, left: seq<T>, o: seq<T>, i: seq<T>)
    requires rest + left == o + i
    ensures (y + rest) + left == [] + y + o + i
  {
    assert (y + rest) + left == y + (rest + left);
    assert [] + y + o + i == y + (o + i);
  }

  /** A dequeue yields nothing only when less than one target's worth is waiting. */
  lemma StuckIsShort(c: Config, size: nat, q: Queue, top: u32)
    requires c.Valid() && Reframes(c, size) && UniformQueue(c, size, q, top)
    requires Dequeued(c, q).1.None?
    ensures q.outs == [] && Dequeued(c, q).0.outs == [] && |Payloads(Dequeued(c, q).0.ins)| < c.TargetSize()
  {
    hide Config.TargetSize, Split, Merge;
    if q.ins != [] {
      NothingLate(c, size, q, top);
      var target := c.TargetSize();
      if target < size {
        DividesSmaller(size, target);
      } else {
        DividesSmaller(target, size);
        DivExact(target, size);
        UniformLength(q.ins, size);
        MulBelow(|q.ins|, target / size, size);
      }
    }
  }

  lemma MulBelow(a: nat, b: nat, d: nat)
    requires a < b && d > 0
    ensures a * d < b * d
  {}

  /** For such a stream the stack buffers always suffice. */
  lemma {:induction false} DrainAlwaysFits(c: Config, size: nat, q: Queue, top: u32)
    requires c.Valid() && Reframes(c, size) && UniformQueue(c, size, q, top)
    requires size <= BUFFER_SIZE && c.TargetSize() <= BUFFER_SIZE
    ensures DrainFits(c, q)
    decreases |q.ins|, |q.outs|
  {
    hide Config.TargetSize, Dequeued, Reframes, UniformQueue, BuffersSuffice;
    DequeueProgress(c, q);
    UniformDequeue(c, size, q, top);
    UniformFits(c, size, q, top);
    if Dequeued(c, q).1.Some? {
      DrainAlwaysFits(c, size, Dequeued(c, q).0, top);
    }
  }

  lemma UniformFits(c: Config, size: nat, q: Queue, top: u32)
    requires c.Valid() && Reframes(c, size) && UniformQueue(c, size, q, top)
    requires size <= BUFFER_SIZE && c.TargetSize() <= BUFFER_SIZE
    ensures BuffersSuffice(c, q)
  {
    hide Config.TargetSize;
    if q.outs == [] && q.ins != [] {
      NothingLate(c, size, q, top);
      var target := c.TargetSize();
      if size < target && target / size <= |q.ins| {
        DividesSmaller(target, size);
        DivExact(target, size);
        UniformLength(q.ins[..target / size], size);
      }
    }
  }
}
