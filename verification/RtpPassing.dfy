/** Packets the queue does not resize: which are refused, and which are sent as they came. */
module RtpPassing {
  import opened RtpResizingQueue
  import opened RtpResizingRuns
  import opened Wrappers

  /** The front packet can be cut to the target size, or enough wait to be joined. */
  predicate Sizable(c: Config, ins: seq<Packet>)
    requires c.Valid() && ins != []
  {
    var target, size := c.TargetSize(), |ins[0].payload|;
    target > 0 && size > 0 && (if target < size then size % target == 0 else target / size <= |ins|)
  }

  /** A dequeue sends something that was ready, cuts a packet or joins some. */
  predicate SendsReady(c: Config, q: Queue)
    requires c.Valid()
  {
    q.outs != [] || (Pruned(q).ins != [] && Sizable(c, Pruned(q).ins))
  }

  /** Some dequeue of the run did so. */
  predicate HasSent(ops: seq<Op>)
    requires ValidOps(ops)
  {
    ops != [] &&
    var front, op := ops[..|ops| - 1], ops[|ops| - 1];
    HasSent(front) || (op.Deq? && SendsReady(op.c, Run(front).q))
  }

  lemma {:induction false} ResizingIff(ops: seq<Op>)
    requires ValidOps(ops)
    ensures Run(ops).q.resizing <==> HasSent(ops)
  {
    if ops != [] {
      var front, op := ops[..|ops| - 1], ops[|ops| - 1];
      ResizingIff(front);
      hide Dequeued, Enqueued, Discarded, SendsReady;
      if op.Enq? {
        EnqueueKeeps(op.c, Run(front).q, op.p);
      } else {
        DequeueSets(op.c, Run(front).q);
      }
    }
  }

  lemma EnqueueKeeps(c: Config, q: Queue, p: Packet)
    requires c.Valid()
    ensures Enqueued(c, q, p).0.resizing == q.resizing
  {
    hide Config.TargetSize;
  }

  lemma DequeueSets(c: Config, q: Queue)
    requires c.Valid()
    ensures Dequeued(c, q).0.resizing <==> q.resizing || SendsReady(c, q)
  {
    hide Config.TargetSize, Split, Merge;
  }

  /** In every run a packet is refused if and only if it is not of the monitored codec and nothing
      has been sent from the ready list yet. */
  lemma RefusedIff(ops: seq<Op>, c: Config, p: Packet)
    requires ValidOps(ops) && c.Valid()
    ensures !Enqueued(c, Run(ops).q, p).1 <==> p.payloadType != c.payloadType && !HasSent(ops)
  {
    ResizingIff(ops);
    hide Run, HasSent, Config.TargetSize;
  }

  /** Not of the monitored codec, not a whole number of base samples, or of the target size. */
  predicate PassesAsIs(c: Config, p: Packet)
    requires c.Valid()
  {
    p.payloadType != c.payloadType || |p.payload| % c.baseSampleSize != 0 || |p.payload| == c.TargetSize()
  }

  /** Such a packet, once accepted, is sent after those that are ready, with nothing but its number
      changed; only an empty one of the monitored codec is swallowed after the first was sent. */
  lemma SentAsIs(c: Config, q: Queue, p: Packet)
    requires c.Valid() && Enqueued(c, q, p).1 && PassesAsIs(c, p)
    requires p.payloadType == c.payloadType && p.payload == [] ==> !q.resizing
    ensures var sent := Drained(c, Enqueued(c, q, p).0).1;
      && |sent| > |q.outs| && sent[|q.outs|].(sequence := p.sequence) == p
      && forall i :: 0 <= i < |q.outs| ==> sent[i].(sequence := q.outs[i].sequence) == q.outs[i]
  {
    var r := Enqueued(c, q, p).0;
    GoesToReady(c, q, p);
    forall i | 0 <= i < |r.outs| ensures i < |Drained(c, r).1| && Drained(c, r).1[i].(sequence := r.outs[i].sequence) == r.outs[i] {
      ReadyFirst(c, r, i);
    }
    hide Drained, Enqueued, PassesAsIs;
    assert r.outs[|q.outs|] == p;
  }

  lemma GoesToReady(c: Config, q: Queue, p: Packet)
    requires c.Valid() && Enqueued(c, q, p).1 && PassesAsIs(c, p)
    requires p.payloadType == c.payloadType && p.payload == [] ==> !q.resizing
    ensures Enqueued(c, q, p).0.outs == q.outs + [p]
  {
    hide Config.TargetSize;
  }

  lemma {:induction false} ReadyFirst(c: Config, q: Queue, i: nat)
    requires c.Valid() && i < |q.outs|
    ensures var sent := Drained(c, q).1; i < |sent| && sent[i].(sequence := q.outs[i].sequence) == q.outs[i]
    decreases i
  {
    DrainStep(c, q);
    hide Drained;
    if i > 0 {
      ReadyFirst(c, Dequeued(c, q).0, i - 1);
    }
  }

  /** In every run the last time sent is the time stamp of the last packet sent, by any route. */
  lemma {:induction false} LastTimeIs(ops: seq<Op>)
    requires ValidOps(ops)
    ensures var t := Run(ops);
      t.q.lastTimeSent == if t.emitted == [] then 0 else t.emitted[|t.emitted| - 1].timestamp
  {
    if ops != [] {
      var front, op := ops[..|ops| - 1], ops[|ops| - 1];
      LastTimeIs(front);
      if op.Deq? {
        DequeueTime(op.c, Run(front).q);
      }
      hide Dequeued, Discarded, Config.TargetSize;
    }
  }

  lemma DequeueTime(c: Config, q: Queue)
    requires c.Valid()
    ensures var (r, p) := Dequeued(c, q);
      r.lastTimeSent == if p.Some? then p.value.timestamp else q.lastTimeSent
  {
    hide Config.TargetSize, Split, Merge;
  }

  // ---------------------------------------------------------------------------
  // The stack buffers
  // ---------------------------------------------------------------------------

  /** How many bytes a dequeue takes out of those waiting and not late. */
  function TakenBytes(c: Config, q: Queue): int
    requires c.Valid()
  {
    |Payloads(Pruned(q).ins)| - |Payloads(Dequeued(c, q).0.ins)|
  }

  /** A dequeue overruns its buffer if and only if it cuts or joins more than 4098 bytes at once. */
  lemma OverrunIff(c: Config, q: Queue)
    requires c.Valid()
    ensures !BuffersSuffice(c, q) <==> q.outs == [] && SendsReady(c, q) && TakenBytes(c, q) > 4098
  {
    if q.outs == [] && Pruned(q).ins != [] {
      CopiedBytes(c, Pruned(q));
    }
    hide Config.TargetSize, Pruned, Resized, Fits, Payloads;
  }

  lemma CopiedBytes(c: Config, q: Queue)
    requires c.Valid() && q.outs == [] && q.ins != []
    ensures Fits(c, q) <==> !(Sizable(c, q.ins) && |Payloads(q.ins)| - |Payloads(Resized(c, q).0.ins)| > 4098)
  {
    hide Config.TargetSize, Resized, Payloads;
    ResizedIns(c, q);
    var target, size := c.TargetSize(), |q.ins[0].payload|;
    if 0 < target && 0 < size {
      if target < size {
        TakenFrom(q.ins, 1);
        PayloadsOne(q.ins[0]);
        assert q.ins[..1] == [q.ins[0]];
      } else if target / size <= |q.ins| {
        DivPositive(target, size);
        TakenFrom(q.ins, target / size);
      }
    }
  }

  lemma TakenFrom(ins: seq<Packet>, n: nat)
    requires n <= |ins|
    ensures |Payloads(ins)| == |Payloads(ins[..n])| + |Payloads(ins[n..])|
  {
    assert ins == ins[..n] + ins[n..];
    PayloadsConcat(ins[..n], ins[n..]);
  }

  lemma ResizedIns(c: Config, q: Queue)
    requires c.Valid() && q.outs == [] && q.ins != []
    ensures var target, size, ins := c.TargetSize(), |q.ins[0].payload|, Resized(c, q).0.ins;
      if target == 0 || size == 0 || target < size then ins == q.ins[1..]
      else if target / size <= |q.ins| then target / size >= 0 && ins == q.ins[target / size..]
      else ins == q.ins
  {
    hide Config.TargetSize, Split, Merge;
    var target, size := c.TargetSize(), |q.ins[0].payload|;
    if 0 < size <= target {
      DivPositive(target, size);
    }
  }
}
