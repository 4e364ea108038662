/** Renumbering: when do emitted packets carry consecutive sequence numbers? The counter
    uses 0 for "unset", so a packet that arrives while it holds 0 seeds it again. */
module RtpSequenceNumbers {
  import opened RtpResizingQueue
  import opened RtpResizingRuns
  import opened Wrappers

  predicate Consecutive(ps: seq<Packet>) {
    forall i :: 0 < i < |ps| ==> ps[i].sequence == (ps[i - 1].sequence + 1) % TWO16
  }

  /** An enqueue that reaches the seeding test with the counter at 0, after something
      was sent, and whose packet is not numbered 1: the only kind that moves the counter. */
  predicate Reseeds(t: Trace, op: Op) {
    && op.Enq? && op.p.payloadType == op.c.payloadType && !(t.q.resizing && op.p.payload == [])
    && t.q.lastSequence == 0 && t.emitted != [] && op.p.sequence != 1
  }

  predicate Emits(t: Trace, op: Op)
    requires op.c.Valid()
  {
    op.Deq? && Dequeued(op.c, t.q).1.Some?
  }

  /** `pending`: the counter was reseeded since the last packet sent.
      `sent`: some packet was sent with such a reseeding pending. */
  datatype Gap = Gap(pending: bool, sent: bool)

  /** What a caller can watch: counter, arriving packets and departures. */
  function Watch(ops: seq<Op>): Gap
    requires ValidOps(ops)
  {
    if ops == [] then Gap(false, false)
    else
      var t, op, g := Run(ops[..|ops| - 1]), ops[|ops| - 1], Watch(ops[..|ops| - 1]);
      if Emits(t, op) then Gap(false, g.sent || g.pending)
      else if Reseeds(t, op) then Gap(true, g.sent)
      else g
  }

  /** Emitted sequence numbers are consecutive, whatever was split, merged, dropped or
      passed through, exactly when no packet leaves after a reseeding. */
  lemma ConsecutiveIffNoReseed(ops: seq<Op>)
    requires ValidOps(ops)
    ensures Consecutive(Run(ops).emitted) <==> !Watch(ops).sent
  {
    Numbering(ops);
  }

  /** The counter is the last number sent, unless it was reseeded since. */
  predicate Linked(t: Trace, g: Gap) {
    && (Consecutive(t.emitted) <==> !g.sent)
    && (t.emitted == [] ==> !g.pending)
    && (t.emitted != [] ==>
          var last := t.emitted[|t.emitted| - 1].sequence;
          if g.pending then t.q.lastSequence != 0 && t.q.lastSequence % TWO16 != last
          else t.q.lastSequence % TWO16 == last)
  }

  lemma {:induction false} Numbering(ops: seq<Op>)
    requires ValidOps(ops)
    ensures Linked(Run(ops), Watch(ops))
  {
    hide Step, Linked, Emits, Reseeds;
    if ops == [] {
      NumberingStart();
    } else {
      var front, op := ops[..|ops| - 1], ops[|ops| - 1];
      var t, g := Run(front), Watch(front);
      Numbering(front);
      if op.Enq? {
        NumberingEnqueue(t, g, op);
        EnqueueNeverEmits(t, op);
      } else {
        NumberingDequeue(t, g, op);
      }
    }
  }

  lemma NumberingStart()
    ensures Linked(Trace(EMPTY, [], [], []), Gap(false, false))
  {}

  lemma EnqueueNeverEmits(t: Trace, op: Op)
    requires op.c.Valid() && op.Enq?
    ensures !Emits(t, op)
  {}

  lemma NumberingEnqueue(t: Trace, g: Gap, op: Op)
    requires op.c.Valid() && op.Enq? && Linked(t, g)
    ensures Linked(Step(t, op), if Reseeds(t, op) then Gap(true, g.sent) else g)
  {
    hide Config.TargetSize, Consecutive;
    var u := Step(t, op);
    assert u.emitted == t.emitted;
    if u.q.lastSequence != t.q.lastSequence {
      assert u.q.lastSequence == (op.p.sequence - 1) % TWO32;
    }
  }

  lemma NumberingDequeue(t: Trace, g: Gap, op: Op)
    requires op.c.Valid() && op.Deq? && Linked(t, g)
    ensures !Reseeds(t, op)
    ensures Linked(Step(t, op), if Emits(t, op) then Gap(false, g.sent || g.pending) else g)
  {
    hide Dequeued, Discarded, Consecutive;
    DequeueNumbers(op.c, t.q);
    var u := Step(t, op);
    var (q, r) := Dequeued(op.c, t.q);
    if r.Some? {
      assert u.emitted == t.emitted + [r.value];
      ConsecutiveAppend(t.emitted, r.value);
    } else {
      assert u.emitted == t.emitted;
    }
  }

  /** A packet leaves with the next number; otherwise the counter stands still. */
  lemma DequeueNumbers(c: Config, q: Queue)
    requires c.Valid()
    ensures var (r, p) := Dequeued(c, q);
      if p.Some? then
        && r.lastSequence == (q.lastSequence + 1) % TWO32
        && p.value.sequence == (q.lastSequence % TWO16 + 1) % TWO16
        && r.lastSequence % TWO16 == p.value.sequence
      else r.lastSequence == q.lastSequence
  {
    hide Config.TargetSize, Split, Merge;
    var n := (q.lastSequence + 1) % TWO32;
    assert n % TWO16 == (q.lastSequence % TWO16 + 1) % TWO16;
    if q.outs == [] && Pruned(q).ins != [] {
      ResizedNumbers(c, Pruned(q));
    }
  }

  lemma ResizedNumbers(c: Config, q: Queue)
    requires c.Valid() && q.outs == [] && q.ins != []
    ensures var (r, p) := Resized(c, q);
      if p.Some? then
        var n := (q.lastSequence + 1) % TWO32;
        r.lastSequence == n && p.value.sequence == n % TWO16
      else r.lastSequence == q.lastSequence
  {
    hide Config.TargetSize, Split, Merge;
  }

  lemma ConsecutiveAppend(ps: seq<Packet>, p: Packet)
    ensures Consecutive(ps + [p]) <==>
            Consecutive(ps) && (ps != [] ==> p.sequence == (ps[|ps| - 1].sequence + 1) % TWO16)
  {
    var qs := ps + [p];
    if Consecutive(qs) {
      forall i | 0 < i < |ps| ensures ps[i].sequence == (ps[i - 1].sequence + 1) % TWO16 {
        assert qs[i].sequence == (qs[i - 1].sequence + 1) % TWO16;
      }
      if ps != [] {
        assert qs[|ps|].sequence == (qs[|ps| - 1].sequence + 1) % TWO16;
      }
    }
  }

  // ---------------------------------------------------------------------------
  // A stream that starts at sequence number 0
  // ---------------------------------------------------------------------------

  /** 10-byte samples merged two by two. */
  const PAIRS := Config(18, 80, 10, 10, 20)

  function Sample(n: u16): Packet { Packet(18, n, 80 * n, 1, seq(10, _ => 0)) }

  function Pair(n: u16): seq<Op>
    requires n + 1 < TWO16
  {
    [Enq(PAIRS, Sample(n)), Enq(PAIRS, Sample(n + 1)), Deq(PAIRS)]
  }

  /** Numbered 0, 1, 2, 3 in, and 0, 2 out: the counter is back at 0 after the first
      departure, so the third packet seeds it again. */
  lemma StartingAtZeroSkips()
    ensures ValidOps(Pair(0) + Pair(2)) && !Consecutive(Run(Pair(0) + Pair(2)).emitted)
  {
    PairRun([], 0);
    PairRun([] + Pair(0), 2);
    assert [] + Pair(0) + Pair(2) == Pair(0) + Pair(2);
    NotConsecutive(Run(Pair(0) + Pair(2)).emitted);
  }

  lemma PairRun(ops: seq<Op>, n: u16)
    requires ValidOps(ops) && (n == 0 || n == 2)
    requires var t := Run(ops);
      t.q.ins == [] && t.q.outs == [] && t.q.lastSequence == 0 && t.q.lastTimeSent <= 80 * n
    ensures ValidOps(ops + Pair(n))
    ensures var t, u := Run(ops), Run(ops + Pair(n));
      && u.q.ins == [] && u.q.outs == [] && u.q.lastSequence == n && u.q.lastTimeSent == 80 * (n + 1)
      && |u.emitted| == |t.emitted| + 1 && u.emitted[..|t.emitted|] == t.emitted
      && u.emitted[|t.emitted|].sequence == n
  {
    hide Step, Run, Sample;
    PairStep(Run(ops), n);
    var a, b, d := Enq(PAIRS, Sample(n)), Enq(PAIRS, Sample(n + 1)), Deq(PAIRS);
    RunAppend(ops, a);
    RunAppend(ops + [a], b);
    RunAppend(ops + [a] + [b], d);
    assert ops + [a] + [b] + [d] == ops + Pair(n);
  }

  lemma NotConsecutive(ps: seq<Packet>)
    requires |ps| == 2 && ps[0].sequence == 0 && ps[1].sequence == 2
    ensures !Consecutive(ps)
  {
    assert ps[1].sequence != (ps[1 - 1].sequence + 1) % TWO16;
  }

  /** Two samples in and one merged packet out of an empty queue whose counter holds 0. */
  lemma PairStep(t: Trace, n: u16)
    requires n == 0 || n == 2
    requires t.q.ins == [] && t.q.outs == [] && t.q.lastSequence == 0 && t.q.lastTimeSent <= 80 * n
    ensures var u := Step(Step(Step(t, Enq(PAIRS, Sample(n))), Enq(PAIRS, Sample(n + 1))), Deq(PAIRS));
      && u.q.ins == [] && u.q.outs == [] && u.q.lastSequence == n && u.q.lastTimeSent == 80 * (n + 1)
      && |u.emitted| == |t.emitted| + 1 && u.emitted[..|t.emitted|] == t.emitted
      && u.emitted[|t.emitted|].sequence == n
  {
    hide Dequeued, Discarded, Consecutive;
    var t1 := Step(t, Enq(PAIRS, Sample(n)));
    SampleWaits(t.q, n);
    assert t1.q.lastSequence == (n - 1) % TWO32;
    var t2 := Step(t1, Enq(PAIRS, Sample(n + 1)));
    SampleWaits(t1.q, n + 1);
    hide Enqueued;
    PairMerged(t2.q, Sample(n), Sample(n + 1));
  }

  lemma SampleWaits(q: Queue, n: u16)
    ensures Enqueued(PAIRS, q, Sample(n)) == (Seeded(q, Sample(n)).(ins := q.ins + [Sample(n)]), true)
  {
    assert PAIRS.TargetSize() == 20;
  }

  lemma PairMerged(q: Queue, a: Packet, b: Packet)
    requires q.ins == [a, b] && q.outs == [] && |a.payload| == 10
    requires q.lastTimeSent <= a.timestamp
    ensures var n := (q.lastSequence + 1) % TWO32;
      && Dequeued(PAIRS, q).0 == Queue([], [], n, b.timestamp, true)
      && Dequeued(PAIRS, q).1.Some? && Dequeued(PAIRS, q).1.value.sequence == n % TWO16
  {
    assert PAIRS.TargetSize() == 20;
    assert LateCount(q.ins, q.lastTimeSent) == 0;
    assert Pruned(q) == q by { assert q.ins[0..] == q.ins; }
    assert q.ins[2..] == [] && q.ins[..2] == [a, b];
  }
}
