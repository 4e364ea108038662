/** Whole runs of the re-packetization queue: any interleaving of enqueue and
    dequeue, each under whatever configuration is in force at that moment. */
module RtpResizingRuns {
  import opened RtpResizingQueue
  import opened Wrappers

  datatype Op = Enq(c: Config, p: Packet) | Deq(c: Config)

  /** The queue together with what went in, what came out and what was thrown away. */
  datatype Trace = Trace(q: Queue, accepted: seq<Packet>, emitted: seq<Packet>, discarded: seq<Packet>)

  predicate ValidOps(ops: seq<Op>) {
    forall i :: 0 <= i < |ops| ==> ops[i].c.Valid()
  }

  /** The packets a dequeue throws away: late ones, then a front it cannot size. */
  function Discarded(c: Config, q: Queue): seq<Packet>
    requires c.Valid()
  {
    if q.outs != [] then []
    else
      q.ins[..LateCount(q.ins, q.lastTimeSent)] + Unsizable(c, Pruned(q))
  }

  function Unsizable(c: Config, q: Queue): seq<Packet>
    requires c.Valid()
  {
    if q.ins != [] && (c.TargetSize() == 0 || q.ins[0].payload == []) then [q.ins[0]] else []
  }

  function Yielded(r: Option<Packet>): seq<Packet> {
    if r.Some? then [r.value] else []
  }

  function Step(t: Trace, op: Op): Trace
    requires op.c.Valid()
  {
    match op
    case Enq(c, p) =>
      var (q, ok) := Enqueued(c, t.q, p);
      t.(q := q, accepted := if ok then t.accepted + [p] else t.accepted)
    case Deq(c) =>
      var (q, r) := Dequeued(c, t.q);
      t.(q := q, emitted := t.emitted + Yielded(r), discarded := t.discarded + Discarded(c, t.q))
  }

  function Run(ops: seq<Op>): Trace
    requires ValidOps(ops)
  {
    if ops == [] then Trace(EMPTY, [], [], [])
    else Step(Run(ops[..|ops| - 1]), ops[|ops| - 1])
  }

  lemma RunAppend(ops: seq<Op>, op: Op)
    requires ValidOps(ops) && op.c.Valid()
    ensures ValidOps(ops + [op]) && Run(ops + [op]) == Step(Run(ops), op)
  {
    hide Step;
    assert (ops + [op])[..|ops|] == ops;
  }

  // ---------------------------------------------------------------------------
  // Conservation
  // ---------------------------------------------------------------------------

  /** One dequeue, byte for byte: what it discards, what it yields and what it
      leaves behind are together the old contents, in the old order. */
  lemma DequeueKeepsOrder(c: Config, q: Queue)
    requires c.Valid()
    ensures var (r, p) := Dequeued(c, q);
      Payloads(Discarded(c, q)) + Payloads(Yielded(p)) + Payloads(r.outs) + Payloads(r.ins)
      == Payloads(q.outs) + Payloads(q.ins)
  {
    hide Resized, Payloads, Unsizable, Emitted;
    if q.outs != [] {
      EmitKeepsOrder(q);
      NoPayloads();
    } else {
      var n, r := LateCount(q.ins, q.lastTimeSent), Pruned(q);
      var late, bad := q.ins[..n], Unsizable(c, r);
      assert q.ins == late + r.ins;
      PayloadsConcat(late, r.ins);
      PayloadsConcat(late, bad);
      NoPayloads();
      if r.ins != [] {
        ResizedKeepsOrder(c, r);
        var (s, p) := Resized(c, r);
        Regroup(Payloads(late), Payloads(bad), Payloads(Yielded(p)), Payloads(s.outs), Payloads(s.ins));
      } else {
        NothingUnsizable(c, r);
      }
    }
  }

  lemma NothingUnsizable(c: Config, q: Queue)
    requires c.Valid() && q.ins == []
    ensures Unsizable(c, q) == []
  {}

  lemma Regroup<T>(a: seq<T>, b: seq<T>, c: seq<T>, d: seq<T>, e: seq<T>)
    ensures a + (b + c + d + e) == (a + b) + c + d + e
  {}

  lemma PayloadsFront(ps: seq<Packet>)
    requires ps != []
    ensures Payloads([ps[0]]) + Payloads(ps[1..]) == Payloads(ps)
  {
    PayloadsOne(ps[0]);
  }

  lemma EmitKeepsOrder(q: Queue)
    requires q.outs != []
    ensures var (r, p) := Emitted(q);
      r.ins == q.ins && Payloads(Yielded(p)) + Payloads(r.outs) == Payloads(q.outs)
  {
    var (r, p) := Emitted(q);
    PayloadsOne(p.value);
  }

  /** `bad`, then what is yielded, then what is left is what was waiting. */
  ghost predicate SameStream(waiting: seq<Packet>, bad: seq<Packet>, left: (Queue, Option<Packet>)) {
    Payloads(bad) + Payloads(Yielded(left.1)) + Payloads(left.0.outs) + Payloads(left.0.ins) == Payloads(waiting)
  }

  lemma ResizedKeepsOrder(c: Config, q: Queue)
    requires c.Valid() && q.outs == [] && q.ins != []
    ensures SameStream(q.ins, Unsizable(c, q), Resized(c, q))
  {
    hide Config.TargetSize, Split, Emitted, Merge, SameStream;
    var target, size := c.TargetSize(), |q.ins[0].payload|;
    if target == 0 || size == 0 {
      FrontGone(q);
    } else if target < size {
      if size % target > 0 {
        FrontPassed(q, Resized(c, q));
      } else {
        SplitKeepsOrder(c, q);
      }
    } else if target / size <= |q.ins| {
      MergeKeepsOrder(q, target / size);
    } else {
      NothingDone(q);
    }
  }

  lemma FrontGone(q: Queue)
    requires q.outs == [] && q.ins != []
    ensures SameStream(q.ins, [q.ins[0]], (q.(ins := q.ins[1..]), None))
  {
    PayloadsFront(q.ins);
  }

  lemma FrontPassed(q: Queue, left: (Queue, Option<Packet>))
    requires q.ins != [] && left.0.outs == [] && left.0.ins == q.ins[1..]
    requires left.1.Some? && left.1.value.payload == q.ins[0].payload
    ensures SameStream(q.ins, [], left)
  {
    PayloadsFront(q.ins);
    PayloadsOne(q.ins[0]);
    PayloadsOne(left.1.value);
  }

  lemma NothingDone(q: Queue)
    requires q.outs == []
    ensures SameStream(q.ins, [], (q, None))
  {}

  lemma SplitKeepsOrder(c: Config, q: Queue)
    requires c.Valid() && q.ins != [] && 0 < c.TargetSize() < |q.ins[0].payload|
    requires |q.ins[0].payload| % c.TargetSize() == 0
    ensures Split(c, q.ins[0]) != []
    ensures SameStream(q.ins, [], Emitted(q.(ins := q.ins[1..], outs := Split(c, q.ins[0]))))
  {
    hide Config.TargetSize, Config.TargetClockRate, Emitted, SameStream;
    var front, target := q.ins[0], c.TargetSize();
    var size := |front.payload|;
    DivExact(size, target);
    DivPositive(size, target);
    SamplesPayload(front, c.TargetClockRate(), target, size / target, front.payload);
    PayloadsOne(front);
    assert q.ins[..1] == [front];
    ReadyKeepsOrder(q, 1, Split(c, front));
  }

  lemma ReadyKeepsOrder(q: Queue, n: nat, ready: seq<Packet>)
    requires n <= |q.ins| && ready != [] && Payloads(ready) == Payloads(q.ins[..n])
    ensures SameStream(q.ins, [], Emitted(q.(ins := q.ins[n..], outs := ready)))
  {
    hide Emitted, Payloads;
    assert q.ins == q.ins[..n] + q.ins[n..];
    PayloadsConcat(q.ins[..n], q.ins[n..]);
    EmitKeepsOrder(q.(ins := q.ins[n..], outs := ready));
    NoPayloads();
    var (r, p) := Emitted(q.(ins := q.ins[n..], outs := ready));
    Glue(Payloads(Yielded(p)), Payloads(r.outs), Payloads(ready), Payloads(r.ins));
  }

  lemma Glue<T>(y: seq<T>, o: seq<T>, a: seq<T>, i: seq<T>)
    requires y + o == a
    ensures [] + y + o + i == a + i
  {
    assert [] + y + o == a;
  }

  lemma MergeKeepsOrder(q: Queue, n: nat)
    requires 0 < n <= |q.ins|
    ensures SameStream(q.ins, [], Emitted(q.(ins := q.ins[n..], outs := [Merge(q.ins[..n])])))
  {
    hide Emitted, SameStream;
    PayloadsOne(Merge(q.ins[..n]));
    ReadyKeepsOrder(q, n, [Merge(q.ins[..n])]);
  }

  ghost function Bytes(ps: seq<Packet>): multiset<octet> {
    multiset(Payloads(ps))
  }

  lemma BytesConcat(a: seq<Packet>, b: seq<Packet>)
    ensures Bytes(a + b) == Bytes(a) + Bytes(b)
  {
    PayloadsConcat(a, b);
  }

  /** Over every run, whatever sizes, codecs and configurations are mixed, each
      accepted payload byte is emitted, waiting or discarded, and none appears twice. */
  lemma {:induction false} BytesConserved(ops: seq<Op>)
    requires ValidOps(ops)
    ensures var t := Run(ops);
      Bytes(t.accepted) == Bytes(t.emitted) + Bytes(t.q.outs) + Bytes(t.q.ins) + Bytes(t.discarded)
  {
    hide Step, Bytes;
    BytesNone();
    if ops != [] {
      var t, op := Run(ops[..|ops| - 1]), ops[|ops| - 1];
      BytesConserved(ops[..|ops| - 1]);
      StepConserves(t, op);
    }
  }

  ghost function Accounted(t: Trace): multiset<octet> {
    Bytes(t.emitted) + Bytes(t.q.outs) + Bytes(t.q.ins) + Bytes(t.discarded)
  }

  lemma StepConserves(t: Trace, op: Op)
    requires op.c.Valid()
    requires Bytes(t.accepted) == Accounted(t)
    ensures Bytes(Step(t, op).accepted) == Accounted(Step(t, op))
  {
    hide Dequeued, Discarded, Bytes, Config.TargetSize;
    match op
    case Enq(c, p) =>
      BytesConcat(t.accepted, [p]);
      BytesConcat(t.q.outs, [p]);
      BytesConcat(t.q.ins, [p]);
      if p.payload == [] { BytesEmptyPayload(p); }
    case Deq(c) =>
      var (q, r) := Dequeued(c, t.q);
      DequeueConserves(c, t.q);
      BytesConcat(t.emitted, Yielded(r));
      BytesConcat(t.discarded, Discarded(c, t.q));
      Exchange(Bytes(t.emitted), Bytes(t.discarded), Bytes(t.q.outs), Bytes(t.q.ins),
               Bytes(Discarded(c, t.q)), Bytes(Yielded(r)), Bytes(q.outs), Bytes(q.ins));
  }

  lemma BytesNone()
    ensures Bytes([]) == multiset{}
  {}

  lemma BytesEmptyPayload(p: Packet)
    requires p.payload == []
    ensures Bytes([p]) == multiset{}
  {
    PayloadsOne(p);
  }

  lemma Exchange<T>(e: multiset<T>, x: multiset<T>, o: multiset<T>, i: multiset<T>,
                    d: multiset<T>, y: multiset<T>, o': multiset<T>, i': multiset<T>)
    requires d + y + o' + i' == o + i
    ensures e + o + i + x == (e + y) + o' + i' + (x + d)
  {
    assert e + o + i + x == e + x + (o + i);
  }

  lemma SameBytes<T>(a: seq<T>, b: seq<T>, c: seq<T>, d: seq<T>, e: seq<T>, f: seq<T>)
    requires a + b + c + d == e + f
    ensures multiset(a) + multiset(b) + multiset(c) + multiset(d) == multiset(e) + multiset(f)
  {
    assert multiset(a + b + c + d) == multiset(e + f);
  }

  lemma DequeueConserves(c: Config, q: Queue)
    requires c.Valid()
    ensures var (r, p) := Dequeued(c, q);
      Bytes(Discarded(c, q)) + Bytes(Yielded(p)) + Bytes(r.outs) + Bytes(r.ins) == Bytes(q.outs) + Bytes(q.ins)
  {
    hide Dequeued, Discarded, Payloads;
    DequeueKeepsOrder(c, q);
    var (r, p) := Dequeued(c, q);
    SameBytes(Payloads(Discarded(c, q)), Payloads(Yielded(p)), Payloads(r.outs), Payloads(r.ins),
              Payloads(q.outs), Payloads(q.ins));
  }

  predicate LateUpTo(q: Queue, i: nat)
    requires i < |q.ins|
  {
    forall j :: 0 <= j <= i ==> q.ins[j].timestamp < q.lastTimeSent
  }

  /** With a non-zero target, a packet is discarded with bytes in it exactly when it
      heads the queue, nothing is ready to send and it is older than the last packet sent. */
  lemma OnlyLateBytesDiscarded(c: Config, q: Queue, d: Packet)
    requires c.Valid() && c.TargetSize() > 0 && d.payload != []
    ensures d in Discarded(c, q) <==>
            q.outs == [] && exists i :: 0 <= i < |q.ins| && q.ins[i] == d && LateUpTo(q, i)
  {
    hide Config.TargetSize;
    if q.outs == [] {
      var n := LateCount(q.ins, q.lastTimeSent);
      if i :| 0 <= i < |q.ins| && q.ins[i] == d && LateUpTo(q, i) {
        assert i < n;
        assert q.ins[..n][i] == d;
      }
      if d in Discarded(c, q) {
        assert d in q.ins[..n];
        var i :| 0 <= i < n && q.ins[..n][i] == d;
        assert q.ins[i] == d;
      }
    }
  }
}
