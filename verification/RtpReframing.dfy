/** What comes out of a stream of equal packets, packet by packet: each one sent is a slice of one
    offered packet, or several of them joined, and carries that stretch's time stamp. */
module RtpReframing {
  import opened Division
  import opened RtpResizingQueue
  import opened RtpResizingRuns
  import opened RtpResizingStream
  import opened Wrappers

  // ---------------------------------------------------------------------------
  // Sizes and times
  // ---------------------------------------------------------------------------

  /** If `n` is how many base samples fit in the target time, the target size is that of `n` base
      samples, in 32 bits. */
  lemma TargetSizeIs(c: Config, n: nat)
    requires c.Valid() && n * c.baseTime <= c.targetTime < (n + 1) * c.baseTime
    ensures c.TargetSize() == (n * c.baseSampleSize) % TWO32
  {
    var k := c.targetTime / c.baseTime;
    assert k * c.baseTime <= c.targetTime < (k + 1) * c.baseTime;
    if k > n {
      Gap(k, n, c.baseTime);
    } else if k < n {
      Gap(n, k, c.baseTime);
    }
  }

  /** The packet `p` is slice `i` of `m` of the packet `q`, but for its number. */
  predicate IsSlice(c: Config, p: Packet, q: Packet, m: nat, i: nat)
    requires c.Valid() && i < m
  {
    && m * c.TargetSize() == |q.payload|
    && 0 <= i * c.TargetSize() <= (i + 1) * c.TargetSize() <= |q.payload|
    && p.payload == q.payload[i * c.TargetSize()..(i + 1) * c.TargetSize()]
    && p.timestamp == (q.timestamp - (m - 1 - i) * ((c.TargetSize() / c.baseSampleSize) * c.clockRate)) % TWO32
    && p.payloadType == q.payloadType && p.source == q.source
  }

  /** Cutting a packet gives its slices, in order, each as many ticks after the one before as the
      base samples it carries take. */
  lemma SplitAt(c: Config, p: Packet, i: nat)
    requires c.Valid() && c.TargetSize() > 0 && |p.payload| % c.TargetSize() == 0 && i < |p.payload| / c.TargetSize()
    ensures |Split(c, p)| == |p.payload| / c.TargetSize()
    ensures IsSlice(c, Split(c, p)[i], p, |p.payload| / c.TargetSize(), i)
  {
    var target, count, rate := c.TargetSize(), |p.payload| / c.TargetSize(), c.TargetClockRate();
    var ticks := (target / c.baseSampleSize) * c.clockRate;
    DivExact(|p.payload|, target);
    SamplesAt(p, rate, target, count, p.payload, i);
    assert (p.timestamp - (count - 1 - i) * rate) % TWO32 == (p.timestamp - (count - 1 - i) * ticks) % TWO32 by {
      ModFactor(p.timestamp, count - 1 - i, ticks, TWO32);
    }
    hide Config.TargetSize, Config.TargetClockRate, Samples;
  }

  // ---------------------------------------------------------------------------
  // The stream
  // ---------------------------------------------------------------------------

  /** `u` offered packets at a time become `v`: one is cut, or several are joined. */
  predicate Ratio(c: Config, size: nat, u: nat, v: nat)
    requires c.Valid()
  {
    && Reframes(c, size)
    && (c.TargetSize() < size ==> u == 1 && v * c.TargetSize() == size)
    && (size < c.TargetSize() ==> v == 1 && u * size == c.TargetSize())
  }

  lemma RatioPositive(c: Config, size: nat, u: nat, v: nat)
    requires c.Valid() && Ratio(c, size, u, v)
    ensures u > 0 && v > 0
    ensures c.TargetSize() < size ==> size % c.TargetSize() == 0 && size / c.TargetSize() == v
    ensures size < c.TargetSize() ==> c.TargetSize() / size == u
  {
    if c.TargetSize() < size {
      Exact(size, v, c.TargetSize());
    } else {
      Exact(c.TargetSize(), u, size);
    }
    hide Config.TargetSize;
  }

  lemma Exact(n: nat, q: nat, d: nat)
    requires n == q * d && d > 0
    ensures n % d == 0 && n / d == q
  {
    ModUnique(n, d, q, 0);
    assert n == (n / d) * d;
  }

  predicate AllOf(size: nat, ps: seq<Packet>) { forall i :: 0 <= i < |ps| ==> |ps[i].payload| == size }

  /** The packets made of one group of `u`. */
  function Frames(c: Config, size: nat, u: nat, v: nat, group: seq<Packet>): (fs: seq<Packet>)
    requires c.Valid() && Ratio(c, size, u, v) && |group| == u && AllOf(size, group)
    ensures |fs| == v > 0
  {
    RatioPositive(c, size, u, v);
    if c.TargetSize() < size then Split(c, group[0]) else [Merge(group)]
  }

  /** The first `j` groups of `u`. */
  function First(j: nat, u: nat): nat { j * u }

  lemma FirstMore(j: nat, u: nat)
    ensures First(j + 1, u) == First(j, u) + u
  {}

  /** Group `j` of the packets offered. */
  function Group(offered: seq<Packet>, j: nat, u: nat): (g: seq<Packet>)
    requires First(j + 1, u) <= |offered|
    ensures |g| == u && forall i :: 0 <= i < u ==> g[i] in offered
  {
    FirstMore(j, u);
    offered[First(j, u)..First(j, u) + u]
  }

  /** The packets made of the first `j` groups. */
  function Framed(c: Config, size: nat, u: nat, v: nat, offered: seq<Packet>, j: nat): seq<Packet>
    requires c.Valid() && Ratio(c, size, u, v) && AllOf(size, offered) && First(j, u) <= |offered|
  {
    if j == 0 then []
    else
      FirstMore(j - 1, u);
      Framed(c, size, u, v, offered, j - 1) + Frames(c, size, u, v, Group(offered, j - 1, u))
  }

  predicate SameButNumbers(a: seq<Packet>, b: seq<Packet>) {
    |a| == |b| && forall i :: 0 <= i < |a| ==> a[i].(sequence := 0) == b[i].(sequence := 0)
  }

  /** What was sent and what is ready is made of the first `j` groups; the rest is waiting. */
  predicate Reframing(c: Config, size: nat, u: nat, v: nat, t: Trace, offered: seq<Packet>, j: nat)
    requires c.Valid() && Ratio(c, size, u, v)
  {
    && AllOf(size, offered) && First(j, u) <= |offered| && t.q.ins == offered[First(j, u)..]
    && SameButNumbers(t.emitted + t.q.outs, Framed(c, size, u, v, offered, j))
  }

  lemma {:induction false} FramedMore(c: Config, size: nat, u: nat, v: nat, offered: seq<Packet>, p: Packet, j: nat)
    requires c.Valid() && Ratio(c, size, u, v) && AllOf(size, offered) && |p.payload| == size
    requires First(j, u) <= |offered|
    ensures AllOf(size, offered + [p])
    ensures Framed(c, size, u, v, offered + [p], j) == Framed(c, size, u, v, offered, j)
  {
    if j > 0 {
      hide First, Frames, Ratio;
      FirstMore(j - 1, u);
      FramedMore(c, size, u, v, offered, p, j - 1);
      assert Group(offered + [p], j - 1, u) == Group(offered, j - 1, u);
    }
  }

  // ---------------------------------------------------------------------------
  // Whole runs
  // ---------------------------------------------------------------------------

  /** One dequeue hands out what is ready, or frames the next group, or finds too few waiting. */
  lemma DequeueFrames(c: Config, size: nat, u: nat, v: nat, q: Queue, top: u32)
    requires c.Valid() && Ratio(c, size, u, v) && UniformQueue(c, size, q, top)
    ensures AllOf(size, q.ins)
    ensures var (r, p) := Dequeued(c, q);
      if q.outs == [] && u <= |q.ins|
      then r.ins == q.ins[u..] && SameButNumbers(Yielded(p) + r.outs, Frames(c, size, u, v, q.ins[..u]))
      else r.ins == q.ins && SameButNumbers(Yielded(p) + r.outs, q.outs)
  {
    UniformSizes(c, size, q, top);
    RatioPositive(c, size, u, v);
    if q.outs == [] {
      NothingLate(c, size, q, top);
      if q.ins != [] {
        ResizedFrames(c, size, u, v, q);
      }
    }
    hide Resized, Frames, Config.TargetSize, UniformQueue, Ratio;
  }

  lemma UniformSizes(c: Config, size: nat, q: Queue, top: u32)
    requires c.Valid() && UniformQueue(c, size, q, top)
    ensures AllOf(size, q.ins)
  {
    forall i | 0 <= i < |q.ins| ensures |q.ins[i].payload| == size {
      assert q.ins[i] in q.ins;
    }
  }

  lemma ResizedFrames(c: Config, size: nat, u: nat, v: nat, q: Queue)
    requires c.Valid() && Ratio(c, size, u, v) && AllOf(size, q.ins) && q.outs == [] && q.ins != []
    ensures var (r, p) := Resized(c, q);
      if u <= |q.ins|
      then r.ins == q.ins[u..] && SameButNumbers(Yielded(p) + r.outs, Frames(c, size, u, v, q.ins[..u]))
      else r.ins == q.ins && r.outs == [] && p == None
  {
    hide Config.TargetSize, Split, Merge, Emitted, SameButNumbers;
    RatioPositive(c, size, u, v);
    assert |q.ins[0].payload| == size;
    if u <= |q.ins| {
      assert q.ins[..u][0] == q.ins[0];
      EmittedSame(q.(ins := q.ins[u..], outs := Frames(c, size, u, v, q.ins[..u])));
    }
  }

  lemma EmittedSame(q: Queue)
    requires q.outs != []
    ensures var (r, p) := Emitted(q); r.ins == q.ins && SameButNumbers(Yielded(p) + r.outs, q.outs)
  {}

  /** Over every interleaving of such a stream, what was sent and what is ready are the frames of
      the packets offered so far, group after group, but for the sequence numbers. */
  lemma {:induction false} StreamReframed(c: Config, size: nat, u: nat, v: nat, ops: seq<Op>) returns (j: nat)
    requires c.Valid() && ValidOps(ops) && Ratio(c, size, u, v)
    requires UniformOps(c, size, ops) && InOrder(Offered(ops))
    ensures Reframing(c, size, u, v, Run(ops), Offered(ops), j)
  {
    hide Config.TargetSize, Reframes, Reframing, Step;
    if ops == [] {
      j := 0;
      ReframeStart(c, size, u, v);
    } else {
      var front, op := ops[..|ops| - 1], ops[|ops| - 1];
      FrontUniform(c, size, ops);
      j := StreamReframed(c, size, u, v, front);
      if op.Enq? {
        ReframeEnqueue(c, size, u, v, Run(front), Offered(front), op.p, j);
      } else {
        StreamInvariant(c, size, front);
        j := ReframeDequeue(c, size, u, v, Run(front), Offered(front), j);
      }
    }
  }

  lemma FrontUniform(c: Config, size: nat, ops: seq<Op>)
    requires UniformOps(c, size, ops) && InOrder(Offered(ops)) && ops != []
    ensures var front, op := ops[..|ops| - 1], ops[|ops| - 1];
      && UniformOps(c, size, front) && InOrder(Offered(front)) && op.c == c
      && Offered(ops) == (if op.Enq? then Offered(front) + [op.p] else Offered(front))
      && (op.Enq? ==> op.p.payloadType == c.payloadType && |op.p.payload| == size)
  {
    var front, op := ops[..|ops| - 1], ops[|ops| - 1];
    assert forall p :: p in Offered(front) ==> p in Offered(ops);
    assert forall i :: 0 <= i < |Offered(front)| ==> Offered(front)[i] == Offered(ops)[i];
    if op.Enq? {
      assert Offered(ops)[|Offered(front)|] == op.p;
    }
  }

  lemma ReframeStart(c: Config, size: nat, u: nat, v: nat)
    requires c.Valid() && Ratio(c, size, u, v)
    ensures Reframing(c, size, u, v, Run([]), [], 0)
  {
    hide Ratio;
  }

  lemma EnqueueWaits(c: Config, size: nat, q: Queue, p: Packet)
    requires c.Valid() && Reframes(c, size) && p.payloadType == c.payloadType && |p.payload| == size
    ensures var r := Enqueued(c, q, p).0; r.ins == q.ins + [p] && r.outs == q.outs
  {
    hide Config.TargetSize;
  }

  lemma ReframeEnqueue(c: Config, size: nat, u: nat, v: nat, t: Trace, offered: seq<Packet>, p: Packet, j: nat)
    requires c.Valid() && Ratio(c, size, u, v) && Reframing(c, size, u, v, t, offered, j)
    requires p.payloadType == c.payloadType && |p.payload| == size
    ensures Reframing(c, size, u, v, Step(t, Enq(c, p)), offered + [p], j)
  {
    EnqueueWaits(c, size, t.q, p);
    FramedMore(c, size, u, v, offered, p, j);
    hide Config.TargetSize, Enqueued, Framed, Ratio, First, SameButNumbers;
    assert (offered + [p])[First(j, u)..] == offered[First(j, u)..] + [p];
  }

  lemma ReframeDequeue(c: Config, size: nat, u: nat, v: nat, t: Trace, offered: seq<Packet>, j: nat) returns (k: nat)
    requires c.Valid() && Ratio(c, size, u, v) && Reframing(c, size, u, v, t, offered, j) && Streaming(c, size, t, offered)
    ensures Reframing(c, size, u, v, Step(t, Deq(c)), offered, k)
  {
    hide Config.TargetSize, Dequeued, Framed, Frames, Ratio, First, SameButNumbers, Discarded, UniformQueue;
    DequeueFrames(c, size, u, v, t.q, Latest(offered));
    var d, fs := Dequeued(c, t.q), Framed(c, size, u, v, offered, j);
    k := j;
    if t.q.outs == [] && u <= |t.q.ins| {
      k := j + 1;
      NextGroup(c, size, u, v, offered, j);
      SentMore(t.emitted, Yielded(d.1), d.0.outs, fs, Frames(c, size, u, v, t.q.ins[..u]));
    } else {
      SentSame(t.emitted, t.q.outs, Yielded(d.1), d.0.outs, fs);
    }
  }

  lemma NextGroup(c: Config, size: nat, u: nat, v: nat, offered: seq<Packet>, j: nat)
    requires c.Valid() && Ratio(c, size, u, v) && AllOf(size, offered)
    requires First(j, u) <= |offered| && u <= |offered[First(j, u)..]|
    ensures var rest := offered[First(j, u)..];
      && First(j + 1, u) <= |offered| && offered[First(j + 1, u)..] == rest[u..] && AllOf(size, rest)
      && Framed(c, size, u, v, offered, j + 1) == Framed(c, size, u, v, offered, j) + Frames(c, size, u, v, rest[..u])
  {
    hide Ratio, First, Frames;
    FirstMore(j, u);
    assert Group(offered, j, u) == offered[First(j, u)..][..u];
  }

  lemma SentMore(sent: seq<Packet>, yielded: seq<Packet>, ready: seq<Packet>, before: seq<Packet>, made: seq<Packet>)
    requires SameButNumbers(sent + [], before) && SameButNumbers(yielded + ready, made)
    ensures SameButNumbers((sent + yielded) + ready, before + made)
  {
    assert sent + [] == sent;
    assert (sent + yielded) + ready == sent + (yielded + ready);
  }

  lemma SentSame(sent: seq<Packet>, waited: seq<Packet>, yielded: seq<Packet>, ready: seq<Packet>, all: seq<Packet>)
    requires SameButNumbers(sent + waited, all) && SameButNumbers(yielded + ready, waited)
    ensures SameButNumbers((sent + yielded) + ready, all)
  {
    assert (sent + yielded) + ready == sent + (yielded + ready);
    var both := sent + (yielded + ready);
    forall i | 0 <= i < |both| ensures both[i].(sequence := 0) == all[i].(sequence := 0) {
      assert (sent + waited)[i].(sequence := 0) == all[i].(sequence := 0);
    }
  }

  // ---------------------------------------------------------------------------
  // Packet by packet
  // ---------------------------------------------------------------------------

  lemma {:induction false} FramedAt(c: Config, size: nat, u: nat, v: nat, offered: seq<Packet>, j: nat, g: nat, i: nat)
    requires c.Valid() && Ratio(c, size, u, v) && AllOf(size, offered) && First(j, u) <= |offered| && i < v
    requires First(g, v) + i < |Framed(c, size, u, v, offered, j)|
    ensures First(g + 1, u) <= |offered|
    ensures Framed(c, size, u, v, offered, j)[First(g, v) + i] == Frames(c, size, u, v, Group(offered, g, u))[i]
    decreases j
  {
    hide First, Frames, Ratio, Group;
    FirstMore(j - 1, u);
    FramedLength(c, size, u, v, offered, j - 1);
    if First(g, v) + i < First(j - 1, v) {
      FramedAt(c, size, u, v, offered, j - 1, g, i);
    } else {
      SameGroup(g, j - 1, v, i);
    }
  }

  lemma {:induction false} FramedLength(c: Config, size: nat, u: nat, v: nat, offered: seq<Packet>, j: nat)
    requires c.Valid() && Ratio(c, size, u, v) && AllOf(size, offered) && First(j, u) <= |offered|
    ensures |Framed(c, size, u, v, offered, j)| == First(j, v)
  {
    if j > 0 {
      FirstMore(j - 1, u);
      FirstMore(j - 1, v);
      FramedLength(c, size, u, v, offered, j - 1);
      hide First, Ratio, Frames;
    } else {
      hide Ratio, Frames;
    }
  }

  lemma SameGroup(g: nat, j: nat, v: nat, i: nat)
    requires i < v && First(j, v) <= First(g, v) + i < First(j, v) + v
    ensures g == j
  {
    if g < j {
      Gap(j, g, v);
    } else if g > j {
      Gap(g, j, v);
    }
  }

  /** The packet `p` carries all the payloads of `qs`, but for its number the header of the first,
      and the time stamp of the last. */
  predicate IsJoined(p: Packet, qs: seq<Packet>) {
    && qs != [] && p.payload == Payloads(qs) && p.timestamp == qs[|qs| - 1].timestamp
    && p.payloadType == qs[0].payloadType && p.source == qs[0].source
  }

  lemma FramesSlice(c: Config, size: nat, v: nat, p: Packet, i: nat)
    requires c.Valid() && Ratio(c, size, 1, v) && c.TargetSize() < size && |p.payload| == size && i < v
    ensures IsSlice(c, Frames(c, size, 1, v, [p])[i], p, v, i)
  {
    RatioPositive(c, size, 1, v);
    SplitAt(c, p, i);
    Within(i, v, c.TargetSize());
    hide Config.TargetSize, Split;
  }

  lemma FramesJoined(c: Config, size: nat, u: nat, group: seq<Packet>)
    requires c.Valid() && Ratio(c, size, u, 1) && size < c.TargetSize() && |group| == u && AllOf(size, group)
    ensures IsJoined(Frames(c, size, u, 1, group)[0], group)
  {
    RatioPositive(c, size, u, 1);
    hide Config.TargetSize, Payloads;
  }

  lemma SentFrame(sent: seq<Packet>, ready: seq<Packet>, framed: seq<Packet>, n: nat)
    requires SameButNumbers(sent + ready, framed) && n < |sent|
    ensures n < |framed| && sent[n].(sequence := 0) == framed[n].(sequence := 0)
  {
    assert (sent + ready)[n] == sent[n];
  }

  /** Packet `First(g, v) + i` of those sent is frame `i` of group `g`, but for its number. */
  lemma SentIs(c: Config, size: nat, u: nat, v: nat, ops: seq<Op>, g: nat, i: nat)
    requires c.Valid() && ValidOps(ops) && Ratio(c, size, u, v)
    requires UniformOps(c, size, ops) && InOrder(Offered(ops))
    requires i < v && First(g, v) + i < |Run(ops).emitted|
    ensures First(g + 1, u) <= |Offered(ops)| && AllOf(size, Offered(ops))
    ensures Run(ops).emitted[First(g, v) + i].(sequence := 0) ==
            Frames(c, size, u, v, Group(Offered(ops), g, u))[i].(sequence := 0)
  {
    hide First, Frames, Ratio, Group, Framed, Run, Offered, UniformOps, InOrder, SameButNumbers;
    var j := StreamReframed(c, size, u, v, ops);
    var t, fs := Run(ops), Framed(c, size, u, v, Offered(ops), j);
    SentFrame(t.emitted, t.q.outs, fs, First(g, v) + i);
    FramedAt(c, size, u, v, Offered(ops), j, g, i);
  }

  /** Resizing down by `m`, over every interleaving: each offered packet is sent in `m` slices of
      its payload, consecutive ones as many clock ticks apart as their base samples take, the
      last stamped like the packet. */
  lemma SentSlices(c: Config, size: nat, m: nat, ops: seq<Op>, g: nat, i: nat)
    requires c.Valid() && ValidOps(ops) && Reframes(c, size) && m > 1 && m * c.TargetSize() == size
    requires UniformOps(c, size, ops) && InOrder(Offered(ops))
    requires i < m && First(g, m) + i < |Run(ops).emitted|
    ensures g < |Offered(ops)| && IsSlice(c, Run(ops).emitted[First(g, m) + i], Offered(ops)[g], m, i)
  {
    hide *;
    DownRatio(c, size, m);
    SentIs(c, size, 1, m, ops, g, i);
    SliceOf(c, size, m, Run(ops).emitted[First(g, m) + i], Offered(ops), g, i);
  }

  lemma SliceOf(c: Config, size: nat, m: nat, sent: Packet, offered: seq<Packet>, g: nat, i: nat)
    requires c.Valid() && Ratio(c, size, 1, m) && c.TargetSize() < size && i < m
    requires AllOf(size, offered) && First(g + 1, 1) <= |offered|
    requires sent.(sequence := 0) == Frames(c, size, 1, m, Group(offered, g, 1))[i].(sequence := 0)
    ensures g < |offered| && IsSlice(c, sent, offered[g], m, i)
  {
    assert First(g + 1, 1) == g + 1;
    SingleGroup(offered, g);
    hide Config.TargetSize, Ratio, Frames, First, IsSlice;
    FramesSlice(c, size, m, offered[g], i);
    SliceButNumber(c, Frames(c, size, 1, m, [offered[g]])[i], sent, offered[g], m, i);
  }

  lemma SingleGroup(offered: seq<Packet>, g: nat)
    requires g < |offered|
    ensures First(g + 1, 1) <= |offered| && Group(offered, g, 1) == [offered[g]]
  {}

  lemma SliceButNumber(c: Config, p: Packet, p': Packet, q: Packet, m: nat, i: nat)
    requires c.Valid() && i < m && IsSlice(c, p, q, m, i) && p.(sequence := 0) == p'.(sequence := 0)
    ensures IsSlice(c, p', q, m, i)
  {}

  lemma DownRatio(c: Config, size: nat, m: nat)
    requires c.Valid() && Reframes(c, size) && m > 1 && m * c.TargetSize() == size
    ensures Ratio(c, size, 1, m) && c.TargetSize() < size
  {
    Gap(m, 1, c.TargetSize());
    hide Config.TargetSize;
  }

  lemma UpRatio(c: Config, size: nat, n: nat)
    requires c.Valid() && Reframes(c, size) && n > 1 && n * size == c.TargetSize()
    ensures Ratio(c, size, n, 1) && size < c.TargetSize()
  {
    Gap(n, 1, size);
    hide Config.TargetSize;
  }

  /** Resizing up by `n`: each run of `n` offered packets is sent as one, with the header of the
      first, all their bytes in order, and the time stamp of the last. */
  lemma SentJoined(c: Config, size: nat, n: nat, ops: seq<Op>, g: nat)
    requires c.Valid() && ValidOps(ops) && Reframes(c, size) && n > 1 && n * size == c.TargetSize()
    requires UniformOps(c, size, ops) && InOrder(Offered(ops)) && g < |Run(ops).emitted|
    ensures First(g + 1, n) <= |Offered(ops)| && IsJoined(Run(ops).emitted[g], Group(Offered(ops), g, n))
  {
    assert First(g, 1) == g;
    hide *;
    UpRatio(c, size, n);
    SentIs(c, size, n, 1, ops, g, 0);
    var group := Group(Offered(ops), g, n);
    GroupSizes(size, Offered(ops), g, n);
    FramesJoined(c, size, n, group);
    JoinedButNumber(Frames(c, size, n, 1, group)[0], Run(ops).emitted[g], group);
  }

  lemma GroupSizes(size: nat, ps: seq<Packet>, g: nat, n: nat)
    requires AllOf(size, ps) && First(g + 1, n) <= |ps|
    ensures AllOf(size, Group(ps, g, n))
  {
    hide First;
  }

  lemma JoinedButNumber(p: Packet, p': Packet, qs: seq<Packet>)
    requires IsJoined(p, qs) && p.(sequence := 0) == p'.(sequence := 0)
    ensures IsJoined(p', qs)
  {}
}
