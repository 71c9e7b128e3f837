/** The processed ring between the filter pump and stream_read (hal/gd32/adc_stream.c): a
    1024-cell buffer under two 32-bit counters, as an unbounded queue. */
module ProcRing {

  const RING := 1024
  const BATCH := 8                // ADC_DSP_PUMP_LOCK_BATCH
  const WORD := 0x1_0000_0000
  const HALF := 0x8000_0000

  /** A position as its 32-bit counter, and its ring cell. */
  function Counter(n: nat): nat { n % WORD }
  function Slot(n: nat): (r: nat)
    ensures r < RING
  {
    n % RING
  }

  datatype Reply<T> = Ok(block: seq<T>) | Busy

  /** Everything published since BIND, how far the host has read, whether the pump has
      resynchronised since the last read; and, for observation only: where the current run of
      OK replies began, what it delivered, and the positions the pump resynchronised at. */
  datatype Queue<T> = Queue(out: seq<T>, pos: nat, gap: bool, since: nat, delivered: seq<T>, marks: set<nat>)

  function Empty<T>(): Queue<T> { Queue([], 0, false, 0, [], {}) }

  const EMPTY: Queue<nat> := Empty()

  /** The backlog as the 32-bit counters show it. */
  function Shown<T>(q: Queue<T>): nat
    requires q.pos <= |q.out|
  {
    Counter(|q.out| - q.pos)
  }

  function Min(a: nat, b: nat): nat { if a < b then a else b }

  function Resynced<T>(q: Queue<T>): Queue<T> { q.(pos := |q.out|, gap := false, since := |q.out|, delivered := []) }

  /** What the DSP branch of stream_read answers. */
  function Answer<T>(q: Queue<T>, max: nat): Reply<T>
    requires q.pos <= |q.out|
  {
    var b := Shown(q);
    if q.gap then Busy
    else if b == 0 || b >= HALF then Ok([])
    else if b >= RING then Busy
    else Ok(q.out[|q.out| - b..|q.out| - b + Min(b, max)])
  }

  function AfterRead<T>(q: Queue<T>, max: nat): Queue<T>
    requires q.pos <= |q.out|
  {
    match Answer(q, max)
    case Busy => Resynced(q)
    case Ok(block) =>
      if block == [] then q
      else q.(pos := |q.out| - Shown(q) + |block|, delivered := q.delivered + block)
  }

  datatype Op<T> = Commit(batch: seq<T>) | PumpResync | Read(max: nat)

  function Next<T>(q: Queue<T>, x: Op<T>): (r: Queue<T>)
    requires q.pos <= |q.out|
    ensures r.pos <= |r.out|
  {
    match x
    case Commit(batch) => q.(out := q.out + batch)
    case PumpResync => q.(gap := true, marks := q.marks + {|q.out|})
    case Read(max) => AfterRead(q, max)
  }

  /** The read answers OK with samples. */
  predicate Serves<T>(q: Queue<T>, x: Op<T>)
    requires q.pos <= |q.out|
  {
    x.Read? && Answer(q, x.max).Ok? && Answer(q, x.max).block != []
  }

  /** A read that serves samples finds fewer than 2^32 unread. */
  predicate Prompt<T>(q: Queue<T>, x: Op<T>)
    requires q.pos <= |q.out|
  {
    Serves(q, x) ==> |q.out| - q.pos < WORD
  }

  /** A read that serves samples serves the next ones. */
  predicate ServesNext<T(==)>(q: Queue<T>, x: Op<T>)
    requires q.pos <= |q.out|
  {
    Serves(q, x) ==>
      var n := |Answer(q, x.max).block|;
      && q.pos + n <= |q.out| && Answer(q, x.max).block == q.out[q.pos..q.pos + n]
      && AfterRead(q, x.max).pos == q.pos + n
  }

  /** Each read that serves samples serves the next ones exactly when the true backlog is
      below 2^32; beyond that the counters alias and samples are skipped without notice. */
  lemma NextExactly<T>(q: Queue<T>, x: Op<T>)
    requires q.pos <= |q.out|
    ensures ServesNext(q, x) <==> Prompt(q, x)
  {
    var n := |q.out| - q.pos;
    assert n < WORD <==> Counter(n) == n;
  }

  /** Over fewer than 2^31 unread samples a read answers BUSY, and resynchronises, if and only if
      the pump has resynchronised or lapped it; otherwise it serves as many of the next samples
      as there are and as it asked for. */
  lemma AnswerExact<T>(q: Queue<T>, max: nat)
    requires q.pos <= |q.out| && |q.out| - q.pos < HALF
    ensures var u := |q.out| - q.pos;
      && (Answer(q, max).Busy? <==> q.gap || u >= RING)
      && (Answer(q, max).Busy? ==> AfterRead(q, max).pos == |q.out| && !AfterRead(q, max).gap)
      && (Answer(q, max).Ok? ==>
            && Answer(q, max).block == q.out[q.pos..q.pos + Min(u, max)]
            && AfterRead(q, max).pos == q.pos + Min(u, max))
  {
    var u := |q.out| - q.pos;
    assert Counter(u) == u;
  }

  /** The current run of OK replies is one block of the output, without a resynchronisation
      strictly inside it. */
  predicate Contiguous<T(==)>(q: Queue<T>) {
    && q.since <= q.pos <= |q.out| && q.delivered == q.out[q.since..q.pos]
    && forall m | m in q.marks :: m <= q.since || (q.pos <= m <= |q.out| && q.gap)
  }

  lemma StepKeeps<T>(q: Queue<T>, x: Op<T>)
    requires Contiguous(q)
    ensures Contiguous(Next(q, x)) <==> Prompt(q, x)
  {
    NextExactly(q, x);
    if x.Commit? {
      assert (q.out + x.batch)[q.since..q.pos] == q.out[q.since..q.pos];
    }
    if Serves(q, x) {
      var block := Answer(q, x.max).block;
      if Prompt(q, x) {
        assert q.out[q.since..q.pos] + block == q.out[q.since..q.pos + |block|];
      } else {
        assert |Next(q, x).delivered| != Next(q, x).pos - q.since;
      }
    }
  }

  // ---- every run ------------------------------------------------------------------------------------------

  function Run<T>(q: Queue<T>, xs: seq<Op<T>>): (r: Queue<T>)
    requires q.pos <= |q.out|
    ensures r.pos <= |r.out|
    decreases |xs|
  {
    if xs == [] then q else Run(Next(q, xs[0]), xs[1..])
  }

  /** Every read of the run that serves samples finds fewer than 2^32 unread. */
  predicate AllPrompt<T>(q: Queue<T>, xs: seq<Op<T>>)
    requires q.pos <= |q.out|
    decreases |xs|
  {
    xs == [] || (Prompt(q, xs[0]) && AllPrompt(Next(q, xs[0]), xs[1..]))
  }

  /** Every read of the run that serves samples serves the next ones. */
  predicate AllServeNext<T(==)>(q: Queue<T>, xs: seq<Op<T>>)
    requires q.pos <= |q.out|
    decreases |xs|
  {
    xs == [] || (ServesNext(q, xs[0]) && AllServeNext(Next(q, xs[0]), xs[1..]))
  }

  /** The host sees one contiguous block between BUSY replies at every point of the run. */
  predicate StaysContiguous<T(==)>(q: Queue<T>, xs: seq<Op<T>>)
    requires q.pos <= |q.out|
    decreases |xs|
  {
    Contiguous(q) && (xs != [] ==> StaysContiguous(Next(q, xs[0]), xs[1..]))
  }

  /** Over every run: whatever the host has read since the last BUSY is the next contiguous
      block of pump output with no resynchronisation inside, at every point, exactly when no
      read serves samples over 2^32 or more unread ones; and exactly then every such read
      serves the next ones. */
  lemma {:induction false} AlwaysContiguous<T>(q: Queue<T>, xs: seq<Op<T>>)
    requires Contiguous(q)
    ensures StaysContiguous(q, xs) <==> AllPrompt(q, xs)
    ensures AllServeNext(q, xs) <==> AllPrompt(q, xs)
    ensures AllPrompt(q, xs) ==> Contiguous(Run(q, xs))
    decreases |xs|
  {
    hide Contiguous, Prompt, ServesNext;
    PosBounded(q);
    if xs != [] {
      StepKeeps(q, xs[0]);
      NextExactly(q, xs[0]);
      if Prompt(q, xs[0]) {
        AlwaysContiguous(Next(q, xs[0]), xs[1..]);
      } else {
        assert !StaysContiguous(Next(q, xs[0]), xs[1..]);
      }
    }
  }

  lemma PosBounded<T>(q: Queue<T>)
    requires Contiguous(q)
    ensures q.pos <= |q.out|
  {
  }

  /** The same from BIND. */
  lemma ContiguousSinceBind(xs: seq<Op<nat>>)
    ensures StaysContiguous(EMPTY, xs) <==> AllPrompt(EMPTY, xs)
  {
    AlwaysContiguous(EMPTY, xs);
  }

  // ---- how fast the host must poll ---------------------------------------------------------------------------

  /** Every read asks for at least `least` samples, and at most `k` are committed between two
      reads, `made` of them so far. */
  predicate Polled(least: nat, k: nat, made: nat, xs: seq<Op<nat>>)
    decreases |xs|
  {
    xs == [] ||
    match xs[0]
    case Commit(batch) => made + |batch| <= k && Polled(least, k, made + |batch|, xs[1..])
    case Read(max) => max >= least && Polled(least, k, 0, xs[1..])
    case PumpResync => Polled(least, k, made, xs[1..])
  }

  /** A read over fewer than 2^31 unread samples leaves less than a ring minus what it asked. */
  lemma ReadLeavesLittle(q: Queue<nat>, max: nat)
    requires q.pos <= |q.out| && |q.out| - q.pos < HALF
    ensures var r := Next(q, Read(max));
      |r.out| - r.pos <= if max < RING then RING - 1 - max else 0
  {
    var n := |q.out| - q.pos;
    assert Counter(n) == n;
  }

  lemma {:induction false} PolledIsPrompt(least: nat, k: nat, made: nat, q: Queue<nat>, xs: seq<Op<nat>>)
    requires least < RING && k <= HALF - RING + least && Polled(least, k, made, xs)
    requires q.pos <= |q.out| && |q.out| - q.pos <= RING - 1 - least + made && made <= k
    ensures AllPrompt(q, xs)
    decreases |xs|
  {
    hide AfterRead;
    if xs != [] {
      if xs[0].Read? { ReadLeavesLittle(q, xs[0].max); }
      PolledIsPrompt(least, k, match xs[0] case Commit(b) => made + |b| case Read(_) => 0 case PumpResync => made,
                     Next(q, xs[0]), xs[1..]);
    }
  }

  /** Any n samples. */
  function Samples(n: nat): (r: seq<nat>)
    ensures |r| == n
  {
    seq(n, _ => 0)
  }

  lemma RunTwo(q: Queue<nat>, x: Op<nat>, y: Op<nat>, xs: seq<Op<nat>>)
    requires q.pos <= |q.out|
    ensures AllPrompt(q, [x, y] + xs)
         == (Prompt(q, x) && Prompt(Next(q, x), y) && AllPrompt(Next(Next(q, x), y), xs))
  {
    var zs := [x, y] + xs;
    assert zs[1..] == [y] + xs && zs[1..][1..] == xs;
  }

  lemma CommitThenRead(q: Queue<nat>, n: nat, max: nat)
    requires q.pos <= |q.out| && !q.gap
    ensures var r := Next(Next(q, Commit(Samples(n))), Read(max));
      var u := |q.out| + n - q.pos;
      && |r.out| == |q.out| + n && r.pos <= |r.out| && !r.gap
      && (HALF <= u <= WORD ==> |r.out| - r.pos == u)
      && (0 < u < RING && max <= u ==> |r.out| - r.pos == u - max)
      && (u == WORD + 1 && max > 0 ==> !Prompt(Next(q, Commit(Samples(n))), Read(max)))
  {
    hide Samples;
    var u := |q.out| + n - q.pos;
    assert u < WORD ==> Counter(u) == u;
    assert Counter(WORD) == 0 && Counter(WORD + 1) == 1;
  }

  /** Committing in pieces is committing at once. */
  lemma CommitSplits(q: Queue<nat>, a: seq<nat>, b: seq<nat>)
    requires q.pos <= |q.out|
    ensures Next(Next(q, Commit(a)), Commit(b)) == Next(q, Commit(a + b))
  {
    assert (q.out + a) + b == q.out + (a + b);
  }

  /** `n` samples committed one by one. */
  function Singles(n: nat): seq<Op<nat>> { if n == 0 then [] else [Commit([0])] + Singles(n - 1) }

  /** The pump commits no more than a batch at a time. */
  predicate Batched(xs: seq<Op<nat>>) { forall i | 0 <= i < |xs| :: xs[i].Commit? ==> |xs[i].batch| <= BATCH }

  /** So `n` single commits before `xs` are one commit of n samples before it. */
  lemma {:induction false} SinglesCompose(q: Queue<nat>, n: nat, xs: seq<Op<nat>>)
    requires q.pos <= |q.out|
    ensures Run(q, Singles(n) + xs) == Run(Next(q, Commit(Samples(n))), xs)
    ensures AllPrompt(q, Singles(n) + xs) == AllPrompt(Next(q, Commit(Samples(n))), xs)
    decreases n
  {
    if n == 0 {
      assert Singles(n) + xs == xs && q.out + Samples(0) == q.out;
    } else {
      var one := Next(q, Commit([0]));
      assert (Singles(n) + xs)[0] == Commit([0]) && (Singles(n) + xs)[1..] == Singles(n - 1) + xs;
      SinglesCompose(one, n - 1, xs);
      CommitSplits(q, [0], Samples(n - 1));
      assert [0] + Samples(n - 1) == Samples(n);
    }
  }

  lemma {:induction false} SinglesPolled(least: nat, k: nat, made: nat, n: nat, xs: seq<Op<nat>>)
    requires made + n <= k && Polled(least, k, made + n, xs)
    ensures Polled(least, k, made, Singles(n) + xs)
    decreases n
  {
    if n == 0 {
      assert Singles(n) + xs == xs;
    } else {
      assert (Singles(n) + xs)[0] == Commit([0]) && (Singles(n) + xs)[1..] == Singles(n - 1) + xs;
      SinglesPolled(least, k, made + 1, n - 1, xs);
    }
  }

  lemma {:induction false} SinglesBatched(n: nat, xs: seq<Op<nat>>)
    requires Batched(xs)
    ensures Batched(Singles(n) + xs)
    decreases n
  {
    if n == 0 {
      assert Singles(n) + xs == xs;
    } else {
      SinglesBatched(n - 1, xs);
      assert (Singles(n) + xs)[0] == Commit([0]) && (Singles(n) + xs)[1..] == Singles(n - 1) + xs;
      forall i | 0 <= i < |Singles(n) + xs| && (Singles(n) + xs)[i].Commit?
        ensures |(Singles(n) + xs)[i].batch| <= BATCH
      {
        if i > 0 { assert (Singles(n) + xs)[i] == (Singles(n - 1) + xs)[i - 1]; }
      }
    }
  }

  /** One polling interval: samples one by one, then a read. */
  function Interval(n: nat, max: nat, xs: seq<Op<nat>>): seq<Op<nat>> { Singles(n) + ([Read(max)] + xs) }

  lemma IntervalIs(q: Queue<nat>, n: nat, max: nat, xs: seq<Op<nat>>)
    requires q.pos <= |q.out|
    ensures AllPrompt(q, Interval(n, max, xs)) == AllPrompt(q, [Commit(Samples(n)), Read(max)] + xs)
  {
    hide AllPrompt, Samples, Prompt, Next;
    SinglesCompose(q, n, [Read(max)] + xs);
    RunTwo(q, Commit(Samples(n)), Read(max), xs);
    ReadFirst(Next(q, Commit(Samples(n))), max, xs);
    CommitPrompt(q, Samples(n));
  }

  lemma CommitPrompt(q: Queue<nat>, a: seq<nat>)
    requires q.pos <= |q.out|
    ensures Prompt(q, Commit(a))
  {
  }

  lemma ReadFirst(q: Queue<nat>, max: nat, xs: seq<Op<nat>>)
    requires q.pos <= |q.out|
    ensures AllPrompt(q, [Read(max)] + xs) == (Prompt(q, Read(max)) && AllPrompt(Next(q, Read(max)), xs))
  {
    assert ([Read(max)] + xs)[1..] == xs;
  }

  lemma IntervalPolled(least: nat, k: nat, n: nat, max: nat, xs: seq<Op<nat>>)
    requires n <= k && max >= least && Polled(least, k, 0, xs) && Batched(xs)
    ensures Polled(least, k, 0, Interval(n, max, xs)) && Batched(Interval(n, max, xs))
  {
    assert ([Read(max)] + xs)[1..] == xs;
    SinglesPolled(least, k, 0, n, [Read(max)] + xs);
    SinglesBatched(n, [Read(max)] + xs);
  }

  /** A run that polls once every HALF - RING + least + 1 samples and still skips 2^32. */
  function Skipping(least: nat): seq<Op<nat>>
    requires least < RING
  {
    var n := HALF - RING + 1 + least;
    Interval(RING - 1, least, Interval(n, least, Interval(n, least, Interval(RING - least, least + 1, []))))
  }

  lemma SkipsUnnoticed(least: nat)
    requires least < RING
    ensures !AllPrompt(EMPTY, Skipping(least))
  {
    hide Samples, AllPrompt, Next, Prompt, Interval;
    var n := HALF - RING + 1 + least;
    var x4 := Interval(RING - least, least + 1, []);
    var x3 := Interval(n, least, x4);
    var x2 := Interval(n, least, x3);
    var q1 := Next(Next(EMPTY, Commit(Samples(RING - 1))), Read(least));
    CommitThenRead(EMPTY, RING - 1, least);
    var q2 := Next(Next(q1, Commit(Samples(n))), Read(least));
    CommitThenRead(q1, n, least);
    var q3 := Next(Next(q2, Commit(Samples(n))), Read(least));
    CommitThenRead(q2, n, least);
    CommitThenRead(q3, RING - least, least + 1);
    IntervalIs(EMPTY, RING - 1, least, x2);
    IntervalIs(q1, n, least, x3);
    IntervalIs(q2, n, least, x4);
    IntervalIs(q3, RING - least, least + 1, []);
    RunTwo(EMPTY, Commit(Samples(RING - 1)), Read(least), x2);
    RunTwo(q1, Commit(Samples(n)), Read(least), x3);
    RunTwo(q2, Commit(Samples(n)), Read(least), x4);
    RunTwo(q3, Commit(Samples(RING - least)), Read(least + 1), []);
  }

  lemma SkippingIsPolled(least: nat, k: nat)
    requires least < RING && k > HALF - RING + least
    ensures Polled(least, k, 0, Skipping(least)) && Batched(Skipping(least))
  {
    hide Interval;
    var n := HALF - RING + 1 + least;
    var x4 := Interval(RING - least, least + 1, []);
    var x3 := Interval(n, least, x4);
    IntervalPolled(least, k, RING - least, least + 1, []);
    IntervalPolled(least, k, n, least, x4);
    IntervalPolled(least, k, n, least, x3);
    IntervalPolled(least, k, RING - 1, least, Interval(n, least, x3));
  }

  /** A bound of `k` samples between reads of at least `least` rules out unnoticed skips
      exactly up to 2^31 - RING + least, for a producer of any batches and for one of the
      pump's size alike. In particular 2^31 - 1 does not. */
  lemma PollingExact(least: nat, k: nat)
    requires least < RING
    ensures (forall xs | Polled(least, k, 0, xs) :: AllPrompt(EMPTY, xs)) <==> k <= HALF - RING + least
    ensures (forall xs | Polled(least, k, 0, xs) && Batched(xs) :: AllPrompt(EMPTY, xs)) <==> k <= HALF - RING + least
  {
    hide AllPrompt, Polled, Batched;
    if k <= HALF - RING + least {
      forall xs | Polled(least, k, 0, xs) ensures AllPrompt(EMPTY, xs) { PolledIsPrompt(least, k, 0, EMPTY, xs); }
    } else {
      SkipsUnnoticed(least);
      SkippingIsPolled(least, k);
    }
  }

  // ---- the module's own form ------------------------------------------------------------------------------

  class Ring {
    const ring: array<nat>
    var procWrite: nat          // 32-bit counters
    var procRead: nat
    var procGap: bool
    const fullScale: nat
    const vrefMv: nat
    ghost var q: Queue<nat>

    /** The buffer holds the last RING outputs. */
    ghost predicate Holds()
      reads this, ring
    {
      ring.Length == RING && forall i | 0 <= i < |q.out| && |q.out| - RING <= i :: ring[Slot(i)] == q.out[i]
    }

    /** The counters are the positions modulo 2^32. */
    ghost predicate Valid()
      reads this, ring
    {
      && Holds() && fullScale > 0
      && q.pos <= |q.out| && procGap == q.gap
      && procWrite == Counter(|q.out|) && procRead == Counter(q.pos)
    }

    /** The cursor reset of chain_bind. */
    constructor (fullScale: nat, vrefMv: nat)
      requires fullScale > 0
      ensures Valid() && q == EMPTY && this.fullScale == fullScale && this.vrefMv == vrefMv
    {
      ring := new nat[RING];
      procWrite, procRead, procGap, q := 0, 0, false, EMPTY;
      this.fullScale, this.vrefMv := fullScale, vrefMv;
    }

    /** The publication inside the pump's commit section. */
    method Publish(batch: seq<nat>)
      requires Valid() && |batch| <= BATCH
      modifies this`procWrite, this`q, ring
      ensures Valid() && q == Next(old(q), Commit(batch))
    {
      hide Counter, Slot;
      var start := procWrite;
      for i := 0 to |batch|
        invariant q.out == old(q.out) + batch[..i] && q == old(q).(out := q.out) && Holds()
      {
        SameCell(|old(q.out)|, i);
        NewCell(|q.out|);
        ring[Slot(start + i)] := batch[i];
        q := q.(out := q.out + [batch[i]]);
      }
      SameCounter(|old(q.out)|, |batch|);
      procWrite := Counter(start + |batch|);
      assert batch[..|batch|] == batch;
    }

    /** The pump's overrun section. */
    method MarkGap()
      requires Valid()
      modifies this`procGap, this`q
      ensures Valid() && q == Next(old(q), PumpResync)
    {
      procGap := true;
      q := q.(gap := true, marks := q.marks + {|q.out|});
    }

    /** The millivolt value of a code. */
    function Millivolts(code: nat): nat
      requires fullScale > 0
    {
      Min(code, fullScale) * vrefMv / fullScale
    }

    /** The copy loop: `n` codes from position `from` on. */
    method Emit(n: nat, mv: array<nat>, ghost from: nat)
      requires Holds() && fullScale > 0 && mv.Length >= n && mv != ring
      requires procRead == Counter(from) && |q.out| - RING <= from && from + n <= |q.out|
      modifies this`procRead, mv
      ensures procRead == Counter(from + n)
      ensures forall i | 0 <= i < n :: mv[i] == Millivolts(q.out[from + i])
    {
      hide Counter, Slot, Millivolts;
      for i := 0 to n
        invariant procRead == Counter(from + i) && Holds()
        invariant forall k | 0 <= k < i :: mv[k] == Millivolts(q.out[from + k])
      {
        SameCell(from + i, 0);
        SameCounter(from + i, 1);
        mv[i] := Millivolts(ring[Slot(procRead)]);
        procRead := Counter(procRead + 1);
      }
    }

    /** The DSP branch of stream_read, into `mv`. */
    method StreamRead(max: nat, mv: array<nat>) returns (busy: bool, got: nat)
      requires Valid() && mv.Length >= max && mv != ring
      modifies this`procRead, this`procGap, this`q, mv
      ensures Valid() && q == Next(old(q), Read(max))
      ensures busy <==> Answer(old(q), max).Busy?
      ensures !busy ==> got == |Answer(old(q), max).block| <= max
      ensures !busy ==> forall i | 0 <= i < got :: mv[i] == Millivolts(Answer(old(q), max).block[i])
    {
      hide Counter, Slot, Millivolts;
      got := 0;
      if procGap {
        procGap, procRead, q := false, procWrite, Resynced(q);
        return true, 0;
      }
      var backlog := Backlog(procWrite, procRead);      // as uint32; negative as int32 from HALF on
      Difference(|q.out|, q.pos);
      if backlog == 0 || backlog >= HALF { return false, 0; }
      if backlog >= RING {
        procRead, q := procWrite, Resynced(q);
        return true, 0;
      }
      ghost var from := |q.out| - backlog;
      Emit(Min(backlog, max), mv, from);
      got, busy := Min(backlog, max), false;
      q := AfterRead(q, max);
    }
  }

  /** The unsigned difference of two counters. */
  function Backlog(w: nat, r: nat): nat { (w - r) % WORD }

  lemma SameCounter(n: nat, i: nat)
    ensures Counter(Counter(n) + i) == Counter(n + i)
  {
  }

  /** Ring cells agree whether the position is taken whole or as a 32-bit counter. */
  lemma SameCell(n: nat, i: nat)
    ensures Slot(Counter(n) + i) == Slot(n + i)
  {
    var k := n / WORD;
    assert n == Counter(n) + WORD * k;
    assert n + i == Counter(n) + i + RING * (0x40_0000 * k);
    ModAdd(Counter(n) + i, 0x40_0000 * k);
  }

  lemma ModAdd(a: nat, k: nat)
    ensures (a + RING * k) % RING == a % RING
  {
  }

  /** Writing position n leaves the other RING - 1 newest cells alone. */
  lemma NewCell(n: nat)
    ensures forall k | 0 <= k < n && n + 1 - RING <= k :: Slot(k) != Slot(n)
  {
  }

  /** The difference of the counters is the backlog modulo 2^32, and so is the position it
      points back to. */
  lemma Difference(w: nat, r: nat)
    requires r <= w
    ensures Backlog(Counter(w), Counter(r)) == Counter(w - r)
    ensures Counter(w - r) <= w && Counter(w - Counter(w - r)) == Counter(r)
  {
  }
}
