/** What the pump does with every raw sample of a stream, and the queue it fills. The ledgers
    here are kept beside a run, from its steps alone: which raw indices were handed to the filter
    or to the FFT window, and where the pump's position moved without that. */
module DspLedger {
  import opened DspPump
  import P = ProcRing
  import R = DspRecovery

  /** Stream `s` has a filter chain attached. */
  predicate Filters(y: System, s: nat)
    requires y.Wf()
  {
    s < STREAMS && y.streams[s].inUse && y.streams[s].bound && !y.streams[s].fft
  }

  /** A pump section on stream `s`. */
  predicate Here(y: System, x: Step, s: nat) { x.PumpStep? && !y.pc.Idle? && y.pc.sid == s }

  /** A sample goes into the filter. */
  predicate Feeding(y: System, x: Step, s: nat) {
    Here(y, x, s) && y.pc.FacFill? && Room(y.pc) && x.seen.ok
  }

  /** A batch is published. */
  predicate Committing(y: System, x: Step, s: nat)
    requires y.Wf() && s < STREAMS
  {
    Here(y, x, s) && y.pc.FacFill? && !Feeding(y, x, s) && Live(y, y.facOwner, Token(s), s, false)
  }

  /** The pump declares that it fell behind. */
  predicate Overrun(y: System, x: Step, s: nat)
    requires y.Wf() && s < STREAMS
  {
    Here(y, x, s) && y.pc.FacResync? && Live(y, y.facOwner, Active(s), s, false)
  }

  /** The host reads stream `s`. */
  predicate Reading(x: Step, s: nat) { x.Preempt? && x.isr.Read? && x.isr.s == s }

  predicate Recovering(x: Step, s: nat) { x.Preempt? && x.isr.Recover? && x.isr.s == s }

  // ---- leases ---------------------------------------------------------------------------------------------

  /** An owned block is owned by a stream attached to its kind; a token is held only by the pump
      inside its window, where the owner is not readable. */
  predicate Leased(y: System, owner: Owner, fft: bool, window: bool)
    requires y.Wf()
  {
    && (!owner.Free? ==> owner.sid < STREAMS && Live(y, owner, owner, owner.sid, fft))
    && (owner.Token? ==> window && !y.pc.Idle? && y.pc.sid == owner.sid)
    && (window ==> !owner.Active?)
  }

  predicate Lease(y: System)
    requires y.Wf()
  {
    Leased(y, y.facOwner, false, FacWindow(y.pc)) && Leased(y, y.fftOwner, true, FftWindow(y.pc))
  }

  lemma InterruptLease(y: System, x: Step)
    requires y.Wf() && Lease(y) && x.Preempt? && !x.isr.End?
    ensures Lease(Next(y, x))
  {
    hide FacStep, FftStep, Visit;
  }

  lemma EndLease(y: System, x: Step)
    requires y.Wf() && Lease(y) && x.Preempt? && x.isr.End?
    ensures Lease(Next(y, x))
  {
    hide FacStep, FftStep, Visit;
  }

  /** The same attachments. */
  predicate Attached(y: System, z: System)
    requires y.Wf() && z.Wf()
  {
    forall t: nat | t < STREAMS ::
      var a, b := y.streams[t], z.streams[t];
      a.inUse == b.inUse && a.bound == b.bound && a.fft == b.fft
  }

  /** The filter pump leaves attachments, FFT streams and the FFT block alone. */
  lemma FacElsewhere(y: System, seen: Seen)
    requires y.Wf() && !y.pc.Idle? && !IsFft(y.pc) && y.pc.sid < STREAMS
    ensures var z := FacStep(y, seen);
      && Attached(y, z) && (z.pc.Idle? || !IsFft(z.pc))
      && z.fftOwner == y.fftOwner && z.window == y.window && z.points == y.points
      && forall t: nat | t < STREAMS && y.streams[t].fft :: z.streams[t] == y.streams[t]
  {
    hide Copies, Tag, Room, Total;
  }

  /** The FFT pump leaves attachments, filter streams and the filter alone. */
  lemma FftElsewhere(y: System, seen: Seen)
    requires y.Wf() && IsFft(y.pc) && y.pc.sid < STREAMS
    ensures var z := FftStep(y, seen);
      && Attached(y, z) && (IsFft(z.pc) || z.pc.Idle?)
      && z.facOwner == y.facOwner
      && forall t: nat | t < STREAMS && !y.streams[t].fft :: z.streams[t] == y.streams[t]
  {
    hide FrameOf, Tag, Total;
  }

  lemma FacHolds(y: System, seen: Seen)
    requires y.Wf() && Leased(y, y.facOwner, false, FacWindow(y.pc)) && !y.pc.Idle? && !IsFft(y.pc)
    requires y.pc.sid < STREAMS && Attached(y, FacStep(y, seen))
    ensures var z := FacStep(y, seen); Leased(z, z.facOwner, false, FacWindow(z.pc))
  {
    hide Copies, Tag, Room, Total;
  }

  lemma FftHolds(y: System, seen: Seen)
    requires y.Wf() && Leased(y, y.fftOwner, true, FftWindow(y.pc)) && IsFft(y.pc)
    requires y.pc.sid < STREAMS && Attached(y, FftStep(y, seen))
    ensures var z := FftStep(y, seen); Leased(z, z.fftOwner, true, FftWindow(z.pc))
  {
    hide FrameOf, Tag, Total;
  }

  lemma PumpLease(y: System, x: Step)
    requires y.Wf() && Lease(y) && x.PumpStep?
    ensures Lease(Next(y, x))
  {
    hide FacStep, FftStep, Visit, Interrupt;
    if !y.pc.Idle? && y.pc.sid < STREAMS {
      if IsFft(y.pc) {
        FftElsewhere(y, x.seen);
        FftHolds(y, x.seen);
      } else {
        FacElsewhere(y, x.seen);
        FacHolds(y, x.seen);
      }
    }
  }

  /** Whatever the interleaving and whatever the recoveries. */
  lemma LeaseKeeps(y: System, x: Step)
    requires y.Wf() && Lease(y)
    ensures Lease(Next(y, x))
  {
    hide Interrupt, FacStep, FftStep;
    if x.Preempt? {
      if x.isr.End? { EndLease(y, x); } else { InterruptLease(y, x); }
    } else if x.PumpStep? {
      PumpLease(y, x);
    }
  }

  // ---- the filter's ledger ----------------------------------------------------------------------------------

  /** Since the position was last set rather than advanced: where it was set, the raw indices
      filtered and published since, those filtered but not yet published, whether a recovery
      struck in between, and whether it was set past samples and the host not told. */
  datatype Ledger = Ledger(anchor: nat, fed: seq<nat>, pending: seq<nat>, torn: bool, lost: bool)

  const BLANK := Ledger(0, [], [], false, false)

  /** The ledger after a step. Only BIND, the jump that follows a configuration, a recovery, and
      the batch a recovery tore may set the position without loss. */
  function Account(l: Ledger, y: System, x: Step, s: nat): Ledger
    requires y.Wf() && s < STREAMS
  {
    var a, b := y.streams[s], Next(y, x).streams[s];
    if !Filters(Next(y, x), s) then BLANK
    else if !Filters(y, s) then BLANK.(anchor := if x.Preempt? && x.isr.Bind? then x.isr.totalRead else 0)
    else if Recovering(x, s) then l.(anchor := b.pumpRead, fed := [], torn := true)
    else if Reading(x, s) then l.(lost := false)
    else if Feeding(y, x, s) then l.(pending := l.pending + [y.pc.raw])
    else if Committing(y, x, s) && l.torn then Ledger(b.pumpRead, [], [], false, l.lost)
    else if Committing(y, x, s) then l.(fed := l.fed + l.pending, pending := [])
    else if Here(y, x, s) && y.pc.FacLeased? then l.(pending := [], torn := false)
    else if Here(y, x, s) && y.pc.FacJump? then l.(anchor := b.pumpRead, fed := [])
    else if a.pumpRead != b.pumpRead then l.(anchor := b.pumpRead, fed := [], lost := true)
    else l
  }

  predicate Consecutive(xs: seq<nat>, from: nat) { forall i | 0 <= i < |xs| :: xs[i] == from + i }

  /** The pump has got past configuring the filter for stream `s`. */
  predicate Started(y: System, s: nat) {
    || (y.facOwner == Active(s) && !((y.pc.FacJump? || (y.pc.FacReady? && y.pc.first)) && y.pc.sid == s))
    || (y.facOwner == Token(s) && (y.pc.FacLeased? || y.pc.FacFill?))
  }

  /** The samples filtered are exactly those from the anchor up to the position, in order and
      each once; and a loss is marked for the host. */
  predicate Honest(l: Ledger, y: System, s: nat)
    requires y.Wf() && s < STREAMS
  {
    Filters(y, s) ==>
      && Consecutive(l.fed, l.anchor) && y.streams[s].pumpRead == l.anchor + |l.fed|
      && (l.lost ==> y.streams[s].gap)
  }

  /** What a batch in the making adds. */
  predicate InHand(l: Ledger, y: System, s: nat)
    requires y.Wf() && s < STREAMS
  {
    y.pc.FacFill? && y.pc.sid == s && y.facOwner == Token(s) ==>
      && |l.pending| == y.pc.used <= y.pc.raw && Consecutive(l.pending, y.pc.raw - y.pc.used)
      && (!l.torn ==> y.pc.raw == y.streams[s].pumpRead + y.pc.used)
  }

  /** Until the pump has started on it, a bound stream has no output and no loss to show: the
      jump skips nothing that anyone was served around. */
  predicate Untouched(l: Ledger, y: System, s: nat)
    requires y.Wf() && s < STREAMS
  {
    Filters(y, s) && !Started(y, s) ==> y.streams[s].out == [] && l.fed == [] && !y.streams[s].gap
  }

  predicate Book(l: Ledger, y: System, s: nat)
    requires y.Wf() && s < STREAMS
  {
    Honest(l, y, s) && InHand(l, y, s) && Untouched(l, y, s)
  }

  lemma EndBooks(l: Ledger, y: System, x: Step, s: nat)
    requires y.Wf() && s < STREAMS && Lease(y) && Book(l, y, s) && x.Preempt? && x.isr.End?
    ensures Book(Account(l, y, x, s), Next(y, x), s)
  {
    hide Room, FacStep, FftStep;
  }

  lemma BindBooks(l: Ledger, y: System, x: Step, s: nat)
    requires y.Wf() && s < STREAMS && Lease(y) && Book(l, y, s) && x.Preempt? && (x.isr.Bind? || x.isr.Begin?)
    ensures Book(Account(l, y, x, s), Next(y, x), s)
  {
    hide Room, FacStep, FftStep, Visit;
  }

  lemma DataBooks(l: Ledger, y: System, x: Step, s: nat)
    requires y.Wf() && s < STREAMS && Lease(y) && Book(l, y, s)
    requires x.Preempt? && (x.isr.Dma? || x.isr.Read? || x.isr.Recover?)
    ensures Book(Account(l, y, x, s), Next(y, x), s)
  {
    hide Room, FacStep, FftStep, Visit;
  }

  lemma FillBooks(l: Ledger, y: System, x: Step, s: nat)
    requires y.Wf() && s < STREAMS && Lease(y) && Book(l, y, s) && x.PumpStep? && y.pc.FacFill?
    ensures Book(Account(l, y, x, s), Next(y, x), s)
  {
    hide Room, Copies, FftStep, Tag, Interrupt, Visit;
  }

  lemma FacBooks(l: Ledger, y: System, x: Step, s: nat)
    requires y.Wf() && s < STREAMS && Lease(y) && Book(l, y, s) && x.PumpStep? && !IsFft(y.pc) && !y.pc.FacFill?
    ensures Book(Account(l, y, x, s), Next(y, x), s)
  {
    hide Room, Feed, CommitBatch, FftStep, Tag, Interrupt, Visit;
  }

  lemma FftBooks(l: Ledger, y: System, x: Step, s: nat)
    requires y.Wf() && s < STREAMS && Lease(y) && Book(l, y, s) && x.PumpStep? && IsFft(y.pc)
    ensures Book(Account(l, y, x, s), Next(y, x), s)
  {
    hide Room, FacStep, FftStep, Interrupt, Visit;
    if y.pc.sid < STREAMS { FftElsewhere(y, x.seen); }
  }

  lemma VisitBooks(l: Ledger, y: System, x: Step, s: nat)
    requires y.Wf() && s < STREAMS && Lease(y) && Book(l, y, s) && x.PumpVisit?
    ensures Book(Account(l, y, x, s), Next(y, x), s)
  {
    hide Room, FacStep, FftStep, Interrupt;
  }

  lemma StepBooks(l: Ledger, y: System, x: Step, s: nat)
    requires y.Wf() && s < STREAMS && Lease(y) && Book(l, y, s)
    ensures Book(Account(l, y, x, s), Next(y, x), s)
  {
    hide Book, Account, Interrupt, FacStep, FftStep;
    if x.Preempt? {
      match x.isr
      case End(_) => EndBooks(l, y, x, s);
      case Begin(_) => BindBooks(l, y, x, s);
      case Bind(_, _, _) => BindBooks(l, y, x, s);
      case _ => DataBooks(l, y, x, s);
    } else if x.PumpVisit? {
      VisitBooks(l, y, x, s);
    } else if IsFft(y.pc) {
      FftBooks(l, y, x, s);
    } else if y.pc.FacFill? {
      FillBooks(l, y, x, s);
    } else {
      FacBooks(l, y, x, s);
    }
  }

  function AccountAll(l: Ledger, y: System, xs: seq<Step>, s: nat): Ledger
    requires y.Wf() && s < STREAMS
    decreases |xs|
  {
    if xs == [] then l else AccountAll(Account(l, y, xs[0], s), Next(y, xs[0]), xs[1..], s)
  }

  /** Over every run, recoveries included: the filter is fed every raw sample once and in order
      between the places where the position is set, and a place that skips samples leaves the
      gap mark until the host reads. */
  lemma {:induction false} NothingSkippedSilently(l: Ledger, y: System, xs: seq<Step>, s: nat)
    requires y.Wf() && s < STREAMS && Lease(y) && Book(l, y, s)
    ensures Lease(Run(y, xs)) && Book(AccountAll(l, y, xs, s), Run(y, xs), s)
    decreases |xs|
  {
    hide Lease, Book, Account, Next;
    if xs != [] {
      LeaseKeeps(y, xs[0]);
      StepBooks(l, y, xs[0], s);
      NothingSkippedSilently(Account(l, y, xs[0], s), Next(y, xs[0]), xs[1..], s);
    }
  }

  lemma ResetBook(s: nat)
    requires s < STREAMS
    ensures RESET.Wf() && Lease(RESET) && Book(BLANK, RESET, s)
  {
  }

  /** The same from reset. */
  lemma NothingSkippedFromReset(xs: seq<Step>, s: nat)
    requires s < STREAMS && RESET.Wf()
    ensures Honest(AccountAll(BLANK, RESET, xs, s), Run(RESET, xs), s)
  {
    hide Honest, InHand, Untouched, AccountAll, Run;
    ResetBook(s);
    NothingSkippedSilently(BLANK, RESET, xs, s);
  }

  /** The pump sets out to declare an overrun only when the DMA is a full ring ahead of it. */
  lemma OverrunMeansLapped(y: System, x: Step)
    requires y.Wf() && Next(y, x).pc.FacResync? && !y.pc.FacResync?
    ensures var s := Next(y, x).pc.sid; s < STREAMS && y.streams[s].pos >= y.streams[s].pumpRead + RING
  {
    hide FftStep, Copies, Tag;
    if IsFft(y.pc) && y.pc.sid < STREAMS && x.PumpStep? { FftElsewhere(y, x.seen); }
  }

  // ---- the queue ----------------------------------------------------------------------------------------------

  /** What a step does to the processed queue of stream `s`. */
  function OpsOf(y: System, x: Step, s: nat): seq<P.Op<set<nat>>>
    requires y.Wf() && s < STREAMS
  {
    if Committing(y, x, s) then [P.Commit(y.pc.batch)]
    else if Overrun(y, x, s) then [P.PumpResync]
    else if Reading(x, s) then [P.Read(x.isr.max)]
    else []
  }

  function Ops(y: System, xs: seq<Step>, s: nat): seq<P.Op<set<nat>>>
    requires y.Wf() && s < STREAMS
    decreases |xs|
  {
    if xs == [] then [] else OpsOf(y, xs[0], s) + Ops(Next(y, xs[0]), xs[1..], s)
  }

  /** The chain stays attached throughout. */
  predicate StaysBound(y: System, xs: seq<Step>, s: nat)
    requires y.Wf()
    decreases |xs|
  {
    Filters(y, s) && (xs != [] ==> StaysBound(Next(y, xs[0]), xs[1..], s))
  }

  predicate Matches(q: P.Queue<set<nat>>, a: Stream) { q.out == a.out && q.gap == a.gap && q.pos <= |q.out| }

  lemma FillMatches(q: P.Queue<set<nat>>, y: System, x: Step, s: nat)
    requires y.Wf() && Filters(y, s) && Matches(q, y.streams[s]) && x.PumpStep? && y.pc.FacFill?
    ensures Matches(P.Run(q, OpsOf(y, x, s)), Next(y, x).streams[s])
  {
    hide Room, Copies, FftStep, Tag, Interrupt, Visit;
    QueueOne(q, P.Commit(y.pc.batch));
  }

  lemma PumpMatches(q: P.Queue<set<nat>>, y: System, x: Step, s: nat)
    requires y.Wf() && Filters(y, s) && Matches(q, y.streams[s]) && x.PumpStep? && !y.pc.FacFill? && !IsFft(y.pc)
    ensures Matches(P.Run(q, OpsOf(y, x, s)), Next(y, x).streams[s])
  {
    hide Feed, CommitBatch, FftStep, Interrupt, Visit;
    QueueOne(q, P.PumpResync);
  }

  lemma OthersMatch(q: P.Queue<set<nat>>, y: System, x: Step, s: nat)
    requires y.Wf() && Filters(y, s) && Matches(q, y.streams[s]) && (x.PumpStep? ==> IsFft(y.pc))
    requires Filters(Next(y, x), s)
    ensures Matches(P.Run(q, OpsOf(y, x, s)), Next(y, x).streams[s])
  {
    hide FacStep, FftStep, Room;
    if x.PumpStep? && y.pc.sid < STREAMS { FftElsewhere(y, x.seen); }
    if Reading(x, s) { QueueOne(q, P.Read(x.isr.max)); }
  }

  lemma QueueOne(q: P.Queue<set<nat>>, x: P.Op<set<nat>>)
    requires q.pos <= |q.out|
    ensures P.Run(q, [x]) == P.Next(q, x)
    ensures x.Read? ==> P.Next(q, x).out == q.out && !P.Next(q, x).gap
  {
    assert [x][1..] == [];
    assert P.Run(P.Next(q, x), []) == P.Next(q, x);
  }

  lemma StepMatches(q: P.Queue<set<nat>>, y: System, x: Step, s: nat)
    requires y.Wf() && Filters(y, s) && Matches(q, y.streams[s]) && Filters(Next(y, x), s)
    ensures Matches(P.Run(q, OpsOf(y, x, s)), Next(y, x).streams[s])
  {
    hide Matches, OpsOf, Next;
    if x.PumpStep? && y.pc.FacFill? {
      FillMatches(q, y, x, s);
    } else if x.PumpStep? && !IsFft(y.pc) {
      PumpMatches(q, y, x, s);
    } else {
      OthersMatch(q, y, x, s);
    }
  }

  lemma {:induction false} QueueConcat(q: P.Queue<set<nat>>, a: seq<P.Op<set<nat>>>, b: seq<P.Op<set<nat>>>)
    requires q.pos <= |q.out|
    ensures P.Run(q, a + b) == P.Run(P.Run(q, a), b)
    decreases |a|
  {
    if a == [] {
      assert a + b == b;
    } else {
      assert (a + b)[1..] == a[1..] + b;
      QueueConcat(P.Next(q, a[0]), a[1..], b);
    }
  }

  /** Runs of the pump refine runs of the processed queue: each published batch is a commit, each
      declared overrun a resynchronisation, each host read a read, and nothing else touches it. */
  lemma {:induction false} RefinesQueue(q: P.Queue<set<nat>>, y: System, xs: seq<Step>, s: nat)
    requires y.Wf() && s < STREAMS && StaysBound(y, xs, s) && Matches(q, y.streams[s])
    ensures Matches(P.Run(q, Ops(y, xs, s)), Run(y, xs).streams[s])
    decreases |xs|
  {
    hide Next, OpsOf, Matches;
    StillBounded(q, y.streams[s]);
    if xs != [] {
      StepMatches(q, y, xs[0], s);
      StillBounded(P.Run(q, OpsOf(y, xs[0], s)), Next(y, xs[0]).streams[s]);
      RefinesQueue(P.Run(q, OpsOf(y, xs[0], s)), Next(y, xs[0]), xs[1..], s);
      QueueConcat(q, OpsOf(y, xs[0], s), Ops(Next(y, xs[0]), xs[1..], s));
    }
  }

  lemma StillBounded(q: P.Queue<set<nat>>, a: Stream)
    requires Matches(q, a)
    ensures q.pos <= |q.out|
  {
  }

  /** So since a BIND the host receives, between BUSY replies, contiguous filter output with no
      overrun inside, exactly when no read finds 2^32 samples unread. */
  lemma HostSeesContiguous(y: System, s: nat, totalRead: nat, xs: seq<Step>)
    requires y.Wf() && s < STREAMS && !Filters(y, s)
    requires StaysBound(Next(y, Preempt(Bind(s, false, totalRead))), xs, s)
    ensures var z := Next(y, Preempt(Bind(s, false, totalRead)));
      var q := P.Run(P.Empty(), Ops(z, xs, s));
      && Matches(q, Run(z, xs).streams[s])
      && (P.StaysContiguous(P.Empty(), Ops(z, xs, s)) <==> P.AllPrompt(P.Empty(), Ops(z, xs, s)))
      && (P.AllPrompt(P.Empty(), Ops(z, xs, s)) ==> P.Contiguous(q))
  {
    hide Run, Ops, P.StaysContiguous, P.AllPrompt;
    var z := Next(y, Preempt(Bind(s, false, totalRead)));
    JustBound(z, xs, s);
    RefinesQueue(P.Empty(), z, xs, s);
    P.AlwaysContiguous(P.Empty(), Ops(z, xs, s));
  }

  lemma JustBound(z: System, xs: seq<Step>, s: nat)
    requires z.Wf() && StaysBound(z, xs, s)
    ensures Filters(z, s)
  {
  }

  /** A recovery answers BUSY by itself and leaves the processed queue alone: what was filtered
      before it is still served after that BUSY. */
  lemma RecoveryKeepsQueue(y: System, s: nat, lap: nat, w: nat)
    requires y.Wf() && s < STREAMS
    ensures var a, b := y.streams[s], Interrupt(y, Recover(s, lap, w)).streams[s];
      b.out == a.out && b.gap == a.gap && b.pumpRead == (if CanRewind(a, lap, w) then b.pos else a.pumpRead)
  {
  }

  /** A recovery that strikes inside a batch is undone by the batch's commit: the position is again
      the one the batch had read up to, and the pump takes nothing until the DMA has passed it,
      which is ahead of the DMA exactly if the ring was rewound below it. */
  lemma TornBatchUndone(y: System, s: nat, lap: nat, w: nat, seen: Seen)
    requires y.Wf() && s < STREAMS && Live(y, y.facOwner, Token(s), s, false) && y.pc.FacFill? && y.pc.sid == s
    requires CanRewind(y.streams[s], lap, w) && !(Room(y.pc) && seen.ok)
    ensures var z := Next(Next(y, Preempt(Recover(s, lap, w))), PumpStep(seen));
      && z.streams[s].pumpRead == y.pc.raw && z.streams[s].gap == y.streams[s].gap
      && (z.streams[s].pos < z.streams[s].pumpRead <==> lap * RING + w < y.pc.raw)
  {
  }

  /** A pass measures nothing to do while the position is ahead of the DMA. */
  lemma AheadWaits(y: System, s: nat, seen: Seen)
    requires y.Wf() && Filters(y, s) && y.facOwner == Active(s) && y.pc == Idle
    ensures var z := Next(Next(y, PumpVisit(s)), PumpStep(seen));
      && z.streams == y.streams
      && (y.streams[s].pos <= y.streams[s].pumpRead ==> z.pc == Idle)
      && (seen.total == y.streams[s].pos && z.pc == Idle ==> y.streams[s].pos <= y.streams[s].pumpRead)
  {
  }

  // ---- a whole pass --------------------------------------------------------------------------------------------

  /** The filter takes every sample and gives one output for each. */
  function Steady(total: nat): Seen { Seen(total, true, 0, 1) }

  /** The rest of a batch, one output per sample so far. */
  lemma {:induction false} FillsBatch(y: System, s: nat, total: nat) returns (xs: seq<Step>, z: System)
    requires y.Wf() && Filters(y, s) && y.facOwner == Token(s) && y.pc.FacFill? && y.pc.sid == s
    requires |y.pc.batch| == y.pc.used <= Min(y.pc.avail, BATCH)
    ensures R.Leads(y, xs, z) && z.Wf() && z.facOwner == Active(s)
    ensures var a, b, n := y.streams[s], z.streams[s], Min(y.pc.avail, BATCH);
      && b == a.(pumpRead := y.pc.raw + n - y.pc.used, out := b.out) && |b.out| == |a.out| + n
      && z.pc == FacLoop(s, y.pc.ses, y.pc.avail - n)
    decreases BATCH - y.pc.used
  {
    hide Run, R.Leads, FftStep, Copies, Tag;
    R.Stay(y);
    xs, z := R.Go(y, [], y, PumpStep(Steady(total)));
    if Room(y.pc) {
      var ws, w := FillsBatch(z, s, total);
      R.Compose(y, xs, z, ws, w);
      xs, z := xs + ws, w;
    }
  }

  lemma {:induction false} FeedsAll(y: System, s: nat, total: nat) returns (xs: seq<Step>, z: System)
    requires y.Wf() && Filters(y, s) && y.facOwner == Active(s) && y.pc.FacLoop? && y.pc.sid == s
    ensures R.Leads(y, xs, z) && z.Wf() && z.facOwner == Active(s) && z.pc == Idle
    ensures var a, b := y.streams[s], z.streams[s];
      b == a.(pumpRead := a.pumpRead + y.pc.avail, out := b.out) && |b.out| == |a.out| + y.pc.avail
    decreases y.pc.avail
  {
    hide Run, R.Leads, FftStep, Feed, CommitBatch;
    R.Stay(y);
    xs, z := R.Go(y, [], y, PumpStep(Steady(total)));
    if y.pc.avail > 0 {
      xs, z := R.Go(y, xs, z, PumpStep(Steady(total)));
      var ws, w := FillsBatch(z, s, total);
      R.Compose(y, xs, z, ws, w);
      var vs, v := FeedsAll(w, s, total);
      R.Compose(y, xs + ws, w, vs, v);
      xs, z := xs + ws + vs, v;
    }
  }

  /** An undisturbed pass over a backlog below a ring filters all of it and declares no gap. */
  lemma PassFeedsAll(y: System, s: nat, total: nat) returns (xs: seq<Step>, z: System)
    requires y.Wf() && Filters(y, s) && y.facOwner == Active(s) && y.pc == Idle
    requires total <= y.streams[s].pos && y.streams[s].pumpRead < total < y.streams[s].pumpRead + RING
    ensures R.Leads(y, xs, z) && z.Wf() && z.facOwner == Active(s) && z.pc == Idle
    ensures var a, b := y.streams[s], z.streams[s];
      b == a.(pumpRead := total, out := b.out) && |b.out| - |a.out| == total - a.pumpRead
  {
    hide Run, R.Leads, FftStep, Feed, CommitBatch;
    R.Stay(y);
    xs, z := R.Go(y, [], y, PumpVisit(s));
    xs, z := R.Go(y, xs, z, PumpStep(Steady(total)));
    var ws, w := FeedsAll(z, s, total);
    R.Compose(y, xs, z, ws, w);
    xs, z := xs + ws, w;
  }

  /** The first pass after a configuration: if the backlog is a ring or more, or the position is
      ahead, it jumps to the live total and declares no gap; otherwise it skips nothing. */
  lemma FirstPassJumps(y: System, s: nat, total: nat) returns (xs: seq<Step>, z: System)
    requires y.Wf() && Filters(y, s) && y.facOwner == Active(s) && total <= y.streams[s].pos
    requires y.pc.FacReady? && y.pc.sid == s && y.pc.first
    ensures R.Leads(y, xs, z) && z.Wf() && z.facOwner == Active(s) && z.pc == FacReady(s, y.pc.ses, false)
    ensures var a := y.streams[s];
      z.streams[s] == if a.pumpRead <= total < a.pumpRead + RING then a else a.(pumpRead := total)
  {
    hide Run, R.Leads, FftStep, Feed, CommitBatch;
    R.Stay(y);
    xs, z := R.Go(y, [], y, PumpStep(Steady(total)));
    if z.pc.FacJump? {
      xs, z := R.Go(y, xs, z, PumpStep(Steady(total)));
    }
  }

  // ---- the FFT window -------------------------------------------------------------------------------------------

  /** The raw indices in the window, the one the pump holds, and whether a recovery struck since
      the window's first sample was taken. */
  datatype Window = Window(at: seq<nat>, held: nat, struck: bool)

  function Track(l: Window, y: System, x: Step, s: nat): Window
    requires y.Wf() && s < STREAMS
  {
    if Recovering(x, s) then l.(struck := true)
    else if Here(y, x, s) && y.pc.FftTake? then
      l.(held := y.streams[s].pumpRead, struck := if y.window == [] then false else l.struck)
    else if Here(y, x, s) && y.pc.FftHold? && Live(y, y.fftOwner, Active(s), s, true) then l.(at := l.at + [l.held])
    else if Next(y, x).window == [] then l.(at := [])
    else l
  }

  /** Unless a recovery struck, the window holds consecutive raw samples up to the position. */
  predicate Gapless(l: Window, y: System, s: nat)
    requires y.Wf() && s < STREAMS
  {
    && (y.pc.FftConfigured? && y.pc.ok ==> y.window == [])
    && (y.fftOwner == Active(s) ==>
          && |l.at| == |y.window|
          && (!l.struck && l.at != [] ==> Consecutive(l.at, l.at[0]) && l.at[0] + |l.at| == y.streams[s].pumpRead)
          && (y.pc.FftHold? && y.pc.sid == s && !l.struck ==> l.held == y.streams[s].pumpRead)
          && (y.pc.FftWait? && y.pc.sid == s ==> y.pc.frame == y.window && |y.window| >= y.points))
  }

  /** The step takes a sample from the ring, or stores it. */
  predicate Sampling(pc: Pc) { pc.FftTake? || pc.FftHold? }

  lemma SampleTracks(l: Window, y: System, x: Step, s: nat)
    requires y.Wf() && s < STREAMS && Lease(y) && Gapless(l, y, s) && x.PumpStep? && Sampling(y.pc)
    ensures Gapless(Track(l, y, x, s), Next(y, x), s)
  {
    hide FacStep, Interrupt, Visit, FrameOf, Tag, Total;
  }

  lemma FftTracks(l: Window, y: System, x: Step, s: nat)
    requires y.Wf() && s < STREAMS && Lease(y) && Gapless(l, y, s)
    requires x.PumpStep? && IsFft(y.pc) && !Sampling(y.pc)
    ensures Gapless(Track(l, y, x, s), Next(y, x), s)
  {
    hide FacStep, Interrupt, Visit, FrameOf, Tag, Total;
  }

  lemma FacTracks(l: Window, y: System, x: Step, s: nat)
    requires y.Wf() && s < STREAMS && Lease(y) && Gapless(l, y, s) && x.PumpStep? && !IsFft(y.pc)
    ensures Gapless(Track(l, y, x, s), Next(y, x), s)
  {
    hide FftStep, FacStep, Interrupt, Visit;
    if !y.pc.Idle? && y.pc.sid < STREAMS { FacElsewhere(y, x.seen); }
  }

  lemma OthersTrack(l: Window, y: System, x: Step, s: nat)
    requires y.Wf() && s < STREAMS && Lease(y) && Gapless(l, y, s) && !x.PumpStep?
    ensures Gapless(Track(l, y, x, s), Next(y, x), s)
  {
    hide FftStep, FacStep;
  }

  lemma StepTracks(l: Window, y: System, x: Step, s: nat)
    requires y.Wf() && s < STREAMS && Lease(y) && Gapless(l, y, s)
    ensures Gapless(Track(l, y, x, s), Next(y, x), s)
  {
    hide Gapless, Track, Next, Lease;
    if !x.PumpStep? {
      OthersTrack(l, y, x, s);
    } else if Sampling(y.pc) {
      SampleTracks(l, y, x, s);
    } else if IsFft(y.pc) {
      FftTracks(l, y, x, s);
    } else {
      FacTracks(l, y, x, s);
    }
  }

  function TrackAll(l: Window, y: System, xs: seq<Step>, s: nat): Window
    requires y.Wf() && s < STREAMS
    decreases |xs|
  {
    if xs == [] then l else TrackAll(Track(l, y, xs[0], s), Next(y, xs[0]), xs[1..], s)
  }

  /** Over every run: the samples of an FFT frame are consecutive unless a recovery struck while
      they were gathered. */
  lemma {:induction false} FramesGapless(l: Window, y: System, xs: seq<Step>, s: nat)
    requires y.Wf() && s < STREAMS && Lease(y) && Gapless(l, y, s)
    ensures Gapless(TrackAll(l, y, xs, s), Run(y, xs), s)
    decreases |xs|
  {
    hide Lease, Gapless, Track, Next;
    if xs != [] {
      LeaseKeeps(y, xs[0]);
      StepTracks(l, y, xs[0], s);
      FramesGapless(Track(l, y, xs[0], s), Next(y, xs[0]), xs[1..], s);
    }
  }

  /** The same from reset. */
  lemma FramesGaplessFromReset(xs: seq<Step>, s: nat)
    requires s < STREAMS && RESET.Wf()
    ensures Gapless(TrackAll(Window([], 0, false), RESET, xs, s), Run(RESET, xs), s)
  {
    ResetBook(s);
    hide TrackAll, Run, Lease;
    FramesGapless(Window([], 0, false), RESET, xs, s);
  }

  /** A recovery that strikes while a window is being gathered leaves the next sample in line with
      it only if it rewinds to the very position the pump stood at. */
  lemma RecoveryBreaksFrame(l: Window, y: System, s: nat, lap: nat, w: nat)
    requires y.Wf() && s < STREAMS && Gapless(l, y, s) && y.fftOwner == Active(s) && !l.struck && l.at != []
    requires CanRewind(y.streams[s], lap, w)
    ensures var z := Next(y, Preempt(Recover(s, lap, w)));
      l.at[0] + |l.at| == z.streams[s].pumpRead <==> lap * RING + w == y.streams[s].pumpRead
  {
  }
}
