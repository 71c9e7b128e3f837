/** When a converter-overflow recovery breaks the isolation of sessions: exactly when the pump
    then counts on ring cells its session has not written, in whatever state it strikes. */
module DspRecovery {
  import opened DspPump

  // ---- continuing a run ------------------------------------------------------------------------------

  /** No further recovery. */
  predicate Quiet(xs: seq<Step>) { forall i | 0 <= i < |xs| :: !(xs[i].Preempt? && xs[i].isr.Recover?) }

  lemma {:induction false} RunConcat(y: System, a: seq<Step>, b: seq<Step>)
    requires y.Wf()
    ensures Run(y, a + b) == Run(Run(y, a), b)
    decreases |a|
  {
    if a == [] {
      assert a + b == b;
    } else {
      assert (a + b)[1..] == a[1..] + b;
      RunConcat(Next(y, a[0]), a[1..], b);
    }
  }

  lemma RunOne(y: System, x: Step)
    requires y.Wf()
    ensures Run(y, [x]) == Next(y, x)
  {
    assert [x][1..] == [];
    assert Run(Next(y, x), []) == Next(y, x);
  }

  /** `zs` is a quiet run from `y` to `z`. */
  predicate Leads(y: System, zs: seq<Step>, z: System)
    requires y.Wf()
  {
    Quiet(zs) && Run(y, zs) == z
  }

  lemma Stay(y: System)
    requires y.Wf()
    ensures Leads(y, [], y)
  {
  }

  lemma Go(y: System, zs: seq<Step>, z: System, x: Step) returns (ws: seq<Step>, w: System)
    requires y.Wf() && Leads(y, zs, z) && !(x.Preempt? && x.isr.Recover?)
    ensures z.Wf() && w == Next(z, x) && Leads(y, ws, w)
  {
    hide Next;
    RunConcat(y, zs, [x]);
    RunOne(z, x);
    ws, w := zs + [x], Next(z, x);
  }

  lemma Join(y: System, zs: seq<Step>, z: System, ws: seq<Step>)
    requires y.Wf() && Leads(y, zs, z) && Quiet(ws)
    ensures z.Wf() && Quiet(zs + ws) && Run(y, zs + ws) == Run(z, ws)
  {
    RunConcat(y, zs, ws);
  }

  // ---- the filter ---------------------------------------------------------------------------------------

  const GREEDY := Seen(0, true, 0, BATCH)
  const FAILED := Seen(0, false, 0, 0)

  /** Stream `s` runs a filter chain in a real session. */
  predicate Filtering(y: System, s: nat) {
    && y.Wf() && s < STREAMS && y.streams[s].inUse && y.streams[s].bound && !y.streams[s].fft
    && y.streams[s].session != FOREIGN
  }

  /** From the claim on, the pump filters one sample and publishes a full batch of outputs. */
  lemma LeasedOne(y: System, s: nat) returns (xs: seq<Step>, z: System)
    requires Filtering(y, s) && y.facOwner == Token(s) && y.pc.FacLeased? && y.pc.sid == s && y.pc.avail > 0
    ensures Leads(y, xs, z) && Filtering(z, s)
    ensures var a, b := y.streams[s], z.streams[s];
      && b == a.(pumpRead := a.pumpRead + 1, out := b.out)
      && |b.out| > 0 && b.out[|b.out| - 1] == y.fac + {Tag(a, a.pumpRead)}
      && z.facOwner == Active(s) && z.pc == FacLoop(s, y.pc.ses, y.pc.avail - 1)
  {
    hide Run, FftStep, Leads, Copies;
    Stay(y);
    xs, z := Go(y, [], y, PumpStep(GREEDY));
    xs, z := Go(y, xs, z, PumpStep(GREEDY));
    assert |z.pc.batch| == BATCH && z.pc.batch[BATCH - 1] == y.fac + {Tag(y.streams[s], y.streams[s].pumpRead)};
    xs, z := Go(y, xs, z, PumpStep(GREEDY));
  }

  /** The pump is about to read a cell the session has not written. */
  predicate FacDoomed(y: System, s: nat) {
    && Filtering(y, s) && y.facOwner == Active(s) && y.pc.FacLoop? && y.pc.sid == s
    && !Covered(y.streams[s], y.streams[s].pumpRead, y.pc.avail)
  }

  lemma OneMore(y: System, s: nat) returns (xs: seq<Step>, z: System)
    requires FacDoomed(y, s)
    ensures Leads(y, xs, z) && Filtering(z, s)
    ensures var a, b := y.streams[s], z.streams[s];
      && b == a.(pumpRead := a.pumpRead + 1, out := b.out)
      && |b.out| > 0 && Tag(a, a.pumpRead) in b.out[|b.out| - 1]
      && z.facOwner == Active(s) && z.pc == FacLoop(s, y.pc.ses, y.pc.avail - 1)
  {
    hide Run, Leads;
    Stay(y);
    var w;
    xs, w := Go(y, [], y, PumpStep(GREEDY));
    var ws;
    ws, z := LeasedOne(w, s);
    Compose(y, xs, w, ws, z);
    xs := xs + ws;
  }

  lemma Compose(y: System, xs: seq<Step>, w: System, ws: seq<Step>, z: System)
    requires y.Wf() && Leads(y, xs, w) && w.Wf() && Leads(w, ws, z)
    ensures Leads(y, xs + ws, z)
  {
    Join(y, xs, w, ws);
  }

  lemma {:induction false} FacDoom(y: System, s: nat) returns (xs: seq<Step>)
    requires FacDoomed(y, s)
    ensures Quiet(xs) && !Isolated(Run(y, xs))
    decreases y.pc.avail
  {
    hide Run, Isolated;
    var z;
    xs, z := OneMore(y, s);
    if Tag(y.streams[s], y.streams[s].pumpRead) == FOREIGN {
      ForeignOut(z, s);
    } else {
      NotYet(y.streams[s], y.pc.avail);
      var ws := FacDoom(z, s);
      Join(y, xs, z, ws);
      xs := xs + ws;
    }
  }

  /** If the next cell is the session's, the foreign one is behind it. */
  lemma NotYet(a: Stream, n: nat)
    requires !Covered(a, a.pumpRead, n) && Tag(a, a.pumpRead) != FOREIGN
    ensures n > 0 && !Covered(a, a.pumpRead + 1, n - 1)
  {
  }

  lemma ForeignOut(z: System, s: nat)
    requires Filtering(z, s) && |z.streams[s].out| > 0 && FOREIGN in z.streams[s].out[|z.streams[s].out| - 1]
    ensures !Isolated(z)
  {
    assert !Pure(z.streams[s].out, z.streams[s].session);
  }

  // ---- the FFT ------------------------------------------------------------------------------------------

  /** Stream `s` owns the FFT block in a real session. */
  predicate Transforming(y: System, s: nat) {
    && y.Wf() && s < STREAMS && y.streams[s].inUse && y.streams[s].bound && y.streams[s].fft
    && y.streams[s].session != FOREIGN && y.fftOwner == Active(s) && y.points >= 1
  }

  /** The pump takes one sample into the window. */
  lemma TakeOne(y: System, s: nat) returns (xs: seq<Step>, z: System)
    requires Transforming(y, s) && y.pc.FftTake? && y.pc.sid == s && y.pc.avail > 0
    ensures Leads(y, xs, z) && Transforming(z, s)
    ensures var a := y.streams[s];
      && z.streams[s] == a.(pumpRead := a.pumpRead + 1) && z.points == y.points
      && z.window == y.window + [Tag(a, a.pumpRead)]
      && z.pc == if |z.window| >= z.points then FftWait(s, y.pc.ses, y.pc.avail - 1, z.window)
                 else FftTake(s, y.pc.ses, y.pc.avail - 1)
  {
    hide Run, FacStep, Leads;
    Stay(y);
    xs, z := Go(y, [], y, PumpStep(GREEDY));
    xs, z := Go(y, xs, z, PumpStep(GREEDY));
  }

  /** A failed transform empties the window and goes on. */
  lemma DropWindow(y: System, s: nat) returns (xs: seq<Step>, z: System)
    requires Transforming(y, s) && y.pc.FftWait? && y.pc.sid == s
    ensures Leads(y, xs, z) && Transforming(z, s)
    ensures z.streams[s] == y.streams[s] && z.window == [] && z.points == y.points
    ensures z.pc == FftTake(s, y.pc.ses, y.pc.avail)
  {
    hide Run, FacStep, Leads;
    Stay(y);
    xs, z := Go(y, [], y, PumpStep(FAILED));
  }

  /** A foreign sample is in the window. */
  predicate Tainted(y: System, s: nat) {
    && Transforming(y, s) && FOREIGN in y.window && !y.pc.Idle? && y.pc.sid == s
    && (|| (y.pc.FftTake? && |y.window| < y.points)
        || (y.pc.FftWait? && y.pc.frame == y.window))
  }

  /** The transform of a tainted window is published. */
  lemma PublishTaint(y: System, s: nat) returns (xs: seq<Step>)
    requires Tainted(y, s) && y.pc.FftWait?
    ensures Quiet(xs) && !Isolated(Run(y, xs))
  {
    hide Run, FacStep, Leads, FrameOf;
    Stay(y);
    var z;
    xs, z := Go(y, [], y, PumpStep(GREEDY));
    xs, z := Go(y, xs, z, PumpStep(GREEDY));
    assert z.bins == FrameOf(y.window, y.frames + 1);
    xs, z := Go(y, xs, z, PumpStep(GREEDY));
    TaintShows(y.window, y.frames + 1, y.streams[s].session);
    LeadsMeans(y, xs, z);
  }

  lemma LeadsMeans(y: System, xs: seq<Step>, z: System)
    requires y.Wf() && Leads(y, xs, z)
    ensures Quiet(xs) && Run(y, xs) == z
  {
  }

  lemma TaintShows(tags: seq<nat>, number: nat, ses: nat)
    requires FOREIGN in tags && ses != FOREIGN
    ensures FrameOf(tags, number) != Frame(ses, number)
  {
  }

  lemma {:induction false} DmaMany(y: System, s: nat, n: nat) returns (xs: seq<Step>, z: System)
    requires y.Wf() && s < STREAMS && y.streams[s].inUse
    ensures Leads(y, xs, z)
    ensures z == y.With(s, y.streams[s].(pos := y.streams[s].pos + n, filled := z.streams[s].filled))
    decreases n
  {
    hide Run, Leads;
    Stay(y);
    xs, z := [], y;
    assert y.streams[s := y.streams[s]] == y.streams;
    if n > 0 {
      xs, z := DmaMany(y, s, n - 1);
      xs, z := Go(y, xs, z, Preempt(Dma(s)));
    }
  }

  /** The pump has run out: fresh samples arrive and it measures one of them. */
  lemma Refresh(y: System, s: nat) returns (xs: seq<Step>, z: System)
    requires Transforming(y, s) && y.pc.FftTake? && y.pc.sid == s && y.pc.avail == 0
    ensures Leads(y, xs, z) && Transforming(z, s)
    ensures z.window == y.window && z.points == y.points && z.pc == FftTake(s, y.streams[s].session, 1)
  {
    hide Run, FacStep, Leads;
    var a := y.streams[s];
    Stay(y);
    var w;
    xs, w := Go(y, [], y, PumpStep(GREEDY));
    assert w == y.(pc := Idle);
    var ds, d := DmaMany(w, s, if a.pumpRead < a.pos then 0 else a.pumpRead + 1 - a.pos);
    Compose(y, xs, w, ds, d);
    xs, z := Go(y, xs + ds, d, PumpVisit(s));
    xs, z := Go(y, xs, z, PumpStep(Seen(a.pumpRead + 1, true, 0, 0)));
  }

  lemma {:induction false} TaintSpreads(y: System, s: nat) returns (xs: seq<Step>)
    requires Tainted(y, s)
    ensures Quiet(xs) && !Isolated(Run(y, xs))
    decreases y.points - |y.window|, if y.pc.avail == 0 then 1 else 0
  {
    hide Run, Isolated, Next;
    if y.pc.FftWait? {
      xs := PublishTaint(y, s);
    } else {
      var z;
      if y.pc.avail > 0 {
        xs, z := TakeOne(y, s);
      } else {
        xs, z := Refresh(y, s);
      }
      var ws := TaintSpreads(z, s);
      Join(y, xs, z, ws);
      xs := xs + ws;
    }
  }

  predicate FftDoomed(y: System, s: nat) {
    && Transforming(y, s) && y.pc.FftTake? && y.pc.sid == s && |y.window| < y.points
    && !Covered(y.streams[s], y.streams[s].pumpRead, y.pc.avail)
  }

  lemma {:induction false} FftDoom(y: System, s: nat) returns (xs: seq<Step>)
    requires FftDoomed(y, s)
    ensures Quiet(xs) && !Isolated(Run(y, xs))
    decreases y.pc.avail
  {
    hide Run, Isolated, Next;
    var z, ws;
    xs, z := TakeOne(y, s);
    if Tag(y.streams[s], y.streams[s].pumpRead) == FOREIGN {
      assert z.window[|y.window|] == FOREIGN;
      ws := TaintSpreads(z, s);
    } else {
      NotYet(y.streams[s], y.pc.avail);
      if z.pc.FftWait? {
        var ds, d := DropWindow(z, s);
        Compose(y, xs, z, ds, d);
        xs, z := xs + ds, d;
      }
      ws := FftDoom(z, s);
    }
    Join(y, xs, z, ws);
    xs := xs + ws;
  }

  // ---- exactness ------------------------------------------------------------------------------------------

  /** The state a recovery leaves, as far as the pump is concerned. */
  lemma Recovered(y: System, s: nat, lap: nat, w: nat) returns (z: System)
    requires Inv(y) && Harmful(y, s, lap, w)
    ensures z == Next(y, Preempt(Recover(s, lap, w))) && z.Wf()
    ensures z.streams[s] == Rewound(y.streams[s], lap, w) && y.streams[s].inUse && y.streams[s].session != FOREIGN
    ensures z.pc == y.pc && z.facOwner == y.facOwner && z.fftOwner == y.fftOwner
    ensures z.window == y.window && z.points == y.points && z.fac == y.fac
  {
    hide FacOk, FftOk;
    z := Next(y, Preempt(Recover(s, lap, w)));
  }

  lemma FacHarm(y: System, s: nat, lap: nat, w: nat) returns (xs: seq<Step>)
    requires Inv(y) && Harmful(y, s, lap, w) && (y.pc.FacLoop? || y.pc.FacLeased?)
    ensures Quiet(xs) && !Isolated(Run(Next(y, Preempt(Recover(s, lap, w))), xs))
  {
    hide Run, Isolated, Next, FftOk, StreamsOk;
    var z := Recovered(y, s, lap, w);
    if y.pc.FacLoop? {
      xs := FacDoom(z, s);
    } else {
      var v;
      xs, v := LeasedOne(z, s);
      if Tag(z.streams[s], z.streams[s].pumpRead) == FOREIGN {
        ForeignOut(v, s);
        LeadsMeans(z, xs, v);
      } else {
        NotYet(z.streams[s], y.pc.avail);
        var ws := FacDoom(v, s);
        Join(z, xs, v, ws);
        xs := xs + ws;
      }
    }
  }

  /** From a held sample, a running transform or a reduction, the pump returns to taking. */
  lemma BackToTaking(z: System, s: nat) returns (xs: seq<Step>, w: System)
    requires z.Wf() && s < STREAMS && (z.pc.FftHold? || z.pc.FftWait? || z.pc.FftReduce?) && z.pc.sid == s
    requires var o := if z.pc.FftReduce? then Token(s) else Active(s);
      z.fftOwner == o && Transforming(z.(fftOwner := Active(s)), s)
    requires z.pc.FftHold? ==> |z.window| < z.points
    ensures Leads(z, xs, w) && Transforming(w, s) && |w.window| < w.points && w.pc == FftTake(s, z.pc.ses, z.pc.avail)
    ensures w.streams[s]
         == if z.pc.FftHold? then z.streams[s].(pumpRead := z.streams[s].pumpRead + 1) else z.streams[s]
  {
    hide Run, FacStep, Leads, FrameOf;
    Stay(z);
    xs, w := [], z;
    if z.pc.FftReduce? {
      if !z.pc.done { xs, w := Go(z, xs, w, PumpStep(GREEDY)); }
      xs, w := Go(z, xs, w, PumpStep(GREEDY));
    } else {
      if z.pc.FftHold? { xs, w := Go(z, xs, w, PumpStep(GREEDY)); }
      if w.pc.FftWait? { xs, w := Go(z, xs, w, PumpStep(FAILED)); }
    }
  }

  lemma FftHarm(y: System, s: nat, lap: nat, w: nat) returns (xs: seq<Step>)
    requires Inv(y) && Harmful(y, s, lap, w) && !y.pc.FacLoop? && !y.pc.FacLeased?
    ensures Quiet(xs) && !Isolated(Run(Next(y, Preempt(Recover(s, lap, w))), xs))
  {
    hide Run, Isolated, Next, FacOk, StreamsOk, Uniform;
    var z := Recovered(y, s, lap, w);
    if y.pc.FftTake? {
      xs := FftDoom(z, s);
    } else {
      var v;
      xs, v := BackToTaking(z, s);
      var ws := FftDoom(v, s);
      Join(z, xs, v, ws);
      xs := xs + ws;
    }
  }

  /** From every state the pump can be in, a recovery has a continuation that publishes a cell
      its session never wrote if and only if it is harmful there. */
  lemma RecoveryExact(y: System, s: nat, lap: nat, w: nat)
    requires Inv(y)
    ensures Harmful(y, s, lap, w) <==>
      exists xs :: Quiet(xs) && !Isolated(Run(Next(y, Preempt(Recover(s, lap, w))), xs))
  {
    hide Run, Isolated, Next, Inv, Harmful;
    InvWf(y);
    if Harmful(y, s, lap, w) {
      var xs;
      if y.pc.FacLoop? || y.pc.FacLeased? { xs := FacHarm(y, s, lap, w); } else { xs := FftHarm(y, s, lap, w); }
    } else {
      var z := Next(y, Preempt(Recover(s, lap, w)));
      StepKeeps(y, Preempt(Recover(s, lap, w)));
      forall xs | Quiet(xs) ensures Isolated(Run(z, xs)) {
        QuietPermitted(z, xs);
        SessionsIsolated(z, xs);
      }
    }
  }

  /** Once the session has written the whole ring, no recovery is harmful. */
  lemma FullRingHarmless(y: System, s: nat, lap: nat, w: nat)
    requires y.Wf() && s < STREAMS && y.streams[s].filled >= RING
    ensures !Harmful(y, s, lap, w)
  {
  }

  /** Before that it is harmful exactly when the samples the pump counts on, read from the new
      position, reach beyond the cells written so far. */
  lemma HarmfulInFirstLap(y: System, s: nat, w: nat)
    requires y.Wf() && s < STREAMS && CanRewind(y.streams[s], 0, w)
    requires var a := Rewound(y.streams[s], 0, w); a.filled < RING && NextIndex(y, a) < RING
    ensures var a := Rewound(y.streams[s], 0, w);
      Harmful(y, s, 0, w) <==> Outstanding(y, s) > 0 && NextIndex(y, a) + Outstanding(y, s) > a.filled
  {
    hide Outstanding;
    var a := Rewound(y.streams[s], 0, w);
    var n, r := Outstanding(y, s), NextIndex(y, a);
    if n > 0 && r + n > a.filled {
      var i := Max(r, a.filled);
      assert r <= i < r + n && i % RING == i;
    }
  }

  lemma InvWf(y: System)
    requires Inv(y)
    ensures y.Wf()
  {
  }

  lemma {:induction false} QuietPermitted(y: System, xs: seq<Step>)
    requires y.Wf() && Quiet(xs)
    ensures AllPermitted(y, xs)
    decreases |xs|
  {
    if xs != [] { QuietPermitted(Next(y, xs[0]), xs[1..]); }
  }

  /** However a run is cut short and quietly continued, sessions stay isolated. */
  ghost predicate StaysIsolated(y: System, xs: seq<Step>)
    requires y.Wf()
  {
    forall k, zs | 0 <= k <= |xs| && Quiet(zs) :: Isolated(Run(Run(y, xs[..k]), zs))
  }

  /** Run by run: isolation is safe at every point if and only if no recovery of the run is
      harmful where it strikes. */
  lemma {:induction false} IsolationExact(y: System, xs: seq<Step>)
    requires y.Wf() && Inv(y)
    ensures StaysIsolated(y, xs) <==> AllPermitted(y, xs)
    decreases |xs|
  {
    hide Isolated, Next, Inv, Harmful;
    forall zs | Quiet(zs) ensures Isolated(Run(Run(y, xs[..0]), zs)) {
      QuietPermitted(y, zs);
      SessionsIsolated(y, zs);
    }
    if xs != [] {
      var z := Next(y, xs[0]);
      forall k | 0 <= k < |xs| ensures Run(y, xs[..k + 1]) == Run(z, xs[1..][..k]) {
        assert xs[..k + 1][1..] == xs[1..][..k];
      }
      if Permitted(y, xs[0]) {
        StepKeeps(y, xs[0]);
        IsolationExact(z, xs[1..]);
        Shift(y, z, xs);
      } else {
        RecoveryExact(y, xs[0].isr.s, xs[0].isr.lap, xs[0].isr.w);
        var zs :| Quiet(zs) && !Isolated(Run(z, zs));
        assert Run(z, xs[1..][..0]) == z;
        assert !Isolated(Run(Run(y, xs[..1]), zs));
      }
    }
  }

  lemma Shift(y: System, z: System, xs: seq<Step>)
    requires y.Wf() && z.Wf() && xs != []
    requires forall k | 0 <= k < |xs| :: Run(y, xs[..k + 1]) == Run(z, xs[1..][..k])
    requires forall zs | Quiet(zs) :: Isolated(Run(Run(y, xs[..0]), zs))
    ensures StaysIsolated(y, xs) <==> StaysIsolated(z, xs[1..])
  {
    hide Run, Isolated, Quiet;
    if StaysIsolated(y, xs) {
      forall k, zs | 0 <= k <= |xs[1..]| && Quiet(zs) ensures Isolated(Run(Run(z, xs[1..][..k]), zs)) {
        assert Isolated(Run(Run(y, xs[..k + 1]), zs));
      }
    }
    if StaysIsolated(z, xs[1..]) {
      forall k, zs | 0 <= k <= |xs| && Quiet(zs) ensures Isolated(Run(Run(y, xs[..k]), zs)) {
        if k > 0 { assert Isolated(Run(Run(z, xs[1..][..k - 1]), zs)); }
      }
    }
  }

  // ---- a reachable case ---------------------------------------------------------------------------------------

  const LOOK := Seen(1, true, 0, 1)

  lemma FirstBound() returns (xs: seq<Step>, y: System)
    ensures RESET.Wf() && Leads(RESET, xs, y) && y.Wf()
    ensures y.streams[0] == Stream(true, true, false, 1, 1, 1, 0, false, [])
    ensures y.facOwner == Free && y.pc == FacWant(0)
  {
    hide Run, FftStep, FacStep, Leads;
    Stay(RESET);
    xs, y := Go(RESET, [], RESET, Preempt(Begin(0)));
    xs, y := Go(RESET, xs, y, Preempt(Dma(0)));
    xs, y := Go(RESET, xs, y, Preempt(Bind(0, false, 0)));
    xs, y := Go(RESET, xs, y, PumpVisit(0));
  }

  lemma FirstMeasured() returns (xs: seq<Step>, y: System)
    ensures RESET.Wf() && Leads(RESET, xs, y) && y.Wf()
    ensures y.streams[0] == Stream(true, true, false, 1, 1, 1, 0, false, [])
    ensures y.facOwner == Active(0) && y.pc == FacLoop(0, 1, 1)
  {
    hide Run, FftStep, Leads, Interrupt;
    xs, y := FirstBound();
    xs, y := Go(RESET, xs, y, PumpStep(LOOK));
    xs, y := Go(RESET, xs, y, PumpStep(LOOK));
    xs, y := Go(RESET, xs, y, PumpStep(LOOK));
    xs, y := Go(RESET, xs, y, PumpStep(LOOK));
    xs, y := Go(RESET, xs, y, PumpStep(LOOK));
  }

  /** From reset: once the pump has measured the first sample of a session, a recovery that
      moves it past that sample is harmful. */
  lemma RecoveryPublishesForeign() returns (xs: seq<Step>, y: System, zs: seq<Step>)
    ensures RESET.Wf() && Leads(RESET, xs, y) && Inv(y) && Harmful(y, 0, 0, 1)
    ensures Quiet(zs) && !Isolated(Run(Next(y, Preempt(Recover(0, 0, 1))), zs))
  {
    hide Run, Next, Leads, Inv, Isolated;
    ResetOk();
    xs, y := FirstMeasured();
    LeadsMeans(RESET, xs, y);
    QuietPermitted(RESET, xs);
    SessionsIsolated(RESET, xs);
    HarmfulInFirstLap(y, 0, 1);
    zs := FacHarm(y, 0, 0, 1);
  }
}
