/** The anti-rollback floor with every fault allowed: which step lowers it, in each state and
    over each run. */
module OtaFloor {
  import opened Wrappers
  import opened OtaLayout
  import opened Ota
  import S = OtaSafety
  import R = OtaRollback

  // ---- the invariant ------------------------------------------------------------------------------------

  /** The record's own version is no lower than its other entry's. */
  predicate Ranked(n: Record) { n.active < 2 && n.D(n.active).fw >= n.D(Other(n.active)).fw }

  /** It is confirmed, and strictly higher: the floor would fall to the other entry's. */
  predicate High(n: Record) {
    !n.Trial() && n.active < 2 && n.D(n.active).fw > n.D(Other(n.active)).fw
  }

  predicate Ordered(y: System)
    requires y.Wf()
  {
    var n := Working(y.flash);
    if !y.up then S.Good(y.flash, n) || Ranked(n)
    else if y.trial then n.active == y.run ==> Ranked(n)
    else n.active != y.run ==> Ranked(n)
  }

  predicate Inv(y: System) { R.Inv(y) && Ordered(y) }

  // ---- the step that lowers the floor ---------------------------------------------------------------------

  predicate Lost(fault: MetaFault) { fault.EraseLost? || fault.ProgramLost? }

  /** The newest record is confirmed and higher than the fallback, and the step loses it (a
      confirm of a trial already confirmed, or a BEGIN) or replaces it by a trial (a COMMIT)
      while it is not the record of the slot that stays. */
  predicate Lowers(y: System, x: Step)
    requires y.Wf()
  {
    var n := Working(y.flash);
    && y.up && High(n)
    && match x
       case TickConfirm(fault) =>
         y.trial && y.frameSeen && y.tick.NoTick? && n.active == y.run && Lost(fault) && !CounterSpent(y.flash, 0)
       case Frame(CmdBegin(req, busy, fault)) =>
         && !y.trial && n.active != y.run && Lost(fault) && !busy
         && |req| >= 8 && 1 <= Declared(req).len <= SLOT_SIZE && n.counter <= BEGIN_MAX_COUNTER
       case Frame(CmdCommit(fault)) =>
         && !y.trial && n.active != y.run && !fault.EraseKept? && y.s.state == Verified && CommitError(y).None?
         && !CounterSpent(y.flash, TRIAL_FLAG)
       case _ => false
  }

  // ---- metadata writes -----------------------------------------------------------------------------------

  /** A held part is settled if the newest record is its own, else divergent. */
  lemma WhichHeld(f: Flash, run: nat)
    requires f.Sized() && run < 2 && R.Held(f, run)
    ensures Working(f).active == run ==> S.Settled(f, run)
    ensures Working(f).active != run ==> R.Divergent(f, run) && Working(f).active == Other(run)
  {
    hide ActiveSlotValid;
  }

  /** The three outcomes of a rank-ruled write on a divergent part, as floors. */
  lemma DivergentFloor(f: Flash, run: nat, w: MetaWrite, fault: MetaFault)
    requires f.Sized() && run < 2 && R.Divergent(f, run) && w.page.None?
    ensures var g := MetaCommit(f, run, w, fault);
      var n := Working(f);
      if CounterSpent(f, w.flags) || fault.EraseKept? then g == Written(f, false)
      else if Lost(fault) then
        !g.ok && Working(g.flash).active == run && Floor(Working(g.flash)) == n.D(run).fw
      else Working(g.flash) == NewRecord(n, w)
  {
    hide ActiveSlotValid, NewRecord, RankTarget;
    R.DivergentTarget(f, run);
    S.NewCounter(Working(f), w);
    S.NewestReplaced(f, Invalid);
    S.NewestReplaced(f, Valid(NewRecord(Working(f), w)));
  }

  lemma SettledFloor(f: Flash, run: nat, w: MetaWrite, fault: MetaFault)
    requires f.Sized() && run < 2 && S.Settled(f, run) && w.page.None?
    ensures var g := MetaCommit(f, run, w, fault);
      Working(g.flash) == Working(f) || Working(g.flash) == NewRecord(Working(f), w)
    ensures var g := MetaCommit(f, run, w, fault); g.ok ==> Working(g.flash) == NewRecord(Working(f), w)
  {
    hide ActiveSlotValid, NewRecord, MetaCommit;
    S.SettledWrite(f, run, w, fault);
  }

  // ---- BEGIN -------------------------------------------------------------------------------------------------

  lemma DemotedFloor(n: Record, run: nat)
    requires run < 2 && n.active < 2
    ensures var r := NewRecord(n, Demotion(n, run));
      r.active == n.active && Floor(r) == Floor(n) && (Ranked(n) ==> Ranked(r))
  {
  }

  lemma DemotionFloor(f: Flash, run: nat, fault: MetaFault)
    requires f.Sized() && run < 2 && R.Held(f, run) && Working(f).counter <= BEGIN_MAX_COUNTER
    requires Working(f).active != run ==> Ranked(Working(f))
    ensures var g := MetaCommit(f, run, Demotion(Working(f), run), fault).flash;
      && (Working(g).active != run ==> Ranked(Working(g)))
      && (Floor(Working(g)) < Floor(Working(f)) <==> High(Working(f)) && Working(f).active != run && Lost(fault))
  {
    hide MetaCommit, NewRecord, ActiveSlotValid;
    var n := Working(f);
    WhichHeld(f, run);
    DemotedFloor(n, run);
    if n.active == run {
      S.DemotionKeeps(f, run, fault);
      SettledFloor(f, run, Demotion(n, run), fault);
    } else {
      DivergentFloor(f, run, Demotion(n, run), fault);
    }
  }

  lemma BeginFloor(y: System, req: seq<bv8>, busy: bool, fault: MetaFault)
    requires Inv(y) && y.up && !y.trial
    ensures var z := Begin(y, req, busy, fault).y;
      && Ordered(z)
      && (S.FloorOf(z) < S.FloorOf(y) <==> Lowers(y, Frame(CmdBegin(req, busy, fault))))
  {
    hide MetaCommit, Declared, Floor, High, Ranked, R.Held, R.BootOk, R.OnTrial;
    if Working(y.flash).counter <= BEGIN_MAX_COUNTER { DemotionFloor(y.flash, y.run, fault); }
    HeldHasNewest(y.flash, y.run);
  }

  lemma HeldHasNewest(f: Flash, run: nat)
    requires f.Sized() && R.Held(f, run)
    ensures PickNewest(f).Some?
  {
  }

  // ---- COMMIT and ROLLBACK ----------------------------------------------------------------------------------

  lemma SwitchFloor(n: Record, w: MetaWrite, run: nat)
    requires run < 2 && w.active == Other(run) && w.invalidate == NO_SLOT && w.flags < 2
    requires (n.active == run && !n.Trial()) || (n.active == Other(run) && Ranked(n))
    requires (match w.entry case Some(e) => e.fw case None => n.D(Other(run)).fw) >= Floor(n)
    ensures var r := NewRecord(n, w);
      && r.active == Other(run) && Ranked(r)
      && (n.active == run ==> Floor(r) >= Floor(n))
      && (n.active != run && w.flags == TRIAL_FLAG ==> (Floor(r) < Floor(n) <==> High(n)))
  {
    hide NewRecord;
    S.SwitchRecord(n, w, run);
  }

  lemma ActivationFloor(y: System, fault: MetaFault)
    requires Inv(y) && y.up && !y.trial && CommitError(y).None?
    ensures var g := MetaCommit(y.flash, y.run, Activation(y), fault);
      var n, m := Working(y.flash), Working(g.flash);
      && (m.active != y.run ==> Ranked(m)) && (g.ok ==> Ranked(m))
      && (Floor(m) < Floor(n) <==>
            High(n) && n.active != y.run && !fault.EraseKept? && !CounterSpent(y.flash, TRIAL_FLAG))
  {
    hide MetaCommit, NewRecord, ActiveSlotValid, Bootable, TrialCapable, CounterSpent;
    var f, run, w := y.flash, y.run, Activation(y);
    var n := Working(f);
    WhichHeld(f, run);
    SwitchFloor(n, w, run);
    OkMeans(f, run, w, fault);
    if n.active == run {
      SettledFloor(f, run, w, fault);
    } else {
      DivergentFloor(f, run, w, fault);
    }
  }

  /** A successful write lands. */
  lemma OkMeans(f: Flash, run: nat, w: MetaWrite, fault: MetaFault)
    ensures MetaCommit(f, run, w, fault).ok ==> fault.Done? && !CounterSpent(f, w.flags)
  {
  }

  lemma CommitFloor(y: System, fault: MetaFault)
    requires Inv(y) && y.up && !y.trial
    ensures var z := Commit(y, fault).y;
      && Ordered(z)
      && (S.FloorOf(z) < S.FloorOf(y) <==> Lowers(y, Frame(CmdCommit(fault))))
  {
    hide MetaCommit, CommitError, Floor, High, Ranked, R.Held, CounterSpent, S.Good;
    if CommitError(y).None? { ActivationFloor(y, fault); }
  }

  lemma FallbackFloor(y: System, fault: MetaFault)
    requires Inv(y) && y.up && !y.trial && !R.Hazard(y, Frame(CmdRollback(fault)))
    requires (y.s.state == Idle || y.s.state == Error) && FindFallback(y.flash).ReturnTo?
    ensures var g := MetaCommit(y.flash, y.run, FindFallback(y.flash).write, fault);
      var n, m := Working(y.flash), Working(g.flash);
      && (m.active != y.run ==> Ranked(m)) && Floor(m) >= Floor(n)
      && (g.ok ==> S.Good(g.flash, m) || Ranked(m))
  {
    hide MetaCommit, NewRecord, ActiveSlotValid, FindFallback, CounterSpent;
    var f, run, w := y.flash, y.run, FindFallback(y.flash).write;
    var n := Working(f);
    WhichHeld(f, run);
    R.FallbackWrite(f, run);
    FallbackVersion(f, run);
    OkMeans(f, run, w, fault);
    if n.active == run {
      SwitchFloor(n, w, run);
      SettledFloor(f, run, w, fault);
    } else {
      DivergentFloor(f, run, w, fault);
      DivergentEntry(f, run);
      R.ReturnRecord(n, w, run);
      R.FallbackHolds(y, fault);
      var g := MetaCommit(f, run, w, fault).flash;
      WhichHeld(g, run);
    }
  }

  lemma DivergentEntry(f: Flash, run: nat)
    requires f.Sized() && run < 2 && R.Divergent(f, run)
    ensures Working(f).D(run).valid
  {
  }

  /** ROLLBACK goes ahead only to a version at or above the floor. */
  lemma FallbackVersion(f: Flash, run: nat)
    requires f.Sized() && run < 2 && R.Held(f, run) && FindFallback(f).ReturnTo?
    ensures var n := Working(f);
      n.active < 2 && n.D(Other(n.active)).fw >= Floor(n)
  {
    hide TrialCapable, ImageMatches;
  }

  lemma RollbackFloor(y: System, fault: MetaFault)
    requires Inv(y) && y.up && !y.trial && !R.Hazard(y, Frame(CmdRollback(fault)))
    ensures var z := Rollback(y, fault).y; Ordered(z) && S.FloorOf(z) >= S.FloorOf(y)
  {
    hide MetaCommit, FindFallback, Floor, Ranked, R.Held, S.Good;
    if (y.s.state == Idle || y.s.state == Error) && FindFallback(y.flash).ReturnTo? {
      FallbackFloor(y, fault);
    }
  }

  // ---- confirm and reset ---------------------------------------------------------------------------------------

  lemma ConfirmWriteFloor(f: Flash, run: nat, fault: MetaFault)
    requires f.Sized() && run < 2 && R.OnTrial(f, run) && Working(f).active == run && Ranked(Working(f))
    ensures var p := PickNewest(f).value.page;
      var g := MetaCommit(f, run, MetaWrite(run, None, 0, Some(p), NO_SLOT), fault);
      var n, m := Working(f), Working(g.flash);
      && (m.active == run ==> Ranked(m)) && (g.ok ==> S.Good(g.flash, m))
      && (Floor(m) < Floor(n) <==> High(n) && Lost(fault) && !CounterSpent(f, 0))
  {
    hide NewRecord, ActiveSlotValid;
    var n := PickNewest(f).value;
    var w := MetaWrite(run, None, 0, Some(n.page), NO_SLOT);
    var g := MetaCommit(f, run, w, fault).flash;
    S.ValidEntry(f, n.rec);
    S.ConfirmRecord(n.rec, w);
    S.NewestReplaced(f, Invalid);
    S.NewestReplaced(f, Valid(NewRecord(n.rec, w)));
    S.SameEntry(f, n.rec, NewRecord(n.rec, w));
    S.SameImages(f, g, NewRecord(n.rec, w));
  }

  lemma ConfirmFloor(y: System, fault: MetaFault)
    requires Inv(y) && y.up
    ensures var z := ConfirmTick(y, fault);
      && Ordered(z)
      && (S.FloorOf(z) < S.FloorOf(y) <==> Lowers(y, TickConfirm(fault)))
  {
    hide MetaCommit, ActiveSlotValid, Floor, High, Ranked, CounterSpent;
    if y.trial {
      if Working(y.flash).active == y.run {
        R.ConfirmWrite(y.flash, y.run, fault);
        ConfirmWriteFloor(y.flash, y.run, fault);
      } else {
        assert FindRunning(y.flash, y.run).None?;
      }
    }
  }

  /** Whatever runs, a reset finds a newest record that is good or ranked. */
  lemma OrderedDown(y: System)
    requires Inv(y)
    ensures S.Good(y.flash, Working(y.flash)) || Ranked(Working(y.flash))
  {
    hide ActiveSlotValid;
  }

  lemma GoodIsChosen(f: Flash, wdt: bool)
    requires f.Sized() && PickNewest(f).Some? && S.Good(f, Working(f))
    ensures Decide(f, wdt).Some? && Decide(f, wdt).value.slot == Working(f).active
  {
    hide ActiveSlotValid;
  }

  /** The newest record decides whether its slot runs on trial. */
  lemma TrialIsNewest(f: Flash)
    requires PickNewest(f).Some?
    ensures Trialling(f, Working(f).active) == Working(f).Trial()
  {
  }

  lemma HealFloor(f: Flash, run: nat, heal: MetaFault)
    requires f.Sized() && run < 2 && R.Divergent(f, run) && Ranked(Working(f))
    ensures var g := Healed(f, run, heal);
      (Working(g).active != run ==> Ranked(Working(g))) && Floor(Working(g)) == Floor(Working(f))
  {
    hide MetaCommit, ActiveSlotValid, NewRecord, FindRunning;
    if HealDue(f, run) {
      var n := Working(f);
      DivergentEntry(f, run);
      S.HealRecord(n, run);
      DivergentFloor(f, run, Heal(run, n.active), heal);
    }
  }

  lemma BootFloor(y: System, wdt: bool, heal: MetaFault)
    requires Inv(y)
    ensures var z := Boot(y, wdt, heal); Ordered(z) && S.FloorOf(z) == S.FloorOf(y)
  {
    hide Decide, ActiveSlotValid, MetaCommit, HealDue, Trialling, Floor, Ranked;
    R.InvBoots(y);
    OrderedDown(y);
    var f := y.flash;
    R.DecideHolds(f, wdt);
    if S.Good(f, Working(f)) { GoodIsChosen(f, wdt); }
    if ActiveSlotValid(f, Working(f)) && Decide(f, wdt).value.slot == Working(f).active {
      R.StartHolds(f);
      TrialIsNewest(f);
    } else {
      R.FallbackStart(f);
      HealFloor(f, Other(Working(f).active), heal);
    }
  }

  // ---- every run -----------------------------------------------------------------------------------------------

  lemma SameWorking(y: System, x: Step)
    requires y.Wf() && y.up && (x.TickErase? || x.TickSnapshot? || x.TickPublish?
      || (x.Frame? && (y.trial || x.cmd.CmdWrite? || x.cmd.CmdVerify? || x.cmd.CmdAbort? || x.cmd.CmdOther?)))
    ensures var z := Next(y, x);
      Working(z.flash) == Working(y.flash) && z.run == y.run && z.up && z.trial == y.trial
  {
    hide WriteChunk, ErasePage;
  }

  /** From every state, with every fault allowed: a step lowers the floor if and only if it is
      one of those named. */
  lemma StepFloor(y: System, x: Step)
    requires y.Wf() && Inv(y) && !R.Hazard(y, x)
    ensures Inv(Next(y, x))
    ensures S.FloorOf(Next(y, x)) < S.FloorOf(y) <==> Lowers(y, x)
  {
    hide R.Inv, Floor, High, Ranked, Begin, Commit, Rollback, ConfirmTick, Boot, R.Hazard, Working, S.Good, Write,
      Verify, EraseCall, CommitError, CounterSpent, Declared;
    R.StepHolds(y, x);
    match x
    case Restart(wdt, heal) => BootFloor(y, wdt, heal);
    case TickConfirm(fault) => if y.up { ConfirmFloor(y, fault); }
    case Frame(c) =>
      if y.up && !y.trial && (c.CmdBegin? || c.CmdCommit? || c.CmdRollback?) {
        match c
        case CmdBegin(req, busy, fault) => BeginFloor(y, req, busy, fault);
        case CmdCommit(fault) => CommitFloor(y, fault);
        case CmdRollback(fault) => RollbackFloor(y, fault);
      } else if y.up {
        SameWorking(y, x);
      }
    case _ => if y.up { SameWorking(y, x); }
  }

  /** The floor does not fall at any step of the run. */
  predicate NeverFalls(y: System, xs: seq<Step>)
    requires y.Wf()
    decreases |xs|
  {
    xs == [] || (S.FloorOf(Next(y, xs[0])) >= S.FloorOf(y) && NeverFalls(Next(y, xs[0]), xs[1..]))
  }

  /** No step of the run is one that lowers it. */
  predicate NoneLowers(y: System, xs: seq<Step>)
    requires y.Wf()
    decreases |xs|
  {
    xs == [] || (!Lowers(y, xs[0]) && NoneLowers(Next(y, xs[0]), xs[1..]))
  }

  /** Run by run, with every fault allowed and no hazardous ROLLBACK: the floor never falls if
      and only if no step of the run lowers it where it strikes. */
  lemma {:induction false} FloorExactOverRuns(y: System, xs: seq<Step>)
    requires y.Wf() && Inv(y) && R.NoHazard(y, xs)
    ensures NeverFalls(y, xs) <==> NoneLowers(y, xs)
    decreases |xs|
  {
    hide Inv, Next, Lowers, R.Hazard, S.FloorOf;
    if xs != [] {
      StepFloor(y, xs[0]);
      FloorExactOverRuns(Next(y, xs[0]), xs[1..]);
    }
  }

  /** The same from a provisioned part. */
  lemma FloorExactFromFactory(y: System, xs: seq<Step>)
    requires S.Factory(y) && R.NoHazard(y, xs)
    ensures NeverFalls(y, xs) <==> NoneLowers(y, xs)
  {
    hide NeverFalls, NoneLowers, R.NoHazard;
    R.FactoryOk(y);
    FloorExactOverRuns(y, xs);
  }
}
