/** Bootability with every fault allowed: the one step that endangers it is a ROLLBACK accepted
    while the newest record names a slot that is not running and the running image is
    trial-capable. */
module OtaRollback {
  import opened Wrappers
  import opened OtaLayout
  import opened Ota
  import S = OtaSafety

  // ---- the invariant -----------------------------------------------------------------------------------

  /** Record `n` is backed by the confirmed record of the other slot. */
  predicate Backed(f: Flash, n: Record, g: Page)
    requires f.Sized()
  {
    && g.Valid? && S.Good(f, g.rec) && n.active < 2 && g.rec.active == Other(n.active)
    && n.D(g.rec.active) == g.rec.D(g.rec.active)
  }

  /** Enough to boot, whatever the reset cause. */
  predicate BootOk(f: Flash)
    requires f.Sized()
  {
    && PickNewest(f).Some?
    && var n := PickNewest(f).value;
    S.Good(f, n.rec) || Backed(f, n.rec, f.P(Other(n.page)))
  }

  /** The newest record names the other slot, and the running one's confirmed record backs it. */
  predicate Divergent(f: Flash, run: nat)
    requires f.Sized()
  {
    && PickNewest(f).Some?
    && var n := PickNewest(f).value;
    n.rec.active == Other(run) && Backed(f, n.rec, f.P(Other(n.page)))
  }

  predicate Held(f: Flash, run: nat)
    requires f.Sized()
  {
    S.Settled(f, run) || Divergent(f, run)
  }

  predicate OnTrial(f: Flash, run: nat)
    requires f.Sized()
  {
    && PickNewest(f).Some?
    && var n := PickNewest(f).value;
    var o := f.P(Other(n.page));
    || (n.rec.active == run && ActiveSlotValid(f, n.rec) && Backed(f, n.rec, o))
    || (S.Good(f, n.rec) && n.rec.active == Other(run) && o.Invalid?)
  }

  predicate Inv(y: System) {
    && y.Wf()
    && (y.up && y.trial ==> y.tick.NoTick? && !y.s.erasing)
    && if !y.up then BootOk(y.flash) else if y.trial then OnTrial(y.flash, y.run) else Held(y.flash, y.run)
  }

  lemma InvBoots(y: System)
    requires Inv(y)
    ensures BootOk(y.flash)
  {
  }

  // ---- the hazard ------------------------------------------------------------------------------------------

  /** The step is a ROLLBACK whose trial record of the running slot lands over the newest
      record of the other slot. */
  predicate Hazard(y: System, x: Step)
    requires y.Wf()
  {
    && x.Frame? && x.cmd.CmdRollback? && y.up && !y.trial && (y.s.state == Idle || y.s.state == Error)
    && (x.cmd.back.Done? || x.cmd.back.ProgramLate?)
    && PickNewest(y.flash).Some? && PickNewest(y.flash).value.rec.active != y.run
    && FindFallback(y.flash).ReturnTo? && FindFallback(y.flash).write.flags == TRIAL_FLAG
    && !CounterSpent(y.flash, TRIAL_FLAG)
  }

  // ---- metadata writes -----------------------------------------------------------------------------------

  lemma DivergentTarget(f: Flash, run: nat)
    requires f.Sized() && run < 2 && Divergent(f, run)
    ensures RankTarget(f, run) == PickNewest(f).value.page
  {
    hide ActiveSlotValid;
  }

  /** A rank-ruled write on a divergent part keeps everything, loses the newest record, or
      replaces it. */
  lemma DivergentWrite(f: Flash, run: nat, w: MetaWrite, fault: MetaFault)
    requires f.Sized() && run < 2 && Divergent(f, run) && w.page.None?
    ensures var g := MetaCommit(f, run, w, fault);
      var n := PickNewest(f).value;
      var o := Other(n.page);
      && g.flash.a == f.a && g.flash.b == f.b && g.flash.P(o) == f.P(o)
      && (g.ok ==> fault.Done?)
      && (|| (!g.ok && g.flash == f)
          || (!g.ok && g.flash.P(n.page) == Invalid && PickNewest(g.flash) == Some(Newest(f.P(o).rec, o)))
          || ((g.ok || fault.ProgramLate?) && !CounterSpent(f, w.flags)
              && PickNewest(g.flash) == Some(Newest(NewRecord(n.rec, w), n.page))))
  {
    hide ActiveSlotValid, NewRecord, RankTarget;
    DivergentTarget(f, run);
    S.NewCounter(PickNewest(f).value.rec, w);
    S.NewestReplaced(f, Invalid);
    S.NewestReplaced(f, Valid(NewRecord(PickNewest(f).value.rec, w)));
  }

  /** The same part with other metadata or another inactive slot backs as before. */
  lemma StillBacked(f: Flash, g: Flash, n: Record, p: Page)
    requires f.Sized() && g.Sized() && Backed(f, n, p) && f.S(p.rec.active).bytes == g.S(p.rec.active).bytes
    ensures Backed(g, n, p)
  {
    S.SameImages(f, g, p.rec);
    hide ActiveSlotValid;
  }

  lemma BackedAlso(f: Flash, n: Record, m: Record, p: Page)
    requires f.Sized() && Backed(f, n, p) && m.active == n.active && m.D(p.rec.active) == n.D(p.rec.active)
    ensures Backed(f, m, p)
  {
  }

  /** A write naming the other slot that leaves the running slot's entry alone. */
  lemma DivergentStays(f: Flash, run: nat, w: MetaWrite, fault: MetaFault)
    requires f.Sized() && run < 2 && Divergent(f, run) && w.page.None?
    requires var r := NewRecord(Working(f), w); r.active == Other(run) && r.D(run) == Working(f).D(run)
    ensures var g := MetaCommit(f, run, w, fault); Held(g.flash, run)
    ensures var g := MetaCommit(f, run, w, fault); g.ok ==> BootOk(g.flash)
  {
    hide MetaCommit, NewRecord, ActiveSlotValid;
    var n := PickNewest(f).value;
    var g := MetaCommit(f, run, w, fault).flash;
    var p := f.P(Other(n.page));
    DivergentWrite(f, run, w, fault);
    StillBacked(f, g, n.rec, p);
    BackedAlso(g, n.rec, NewRecord(n.rec, w), p);
    S.SameImages(f, g, p.rec);
  }

  lemma DemotionHolds(f: Flash, run: nat, fault: MetaFault)
    requires f.Sized() && run < 2 && Held(f, run)
    ensures Held(MetaCommit(f, run, Demotion(Working(f), run), fault).flash, run)
  {
    hide MetaCommit, ActiveSlotValid;
    if S.Settled(f, run) {
      S.DemotionKeeps(f, run, fault);
    } else {
      DemotionRecord(Working(f), run);
      hide NewRecord;
      DivergentStays(f, run, Demotion(Working(f), run), fault);
    }
  }

  lemma DemotionRecord(n: Record, run: nat)
    requires run < 2 && n.active == Other(run)
    ensures var r := NewRecord(n, Demotion(n, run)); r.active == n.active && r.D(run) == n.D(run)
  {
  }

  lemma BeginHolds(y: System, req: seq<bv8>, busy: bool, fault: MetaFault)
    requires Inv(y) && y.up && !y.trial
    ensures Inv(Begin(y, req, busy, fault).y) && !Begin(y, req, busy, fault).y.trial
  {
    hide Declared, MetaCommit, ActiveSlotValid, S.Settled, Divergent;
    DemotionHolds(y.flash, y.run, fault);
  }

  /** A write that turns to the other slot, from either state. */
  lemma SwitchHolds(f: Flash, run: nat, w: MetaWrite, fault: MetaFault)
    requires f.Sized() && run < 2 && Held(f, run)
    requires w.page.None? && w.active == Other(run) && w.invalidate == NO_SLOT
    ensures var g := MetaCommit(f, run, w, fault); Held(g.flash, run) && (g.ok ==> BootOk(g.flash))
  {
    hide MetaCommit, NewRecord, ActiveSlotValid;
    var n := PickNewest(f).value;
    S.SwitchRecord(n.rec, w, run);
    if S.Settled(f, run) {
      var g := MetaCommit(f, run, w, fault).flash;
      S.SettledWrite(f, run, w, fault);
      S.SameImages(f, g, n.rec);
    } else {
      DivergentStays(f, run, w, fault);
    }
  }

  lemma CommitHolds(y: System, fault: MetaFault)
    requires Inv(y) && y.up && !y.trial
    ensures Inv(Commit(y, fault).y) && !Commit(y, fault).y.trial
  {
    hide MetaCommit, CommitError, S.Settled, Divergent, BootOk;
    SwitchHolds(y.flash, y.run, Activation(y), fault);
  }

  // ---- ROLLBACK -----------------------------------------------------------------------------------------------

  /** What ROLLBACK would write. */
  lemma FallbackWrite(f: Flash, run: nat)
    requires f.Sized() && run < 2 && Held(f, run) && FindFallback(f).ReturnTo?
    ensures var w := FindFallback(f).write;
      && w.page.None? && w.entry.None? && w.invalidate == NO_SLOT && w.flags < 2
      && w.active == if S.Settled(f, run) then Other(run) else run
  {
    hide TrialCapable, Bootable, ImageMatches;
  }

  lemma ReturnRecord(n: Record, w: MetaWrite, run: nat)
    requires run < 2 && w.active == run && w.entry.None? && w.invalidate == NO_SLOT && n.D(run).valid
    ensures var r := NewRecord(n, w);
      r.active == run && r.flags == w.flags && r.D(run) == n.D(run) && r.counter == n.counter + 1
  {
  }

  /** On a divergent part, a confirmed record of the running slot settles it. */
  lemma ReturnSettles(f: Flash, run: nat, w: MetaWrite, fault: MetaFault)
    requires f.Sized() && run < 2 && Divergent(f, run)
    requires w.page.None? && w.active == run && w.entry.None? && w.invalidate == NO_SLOT
    requires w.flags == 0 || !(fault.Done? || fault.ProgramLate?) || CounterSpent(f, w.flags)
    ensures var g := MetaCommit(f, run, w, fault); Held(g.flash, run) && (g.ok ==> BootOk(g.flash))
  {
    hide MetaCommit, NewRecord, ActiveSlotValid;
    var n := PickNewest(f).value;
    var g := MetaCommit(f, run, w, fault).flash;
    var p := f.P(Other(n.page));
    DivergentWrite(f, run, w, fault);
    StillBacked(f, g, n.rec, p);
    S.SameImages(f, g, p.rec);
    S.ValidEntry(f, p.rec);
    ReturnRecord(n.rec, w, run);
    S.SameEntry(g, p.rec, NewRecord(n.rec, w));
  }

  lemma FallbackHolds(y: System, fault: MetaFault)
    requires Inv(y) && y.up && !y.trial && !Hazard(y, Frame(CmdRollback(fault)))
    requires (y.s.state == Idle || y.s.state == Error) && FindFallback(y.flash).ReturnTo?
    ensures var g := MetaCommit(y.flash, y.run, FindFallback(y.flash).write, fault);
      Held(g.flash, y.run) && (g.ok ==> BootOk(g.flash))
  {
    hide MetaCommit, ActiveSlotValid, FindFallback, CounterSpent;
    FallbackWrite(y.flash, y.run);
    var w := FindFallback(y.flash).write;
    if S.Settled(y.flash, y.run) {
      SwitchHolds(y.flash, y.run, w, fault);
    } else {
      ReturnSettles(y.flash, y.run, w, fault);
    }
  }

  lemma RollbackHolds(y: System, fault: MetaFault)
    requires Inv(y) && y.up && !y.trial && !Hazard(y, Frame(CmdRollback(fault)))
    ensures Inv(Rollback(y, fault).y) && !Rollback(y, fault).y.trial
  {
    hide MetaCommit, FindFallback, S.Settled, Divergent, BootOk;
    if (y.s.state == Idle || y.s.state == Error) && FindFallback(y.flash).ReturnTo? {
      FallbackHolds(y, fault);
    }
  }

  // ---- slots and confirm -----------------------------------------------------------------------------------

  lemma StillHeld(f: Flash, g: Flash, run: nat)
    requires f.Sized() && g.Sized() && run < 2 && Held(f, run)
    requires f.p0 == g.p0 && f.p1 == g.p1 && g.S(run).bytes == f.S(run).bytes
    ensures Held(g, run)
  {
    hide ActiveSlotValid;
    if S.Settled(f, run) {
      S.StillSettled(f, g, run);
    } else {
      var n := PickNewest(f).value;
      StillBacked(f, g, n.rec, f.P(Other(n.page)));
    }
  }

  lemma WriteHolds(y: System, req: seq<bv8>, fault: ProgFault)
    requires Inv(y) && y.up && !y.trial
    ensures Inv(Write(y, req, fault).y) && !Write(y, req, fault).y.trial
  {
    hide WriteChunk, S.Settled, Divergent;
    StillHeld(y.flash, Write(y, req, fault).y.flash, y.run);
  }

  lemma EraseHolds(y: System, fault: EraseFault)
    requires Inv(y) && y.up
    ensures Inv(EraseCall(y, fault))
  {
    hide ErasePage, S.Settled, Divergent, OnTrial;
    if !y.trial { StillHeld(y.flash, EraseCall(y, fault).flash, y.run); }
  }

  lemma ConfirmWrite(f: Flash, run: nat, fault: MetaFault)
    requires f.Sized() && run < 2 && OnTrial(f, run) && Working(f).active == run
    ensures var n := PickNewest(f).value;
      var g := MetaCommit(f, run, MetaWrite(run, None, 0, Some(n.page), NO_SLOT), fault);
      FindRunning(f, run) == Some(n) && OnTrial(g.flash, run) && (g.ok ==> BootOk(g.flash))
  {
    hide NewRecord, ActiveSlotValid;
    var n := PickNewest(f).value;
    var w := MetaWrite(run, None, 0, Some(n.page), NO_SLOT);
    var g := MetaCommit(f, run, w, fault).flash;
    var p := f.P(Other(n.page));
    S.ValidEntry(f, n.rec);
    S.ConfirmRecord(n.rec, w);
    S.NewestReplaced(f, Invalid);
    S.NewestReplaced(f, Valid(NewRecord(n.rec, w)));
    S.SameEntry(f, n.rec, NewRecord(n.rec, w));
    S.SameImages(f, g, n.rec);
    S.SameImages(f, g, NewRecord(n.rec, w));
    S.SameImages(f, g, p.rec);
  }

  lemma ConfirmHolds(y: System, fault: MetaFault)
    requires Inv(y) && y.up
    ensures Inv(ConfirmTick(y, fault))
  {
    hide MetaCommit, ActiveSlotValid, BootOk;
    if y.trial {
      if Working(y.flash).active == y.run {
        ConfirmWrite(y.flash, y.run, fault);
      } else {
        assert FindRunning(y.flash, y.run).None?;
      }
    }
  }

  // ---- reset --------------------------------------------------------------------------------------------------

  /** The slot the bootloader takes, in its strict pass: the newest record's if that is good or
      an acceptable trial, else its backing's. */
  lemma DecideHolds(f: Flash, wdt: bool)
    requires f.Sized() && BootOk(f)
    ensures Decide(f, wdt).Some? && !Decide(f, wdt).value.lastResort
    ensures var n := PickNewest(f).value;
      var slot := Decide(f, wdt).value.slot;
      || (slot == n.rec.active && ActiveSlotValid(f, n.rec)
          && (S.Good(f, n.rec) || Backed(f, n.rec, f.P(Other(n.page)))))
      || (Backed(f, n.rec, f.P(Other(n.page))) && slot == Other(n.rec.active))
  {
    hide ActiveSlotValid;
  }

  lemma StartHolds(f: Flash)
    requires f.Sized() && BootOk(f) && ActiveSlotValid(f, Working(f))
    ensures var run := Working(f).active;
      && !HealDue(f, run)
      && (if Trialling(f, run) then OnTrial(f, run) else Held(f, run))
  {
    hide ImageMatches;
  }

  lemma FallbackStart(f: Flash)
    requires f.Sized() && PickNewest(f).Some? && Backed(f, Working(f), f.P(Other(PickNewest(f).value.page)))
    ensures var run := Other(Working(f).active);
      !Trialling(f, run) && Divergent(f, run) && run < 2
  {
    hide ActiveSlotValid;
  }

  lemma HealHolds(f: Flash, run: nat, heal: MetaFault)
    requires f.Sized() && run < 2 && Divergent(f, run)
    ensures Held(Healed(f, run, heal), run)
  {
    hide MetaCommit, ActiveSlotValid, HealDue, NewRecord;
    if HealDue(f, run) {
      var n := PickNewest(f).value;
      var p := f.P(Other(n.page));
      var w := Heal(run, n.rec.active);
      var g := Healed(f, run, heal);
      DivergentWrite(f, run, w, heal);
      StillBacked(f, g, n.rec, p);
      S.SameImages(f, g, p.rec);
      S.ValidEntry(f, p.rec);
      S.HealRecord(n.rec, run);
      S.SameEntry(g, p.rec, NewRecord(n.rec, w));
    }
  }

  lemma BootHolds(y: System, wdt: bool, heal: MetaFault)
    requires Inv(y)
    ensures Inv(Boot(y, wdt, heal)) && Boot(y, wdt, heal).up
  {
    hide Decide, ActiveSlotValid, MetaCommit, HealDue, Trialling;
    InvBoots(y);
    var f := y.flash;
    DecideHolds(f, wdt);
    if ActiveSlotValid(f, Working(f)) && Decide(f, wdt).value.slot == Working(f).active {
      StartHolds(f);
    } else {
      FallbackStart(f);
      HealHolds(f, Other(Working(f).active), heal);
    }
  }

  // ---- every run ----------------------------------------------------------------------------------------------

  lemma DispatchHolds(y: System, c: Command)
    requires Inv(y) && y.up && !y.trial && !Hazard(y, Frame(c))
    ensures Inv(Dispatch(y, c).y)
  {
    hide Begin, Write, Commit, Rollback, S.Settled, Divergent, Hazard;
    match c
    case CmdBegin(req, busy, fault) => BeginHolds(y, req, busy, fault);
    case CmdWrite(req, fault) => WriteHolds(y, req, fault);
    case CmdCommit(fault) => CommitHolds(y, fault);
    case CmdRollback(fault) => RollbackHolds(y, fault);
    case _ =>
  }

  lemma StepHolds(y: System, x: Step)
    requires Inv(y) && !Hazard(y, x)
    ensures Inv(Next(y, x))
  {
    hide Held, OnTrial, BootOk, Boot, Dispatch, EraseCall, ConfirmTick, Hazard;
    match x
    case Restart(wdt, heal) => BootHolds(y, wdt, heal);
    case Frame(c) =>
      if y.up && y.trial { S.TrialGate(y, c); }
      if y.up && !y.trial { DispatchHolds(y, c); }
    case TickErase(fault) => if y.up { EraseHolds(y, fault); }
    case TickConfirm(fault) => if y.up { ConfirmHolds(y, fault); }
    case _ =>
  }

  lemma InvSafe(y: System)
    requires Inv(y)
    ensures S.Safe(y)
  {
    hide S.Good, Decide;
    InvBoots(y);
    var f := y.flash;
    var n := PickNewest(f).value;
    assert f.P(n.page) == Valid(n.rec);
    var i := if S.Good(f, n.rec) then n.page else Other(n.page);
    assert f.P(i).Valid? && S.Good(f, f.P(i).rec);
    forall wdt ensures Decide(f, wdt).Some? && !Decide(f, wdt).value.lastResort { DecideHolds(f, wdt); }
  }

  /** No ROLLBACK of the run is a hazard where it strikes. */
  predicate NoHazard(y: System, xs: seq<Step>)
    requires y.Wf()
    decreases |xs|
  {
    xs == [] || (!Hazard(y, xs[0]) && NoHazard(Next(y, xs[0]), xs[1..]))
  }

  /** With every fault allowed everywhere, the part stays bootable over every run in which no
      such ROLLBACK is accepted. */
  lemma {:induction false} RunHolds(y: System, xs: seq<Step>)
    requires y.Wf() && Inv(y) && NoHazard(y, xs)
    ensures Inv(Run(y, xs)) && S.Safe(Run(y, xs))
    decreases |xs|
  {
    hide BootOk, OnTrial, Held, Next, Hazard, S.Safe;
    if xs == [] {
      InvSafe(y);
    } else {
      StepHolds(y, xs[0]);
      RunHolds(Next(y, xs[0]), xs[1..]);
    }
  }

  lemma FactoryOk(y: System)
    requires S.Factory(y)
    ensures Inv(y)
  {
  }

  /** The same from a provisioned part. */
  lemma AnyFaultBootable(y: System, xs: seq<Step>)
    requires S.Factory(y) && NoHazard(y, xs)
    ensures S.Safe(Run(y, xs))
  {
    FactoryOk(y);
    RunHolds(y, xs);
  }

  // ---- the converse -----------------------------------------------------------------------------------------------

  /** No further ROLLBACK. */
  predicate Quiet(xs: seq<Step>) { forall i | 0 <= i < |xs| :: !(xs[i].Frame? && xs[i].cmd.CmdRollback?) }

  /** Both pages name the running slot, the newest one on trial. */
  predicate SelfTrial(f: Flash, run: nat)
    requires f.Sized()
  {
    && run < 2 && PickNewest(f).Some?
    && var n := PickNewest(f).value;
    var o := f.P(Other(n.page));
    && n.rec.active == run && n.rec.Trial() && ActiveSlotValid(f, n.rec) && n.rec.counter < COUNTER_LIMIT
    && o.Valid? && o.rec.active == run && !o.rec.Trial() && o.rec.counter < n.rec.counter
  }

  /** A hazardous ROLLBACK leads there. */
  lemma HazardLands(y: System, x: Step)
    requires Inv(y) && Hazard(y, x)
    ensures SelfTrial(Next(y, x).flash, y.run)
  {
    hide ActiveSlotValid, NewRecord, FindFallback, MetaCommit;
    var f := y.flash;
    var n := PickNewest(f).value;
    var p := f.P(Other(n.page));
    var w := FindFallback(f).write;
    var g := MetaCommit(f, y.run, w, x.cmd.back).flash;
    FallbackWrite(f, y.run);
    LandsOnNewest(f, y.run, w, x.cmd.back);
    S.ValidEntry(f, p.rec);
    ReturnRecord(n.rec, w, y.run);
    S.SameEntry(f, p.rec, NewRecord(n.rec, w));
    S.SameImages(f, g, NewRecord(n.rec, w));
  }

  lemma LandsOnNewest(f: Flash, run: nat, w: MetaWrite, fault: MetaFault)
    requires f.Sized() && run < 2 && Divergent(f, run) && w.page.None?
    requires (fault.Done? || fault.ProgramLate?) && !CounterSpent(f, w.flags)
    ensures var g := MetaCommit(f, run, w, fault).flash;
      var n := PickNewest(f).value;
      && g.a == f.a && g.b == f.b && g.P(Other(n.page)) == f.P(Other(n.page))
      && PickNewest(g) == Some(Newest(NewRecord(n.rec, w), n.page))
  {
    hide ActiveSlotValid, NewRecord, RankTarget;
    DivergentTarget(f, run);
    S.NewCounter(PickNewest(f).value.rec, w);
    S.NewestReplaced(f, Valid(NewRecord(PickNewest(f).value.rec, w)));
  }

  lemma SelfTrialBoots(y: System)
    requires y.Wf() && SelfTrial(y.flash, y.run)
    ensures Next(y, Restart(false, Done)) == Start(y.flash, y.run, Done)
    ensures var z := Start(y.flash, y.run, Done); z.flash == y.flash && z.trial && z.Wf()
  {
    hide ActiveSlotValid;
  }

  /** Its confirm is lost once, and the next takes the fallback for its own record. */
  lemma SelfTrialEnds(z: System)
    requires z.Wf() && SelfTrial(z.flash, z.run) && z.up && z.trial && z.frameSeen && z.tick.NoTick?
    ensures var w := Next(Next(z, TickConfirm(ProgramLost)), TickConfirm(EraseLost));
      w.flash.p0.Invalid? && w.flash.p1.Invalid?
  {
    hide ActiveSlotValid;
    var n := PickNewest(z.flash).value;
    assert FindRunning(z.flash, z.run) == Some(n);
    var w := Next(z, TickConfirm(ProgramLost));
    assert w == z.(flash := z.flash.WithPage(n.page, Invalid));
  }

  lemma NothingLeft(y: System)
    requires y.Wf() && y.flash.p0.Invalid? && y.flash.p1.Invalid?
    ensures !S.Safe(y)
  {
    assert forall i: nat :: y.flash.P(i).Invalid?;
  }

  const LAST_STEPS: seq<Step> :=
    [Restart(false, Done), Frame(CmdOther), TickConfirm(ProgramLost), TickConfirm(EraseLost)]

  lemma SelfTrialBricks(y: System)
    requires y.Wf() && SelfTrial(y.flash, y.run)
    ensures Quiet(LAST_STEPS) && !S.Safe(Run(y, LAST_STEPS))
  {
    hide SelfTrial, S.Safe;
    SelfTrialBoots(y);
    var b := Start(y.flash, y.run, Done);
    var z := b.(frameSeen := true);
    FrameNoted(b);
    SelfTrialEnds(z);
    var c := Next(z, TickConfirm(ProgramLost));
    RunFour(y, b, z, c);
    NothingLeft(Next(c, TickConfirm(EraseLost)));
  }

  lemma FrameNoted(y: System)
    requires y.Wf() && y.up && y.trial
    ensures Next(y, Frame(CmdOther)) == y.(frameSeen := true)
  {
  }

  lemma RunFour(y: System, b: System, z: System, c: System)
    requires y.Wf() && b.Wf() && z.Wf() && c.Wf() && Next(y, LAST_STEPS[0]) == b && Next(b, LAST_STEPS[1]) == z
    requires Next(z, LAST_STEPS[2]) == c
    ensures Run(y, LAST_STEPS) == Next(c, LAST_STEPS[3])
  {
    hide Next;
    var xs := LAST_STEPS;
    assert xs[1..][0] == xs[1] && xs[1..][1..] == xs[2..] && xs[2..][1..] == xs[3..] && xs[3..][1..] == [];
    assert Run(y, xs) == Run(b, xs[1..]) == Run(z, xs[2..]) == Run(c, xs[3..]) == Run(Next(c, xs[3]), []);
  }

  /** From every state the part can be in, a step has a continuation without ROLLBACK after
      which nothing boots if and only if it is a hazard there. */
  lemma HazardExact(y: System, x: Step)
    requires y.Wf() && Inv(y)
    ensures Hazard(y, x) <==> exists xs :: Quiet(xs) && !S.Safe(Run(Next(y, x), xs))
  {
    hide S.Safe, Inv, Next, Run, Hazard;
    if Hazard(y, x) {
      HazardLands(y, x);
      KeepsRun(y, x);
      SelfTrialBricks(Next(y, x));
    } else {
      StepHolds(y, x);
      forall xs | Quiet(xs) ensures S.Safe(Run(Next(y, x), xs)) {
        QuietNoHazard(Next(y, x), xs);
        RunHolds(Next(y, x), xs);
      }
    }
  }

  lemma KeepsRun(y: System, x: Step)
    requires y.Wf() && Hazard(y, x)
    ensures Next(y, x).run == y.run
  {
    hide MetaCommit, FindFallback;
  }

  lemma {:induction false} QuietNoHazard(y: System, xs: seq<Step>)
    requires y.Wf() && Quiet(xs)
    ensures NoHazard(y, xs)
    decreases |xs|
  {
    hide Next;
    if xs != [] { QuietNoHazard(Next(y, xs[0]), xs[1..]); }
  }

  /** However a run is cut short and continued without ROLLBACK, the part stays bootable. */
  ghost predicate StaysSafe(y: System, xs: seq<Step>)
    requires y.Wf()
  {
    forall k, zs | 0 <= k <= |xs| && Quiet(zs) :: S.Safe(Run(Run(y, xs[..k]), zs))
  }

  /** Run by run, with every fault allowed: the part is safe at every point if and only if no
      ROLLBACK of the run is a hazard where it strikes. */
  lemma {:induction false} RollbackExact(y: System, xs: seq<Step>)
    requires y.Wf() && Inv(y)
    ensures StaysSafe(y, xs) <==> NoHazard(y, xs)
    decreases |xs|
  {
    hide S.Safe, Inv, Next, Hazard, Quiet;
    forall zs | Quiet(zs) ensures S.Safe(Run(Run(y, xs[..0]), zs)) {
      QuietNoHazard(y, zs);
      RunHolds(y, zs);
    }
    if xs != [] {
      var z := Next(y, xs[0]);
      forall k | 0 <= k < |xs| ensures Run(y, xs[..k + 1]) == Run(z, xs[1..][..k]) {
        assert xs[..k + 1][1..] == xs[1..][..k];
      }
      if Hazard(y, xs[0]) {
        HazardExact(y, xs[0]);
        var zs :| Quiet(zs) && !S.Safe(Run(z, zs));
        assert Run(z, xs[1..][..0]) == z;
        assert !S.Safe(Run(Run(y, xs[..1]), zs));
      } else {
        StepHolds(y, xs[0]);
        RollbackExact(z, xs[1..]);
        Shift(y, z, xs);
      }
    }
  }

  lemma Shift(y: System, z: System, xs: seq<Step>)
    requires y.Wf() && z.Wf() && xs != []
    requires forall k | 0 <= k < |xs| :: Run(y, xs[..k + 1]) == Run(z, xs[1..][..k])
    requires forall zs | Quiet(zs) :: S.Safe(Run(Run(y, xs[..0]), zs))
    ensures StaysSafe(y, xs) <==> StaysSafe(z, xs[1..])
  {
    hide Run, S.Safe, Quiet;
    if StaysSafe(y, xs) {
      forall k, zs | 0 <= k <= |xs[1..]| && Quiet(zs) ensures S.Safe(Run(Run(z, xs[1..][..k]), zs)) {
        assert S.Safe(Run(Run(y, xs[..k + 1]), zs));
      }
    }
    if StaysSafe(z, xs[1..]) {
      forall k, zs | 0 <= k <= |xs| && Quiet(zs) ensures S.Safe(Run(Run(y, xs[..k]), zs)) {
        if k > 0 { assert S.Safe(Run(Run(z, xs[1..][..k - 1]), zs)); }
      }
    }
  }

  /** The same from a provisioned part. */
  lemma RollbackExactFromFactory(y: System, xs: seq<Step>)
    requires S.Factory(y)
    ensures StaysSafe(y, xs) <==> NoHazard(y, xs)
  {
    hide StaysSafe, NoHazard;
    FactoryOk(y);
    RollbackExact(y, xs);
  }
}
