/** The part always has something to boot, and its anti-rollback floor never falls. */
module OtaSafety {
  import opened Wrappers
  import opened OtaLayout
  import opened Ota

  // ---- what the flash owes the bootloader ------------------------------------------------------

  /** A confirmed record whose image is in its slot. */
  predicate Good(f: Flash, r: Record)
    requires f.Sized()
  {
    !r.Trial() && ActiveSlotValid(f, r)
  }

  /** `g` is the confirmed record that trial record `n` would fall back to. */
  predicate Fallback(f: Flash, n: Record, g: Page)
    requires f.Sized()
  {
    && g.Valid? && Good(f, g.rec)
    && n.active < 2 && g.rec.active == Other(n.active)
    && n.D(g.rec.active) == g.rec.D(g.rec.active)
    && n.D(n.active).fw >= g.rec.D(g.rec.active).fw
  }

  /** Enough to boot, whatever the reset cause. */
  predicate FlashOk(f: Flash)
    requires f.Sized()
  {
    && PickNewest(f).Some?
    && var n := PickNewest(f).value;
    if n.rec.Trial() then n.rec.counter < COUNTER_LIMIT && Fallback(f, n.rec, f.P(Other(n.page)))
    else Good(f, n.rec)
  }

  /** Running a confirmed image: the newest record is its own. */
  predicate Settled(f: Flash, run: nat)
    requires f.Sized()
  {
    && PickNewest(f).Some?
    && var n := PickNewest(f).value.rec;
    Good(f, n) && n.active == run
  }

  /** Running a trial: either its own record is newest and the fallback is on the other page,
      or its record was lost and the fallback stands alone. */
  predicate Trying(f: Flash, run: nat)
    requires f.Sized()
  {
    && PickNewest(f).Some?
    && var n := PickNewest(f).value;
    var o := f.P(Other(n.page));
    || (n.rec.active == run && ActiveSlotValid(f, n.rec) && Fallback(f, n.rec, o)
        && (n.rec.Trial() ==> n.rec.counter < COUNTER_LIMIT))
    || (Good(f, n.rec) && n.rec.active == Other(run) && o.Invalid?)
  }

  predicate Inv(y: System) {
    && y.Wf()
    && (y.up && y.trial ==> y.tick.NoTick? && !y.s.erasing)
    && if !y.up then FlashOk(y.flash) else if y.trial then Trying(y.flash, y.run) else Settled(y.flash, y.run)
  }

  /** The newest record's floor. */
  function FloorOf(y: System): nat { Floor(Working(y.flash)) }

  /** A running trial's record is still marked as one. */
  predicate Unconfirmed(y: System) {
    y.up && y.trial && Working(y.flash).active == y.run ==> Working(y.flash).Trial()
  }

  lemma InvOk(y: System)
    requires Inv(y)
    ensures FlashOk(y.flash)
  {
  }

  // ---- faults ------------------------------------------------------------------------------------

  /** Which misreports of the flash a run may contain: a failed self-heal erase that left the
      rejected trial record readable; a COMMIT or ROLLBACK record that landed although its
      program was reported as failed; the same for a confirm. */
  datatype FaultModel = FaultModel(keptHeal: bool, lateSwitch: bool, lateConfirm: bool)

  predicate Allowed(m: FaultModel, x: Step) {
    match x
    case Restart(_, heal) => heal.EraseKept? ==> m.keptHeal
    case Frame(CmdCommit(fault)) => fault.ProgramLate? ==> m.lateSwitch
    case Frame(CmdRollback(fault)) => fault.ProgramLate? ==> m.lateSwitch
    case TickConfirm(fault) => fault.ProgramLate? ==> m.lateConfirm
    case _ => true
  }

  predicate AllAllowed(m: FaultModel, xs: seq<Step>) { forall i | 0 <= i < |xs| :: Allowed(m, xs[i]) }

  // ---- one metadata write ----------------------------------------------------------------------------

  /** The rank rule never gives up the record of a settled part. */
  lemma RankKeepsNewest(f: Flash, run: nat)
    requires f.Sized() && Settled(f, run)
    ensures RankTarget(f, run) == Other(PickNewest(f).value.page)
  {
  }

  lemma NewestAfter(f: Flash, p: Page)
    requires PickNewest(f).Some?
    requires p.Valid? ==> p.rec.counter > PickNewest(f).value.rec.counter
    ensures var n := PickNewest(f).value;
      var g := f.WithPage(Other(n.page), p);
      && g.P(n.page) == Valid(n.rec) && g.a == f.a && g.b == f.b
      && PickNewest(g) == Some(if p.Valid? then Newest(p.rec, Other(n.page)) else n)
  {
  }

  lemma NewestReplaced(f: Flash, p: Page)
    requires PickNewest(f).Some?
    requires p.Valid? ==> p.rec.counter > PickNewest(f).value.rec.counter
    ensures var n := PickNewest(f).value;
      var g, o := f.WithPage(n.page, p), Other(n.page);
      && g.P(n.page) == p && g.P(o) == f.P(o) && g.a == f.a && g.b == f.b
      && PickNewest(g) == (if p.Valid? then Some(Newest(p.rec, n.page))
                           else if f.P(o).Valid? then Some(Newest(f.P(o).rec, o)) else None)
  {
  }

  lemma NewCounter(r: Record, w: MetaWrite)
    ensures NewRecord(r, w).counter == r.counter + 1
  {
  }

  /** What a rank-ruled write does to a settled part: nothing, the loss of the spare page, or
      the new record on it. */
  lemma SettledWrite(f: Flash, run: nat, w: MetaWrite, fault: MetaFault)
    requires f.Sized() && Settled(f, run) && w.page.None?
    ensures var g := MetaCommit(f, run, w, fault);
      var n := PickNewest(f).value;
      && g.flash.a == f.a && g.flash.b == f.b && g.flash.P(n.page) == Valid(n.rec)
      && ((!g.ok && PickNewest(g.flash) == Some(n))
          || ((g.ok || fault.ProgramLate?)
              && PickNewest(g.flash) == Some(Newest(NewRecord(n.rec, w), Other(n.page)))
              && n.rec.counter < (if w.flags != 0 then COUNTER_LIMIT - 1 else COUNTER_LIMIT)))
  {
    hide Good, NewRecord;
    RankKeepsNewest(f, run);
    hide RankTarget;
    NewCounter(PickNewest(f).value.rec, w);
    NewestAfter(f, Invalid);
    NewestAfter(f, Valid(NewRecord(PickNewest(f).value.rec, w)));
  }

  /** Images do not move when only metadata does. */
  lemma SameImages(f: Flash, g: Flash, r: Record)
    requires f.Sized() && g.Sized() && r.active < 2 && f.S(r.active).bytes == g.S(r.active).bytes
    ensures ActiveSlotValid(f, r) == ActiveSlotValid(g, r)
  {
  }

  lemma ValidEntry(f: Flash, r: Record)
    requires f.Sized() && ActiveSlotValid(f, r)
    ensures r.active < 2 && r.D(r.active).valid
  {
  }

  lemma SameEntry(f: Flash, r: Record, q: Record)
    requires f.Sized() && r.active == q.active && r.active < 2 && r.D(r.active) == q.D(r.active)
    ensures ActiveSlotValid(f, r) == ActiveSlotValid(f, q)
  {
  }

  // ---- each step ---------------------------------------------------------------------------------------

  lemma StillSettled(f: Flash, g: Flash, run: nat)
    requires f.Sized() && g.Sized() && run < 2 && Settled(f, run)
    requires PickNewest(g) == PickNewest(f) && g.S(run).bytes == f.S(run).bytes
    ensures Settled(g, run)
  {
    SameImages(f, g, PickNewest(f).value.rec);
  }

  lemma DemotionKeeps(f: Flash, run: nat, fault: MetaFault)
    requires f.Sized() && run < 2 && Settled(f, run)
    ensures var g := MetaCommit(f, run, Demotion(Working(f), run), fault).flash;
      Settled(g, run) && Floor(Working(g)) == Floor(Working(f))
  {
    var n := Working(f);
    var w := Demotion(n, run);
    var g := MetaCommit(f, run, w, fault).flash;
    SettledWrite(f, run, w, fault);
    SameImages(f, g, n);
    SameEntry(f, n, NewRecord(n, w));
    SameImages(f, g, NewRecord(n, w));
    hide ActiveSlotValid, MetaCommit;
  }

  lemma BeginKeeps(y: System, req: seq<bv8>, busy: bool, fault: MetaFault)
    requires Inv(y) && y.up && !y.trial
    ensures Inv(Begin(y, req, busy, fault).y) && !Begin(y, req, busy, fault).y.trial
    ensures Floor(Working(Begin(y, req, busy, fault).y.flash)) == Floor(Working(y.flash))
  {
    hide Declared, MetaCommit, Floor, ActiveSlotValid;
    DemotionKeeps(y.flash, y.run, fault);
    hide Settled;
  }

  lemma SwitchRecord(n: Record, w: MetaWrite, run: nat)
    requires run < 2 && w.active == Other(run) && w.invalidate == NO_SLOT
    ensures var r := NewRecord(n, w);
      r.active == w.active && r.flags == w.flags && r.D(run) == n.D(run) && r.D(w.active).valid
    ensures var r := NewRecord(n, w);
      r.D(w.active) == match w.entry case None => n.D(w.active).(valid := true)
                                     case Some(e) => Desc(true, e.fw, e.len, e.crc)
  {
  }

  /** A write that turns to the other slot: a trial record over a confirmed one, or a
      confirmed record of an image already checked. */
  lemma SwitchKeeps(f: Flash, run: nat, w: MetaWrite, fault: MetaFault)
    requires f.Sized() && run < 2 && Settled(f, run) && !fault.ProgramLate?
    requires w.page.None? && w.active == Other(run) && w.invalidate == NO_SLOT && w.flags < 2
    requires NewRecord(Working(f), w).D(w.active).fw >= Floor(Working(f))
    requires w.flags == 0 ==> ActiveSlotValid(f, NewRecord(Working(f), w))
    ensures var g := MetaCommit(f, run, w, fault);
      && (if g.ok then FlashOk(g.flash) else Settled(g.flash, run))
      && Floor(Working(g.flash)) >= Floor(Working(f))
  {
    hide MetaCommit, NewRecord, ActiveSlotValid;
    var n := Working(f);
    var g := MetaCommit(f, run, w, fault).flash;
    SettledWrite(f, run, w, fault);
    SwitchRecord(n, w, run);
    NewCounter(n, w);
    SameImages(f, g, n);
    SameImages(f, g, NewRecord(n, w));
  }

  lemma CommitKeeps(y: System, fault: MetaFault)
    requires Inv(y) && y.up && !y.trial && !fault.ProgramLate?
    ensures Inv(Commit(y, fault).y) && !Commit(y, fault).y.trial
    ensures Floor(Working(Commit(y, fault).y.flash)) >= Floor(Working(y.flash))
  {
    hide MetaCommit, Bootable, TrialCapable, Base, NewRecord;
    if CommitError(y).None? {
      SwitchRecord(Working(y.flash), Activation(y), y.run);
      SwitchKeeps(y.flash, y.run, Activation(y), fault);
    }
    hide Settled, FlashOk, Floor, CommitError;
  }

  lemma FallbackKeeps(f: Flash, run: nat, fault: MetaFault)
    requires f.Sized() && run < 2 && Settled(f, run) && !fault.ProgramLate? && FindFallback(f).ReturnTo?
    ensures var g := MetaCommit(f, run, FindFallback(f).write, fault);
      && (if g.ok then FlashOk(g.flash) else Settled(g.flash, run))
      && Floor(Working(g.flash)) >= Floor(Working(f))
  {
    hide TrialCapable, MetaCommit, Bootable, NewRecord;
    SwitchRecord(Working(f), FindFallback(f).write, run);
    SwitchKeeps(f, run, FindFallback(f).write, fault);
  }

  lemma RollbackKeeps(y: System, fault: MetaFault)
    requires Inv(y) && y.up && !y.trial && !fault.ProgramLate?
    ensures Inv(Rollback(y, fault).y) && !Rollback(y, fault).y.trial
    ensures Floor(Working(Rollback(y, fault).y.flash)) >= Floor(Working(y.flash))
  {
    hide ActiveSlotValid, MetaCommit, FindFallback;
    if FindFallback(y.flash).ReturnTo? {
      FallbackKeeps(y.flash, y.run, fault);
    }
    hide Settled, FlashOk, Floor;
  }

  /** A confirm rewrites the trial's own page and leaves the fallback alone. */
  lemma ConfirmWrite(f: Flash, run: nat, fault: MetaFault)
    requires f.Sized() && run < 2 && Trying(f, run) && Working(f).active == run
    ensures var n := PickNewest(f).value;
      var g := MetaCommit(f, run, MetaWrite(run, None, 0, Some(n.page), NO_SLOT), fault);
      && FindRunning(f, run) == Some(n)
      && Trying(g.flash, run)
      && (g.ok ==> FlashOk(g.flash))
      && (n.rec.Trial() && !fault.ProgramLate? ==>
            && Floor(Working(g.flash)) >= Floor(n.rec)
            && (!g.ok && Working(g.flash).active == run ==> Working(g.flash).Trial()))
  {
    hide NewRecord, ActiveSlotValid;
    var n := PickNewest(f).value;
    var w := MetaWrite(run, None, 0, Some(n.page), NO_SLOT);
    var g := MetaCommit(f, run, w, fault).flash;
    ValidEntry(f, n.rec);
    ConfirmRecord(n.rec, w);
    NewestReplaced(f, Invalid);
    NewestReplaced(f, Valid(NewRecord(n.rec, w)));
    SameEntry(f, n.rec, NewRecord(n.rec, w));
    SameImages(f, g, n.rec);
    SameImages(f, g, NewRecord(n.rec, w));
    SameImages(f, g, f.P(Other(n.page)).rec);
  }

  lemma ConfirmRecord(n: Record, w: MetaWrite)
    requires w.active == n.active && n.active < 2 && w.entry.None? && w.invalidate == NO_SLOT
    requires n.D(n.active).valid
    ensures NewRecord(n, w) == n.(counter := n.counter + 1, flags := w.flags)
  {
  }

  lemma ConfirmKeeps(y: System, fault: MetaFault)
    requires Inv(y) && y.up
    ensures Inv(ConfirmTick(y, fault))
    ensures !fault.ProgramLate? && Unconfirmed(y)
      ==> Unconfirmed(ConfirmTick(y, fault)) && FloorOf(ConfirmTick(y, fault)) >= FloorOf(y)
  {
    if y.trial {
      if Working(y.flash).active == y.run {
        ConfirmWrite(y.flash, y.run, fault);
        hide MetaCommit, Floor, Trying, FlashOk, FindRunning;
      } else {
        hide MetaCommit, Floor;
        assert FindRunning(y.flash, y.run).None?;
      }
    }
  }

  lemma WriteKeeps(y: System, req: seq<bv8>, fault: ProgFault)
    requires Inv(y) && y.up && !y.trial
    ensures Inv(Write(y, req, fault).y) && !Write(y, req, fault).y.trial
    ensures Working(Write(y, req, fault).y.flash) == Working(y.flash)
  {
    hide WriteChunk, Settled;
    StillSettled(y.flash, Write(y, req, fault).y.flash, y.run);
  }

  lemma EraseKeeps(y: System, fault: EraseFault)
    requires Inv(y) && y.up
    ensures var z := EraseCall(y, fault);
      Inv(z) && Working(z.flash) == Working(y.flash) && z.up && z.trial == y.trial && z.run == y.run
  {
    hide ErasePage, Settled, Trying;
    if !y.trial {
      StillSettled(y.flash, EraseCall(y, fault).flash, y.run);
    }
  }

  // ---- reset ------------------------------------------------------------------------------------------

  /** From such a flash the bootloader always finds an image in its strict pass: the newest
      record's, or its fallback's when the newest is a rejected trial. */
  lemma DecideOk(f: Flash, wdt: bool)
    requires f.Sized() && FlashOk(f)
    ensures Decide(f, wdt).Some? && !Decide(f, wdt).value.lastResort
    ensures var n := PickNewest(f).value;
      var slot := Decide(f, wdt).value.slot;
      || (slot == n.rec.active && ActiveSlotValid(f, n.rec))
      || (n.rec.Trial() && slot == f.P(Other(n.page)).rec.active)
  {
    hide ActiveSlotValid;
  }

  lemma HealRecord(n: Record, run: nat)
    requires run < 2 && n.active == Other(run) && n.D(run).valid
    ensures var r := NewRecord(n, Heal(run, n.active));
      r.counter == n.counter + 1 && r.active == run && r.flags == 0 && r.D(run) == n.D(run)
  {
  }

  /** After a rejected trial the self-heal is due, and it goes for the trial's own page. */
  lemma HealTarget(f: Flash)
    requires f.Sized() && FlashOk(f) && Working(f).Trial()
    ensures var run := Other(Working(f).active);
      !Trialling(f, run) && HealDue(f, run) && RankTarget(f, run) == PickNewest(f).value.page
  {
    hide ActiveSlotValid;
  }

  /** A rejected trial's record is overwritten or erased, never its fallback's. */
  lemma HealKeeps(f: Flash, heal: MetaFault)
    requires f.Sized() && FlashOk(f) && Working(f).Trial() && !heal.EraseKept?
    ensures var run := Other(Working(f).active);
      && !Trialling(f, run) && Settled(Healed(f, run, heal), run)
      && Floor(Working(Healed(f, run, heal))) == Floor(Working(f))
  {
    hide ActiveSlotValid, RankTarget, FindRunning, HealDue, NewRecord;
    var n := PickNewest(f).value;
    var run := Other(n.rec.active);
    var g := f.P(Other(n.page)).rec;
    ValidEntry(f, g);
    HealTarget(f);
    HealRecord(n.rec, run);
    var r := NewRecord(n.rec, Heal(run, n.rec.active));
    var h := Healed(f, run, heal);
    SameImages(f, h, g);
    SameEntry(f, g, r);
    SameImages(f, h, r);
  }

  lemma StartKeeps(f: Flash, heal: MetaFault)
    requires f.Sized() && FlashOk(f) && ActiveSlotValid(f, Working(f))
    ensures var run := Working(f).active;
      && !HealDue(f, run) && Trialling(f, run) == Working(f).Trial()
      && (if Working(f).Trial() then Trying(f, run) else Settled(f, run))
  {
    hide ImageMatches;
  }

  lemma BootKeeps(y: System, wdt: bool, heal: MetaFault)
    requires Inv(y) && !heal.EraseKept?
    ensures var z := Boot(y, wdt, heal);
      && Inv(z) && z.up && Floor(Working(z.flash)) == Floor(Working(y.flash))
      && (z.trial ==> Working(z.flash).active == z.run && Working(z.flash).Trial())
  {
    InvOk(y);
    var f := y.flash;
    DecideOk(f, wdt);
    hide Decide, ActiveSlotValid;
    if ActiveSlotValid(f, Working(f)) && Decide(f, wdt).value.slot == Working(f).active {
      StartKeeps(f, heal);
    } else {
      HealKeeps(f, heal);
    }
  }

  // ---- every run -----------------------------------------------------------------------------------------

  lemma DispatchKeeps(y: System, c: Command)
    requires Inv(y) && y.up && !y.trial
    requires c.CmdCommit? ==> !c.commit.ProgramLate?
    requires c.CmdRollback? ==> !c.back.ProgramLate?
    ensures Inv(Dispatch(y, c).y) && FloorOf(Dispatch(y, c).y) >= FloorOf(y) && !Dispatch(y, c).y.trial
  {
    hide Begin, Write, Commit, Rollback, Floor, Settled, Working;
    match c
    case CmdBegin(req, busy, fault) => BeginKeeps(y, req, busy, fault);
    case CmdWrite(req, fault) => WriteKeeps(y, req, fault);
    case CmdCommit(fault) => CommitKeeps(y, fault);
    case CmdRollback(fault) => RollbackKeeps(y, fault);
    case _ =>
  }

  lemma TrialGate(y: System, c: Command)
    requires y.Wf() && y.trial
    ensures Dispatch(y, c) == Out(y.(frameSeen := true), BUSY)
  {
  }

  /** A frame arrives somewhere in the run. */
  predicate AnyFrame(xs: seq<Step>) { exists i | 0 <= i < |xs| :: xs[i].Frame? }

  /** While a trial is unconfirmed, no sequence of commands and erase ticks changes flash,
      session or anything else except that a frame was seen. */
  lemma {:induction false} TrialInert(y: System, xs: seq<Step>)
    requires y.Wf() && y.up && y.trial && y.tick.NoTick? && !y.s.erasing
    requires forall i | 0 <= i < |xs| :: !xs[i].Restart? && !xs[i].TickConfirm?
    ensures Run(y, xs) == y.(frameSeen := y.frameSeen || AnyFrame(xs))
    decreases |xs|
  {
    hide Dispatch;
    if xs != [] {
      if xs[0].Frame? { TrialGate(y, xs[0].cmd); }
      var z := Next(y, xs[0]);
      assert z == y.(frameSeen := y.frameSeen || xs[0].Frame?);
      TrialInert(z, xs[1..]);
      AnyFrameSplits(xs);
    }
  }

  lemma AnyFrameSplits(xs: seq<Step>)
    requires xs != []
    ensures AnyFrame(xs) <==> xs[0].Frame? || AnyFrame(xs[1..])
  {
    if AnyFrame(xs[1..]) {
      var i :| 0 <= i < |xs[1..]| && xs[1..][i].Frame?;
      assert xs[i + 1].Frame?;
    }
    if AnyFrame(xs) {
      var i :| 0 <= i < |xs| && xs[i].Frame?;
      assert i > 0 ==> xs[1..][i - 1].Frame?;
    }
  }

  /** And without a frame not even the confirm tick changes anything: only a reset ends it. */
  lemma {:induction false} TrialWaits(y: System, xs: seq<Step>)
    requires y.Wf() && y.up && y.trial && y.tick.NoTick? && !y.s.erasing && !y.frameSeen
    requires forall i | 0 <= i < |xs| :: !xs[i].Restart? && !xs[i].Frame?
    ensures Run(y, xs) == y
    decreases |xs|
  {
    if xs != [] { TrialWaits(y, xs[1..]); }
  }

  /** Each step keeps the part bootable. */
  lemma StepKeeps(m: FaultModel, y: System, x: Step)
    requires !m.keptHeal && !m.lateSwitch && Allowed(m, x) && Inv(y)
    ensures Inv(Next(y, x))
    ensures !m.lateConfirm && Unconfirmed(y) ==> Unconfirmed(Next(y, x)) && FloorOf(Next(y, x)) >= FloorOf(y)
  {
    hide Settled, Trying, FlashOk, Floor, Working, Boot, Dispatch, EraseCall, ConfirmTick;
    match x
    case Restart(wdt, heal) => BootKeeps(y, wdt, heal);
    case Frame(c) =>
      if y.up && y.trial { TrialGate(y, c); }
      if y.up && !y.trial { DispatchKeeps(y, c); }
    case TickErase(fault) => if y.up { EraseKeeps(y, fault); }
    case TickConfirm(fault) => if y.up { ConfirmKeeps(y, fault); }
    case _ =>
  }

  lemma {:induction false} RunKeeps(m: FaultModel, y: System, xs: seq<Step>)
    requires !m.keptHeal && !m.lateSwitch && AllAllowed(m, xs) && Inv(y)
    ensures Inv(Run(y, xs))
    ensures !m.lateConfirm && Unconfirmed(y) ==> Unconfirmed(Run(y, xs)) && FloorOf(Run(y, xs)) >= FloorOf(y)
    decreases |xs|
  {
    if xs != [] {
      StepKeeps(m, y, xs[0]);
      RunKeeps(m, Next(y, xs[0]), xs[1..]);
    }
  }

  /** A provisioned part (tools/gen_ota_metadata.py) before its first boot: one confirmed
      record, blank second page, only the active slot described. */
  predicate Factory(y: System) {
    && y.Wf() && !y.up && y.flash.p0.Valid? && y.flash.p1.Invalid?
    && var r := y.flash.p0.rec;
    && Good(y.flash, r) && r.flags == 0 && r.counter <= BEGIN_MAX_COUNTER
    && r.D(Other(r.active)) == ZERO_DESC && r.D(r.active).fw <= 0xFF_FFFF
  }

  /** Some page holds a confirmed record of an intact image, and the bootloader finds one
      without its last resort, watchdog reset or not. */
  predicate Safe(y: System) {
    && y.Wf()
    && (exists i | 0 <= i < 2 :: y.flash.P(i).Valid? && Good(y.flash, y.flash.P(i).rec))
    && (forall wdt :: Decide(y.flash, wdt).Some? && !Decide(y.flash, wdt).value.lastResort)
  }

  /** The part survives every run that stays within the fault model. */
  lemma AlwaysBootable(m: FaultModel, y: System, xs: seq<Step>)
    requires !m.keptHeal && !m.lateSwitch && AllAllowed(m, xs) && Factory(y)
    ensures Safe(Run(y, xs))
  {
    hide ActiveSlotValid;
    RunKeeps(m, y, xs);
    InvSafe(Run(y, xs));
  }

  lemma InvSafe(y: System)
    requires Inv(y)
    ensures Safe(y)
  {
    var f := y.flash;
    InvOk(y);
    hide Good, Decide;
    var n := PickNewest(f).value;
    assert f.P(n.page) == Valid(n.rec);
    var i := if n.rec.Trial() then Other(n.page) else n.page;
    assert f.P(i).Valid? && Good(f, f.P(i).rec);
    forall wdt ensures Decide(f, wdt).Some? && !Decide(f, wdt).value.lastResort { DecideOk(f, wdt); }
  }

  /** The anti-rollback floor never falls between two points of such a run. */
  lemma FloorNeverFalls(m: FaultModel, y: System, xs: seq<Step>, zs: seq<Step>)
    requires !m.keptHeal && !m.lateSwitch && !m.lateConfirm && AllAllowed(m, xs + zs) && Factory(y)
    ensures FloorOf(Run(y, xs + zs)) >= FloorOf(Run(y, xs))
  {
    hide Good, Floor;
    assert forall i | 0 <= i < |xs| :: xs[i] == (xs + zs)[i];
    assert forall i | 0 <= i < |zs| :: zs[i] == (xs + zs)[|xs| + i];
    RunKeeps(m, y, xs);
    RunKeeps(m, Run(y, xs), zs);
    RunConcat(y, xs, zs);
  }
}
