/** The update session under every interleaving of transport commands with the three parts of
    the background erase tick. */
module OtaSession {
  import opened Wrappers
  import opened OtaLayout
  import opened Ota
  import Crc32

  /** Page `p` of a slot reads erased. */
  ghost predicate Blank(slot: Slot, p: nat)
    requires |slot.bytes| == SLOT_SIZE
  {
    && (p + 1) * PAGE_SIZE <= SLOT_SIZE
    && (forall k | p * PAGE_SIZE <= k < (p + 1) * PAGE_SIZE :: slot.bytes[k] == 0xFF)
    && slot.programmed !! PageDwords(p)
  }

  predicate Streaming(s: Session) { s.state == Ready || s.state == Verified }

  /** What every session state promises about its fields, the log and the slot. */
  ghost predicate StateOk(s: Session, log: Log, slot: Slot)
    requires |slot.bytes| == SLOT_SIZE
  {
    && (s.erasing ==>
          && (s.state == Busy || s.state == Error) && log.programs == 0
          && s.eraseAt % PAGE_SIZE == 0 && s.eraseAt < SLOT_SIZE
          && forall p | 0 <= p < s.eraseAt / PAGE_SIZE :: p in log.erased)
    && (s.state == Busy ==> s.erasing)
    && (s.state == Busy || Streaming(s) ==>
          1 <= s.imgLen <= SLOT_SIZE && log.declared == Some(Declaration(s.imgLen, s.expectedCrc, s.fw)))
    && (Streaming(s) ==> !s.erasing)
    && ((s.state == Busy || Streaming(s)) && log.programs == 0 ==> s.lastOff == 0)
    && (s.state == Verified ==> s.imgCrc == s.expectedCrc == Crc32.Crc(0, slot.bytes[..s.imgLen]))
    && (log.programs == 0 ==> forall p | p in log.erased :: Blank(slot, p))
  }

  /** How a pending tick relates to the session it was taken from. */
  predicate TickOk(s: Session, t: Tick, log: Log) {
    t.NoTick? ||
    (&& !Streaming(s)
     && t.at % PAGE_SIZE == 0 && t.at < SLOT_SIZE
     && t.epoch < EPOCHS && s.epoch == (t.epoch + t.bumps) % EPOCHS
     && (s.erasing ==> s.eraseAt <= t.at)
     && (t.bumps == 0 ==> s.erasing && s.eraseAt == t.at)
     && (t.AfterErase? && t.ok && t.bumps == 0 ==> t.at / PAGE_SIZE in log.erased))
  }

  ghost predicate SessionOk(y: System) {
    && y.Wf()
    && (y.up ==> StateOk(y.s, y.log, y.Target()) && TickOk(y.s, y.tick, y.log) && y.s.epoch < EPOCHS)
  }

  // ---- slot operations -----------------------------------------------------------------------------

  lemma EraseBlanks(slot: Slot, p: nat, fault: EraseFault)
    requires |slot.bytes| == SLOT_SIZE && (p + 1) * PAGE_SIZE <= SLOT_SIZE
    ensures fault.Erased? ==> Blank(ErasePage(slot, p, fault), p)
    ensures forall q | q != p && Blank(slot, q) :: Blank(ErasePage(slot, p, fault), q)
  {
    forall q | q != p && Blank(slot, q) ensures Blank(ErasePage(slot, p, fault), q) {
      DisjointPages(p, q);
    }
  }

  lemma DisjointPages(p: nat, q: nat)
    requires p != q
    ensures PageDwords(p) !! PageDwords(q)
    ensures (p + 1) * PAGE_SIZE <= q * PAGE_SIZE || (q + 1) * PAGE_SIZE <= p * PAGE_SIZE
  {
  }

  // ---- steps ------------------------------------------------------------------------------------------

  lemma RejectKeeps(y: System, e: Err)
    requires SessionOk(y) && y.up
    ensures SessionOk(Reject(y, e))
  {
  }

  lemma ArmKeeps(y: System, d: Declaration)
    requires SessionOk(y) && y.up && 1 <= d.len <= SLOT_SIZE
    ensures SessionOk(Arm(y, d))
  {
  }

  lemma AbortKeeps(y: System)
    requires SessionOk(y) && y.up
    ensures SessionOk(Abort(y))
  {
  }

  lemma MetaOnly(y: System, f: Flash)
    requires SessionOk(y) && f.a == y.flash.a && f.b == y.flash.b
    ensures SessionOk(y.(flash := f)) && SessionOk(Reset(y.(flash := f)))
  {
  }

  lemma FailKeeps(y: System, e: Err)
    requires SessionOk(y) && y.up
    ensures SessionOk(y.(s := y.s.Fail(e)))
  {
  }

  lemma BeginKeeps(y: System, req: seq<bv8>, busy: bool, fault: MetaFault)
    requires SessionOk(y) && y.up
    ensures SessionOk(Begin(y, req, busy, fault).y)
  {
    hide SessionOk, MetaCommit, Declared, Arm, Reject;
    if |req| >= 8 {
      var d := Declared(req);
      RejectKeeps(y, SessionRange);
      RejectKeeps(y, DemoteFailed);
      if 1 <= d.len <= SLOT_SIZE { ArmKeeps(y, d); }
      if PickNewest(y.flash).Some? {
        var w := MetaCommit(y.flash, y.run, Demotion(PickNewest(y.flash).value.rec, y.run), fault);
        var z := y.(flash := w.flash);
        MetaOnly(y, w.flash);
        RejectKeeps(z, DemoteFailed);
        if 1 <= d.len <= SLOT_SIZE { ArmKeeps(z, d); }
      }
    }
  }

  /** What a chunk can change. */
  lemma ChunkEffect(s: Session, slot: Slot, req: seq<bv8>, fault: ProgFault)
    requires |slot.bytes| == SLOT_SIZE
    ensures var c := WriteChunk(s, slot, req, fault);
      && (s.state != Ready ==> c.s == s && !c.programmed)
      && (!c.programmed ==> c.slot == slot)
      && (c.s == s.(lastOff := c.s.lastOff) || c.s == s.Fail(c.s.err))
  {
    hide Program, Word;
  }

  lemma WriteKeeps(y: System, req: seq<bv8>, fault: ProgFault)
    requires SessionOk(y) && y.up
    ensures SessionOk(Write(y, req, fault).y)
  {
    ChunkEffect(y.s, y.Target(), req, fault);
    hide WriteChunk, Crc32.Crc, Blank;
  }

  lemma VerifyKeeps(y: System)
    requires SessionOk(y) && y.up
    ensures SessionOk(Verify(y).y)
  {
    hide Blank, Crc32.Crc;
  }

  lemma CommitKeeps(y: System, fault: MetaFault)
    requires SessionOk(y) && y.up
    ensures SessionOk(Commit(y, fault).y)
  {
    assert y.Wf();
    hide SessionOk, MetaCommit, CommitError;
    var w := MetaCommit(y.flash, y.run, Activation(y), fault);
    MetaOnly(y, w.flash);
    FailKeeps(y.(flash := w.flash), CommitFailed);
    if CommitError(y).Some? { FailKeeps(y, CommitError(y).value); }
  }

  lemma RollbackKeeps(y: System, fault: MetaFault)
    requires SessionOk(y) && y.up
    ensures SessionOk(Rollback(y, fault).y)
  {
    assert y.Wf();
    hide SessionOk, MetaCommit, FindFallback;
    FailKeeps(y, BelowFloor);
    if FindFallback(y.flash).ReturnTo? {
      MetaOnly(y, MetaCommit(y.flash, y.run, FindFallback(y.flash).write, fault).flash);
    }
  }

  lemma EraseCallKeeps(y: System, fault: EraseFault)
    requires SessionOk(y) && y.up
    ensures SessionOk(EraseCall(y, fault))
  {
    if y.tick.InErase? {
      var p := y.tick.at / PAGE_SIZE;
      EraseBlanks(y.Target(), p, fault);
    }
    hide Blank, ErasePage, Crc32.Crc;
  }

  /** Publication needs the tick's own epoch, and that means nothing overtook it. */
  lemma PublishKeeps(y: System)
    requires SessionOk(y) && y.up && (!y.tick.NoTick? ==> y.tick.bumps < EPOCHS)
    ensures SessionOk(ErasePublish(y))
  {
    hide Blank, Crc32.Crc;
  }

  lemma StepKeeps(y: System, x: Step)
    requires SessionOk(y) && (!y.tick.NoTick? ==> y.tick.bumps < EPOCHS)
    ensures SessionOk(Next(y, x))
  {
    hide Begin, Write, Verify, Commit, Rollback, Abort, EraseCall, ErasePublish;
    match x
    case Frame(CmdBegin(req, busy, fault)) => if y.up && !y.trial { BeginKeeps(y, req, busy, fault); }
    case Frame(CmdWrite(req, fault)) => if y.up && !y.trial { WriteKeeps(y, req, fault); }
    case Frame(CmdVerify) => if y.up && !y.trial { VerifyKeeps(y); }
    case Frame(CmdCommit(fault)) => if y.up && !y.trial { CommitKeeps(y, fault); }
    case Frame(CmdRollback(fault)) => if y.up && !y.trial { RollbackKeeps(y, fault); }
    case Frame(CmdAbort) => if y.up && !y.trial { AbortKeeps(y); }
    case Frame(CmdOther) =>
    case TickErase(fault) => if y.up { EraseCallKeeps(y, fault); }
    case TickPublish => if y.up { PublishKeeps(y); }
    case TickSnapshot => SnapshotKeeps(y);
    case TickConfirm(fault) => ConfirmKeeps(y, fault);
    case Restart(wdt, heal) => BootKeeps(y, wdt, heal);
  }

  lemma SnapshotKeeps(y: System)
    requires SessionOk(y)
    ensures SessionOk(EraseSnapshot(y))
  {
  }

  lemma ConfirmKeeps(y: System, fault: MetaFault)
    requires SessionOk(y)
    ensures SessionOk(ConfirmTick(y, fault))
  {
    assert y.Wf();
    hide SessionOk, MetaCommit;
    if FindRunning(y.flash, y.run).Some? {
      var w := MetaWrite(y.run, None, 0, Some(FindRunning(y.flash, y.run).value.page), NO_SLOT);
      MetaOnly(y, MetaCommit(y.flash, y.run, w, fault).flash);
    }
  }

  lemma BootKeeps(y: System, wdt: bool, heal: MetaFault)
    requires SessionOk(y)
    ensures SessionOk(Boot(y, wdt, heal))
  {
    hide Decide, MetaCommit, Trialling, HealDue;
  }

  // ---- every run -----------------------------------------------------------------------------------------

  lemma StreamingQuiet(y: System)
    requires SessionOk(y)
    ensures y.up && Streaming(y.s) ==> !y.s.erasing && y.tick.NoTick? && 1 <= y.s.imgLen <= SLOT_SIZE
  {
  }

  /** Fewer than 2^32 epoch bumps fall within any one tick. */
  predicate Timely(y: System, xs: seq<Step>)
    requires y.Wf()
    decreases |xs|
  {
    && (!y.tick.NoTick? ==> y.tick.bumps < EPOCHS)
    && (xs != [] ==> Timely(Next(y, xs[0]), xs[1..]))
  }

  /** From any power-up, every run keeps the session consistent; in particular READY and
      VERIFIED never coexist with an armed erase, a pending tick or a length out of range. */
  lemma {:induction false} RunKeeps(y: System, xs: seq<Step>)
    requires SessionOk(y) && Timely(y, xs)
    ensures SessionOk(Run(y, xs))
    ensures var z := Run(y, xs);
      (!z.tick.NoTick? ==> z.tick.bumps < EPOCHS)
      && (z.up && Streaming(z.s) ==> !z.s.erasing && z.tick.NoTick? && 1 <= z.s.imgLen <= SLOT_SIZE)
    decreases |xs|
  {
    if xs == [] {
      StreamingQuiet(y);
    } else {
      hide SessionOk;
      StepKeeps(y, xs[0]);
      RunKeeps(Next(y, xs[0]), xs[1..]);
    }
  }

  /** The same from any power-up. */
  lemma ConsistentSincePowerUp(y: System, xs: seq<Step>)
    requires y.Wf() && !y.up && Timely(y, xs)
    ensures var z := Run(y, xs);
      z.up && Streaming(z.s) ==> !z.s.erasing && z.tick.NoTick? && 1 <= z.s.imgLen <= SLOT_SIZE
  {
    assert SessionOk(y);
    RunKeeps(y, xs);
  }

  /** The whole slot was erased since the last accepted BEGIN, nothing was programmed since, it
      reads blank, and the high-water mark is zero. */
  ghost predicate WhollyErased(y: System)
    requires y.Wf()
  {
    && y.log.programs == 0 && y.log.declared.Some? && y.s.lastOff == 0
    && (forall p | 0 <= p < PAGES :: p in y.log.erased)
    && (forall k | 0 <= k < SLOT_SIZE :: y.Target().bytes[k] == 0xFF)
    && (forall d | d in y.Target().programmed :: d >= SLOT_SIZE / 8)
  }

  lemma AllPagesBlank(slot: Slot)
    requires |slot.bytes| == SLOT_SIZE && forall p | 0 <= p < PAGES :: Blank(slot, p)
    ensures forall k | 0 <= k < SLOT_SIZE :: slot.bytes[k] == 0xFF
    ensures forall d | d in slot.programmed :: d >= SLOT_SIZE / 8
  {
    hide PageDwords;
    forall k | 0 <= k < SLOT_SIZE ensures slot.bytes[k] == 0xFF {
      PageOfByte(k);
      assert Blank(slot, k / PAGE_SIZE);
    }
    forall d | d in slot.programmed ensures d >= SLOT_SIZE / 8 {
      PageOfDword(d);
      assert d / 256 < PAGES ==> Blank(slot, d / 256);
    }
  }

  lemma PageOfByte(k: nat)
    requires k < SLOT_SIZE
    ensures k / PAGE_SIZE < PAGES && k / PAGE_SIZE * PAGE_SIZE <= k < (k / PAGE_SIZE + 1) * PAGE_SIZE
  {
  }

  lemma PageOfDword(d: nat)
    ensures d in PageDwords(d / 256) && (d < SLOT_SIZE / 8 ==> d / 256 < PAGES)
  {
  }

  /** READY is entered only by the publication of the last page, over an erased slot. */
  lemma ReadyMeansErased(y: System, xs: seq<Step>, x: Step)
    requires SessionOk(y) && Timely(y, xs)
    ensures var z := Run(y, xs);
      var w := Next(z, x);
      w.up && w.s.state == Ready && !(z.up && z.s.state == Ready) ==> x.TickPublish? && WhollyErased(w)
  {
    RunKeeps(y, xs);
    var z := Run(y, xs);
    hide Run, Timely;
    if Next(z, x).up && Next(z, x).s.state == Ready && !(z.up && z.s.state == Ready) {
      OnlyPublish(z, x);
      PublishReady(z);
    }
  }

  lemma OnlyPublish(z: System, x: Step)
    requires z.Wf() && Next(z, x).up && Next(z, x).s.state == Ready && !(z.up && z.s.state == Ready)
    ensures x.TickPublish? && z.up
  {
    hide MetaCommit, WriteChunk, CommitError, FindFallback, Declared, Decide, Crc32.Crc, ErasePage, Healed, Trialling;
    if x.Frame? && x.cmd.CmdWrite? { ChunkEffect(z.s, z.Target(), x.cmd.chunk, x.cmd.prog); }
  }

  lemma PublishReady(z: System)
    requires SessionOk(z) && (!z.tick.NoTick? ==> z.tick.bumps < EPOCHS)
    requires z.up && z.s.state != Ready && ErasePublish(z).s.state == Ready
    ensures WhollyErased(ErasePublish(z))
  {
    var t := z.tick;
    assert t.AfterErase? && z.s.epoch == t.epoch && t.bumps == 0;
    assert forall p | 0 <= p < PAGES :: p in z.log.erased;
    assert forall p | 0 <= p < PAGES :: Blank(z.Target(), p);
    AllPagesBlank(z.Target());
    hide Blank;
  }

  /** A tick's publication leaves every session field alone exactly when the erase was
      disarmed or the epoch moved, by a number of bumps that is no multiple of 2^32. */
  lemma OvertakenTick(y: System)
    requires SessionOk(y) && y.up && y.tick.AfterErase?
    ensures Next(y, TickPublish).s == y.s <==> (!y.s.erasing || y.tick.bumps % EPOCHS != 0)
  {
    var t := y.tick;
    hide StateOk;
    EpochMoved(t.epoch, t.bumps);
    assert y.s.erasing && y.s.epoch == t.epoch ==> Publish(y.s, t) != y.s by {
      if y.s.erasing && t.ok && t.at + PAGE_SIZE < SLOT_SIZE { assert y.s.eraseAt <= t.at; }
    }
  }

  lemma EpochMoved(e: nat, bumps: nat)
    requires e < EPOCHS
    ensures (e + bumps) % EPOCHS == e <==> bumps % EPOCHS == 0
  {
  }

  /** ABORT, a refused BEGIN and an accepted BEGIN all overtake a pending tick; only a BEGIN
      dropped as malformed or busy does not. */
  lemma Overtakes(y: System, c: Command)
    requires y.Wf() && !y.trial && !y.tick.NoTick? && (c.CmdAbort? || c.CmdBegin?)
    ensures var r := Dispatch(y, c);
      if c.CmdBegin? && (r.status == INVAL || r.status == BUSY) then r.y == y
      else r.y.tick == y.tick.Bumped() && r.y.tick.bumps == y.tick.bumps + 1
  {
    hide MetaCommit, Declared;
  }

  lemma {:induction false} TickAges(y: System, xs: seq<Step>)
    requires y.Wf() && !y.tick.NoTick? && forall i | 0 <= i < |xs| :: !xs[i].TickPublish? && !xs[i].Restart?
    ensures !Run(y, xs).tick.NoTick? && Run(y, xs).tick.bumps >= y.tick.bumps
    decreases |xs|
  {
    hide Next;
    if xs != [] {
      StepAges(y, xs[0]);
      TickAges(Next(y, xs[0]), xs[1..]);
    }
  }

  lemma StepAges(y: System, x: Step)
    requires y.Wf() && !y.tick.NoTick? && !x.TickPublish? && !x.Restart?
    ensures !Next(y, x).tick.NoTick? && Next(y, x).tick.bumps >= y.tick.bumps
  {
    hide MetaCommit, WriteChunk, CommitError, FindFallback, Declared, Crc32.Crc, ErasePage;
  }

  /** A tick that a command has overtaken changes no session field when it publishes, whatever
      happens before it does. */
  lemma OvertakenForGood(y: System, c: Command, xs: seq<Step>)
    requires SessionOk(y) && y.up && !y.trial && !y.tick.NoTick? && y.tick.bumps < EPOCHS
    requires var r := Dispatch(y, c);
      (c.CmdAbort? || (c.CmdBegin? && r.status != INVAL && r.status != BUSY)) && Timely(r.y, xs)
    requires forall i | 0 <= i < |xs| :: !xs[i].TickPublish? && !xs[i].Restart?
    ensures var z := Run(Dispatch(y, c).y, xs); Next(z, TickPublish).s == z.s
  {
    hide Dispatch, StateOk, TickOk, Timely, Run;
    DispatchIsStep(y, c);
    StepKeeps(y, Frame(c));
    Overtakes(y, c);
    var r := Dispatch(y, c).y;
    RunKeeps(r, xs);
    TickAges(r, xs);
    var z := Run(r, xs);
    if z.up && z.tick.AfterErase? { OvertakenTick(z); }
  }

  lemma DispatchIsStep(y: System, c: Command)
    requires y.Wf() && y.up
    ensures Next(y, Frame(c)) == Dispatch(y, c).y
  {
  }

  // ---- VERIFY to COMMIT ------------------------------------------------------------------------------------

  /** A successful COMMIT made newest a trial record whose entry for the inactive slot is the
      declaration `d` and describes the bytes in flash; the rest of the record and both slots
      stayed. */
  predicate Honest(z: System, after: System, d: Declaration)
    requires z.Wf() && after.Wf()
  {
    var s, n := Other(z.run), Working(after.flash);
    && 1 <= d.len <= SLOT_SIZE && d.crc == Crc32.Crc(0, after.flash.S(s).bytes[..d.len])
    && n.active == s && n.Trial() && n.D(s) == Desc(true, d.fw, d.len, d.crc)
    && n.D(z.run) == Working(z.flash).D(z.run) && n.counter == Working(z.flash).counter + 1
    && after.flash.a == z.flash.a && after.flash.b == z.flash.b && !after.up
  }

  lemma CommitsDeclaration(z: System, fault: MetaFault)
    requires SessionOk(z) && z.up && Commit(z, fault).status == OK
    ensures z.log.declared.Some? && Honest(z, Commit(z, fault).y, z.log.declared.value)
  {
    hide CommitError, Crc32.Crc, Blank, MetaCommit, NewRecord, RankTarget, TickOk;
    var w := Activation(z);
    ActivationRecord(Working(z.flash), w, z.run);
    WrittenIsNewest(z.flash, z.run, w, fault);
    assert Working(Commit(z, fault).y.flash) == NewRecord(Working(z.flash), w);
    assert w.entry.value == z.log.declared.value;
    hide Working;
  }

  /** Whatever led to it, a successful COMMIT is honest about the last accepted BEGIN. */
  lemma CommitHonest(y: System, xs: seq<Step>, fault: MetaFault)
    requires SessionOk(y) && Timely(y, xs) && Run(y, xs).up && !Run(y, xs).trial
    ensures var z := Run(y, xs);
      var r := Dispatch(z, CmdCommit(fault));
      r.status == OK ==> z.log.declared.Some? && Honest(z, r.y, z.log.declared.value)
  {
    hide Run, Timely, Commit, StateOk, TickOk, Honest;
    RunKeeps(y, xs);
    var z := Run(y, xs);
    if Commit(z, fault).status == OK { CommitsDeclaration(z, fault); }
  }

  lemma ActivationRecord(n: Record, w: MetaWrite, run: nat)
    requires run < 2 && w.active == Other(run) && w.entry.Some? && w.invalidate == NO_SLOT
    ensures var r := NewRecord(n, w);
      && r.counter == n.counter + 1 && r.active == w.active && r.flags == w.flags && r.D(run) == n.D(run)
      && r.D(w.active) == Desc(true, w.entry.value.fw, w.entry.value.len, w.entry.value.crc)
  {
  }

  lemma WrittenIsNewest(f: Flash, run: nat, w: MetaWrite, fault: MetaFault)
    requires w.page.None? && MetaCommit(f, run, w, fault).ok
    ensures PickNewest(MetaCommit(f, run, w, fault).flash) == Some(Newest(NewRecord(Working(f), w), RankTarget(f, run)))
  {
    assert NewRecord(Working(f), w).counter == Working(f).counter + 1;
    hide NewRecord, Rank;
  }
}
