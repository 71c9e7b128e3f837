/** The handlers and ticks of src/ota.c in their own imperative form, each proved to perform
    the corresponding step of the state machine. How the flash behaves is an argument. */
module OtaDevice {
  import opened Wrappers
  import opened OtaLayout
  import opened Ota
  import Crc32
  import Fmc
  import OtaSafety
  import OtaSession
  import OtaRollback

  class Device {
    var run: nat                    // OTA_RUNNING_SLOT of the image that booted
    var flash: Flash
    var up: bool
    var trial: bool                 // s_trial
    var frameSeen: bool             // s_frame_seen
    var s: Session                  // s_state and the other session statics
    var tick: Tick                  // the locals of a pending ota_erase_tick
    ghost var log: Log

    ghost function Abs(): System
      reads this
    {
      System(flash, run, up, trial, frameSeen, s, tick, log)
    }

    ghost predicate Valid()
      reads this
    {
      Abs().Wf() && up
    }

    /** A part before its first boot. */
    constructor (f: Flash)
      requires f.Sized()
      ensures Abs().Wf() && !up && flash == f
      ensures OtaRollback.BootOk(f) ==> Sound()
    {
      run, flash, up, trial, frameSeen := 0, f, false, false, false;
      s, tick, log := RESET_SESSION, NoTick, Log({}, 0, None);
    }

    /** ota_boot_init, in the image the bootloader chose. */
    method BootInit(slot: nat, heal: MetaFault)
      requires Abs().Wf() && slot < 2
      modifies this
      ensures Abs() == Start(old(flash), slot, heal)
    {
      hide MetaCommit;
      run, up, trial, frameSeen := slot, true, false, false;
      s, tick, log := RESET_SESSION, NoTick, Log({}, 0, None);
      var own := FindRunning(flash, run);
      var ownTrial := own.Some? && own.value.rec.Trial();
      if ownTrial {
        trial := true;
      } else {
        var newest := PickNewest(flash);
        if newest.Some? && newest.value.rec.active != run && newest.value.rec.Trial() {
          var _ := WriteMeta(Heal(run, newest.value.rec.active), heal);
        }
      }
    }

    /** A reset: the bootloader's decision, then the application's start. */
    method Reboot(wdt: bool, heal: MetaFault)
      requires Abs().Wf()
      modifies this
      ensures Abs() == Boot(old(Abs()), wdt, heal)
    {
      hide Decide, Start;
      var d := BootDecideSlot(flash, wdt);
      if d.None? {
        up := false;
        return;
      }
      BootInit(d.value.slot, heal);
    }

    /** One metadata page through ota_fmc_erase_range; a failure may keep or lose it. */
    method EraseMeta(page: nat, fault: MetaFault) returns (ok: bool)
      modifies this`flash
      ensures ok == !(fault.EraseKept? || fault.EraseLost?)
      ensures flash == if fault.EraseKept? then old(flash) else old(flash).WithPage(page, Invalid)
    {
      if !fault.EraseKept? { flash := flash.WithPage(page, Invalid); }
      ok := !fault.EraseKept? && !fault.EraseLost?;
    }

    /** One record through ota_fmc_program into an erased page; a failure may still land. */
    method ProgramMeta(page: nat, rec: Record, fault: MetaFault) returns (ok: bool)
      modifies this`flash
      ensures ok == fault.Done?
      ensures flash ==
        if fault.Done? || fault.ProgramLate? then old(flash).WithPage(page, Page.Valid(rec)) else old(flash)
    {
      if fault.Done? || fault.ProgramLate? { flash := flash.WithPage(page, Page.Valid(rec)); }
      ok := fault.Done?;
    }

    /** The page meta_commit erases. */
    method CommitTarget(w: MetaWrite) returns (target: nat)
      ensures target == match w.page case Some(p) => p case None => RankTarget(flash, run)
    {
      if w.page.Some? { return w.page.value; }
      var a, b := Rank(flash.p0, run), Rank(flash.p1, run);
      if a != b { return if a < b then 0 else 1; }
      if a != 0 { return if flash.p0.rec.counter >= flash.p1.rec.counter then 1 else 0; }
      return 0;
    }

    /** The field updates of meta_commit, in its order. */
    method BuildRecord(prior: Record, w: MetaWrite) returns (rec: Record)
      ensures rec == NewRecord(prior, w)
    {
      rec := prior.(counter := prior.counter + 1, active := w.active);
      if w.active < 2 { rec := rec.With(w.active, rec.D(w.active).(valid := true)); }
      if w.invalidate < 2 {
        rec := rec.With(w.invalidate, rec.D(w.invalidate).(valid := false));
        rec := rec.With(w.invalidate, rec.D(w.invalidate).(len := 0, crc := 0));
      }
      rec := rec.(flags := w.flags);
      if w.entry.Some? && w.active < 2 {
        rec := rec.With(w.active, rec.D(w.active).(fw := w.entry.value.fw));
        rec := rec.With(w.active, rec.D(w.active).(len := w.entry.value.len, crc := w.entry.value.crc));
      }
    }

    /** meta_commit. */
    method WriteMeta(w: MetaWrite, fault: MetaFault) returns (ok: bool)
      modifies this`flash
      ensures MetaCommit(old(flash), run, w, fault) == Written(flash, ok)
    {
      hide NewRecord, RankTarget;
      var rec := ZERO_RECORD;
      var newest := PickNewest(flash);
      if newest.Some? { rec := newest.value.rec; }
      var target := CommitTarget(w);
      if rec.counter >= (if w.flags != 0 then COUNTER_LIMIT - 1 else COUNTER_LIMIT) { return false; }
      var erased := EraseMeta(target, fault);
      if !erased { return false; }
      rec := BuildRecord(rec, w);
      ok := ProgramMeta(target, rec, fault);
    }

    /** ota_session_reject. */
    method SessionReject(e: Err)
      modifies this
      ensures Abs() == Reject(old(Abs()), e)
    {
      s := s.(epoch := (s.epoch + 1) % EPOCHS);
      s := s.Fail(e);
      tick := tick.Bumped();
    }

    /** h_begin. */
    method HandleBegin(req: seq<bv8>, busy: bool, fault: MetaFault) returns (status: Status)
      requires Valid()
      modifies this
      ensures Begin(old(Abs()), req, busy, fault) == Out(Abs(), status)
    {
      hide MetaCommit, Declared;
      if |req| < 8 { return INVAL; }
      var d := Declared(req);
      if d.len == 0 || d.len > SLOT_SIZE {
        SessionReject(SessionRange);
        return OUT_OF_RANGE;
      }
      var cur := PickNewest(flash);
      if cur.Some? {
        if cur.value.rec.counter > BEGIN_MAX_COUNTER {
          SessionReject(DemoteFailed);
          return IO;
        }
        if busy { return BUSY; }
          var ok := WriteMeta(MetaWrite(cur.value.rec.active, None, cur.value.rec.flags, None, Other(run)), fault);
        if !ok {
          SessionReject(DemoteFailed);
          return IO;
        }
      }
      s := s.(epoch := (s.epoch + 1) % EPOCHS);
      s := s.(lastOff := 0, imgLen := d.len, expectedCrc := d.crc, fw := d.fw);
      s := s.(erasing := true, eraseAt := 0, state := Busy);
      tick, log := tick.Bumped(), Log({}, 0, Some(d));
      status := OK;
    }

    /** ota_fmc_program on the inactive slot. */
    method ProgramChunk(off: nat, data: seq<bv8>, fault: ProgFault) returns (result: Fmc.Result)
      requires Valid() && off % 8 == 0 && off + |data| <= SLOT_SIZE
      modifies this`flash
      ensures off + Fmc.Up8(|data|) <= |old(Abs()).Target().bytes|
      ensures var p := Program(old(Abs()).Target(), off, data, fault);
        p.result == result && flash == old(flash).WithSlot(Other(run), p.slot)
    {
      PaddingFits(off, |data|);
      var slot := flash.S(Other(run));
      var p := Program(slot, off, data, fault);
      flash := flash.WithSlot(Other(run), p.slot);
      result := p.result;
    }

    /** h_write after its length checks. */
    method StoreChunk(off: nat, data: seq<bv8>, fault: ProgFault) returns (status: Status)
      requires Valid() && s.state == Ready
      modifies this
      ensures var c := PutChunk(old(s), old(Abs()).Target(), off, data, fault);
        && s == c.s && status == c.status && flash == old(flash).WithSlot(Other(run), c.slot)
        && log == old(log).(programs := old(log.programs) + if c.programmed then 1 else 0)
        && run == old(run) && up == old(up) && trial == old(trial) && frameSeen == old(frameSeen) && tick == old(tick)
    {
      hide Program;
      if off > SLOT_SIZE || |data| > SLOT_SIZE - off {
        s := s.Fail(ChunkRange);
        return OUT_OF_RANGE;
      }
      if off % GRANULE != 0 { return INVAL; }
      if off + |data| <= s.lastOff {
        if flash.S(Other(run)).bytes[off..off + |data|] == data { return OK; }
        s := s.Fail(ProgramFailed);
        return IO;
      }
      s := s.(state := Busy);
      var result := ProgramChunk(off, data, fault);
      log := log.(programs := log.programs + 1);
      if !result.Ok? {
        s := s.Fail(ProgramFailed);
        return if result.Timeout? then TIMEOUT else IO;
      }
      if off + |data| > s.lastOff { s := s.(lastOff := off + |data|); }
      s := s.(state := Ready);
      status := OK;
    }

    /** h_write. */
    method HandleWrite(req: seq<bv8>, fault: ProgFault) returns (status: Status)
      requires Valid()
      modifies this
      ensures Write(old(Abs()), req, fault) == Out(Abs(), status)
    {
      hide Word, PutChunk;
      if s.state != Ready { return NOT_READY; }
      if |req| < 5 { return INVAL; }
      if req[4] == 0 || req[4] as nat != |req| - 5 { return INVAL; }
      status := StoreChunk(Word(req, 0), req[5..], fault);
    }

    /** h_verify. */
    method HandleVerify() returns (status: Status)
      requires Valid()
      modifies this
      ensures Verify(old(Abs())) == Out(Abs(), status)
    {
      if s.state != Ready { return NOT_READY; }
      if s.imgLen == 0 || s.imgLen > SLOT_SIZE {
        s := s.Fail(SessionRange);
        return INVAL;
      }
      var crc := Crc32.OtaCrc32(0, flash.S(Other(run)).bytes[..s.imgLen]);
      s := s.(imgCrc := crc);
      var ok := s.imgCrc == s.expectedCrc;
      s := s.(state := if ok then Verified else Error);
      if !ok { s := s.(err := VerifyCrc); }
      status := OK;
    }

    /** h_commit. */
    method HandleCommit(fault: MetaFault) returns (status: Status)
      requires Valid()
      modifies this
      ensures Commit(old(Abs()), fault) == Out(Abs(), status)
    {
      hide MetaCommit, Bootable, TrialCapable;
      if s.state != Verified { return NOT_READY; }
      if s.imgLen == 0 || s.imgLen > SLOT_SIZE {
        s := s.Fail(SessionRange);
        return INVAL;
      }
      var img := flash.S(Other(run)).bytes;
      if !Bootable(Base(Other(run)), img, s.imgLen) {
        s := s.Fail(CommitFailed);
        return INVAL;
      }
      var capable := ImageTrialCapable(img, s.imgLen);
      if !capable {
        s := s.Fail(NotTrialCapable);
        return INVAL;
      }
      var cur := PickNewest(flash);
      if cur.Some? && s.fw < Floor(cur.value.rec) {
        s := s.Fail(BelowFloor);
        return INVAL;
      }
      var entry := Declaration(s.imgLen, s.imgCrc, s.fw);
      var ok := WriteMeta(MetaWrite(Other(run), Some(entry), TRIAL_FLAG, None, NO_SLOT), fault);
      if !ok {
        s := s.Fail(CommitFailed);
        return IO;
      }
      up := false;
      status := OK;
    }

    /** h_rollback. */
    method HandleRollback(fault: MetaFault) returns (status: Status)
      requires Valid()
      modifies this
      ensures Rollback(old(Abs()), fault) == Out(Abs(), status)
    {
      hide MetaCommit, Bootable, TrialCapable, Crc32.Crc, Floor;
      if s.state != Idle && s.state != Error { return BUSY; }
      var cur := PickNewest(flash);
      if cur.None? || cur.value.rec.active >= 2 { return INVAL; }
      var rec := cur.value.rec;
      var other := Other(rec.active);
      var d := rec.D(other);
      if !d.valid || d.len == 0 || d.len > SLOT_SIZE { return INVAL; }
      if d.fw < Floor(rec) {
        s := s.Fail(BelowFloor);
        return INVAL;
      }
      var img := flash.S(other).bytes;
      var crc := Crc32.OtaCrc32(0, img[..d.len]);
      if crc != d.crc || !Bootable(Base(other), img, d.len) { return INVAL; }
      var capable := ImageTrialCapable(img, d.len);
      var ok := WriteMeta(MetaWrite(other, None, if capable then TRIAL_FLAG else 0, None, NO_SLOT), fault);
      if !ok { return IO; }
      up := false;
      status := OK;
    }

    /** OTA_ABORT. */
    method HandleAbort()
      modifies this
      ensures Abs() == Abort(old(Abs()))
    {
      s := s.(epoch := (s.epoch + 1) % EPOCHS);
      s := s.(erasing := false, state := Idle, err := NoError);
      tick := tick.Bumped();
    }

    /** ota_erase_tick, up to the flash call. */
    method TakeSnapshot()
      modifies this
      ensures Abs() == EraseSnapshot(old(Abs()))
    {
      if !tick.NoTick? || !s.erasing { return; }
      tick := InErase(s.epoch, s.eraseAt, 0);
    }

    /** ota_erase_tick, the flash call. */
    method EraseOnePage(fault: EraseFault)
      requires Valid()
      modifies this
      ensures Abs() == EraseCall(old(Abs()), fault)
    {
      hide ErasePage;
      if !tick.InErase? || (tick.at / PAGE_SIZE + 1) * PAGE_SIZE > SLOT_SIZE { return; }
      var p := tick.at / PAGE_SIZE;
      flash := flash.WithSlot(Other(run), ErasePage(flash.S(Other(run)), p, fault));
      tick := AfterErase(tick.epoch, tick.at, fault.Erased?, tick.bumps);
      log := log.(erased := if fault.Erased? then log.erased + {p} else log.erased - {p});
    }

    /** ota_erase_tick, after the flash call. */
    method PublishErase()
      modifies this
      ensures Abs() == ErasePublish(old(Abs()))
    {
      if !tick.AfterErase? { return; }
      var t := tick;
      tick := NoTick;
      if !s.erasing || s.epoch != t.epoch { return; }
      if !t.ok {
        s := s.(erasing := false, state := Error, err := EraseFailed);
        return;
      }
      s := s.(eraseAt := t.at + PAGE_SIZE);
      if s.eraseAt >= SLOT_SIZE {
        s := s.(erasing := false);
        if s.state == Busy { s := s.(state := Ready); }
      }
    }

    /** ota_confirm_tick. */
    method TickConfirmation(fault: MetaFault)
      requires Valid()
      modifies this
      ensures Abs() == ConfirmTick(old(Abs()), fault)
    {
      if !tick.NoTick? || !trial || !frameSeen { return; }
      var own := FindRunning(flash, run);
      if own.None? { return; }
      var ok := WriteMeta(MetaWrite(run, None, 0, Some(own.value.page), NO_SLOT), fault);
      if !ok { return; }
      up := false;
    }

    // ---- any stream of commands, ticks and resets ---------------------------------------------------------

    /** protocol_dispatch for an OTA opcode or any other. */
    method Receive(cmd: Command) returns (status: Status)
      requires Valid()
      modifies this
      ensures Dispatch(old(Abs()), cmd) == Out(Abs(), status)
    {
      hide Begin, Write, Verify, Commit, Rollback, Abort;
      if trial {
        frameSeen := true;
        return BUSY;
      }
      match cmd
      case CmdBegin(req, busy, fault) => status := HandleBegin(req, busy, fault);
      case CmdWrite(req, fault) => status := HandleWrite(req, fault);
      case CmdVerify => status := HandleVerify();
      case CmdCommit(fault) => status := HandleCommit(fault);
      case CmdRollback(fault) => status := HandleRollback(fault);
      case CmdAbort =>
        HandleAbort();
        status := OK;
      case CmdOther => status := OK;
    }

    /** One event. */
    method Perform(x: Step)
      requires Abs().Wf()
      modifies this
      ensures Abs() == Next(old(Abs()), x) && Abs().Wf()
    {
      hide Dispatch, EraseSnapshot, EraseCall, ErasePublish, ConfirmTick, Boot;
      if x.Restart? {
        Reboot(x.wdt, x.heal);
      } else if up {
        match x
        case Frame(cmd) => var _ := Receive(cmd);
        case TickSnapshot => TakeSnapshot();
        case TickErase(fault) => EraseOnePage(fault);
        case TickPublish => PublishErase();
        case TickConfirm(fault) => TickConfirmation(fault);
      }
    }

    /** A pending tick has been overtaken as often as it may be: the base level completes it
        long before 2^32 commands can arrive. */
    predicate TickDue()
      reads this
    {
      !tick.NoTick? && tick.bumps + 1 >= EPOCHS
    }

    /** A ROLLBACK now would put the running slot on trial over its own record. */
    predicate RollbackHazard()
      requires Abs().Wf()
      reads this
    {
      && up && !trial && (s.state == Idle || s.state == Error)
      && PickNewest(flash).Some? && PickNewest(flash).value.rec.active != run
      && FindFallback(flash).ReturnTo? && FindFallback(flash).write.flags == TRIAL_FLAG
      && !CounterSpent(flash, TRIAL_FLAG)
    }

    lemma HazardMeans()
      requires Abs().Wf()
      ensures RollbackHazard() == OtaRollback.Hazard(Abs(), Frame(CmdRollback(Done)))
    {
      hide FindFallback, CounterSpent;
    }

    /** The object's fields are those of a bootable part with a consistent session. */
    ghost predicate Sound()
      reads this
    {
      OtaRollback.Inv(Abs()) && OtaSession.SessionOk(Abs()) && (!tick.NoTick? ==> tick.bumps < EPOCHS)
    }

    /** One event of the stream, kept sound whatever the flash does. */
    method Handle(x: Step)
      requires Sound() && (x.Frame? ==> !TickDue())
      modifies this
      ensures Sound() && Taken(x, old(Abs()), Abs())
    {
      hide OtaRollback.Inv, OtaSession.SessionOk, OtaSession.Honest, Next, OtaRollback.Hazard, FindFallback;
      ghost var y := Abs();
      InvWf(y);
      HazardMeans();
      if x.Frame? && x.cmd.CmdRollback? && RollbackHazard() { return; }
      Perform(x);
      NotHazard(y, x);
      OtaRollback.StepHolds(y, x);
      OtaSession.StepKeeps(y, x);
      Bumps(y, x);
      if x.Frame? && x.cmd.CmdCommit? { Committed(y, x); }
    }

    /** What the fields then promise. */
    lemma SoundMeans()
      requires Sound()
      ensures OtaSafety.Safe(Abs()) && Trustworthy(Abs())
    {
      hide OtaRollback.Inv, Crc32.Crc;
      OtaRollback.InvSafe(Abs());
    }

    /** Any stream of commands, ticks and resets, with every flash outcome. `trail` is the object
        before each event and at the end. Throughout it is bootable; READY and VERIFIED are
        trustworthy; and every COMMIT that succeeds writes the declaration of the last accepted
        BEGIN over bytes that match it. Only a ROLLBACK that is a hazard where it would strike is
        withheld. */
    method Exercise(xs: seq<Step>) returns (ghost trail: seq<System>)
      requires Sound()
      modifies this
      ensures Sound() && |trail| == |xs| + 1 && trail[0] == old(Abs()) && trail[|xs|] == Abs()
      ensures forall i | 0 <= i <= |xs| :: OtaSafety.Safe(trail[i]) && Trustworthy(trail[i])
      ensures forall i | 0 <= i < |xs| :: Taken(xs[i], trail[i], trail[i + 1])
    {
      hide Sound, Taken, OtaSafety.Safe, Trustworthy;
      SoundMeans();
      trail := [Abs()];
      for i := 0 to |xs|
        invariant Sound() && |trail| == i + 1 && trail[0] == old(Abs()) && trail[i] == Abs()
        invariant forall k | 0 <= k <= i :: OtaSafety.Safe(trail[k]) && Trustworthy(trail[k])
        invariant forall k | 0 <= k < i :: Taken(xs[k], trail[k], trail[k + 1])
      {
        if xs[i].Frame? && TickDue() {
          Unmoved(xs[i]);
        } else {
          Handle(xs[i]);
        }
        SoundMeans();
        trail := trail + [Abs()];
      }
    }

    lemma Unmoved(x: Step)
      requires Sound() && x.Frame? && TickDue()
      ensures Taken(x, Abs(), Abs())
    {
      hide OtaRollback.Inv, OtaSession.SessionOk;
      InvWf(Abs());
    }
  }

  /** The command is withheld: a pending tick must finish first, or it is a hazardous
      ROLLBACK. */
  predicate Withheld(x: Step, y: System)
    requires y.Wf()
  {
    || (x.Frame? && !y.tick.NoTick? && y.tick.bumps + 1 >= EPOCHS)
    || (x.Frame? && x.cmd.CmdRollback? && OtaRollback.Hazard(y, Frame(CmdRollback(Done))))
  }

  /** The event took the part from `y` to `z`, and if it was a COMMIT that succeeded it was
      honest. */
  ghost predicate Taken(x: Step, y: System, z: System) {
    && y.Wf() && z.Wf()
    && z == (if Withheld(x, y) then y else Next(y, x))
    && (x.Frame? && x.cmd.CmdCommit? && y.up && !z.up ==>
          y.log.declared.Some? && OtaSession.Honest(y, z, y.log.declared.value))
  }

  /** READY and VERIFIED mean what they say. */
  predicate Trustworthy(y: System) {
    && y.Wf()
    && (y.up && (y.s.state == Ready || y.s.state == Verified) ==>
          !y.s.erasing && y.tick.NoTick? && 1 <= y.s.imgLen <= SLOT_SIZE)
    && (y.up && y.s.state == Verified ==>
          y.s.imgCrc == y.s.expectedCrc == Crc32.Crc(0, y.Target().bytes[..y.s.imgLen]))
  }

  lemma InvWf(y: System)
    requires OtaRollback.Inv(y)
    ensures y.Wf()
  {
  }

  lemma NotHazard(y: System, x: Step)
    requires y.Wf()
    requires x.Frame? && x.cmd.CmdRollback? ==> !OtaRollback.Hazard(y, Frame(CmdRollback(Done)))
    ensures !OtaRollback.Hazard(y, x)
  {
    hide FindFallback;
  }

  /** A step overtakes a pending tick at most once, and only as a command. */
  lemma Bumps(y: System, x: Step)
    requires y.Wf()
    ensures var z := Next(y, x);
      !z.tick.NoTick? ==>
        z.tick.bumps <= (if y.tick.NoTick? then 0 else y.tick.bumps) + (if x.Frame? then 1 else 0)
  {
    hide MetaCommit, WriteChunk, CommitError, FindFallback, Declared, Crc32.Crc, ErasePage, Decide, Healed, Trialling;
  }

  /** A COMMIT that takes the part down was honest. */
  lemma Committed(y: System, x: Step)
    requires y.Wf() && OtaSession.SessionOk(y) && x.Frame? && x.cmd.CmdCommit?
    ensures y.up && !Next(y, x).up ==>
      y.log.declared.Some? && OtaSession.Honest(y, Next(y, x), y.log.declared.value)
  {
    hide OtaSession.SessionOk, OtaSession.Honest, MetaCommit, CommitError;
    if y.up && !Next(y, x).up {
      OtaSession.CommitsDeclaration(y, x.cmd.commit);
    }
  }
}
