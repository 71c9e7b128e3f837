/** The OTA engine (src/ota.c) as a state machine: flash and RAM, one step per command, per
    third of the background erase tick, per confirm tick and per reset. Every step is total,
    so a run is any sequence of steps. Faults are arguments of the step they strike; a power
    cut is a fault followed by a reset. */
module Ota {
  import opened Wrappers
  import opened OtaLayout
  import Crc32
  import Fmc

  const PAGE_SIZE := Fmc.PAGE_SIZE
  const PAGES := SLOT_SIZE / PAGE_SIZE
  const EPOCHS := 0x1_0000_0000
  const GRANULE := 8
  const TRIAL_FLAG := 1
  const NO_SLOT := 0xFF

  datatype State = Idle | Ready | Busy | Verified | Error
  datatype Err =
    | NoError | SessionRange | EraseFailed | ChunkRange | ProgramFailed | VerifyCrc | CommitFailed
    | NotTrialCapable | DemoteFailed | BelowFloor
  datatype Status = OK | INVAL | OUT_OF_RANGE | IO | BUSY | NOT_READY | TIMEOUT

  /** The static session fields. `eraseAt` is relative to the inactive slot's base, whose end
      is SLOT_SIZE; the inactive slot is always the one not running. */
  datatype Session = Session(
    state: State, imgLen: nat, lastOff: nat, expectedCrc: bv32, imgCrc: bv32, fw: nat, err: Err,
    erasing: bool, eraseAt: nat, epoch: nat)
  {
    function Fail(e: Err): Session { this.(state := Error, err := e) }
  }

  const RESET_SESSION := Session(Idle, 0, 0, 0, 0, 0, NoError, false, 0, 0)

  /** Where the base-level erase tick stands. `bumps` counts the epoch increments since its
      snapshot; nothing reads it. */
  datatype Tick =
    | NoTick
    | InErase(epoch: nat, at: nat, bumps: nat)
    | AfterErase(epoch: nat, at: nat, ok: bool, bumps: nat)
  {
    function Bumped(): Tick { if NoTick? then this else this.(bumps := bumps + 1) }
  }

  /** What an OTA_BEGIN request declares. */
  datatype Declaration = Declaration(len: nat, crc: bv32, fw: nat)

  /** Observations since the last accepted BEGIN: pages erased and not damaged since, program
      operations, and the declaration. No step reads it. */
  datatype Log = Log(erased: set<nat>, programs: nat, declared: Option<Declaration>)

  datatype System = System(
    flash: Flash, run: nat, up: bool, trial: bool, frameSeen: bool, s: Session, tick: Tick, log: Log)
  {
    predicate Wf() { flash.Sized() && run < 2 }
    function Target(): Slot { flash.S(Other(run)) }
    function WithTarget(x: Slot): System { this.(flash := flash.WithSlot(Other(run), x)) }
  }

  // ---- metadata --------------------------------------------------------------------------------

  /** How a metadata write ends: done; the erase failed and the page kept its content; the
      erase or the program failed or was cut and the page reads as invalid; or the program
      was reported as failed although the record landed. */
  datatype MetaFault = Done | EraseKept | EraseLost | ProgramLost | ProgramLate

  /** The arguments of meta_commit. */
  datatype MetaWrite = MetaWrite(
    active: nat, entry: Option<Declaration>, flags: nat, page: Option<nat>, invalidate: nat)

  datatype Written = Written(flash: Flash, ok: bool)

  /** meta_page_rank. */
  function Rank(p: Page, run: nat): nat {
    if p.Invalid? then 0 else if p.rec.active == run then 2 else 1
  }

  /** The page meta_commit erases when it is not told. */
  function RankTarget(f: Flash, run: nat): nat {
    var a, b := Rank(f.p0, run), Rank(f.p1, run);
    if a != b then (if a < b then 0 else 1)
    else if f.p0.Valid? && f.p1.Valid? then (if f.p0.rec.counter >= f.p1.rec.counter then 1 else 0)
    else 0
  }

  /** The record a commit starts from. */
  function Working(f: Flash): Record {
    match PickNewest(f) case Some(n) => n.rec case None => ZERO_RECORD
  }

  /** The record meta_commit writes. */
  function NewRecord(prior: Record, w: MetaWrite): Record {
    var r := prior.(counter := prior.counter + 1, active := w.active, flags := w.flags);
    var r := if w.active < 2 then r.With(w.active, r.D(w.active).(valid := true)) else r;
    var r := if w.invalidate < 2 then r.With(w.invalidate, Desc(false, r.D(w.invalidate).fw, 0, 0)) else r;
    if w.entry.Some? && w.active < 2 then
      var e := w.entry.value;
      r.With(w.active, r.D(w.active).(fw := e.fw, len := e.len, crc := e.crc))
    else r
  }

  /** The counter is too high for this write. */
  predicate CounterSpent(f: Flash, flags: nat) {
    Working(f).counter >= (if flags != 0 then COUNTER_LIMIT - 1 else COUNTER_LIMIT)
  }

  /** meta_commit. */
  function MetaCommit(f: Flash, run: nat, w: MetaWrite, fault: MetaFault): (r: Written)
    ensures r.flash.a == f.a && r.flash.b == f.b
  {
    var page := match w.page case Some(p) => p case None => RankTarget(f, run);
    if CounterSpent(f, w.flags) || fault.EraseKept? then Written(f, false)
    else if fault.EraseLost? || fault.ProgramLost? then Written(f.WithPage(page, Invalid), false)
    else Written(f.WithPage(page, Valid(NewRecord(Working(f), w))), fault.Done?)
  }

  /** find_running_slot_record. */
  function FindRunning(f: Flash, run: nat): Option<Newest> {
    var a := f.p0.Valid? && f.p0.rec.active == run;
    var b := f.p1.Valid? && f.p1.rec.active == run;
    if b && (!a || f.p1.rec.counter > f.p0.rec.counter) then Some(Newest(f.p1.rec, 1))
    else if a then Some(Newest(f.p0.rec, 0))
    else None
  }

  // ---- slots ---------------------------------------------------------------------------------

  /** How programming a chunk ends. A failed walk leaves the addressed doublewords in any
      state. */
  datatype ProgFault = Clean | Torn(left: Slot, timeout: bool)

  datatype Programmed = Programmed(slot: Slot, result: Fmc.Result)

  predicate Within(k: nat, lo: nat, hi: nat) { lo <= k < hi }

  function Interval(lo: nat, hi: nat): (r: set<nat>)
    ensures forall k: nat :: k in r <==> lo <= k < hi
  {
    set k: nat | lo <= k < hi && Within(k, lo, hi)
  }

  function Dwords(off: nat, n: nat): set<nat> { Interval(off / 8, (off + Fmc.Up8(n)) / 8) }

  predicate AgreeOutside(x: seq<bv8>, y: seq<bv8>, lo: nat, hi: nat) {
    |x| == |y| && forall k | 0 <= k < |x| && !(lo <= k < hi) :: x[k] == y[k]
  }

  lemma PaddingFits(off: nat, n: nat)
    requires off % 8 == 0 && off + n <= SLOT_SIZE
    ensures off + Fmc.Up8(n) <= SLOT_SIZE && (off + Fmc.Up8(n)) % 8 == 0
  {
    assert SLOT_SIZE % 8 == 0;
  }

  /** The slot after storing `data` and its padding at `off`. */
  function Stored(slot: Slot, off: nat, data: seq<bv8>): (r: Slot)
    requires off + Fmc.Up8(|data|) <= |slot.bytes|
    ensures |r.bytes| == |slot.bytes|
  {
    var end := off + Fmc.Up8(|data|);
    Slot(slot.bytes[..off] + seq(end - off, k requires 0 <= k => Fmc.Padded(data, k)) + slot.bytes[end..],
         slot.programmed + Dwords(off, |data|))
  }

  /** ota_fmc_program on the inactive slot: the flash refuses a doubleword that is not blank. */
  function Program(slot: Slot, off: nat, data: seq<bv8>, fault: ProgFault): (r: Programmed)
    requires off + Fmc.Up8(|data|) <= |slot.bytes|
    ensures |r.slot.bytes| == |slot.bytes|
  {
    match fault
    case Clean =>
      if slot.programmed !! Dwords(off, |data|) then Programmed(Stored(slot, off, data), Fmc.Ok)
      else Programmed(slot, Fmc.Error)
    case Torn(left, timeout) =>
      if AgreeOutside(slot.bytes, left.bytes, off, off + Fmc.Up8(|data|)) then
        Programmed(Slot(left.bytes, slot.programmed + Dwords(off, |data|)), if timeout then Fmc.Timeout else Fmc.Error)
      else Programmed(slot, Fmc.Error)
  }

  /** How erasing one page ends. A failed erase leaves the page in any state. */
  datatype EraseFault = Erased | Damaged(left: Slot)

  function PageDwords(p: nat): set<nat> { Interval(p * PAGE_SIZE / 8, (p + 1) * PAGE_SIZE / 8) }

  function ErasePage(slot: Slot, p: nat, fault: EraseFault): (r: Slot)
    requires (p + 1) * PAGE_SIZE <= |slot.bytes|
    ensures |r.bytes| == |slot.bytes|
  {
    match fault
    case Erased =>
      Slot(slot.bytes[..p * PAGE_SIZE] + seq(PAGE_SIZE, _ => 0xFF) + slot.bytes[(p + 1) * PAGE_SIZE..],
           slot.programmed - PageDwords(p))
    case Damaged(left) =>
      if AgreeOutside(slot.bytes, left.bytes, p * PAGE_SIZE, (p + 1) * PAGE_SIZE) then
        Slot(left.bytes, slot.programmed + PageDwords(p))
      else slot
  }

  // ---- handlers ----------------------------------------------------------------------------------

  datatype Out = Out(y: System, status: Status)

  /** The fields of an OTA_BEGIN request of at least eight bytes. */
  function Declared(req: seq<bv8>): Declaration
    requires |req| >= 8
  {
    Declaration(
      Word(req, 0), Bits(req, 4),
      if |req| >= 11 then req[8] as nat * 0x1_0000 + req[9] as nat * 0x100 + req[10] as nat else 0)
  }

  /** ota_session_reject. */
  function Reject(y: System, e: Err): System {
    y.(s := y.s.Fail(e).(epoch := (y.s.epoch + 1) % EPOCHS), tick := y.tick.Bumped())
  }

  /** The publication at the end of h_begin. */
  function Arm(y: System, d: Declaration): System {
    y.(s := y.s.(state := Busy, imgLen := d.len, lastOff := 0, expectedCrc := d.crc, fw := d.fw,
                 erasing := true, eraseAt := 0, epoch := (y.s.epoch + 1) % EPOCHS),
       tick := y.tick.Bumped(), log := Log({}, 0, Some(d)))
  }

  /** The range check h_begin repeats before arming never fires: the two slots are disjoint. */
  lemma EraseTargetClear(run: nat)
    requires run < 2
    ensures !Fmc.Intersects(Base(Other(run)), Base(Other(run)) + SLOT_SIZE, Base(run), Base(run) + SLOT_SIZE)
  {
  }

  /** The metadata write BEGIN makes before arming. */
  function Demotion(r: Record, run: nat): MetaWrite {
    MetaWrite(r.active, None, r.flags, None, Other(run))
  }

  /** h_begin. `busy` is ota_fmc_funnel_busy. */
  function Begin(y: System, req: seq<bv8>, busy: bool, fault: MetaFault): (r: Out)
    requires y.Wf()
    ensures r.y.Wf()
  {
    if |req| < 8 then Out(y, INVAL)
    else
      var d := Declared(req);
      if d.len == 0 || d.len > SLOT_SIZE then Out(Reject(y, SessionRange), OUT_OF_RANGE)
      else
        match PickNewest(y.flash)
        case None => Out(Arm(y, d), OK)
        case Some(n) =>
          if n.rec.counter > BEGIN_MAX_COUNTER then Out(Reject(y, DemoteFailed), IO)
          else if busy then Out(y, BUSY)
          else
            var w := MetaCommit(y.flash, y.run, Demotion(n.rec, y.run), fault);
            var y := y.(flash := w.flash);
            if !w.ok then Out(Reject(y, DemoteFailed), IO) else Out(Arm(y, d), OK)
  }

  datatype ChunkOut = ChunkOut(s: Session, slot: Slot, status: Status, programmed: bool)

  /** h_write after its length checks. */
  function PutChunk(s: Session, slot: Slot, off: nat, data: seq<bv8>, fault: ProgFault): (r: ChunkOut)
    requires |slot.bytes| == SLOT_SIZE
    ensures |r.slot.bytes| == SLOT_SIZE
  {
    if off > SLOT_SIZE || |data| > SLOT_SIZE - off then ChunkOut(s.Fail(ChunkRange), slot, OUT_OF_RANGE, false)
    else if off % GRANULE != 0 then ChunkOut(s, slot, INVAL, false)
    else if off + |data| <= s.lastOff then
      if slot.bytes[off..off + |data|] == data then ChunkOut(s, slot, OK, false)
      else ChunkOut(s.Fail(ProgramFailed), slot, IO, false)
    else
      PaddingFits(off, |data|);
      var p := Program(slot, off, data, fault);
      match p.result
      case Ok => ChunkOut(s.(lastOff := off + |data|), p.slot, OK, true)
      case Error => ChunkOut(s.Fail(ProgramFailed), p.slot, IO, true)
      case Timeout => ChunkOut(s.Fail(ProgramFailed), p.slot, TIMEOUT, true)
  }

  /** h_write, on the session and the inactive slot. */
  function WriteChunk(s: Session, slot: Slot, req: seq<bv8>, fault: ProgFault): (r: ChunkOut)
    requires |slot.bytes| == SLOT_SIZE
    ensures |r.slot.bytes| == SLOT_SIZE
  {
    if s.state != Ready then ChunkOut(s, slot, NOT_READY, false)
    else if |req| < 5 then ChunkOut(s, slot, INVAL, false)
    else if req[4] == 0 || req[4] as nat != |req| - 5 then ChunkOut(s, slot, INVAL, false)
    else PutChunk(s, slot, Word(req, 0), req[5..], fault)
  }

  function Write(y: System, req: seq<bv8>, fault: ProgFault): (r: Out)
    requires y.Wf()
    ensures r.y.Wf()
  {
    var c := WriteChunk(y.s, y.Target(), req, fault);
    Out(y.WithTarget(c.slot).(s := c.s, log := if c.programmed then y.log.(programs := y.log.programs + 1) else y.log),
        c.status)
  }

  /** h_verify. */
  function Verify(y: System): (r: Out)
    requires y.Wf()
    ensures r.y.Wf()
  {
    if y.s.state != Ready then Out(y, NOT_READY)
    else if y.s.imgLen == 0 || y.s.imgLen > SLOT_SIZE then Out(y.(s := y.s.Fail(SessionRange)), INVAL)
    else
      var s := y.s.(imgCrc := Crc32.Crc(0, y.Target().bytes[..y.s.imgLen]));
      Out(y.(s := if s.imgCrc == s.expectedCrc then s.(state := Verified) else s.Fail(VerifyCrc)), OK)
  }

  /** The metadata write a commit makes. */
  function Activation(y: System): MetaWrite {
    MetaWrite(Other(y.run), Some(Declaration(y.s.imgLen, y.s.imgCrc, y.s.fw)), TRIAL_FLAG, None, NO_SLOT)
  }

  function Reset(y: System): System { y.(up := false) }

  /** The check at which h_commit stops, in its order. */
  function CommitError(y: System): Option<Err>
    requires y.Wf()
  {
    if y.s.imgLen == 0 || y.s.imgLen > SLOT_SIZE then Some(SessionRange)
    else if !Bootable(Base(Other(y.run)), y.Target().bytes, y.s.imgLen) then Some(CommitFailed)
    else if !TrialCapable(y.Target().bytes, y.s.imgLen) then Some(NotTrialCapable)
    else if y.s.fw < Floor(Working(y.flash)) then Some(BelowFloor)
    else None
  }

  /** h_commit. */
  function Commit(y: System, fault: MetaFault): (r: Out)
    requires y.Wf()
    ensures r.y.Wf()
  {
    if y.s.state != Verified then Out(y, NOT_READY)
    else
      match CommitError(y)
      case Some(e) => Out(y.(s := y.s.Fail(e)), INVAL)
      case None =>
        var w := MetaCommit(y.flash, y.run, Activation(y), fault);
        var y := y.(flash := w.flash);
        if w.ok then Out(Reset(y), OK) else Out(y.(s := y.s.Fail(CommitFailed)), IO)
  }

  /** What h_rollback finds in the metadata: nothing to return to, a version below the floor,
      or the slot to return to. */
  datatype ReturnPlan = NoFallback | TooOld | ReturnTo(write: MetaWrite)

  function FindFallback(f: Flash): ReturnPlan
    requires f.Sized()
  {
    match PickNewest(f)
    case None => NoFallback
    case Some(n) =>
      if n.rec.active >= 2 then NoFallback
      else
        var other := Other(n.rec.active);
        var d := n.rec.D(other);
        if !d.valid || d.len == 0 || d.len > SLOT_SIZE then NoFallback
        else if d.fw < Floor(n.rec) then TooOld
        else if !ImageMatches(f, other, d) then NoFallback
        else
          var flags := if TrialCapable(f.S(other).bytes, d.len) then TRIAL_FLAG else 0;
          ReturnTo(MetaWrite(other, None, flags, None, NO_SLOT))
  }

  /** h_rollback. */
  function Rollback(y: System, fault: MetaFault): (r: Out)
    requires y.Wf()
    ensures r.y.Wf()
  {
    if y.s.state != Idle && y.s.state != Error then Out(y, BUSY)
    else
      match FindFallback(y.flash)
      case NoFallback => Out(y, INVAL)
      case TooOld => Out(y.(s := y.s.Fail(BelowFloor)), INVAL)
      case ReturnTo(write) =>
        var w := MetaCommit(y.flash, y.run, write, fault);
        var y := y.(flash := w.flash);
        if w.ok then Out(Reset(y), OK) else Out(y, IO)
  }

  /** OTA_ABORT. */
  function Abort(y: System): System {
    y.(s := y.s.(state := Idle, err := NoError, erasing := false, epoch := (y.s.epoch + 1) % EPOCHS),
       tick := y.tick.Bumped())
  }

  // ---- base-level ticks ------------------------------------------------------------------------------

  /** ota_erase_tick up to the flash call. */
  function EraseSnapshot(y: System): System {
    if y.tick.NoTick? && y.s.erasing then y.(tick := InErase(y.s.epoch, y.s.eraseAt, 0)) else y
  }

  /** The flash call of ota_erase_tick. */
  function EraseCall(y: System, fault: EraseFault): (r: System)
    requires y.Wf()
    ensures r.Wf()
  {
    if !y.tick.InErase? then y
    else
      var t, p := y.tick, y.tick.at / PAGE_SIZE;
      if (p + 1) * PAGE_SIZE > SLOT_SIZE then y
      else
        y.WithTarget(ErasePage(y.Target(), p, fault))
        .(tick := AfterErase(t.epoch, t.at, fault.Erased?, t.bumps),
          log := y.log.(erased := if fault.Erased? then y.log.erased + {p} else y.log.erased - {p}))
  }

  /** The locked tail of ota_erase_tick. */
  function Publish(s: Session, t: Tick): Session
    requires t.AfterErase?
  {
    if !s.erasing || s.epoch != t.epoch then s
    else if !t.ok then s.Fail(EraseFailed).(erasing := false)
    else if t.at + PAGE_SIZE >= SLOT_SIZE then
      s.(eraseAt := t.at + PAGE_SIZE, erasing := false, state := if s.state == Busy then Ready else s.state)
    else s.(eraseAt := t.at + PAGE_SIZE)
  }

  function ErasePublish(y: System): System {
    if y.tick.AfterErase? then y.(s := Publish(y.s, y.tick), tick := NoTick) else y
  }

  /** ota_confirm_tick; it shares the base level with the erase tick. */
  function ConfirmTick(y: System, fault: MetaFault): (r: System)
    requires y.Wf()
    ensures r.Wf()
  {
    if !y.tick.NoTick? || !y.trial || !y.frameSeen then y
    else
      match FindRunning(y.flash, y.run)
      case None => y
      case Some(n) =>
        var w := MetaCommit(y.flash, y.run, MetaWrite(y.run, None, 0, Some(n.page), NO_SLOT), fault);
        var y := y.(flash := w.flash);
        if w.ok then Reset(y) else y
  }

  // ---- boot -------------------------------------------------------------------------------------------

  /** The write ota_boot_init makes after a rejected trial. */
  function Heal(run: nat, rejected: nat): MetaWrite { MetaWrite(run, None, 0, None, rejected) }

  /** The self-heal of ota_boot_init is due: the running slot's record is no trial, and the
      newest record is another slot's trial. */
  predicate HealDue(f: Flash, run: nat) {
    && !(FindRunning(f, run).Some? && FindRunning(f, run).value.rec.Trial())
    && PickNewest(f).Some?
    && var n := PickNewest(f).value.rec;
    && n.active != run && n.Trial()
  }

  /** ota_boot_init, as the flash it leaves. */
  function Healed(f: Flash, run: nat, fault: MetaFault): Flash {
    if HealDue(f, run) then MetaCommit(f, run, Heal(run, PickNewest(f).value.rec.active), fault).flash else f
  }

  function Trialling(f: Flash, run: nat): bool {
    FindRunning(f, run).Some? && FindRunning(f, run).value.rec.Trial()
  }

  /** The application starting in slot `run`: cleared RAM, then ota_boot_init. */
  function Start(f: Flash, run: nat, heal: MetaFault): System {
    System(Healed(f, run, heal), run, true, Trialling(f, run), false, RESET_SESSION, NoTick, Log({}, 0, None))
  }

  /** The bootloader's choice, then the application's start; nothing bootable leaves it down. */
  function Boot(y: System, wdt: bool, heal: MetaFault): (r: System)
    requires y.Wf()
    ensures r.Wf()
  {
    match Decide(y.flash, wdt)
    case None => y.(up := false)
    case Some(d) => Start(y.flash, d.slot, heal)
  }

  // ---- runs ---------------------------------------------------------------------------------------------

  datatype Command =
    | CmdBegin(req: seq<bv8>, busy: bool, begin: MetaFault)
    | CmdWrite(chunk: seq<bv8>, prog: ProgFault)
    | CmdVerify
    | CmdCommit(commit: MetaFault)
    | CmdRollback(back: MetaFault)
    | CmdAbort
    | CmdOther

  datatype Step =
    | Frame(cmd: Command)
    | TickSnapshot
    | TickErase(erase: EraseFault)
    | TickPublish
    | TickConfirm(confirm: MetaFault)
    | Restart(wdt: bool, heal: MetaFault)

  /** protocol_dispatch: an unconfirmed trial only notes the frame. */
  function Dispatch(y: System, c: Command): (r: Out)
    requires y.Wf()
    ensures r.y.Wf()
  {
    if y.trial then Out(y.(frameSeen := true), BUSY)
    else
      match c
      case CmdBegin(req, busy, fault) => Begin(y, req, busy, fault)
      case CmdWrite(req, fault) => Write(y, req, fault)
      case CmdVerify => Verify(y)
      case CmdCommit(fault) => Commit(y, fault)
      case CmdRollback(fault) => Rollback(y, fault)
      case CmdAbort => Out(Abort(y), OK)
      case CmdOther => Out(y, OK)
  }

  function Next(y: System, x: Step): (z: System)
    requires y.Wf()
    ensures z.Wf()
  {
    if x.Restart? then Boot(y, x.wdt, x.heal)
    else if !y.up then y
    else
      match x
      case Frame(c) => Dispatch(y, c).y
      case TickSnapshot => EraseSnapshot(y)
      case TickErase(fault) => EraseCall(y, fault)
      case TickPublish => ErasePublish(y)
      case TickConfirm(fault) => ConfirmTick(y, fault)
      case Restart(_, _) => y
  }

  function Run(y: System, xs: seq<Step>): (z: System)
    requires y.Wf()
    ensures z.Wf()
    decreases |xs|
  {
    if xs == [] then y else Run(Next(y, xs[0]), xs[1..])
  }

  lemma {:induction false} RunConcat(y: System, a: seq<Step>, b: seq<Step>)
    requires y.Wf()
    ensures Run(y, a + b) == Run(Run(y, a), b)
    decreases |a|
  {
    if a == [] {
      assert a + b == b;
    } else {
      assert (a + b)[1..] == a[1..] + b;
      RunConcat(Next(y, a[0]), a[1..], b);
    }
  }
}
