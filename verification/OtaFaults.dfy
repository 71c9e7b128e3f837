/** Which flash misreports break the guarantees of OtaSafety: one whole update, run on a
    sample image, and what each misreport makes of it. */
module OtaFaults {
  import opened Wrappers
  import opened OtaLayout
  import opened Ota
  import opened OtaSafety
  import Crc32
  import Fmc

  // ---- the sample part -------------------------------------------------------------------------------

  const LEN := 84

  /** A bootable image for each slot: stack pointer, reset vector, zeros, trial marker. */
  function Vectors(s: nat): (r: seq<bv8>)
    ensures |r| == 8
  {
    [0x00, 0x01, 0x00, 0x20] + (if s == 0 then [0x09, 0xA0, 0x00, 0x08] else [0x09, 0x00, 0x04, 0x08])
  }

  function Image(s: nat): (r: seq<bv8>)
    ensures |r| == LEN
  {
    Vectors(s) + seq(56, _ => 0) + MAGIC + [1, 0, 1, 0]
  }

  function ImageCrc(s: nat): bv32 { Crc32.Crc(0, Image(s)) }
  function DescOf(s: nat): Desc { Desc(true, s + 1, LEN, ImageCrc(s)) }

  function BlankBytes(n: nat): seq<bv8> { seq(n, _ => 0xFF) }
  function Filled(s: nat): Slot { Slot(Image(s) + BlankBytes(SLOT_SIZE - LEN), {}) }

  function Confirmed(counter: nat, active: nat, b: Desc): Record { Record(counter, active, 0, DescOf(0), b) }
  function OnTrial(counter: nat, active: nat): Record { Record(counter, active, 1, DescOf(0), DescOf(1)) }

  function Provisioned(): System {
    System(Flash(Valid(Confirmed(1, 0, ZERO_DESC)), Invalid, Filled(0), Slot(BlankBytes(SLOT_SIZE), {})),
           0, false, false, false, RESET_SESSION, NoTick, Log({}, 0, None))
  }

  /** A flash in which slot `s` holds its sample image. */
  predicate Holds(f: Flash, s: nat) {
    f.Sized() && s < 2 && f.S(s).bytes[..LEN] == Image(s)
  }

  lemma HeldImage(f: Flash, s: nat)
    requires Holds(f, s)
    ensures ImageMatches(f, s, DescOf(s)) && TrialCapable(f.S(s).bytes, LEN) && Bootable(Base(s), f.S(s).bytes, LEN)
  {
    hide Crc32.Crc, Image, Bootable, TrialCapable, Base;
    var b := f.S(s).bytes;
    assert forall k | 0 <= k < LEN :: b[k] == b[..LEN][k];
    HeldVectors(b, s);
    HeldMarker(b, s);
  }

  lemma HeldMarker(b: seq<bv8>, s: nat)
    requires |b| >= LEN && forall k | 0 <= k < LEN :: b[k] == Image(s)[k]
    ensures TrialCapable(b, LEN)
  {
    hide Vectors;
    var img := Image(s);
    assert img[64..80] == MAGIC && img[80] == 1 && img[81] == 0 && img[82] == 1;
    assert forall k | 64 <= k < 80 :: b[k] == img[64..80][k - 64];
    assert b[64..80] == MAGIC;
    assert CapableFrom(b, LEN, MARKER_MIN);
  }

  lemma HeldVectors(b: seq<bv8>, s: nat)
    requires |b| >= 8 && s < 2 && forall k | 0 <= k < 8 :: b[k] == Image(s)[k]
    ensures Bootable(Base(s), b, LEN)
  {
    assert b[0] == 0 && b[1] == 1 && b[2] == 0 && b[3] == 0x20;
    assert Bits(b, 0) == 0x2000_0100;
    assert b[4] == 0x09 && b[7] == 0x08;
    assert b[5] == (if s == 0 then 0xA0 else 0x00) && b[6] == (if s == 0 then 0x00 else 0x04);
    assert Bits(b, 4) == if s == 0 then 0x0800_A009 else 0x0804_0009;
  }

  lemma FilledHolds(f: Flash)
    requires f.Sized() && f.a == Filled(0)
    ensures Holds(f, 0)
  {
    assert f.a.bytes[..LEN] == Image(0);
  }

  lemma FactorySample()
    ensures Factory(Provisioned())
  {
    hide ImageMatches, Image, ImageCrc, TrialCapable, Bootable, BlankBytes;
    BlankSized();
    var f := Provisioned().flash;
    FilledHolds(f);
    HeldImage(f, 0);
  }

  // ---- the update up to VERIFIED ----------------------------------------------------------------------------

  lemma SmallWord(req: seq<bv8>, off: nat)
    requires off + 4 <= |req| && req[off + 1] == 0 && req[off + 2] == 0 && req[off + 3] == 0
    ensures Word(req, off) == req[off] as nat
  {
  }

  function BeginRequest(): seq<bv8> {
    var c := ImageCrc(1);
    [84, 0, 0, 0, ByteOf(c, 0), ByteOf(c, 1), ByteOf(c, 2), ByteOf(c, 3), 0, 0, 2]
  }

  lemma BeginDeclares()
    ensures |BeginRequest()| == 11 && Declared(BeginRequest()) == Declaration(LEN, ImageCrc(1), 2)
  {
    hide ImageCrc, Word, ByteOf, Join;
    SmallWord(BeginRequest(), 0);
    JoinBytes(ImageCrc(1));
  }

  /** Running slot A with both records confirmed, an update session in `s`, slot B in `b`. */
  function Updating(s: Session, b: Slot, log: Log): System {
    System(Flash(Valid(Confirmed(1, 0, ZERO_DESC)), Valid(Confirmed(2, 0, ZERO_DESC)), Filled(0), b),
           0, true, false, false, s, NoTick, log)
  }

  function Update(state: State, at: nat, lastOff: nat, crc: bv32): Session {
    Session(state, LEN, lastOff, ImageCrc(1), crc, 2, NoError, state == Busy, at, 1)
  }

  const NO_FAULTS := FaultModel(false, false, false)

  const BLANK: Slot := Slot(BlankBytes(SLOT_SIZE), {})
  const DECLARED: Option<Declaration> := Some(Declaration(LEN, ImageCrc(1), 2))

  lemma BootSample()
    ensures Provisioned().Wf()
    ensures Next(Provisioned(), Restart(false, Done)) == Provisioned().(up := true)
  {
    hide ImageMatches, Image, ImageCrc, TrialCapable, Bootable, BlankBytes;
    BlankSized();
    FilledHolds(Provisioned().flash);
    HeldImage(Provisioned().flash, 0);
  }

  lemma BeginSample()
    ensures Provisioned().Wf()
    ensures Next(Provisioned().(up := true), Frame(CmdBegin(BeginRequest(), false, Done)))
         == Updating(Update(Busy, 0, 0, 0), BLANK, Log({}, 0, DECLARED))
  {
    hide Image, ImageCrc, Declared, BeginRequest, BlankBytes;
    BeginDeclares();
    BlankSized();
  }

  lemma BlankSized()
    ensures |BlankBytes(SLOT_SIZE)| == SLOT_SIZE && |BlankBytes(SLOT_SIZE - LEN)| == SLOT_SIZE - LEN
  {
  }

  lemma BlankStays(p: nat)
    requires p < PAGES
    ensures |BLANK.bytes| == SLOT_SIZE && ErasePage(BLANK, p, Erased) == BLANK
  {
    assert ErasePage(BLANK, p, Erased).bytes == BLANK.bytes;
  }

  /** One full erase tick of the sample update. */
  lemma EraseOne(k: nat, log: Log)
    requires k < PAGES
    ensures var y := Updating(Update(Busy, k * PAGE_SIZE, 0, 0), BLANK, log);
      && y.Wf()
      && Run(y, [TickSnapshot, TickErase(Erased), TickPublish])
        == Updating(Update(if k + 1 < PAGES then Busy else Ready, (k + 1) * PAGE_SIZE, 0, 0), BLANK,
                    log.(erased := log.erased + {k}))
  {
    hide Image, ImageCrc, BlankBytes, ErasePage;
    BlankSized();
    BlankStays(k);
    var y := Updating(Update(Busy, k * PAGE_SIZE, 0, 0), BLANK, log);
    var y1 := Next(y, TickSnapshot);
    var y2 := Next(y1, TickErase(Erased));
    assert k * PAGE_SIZE / PAGE_SIZE == k;
    assert y2 == y.(tick := AfterErase(1, k * PAGE_SIZE, true, 0), log := log.(erased := log.erased + {k}));
    var xs := [TickSnapshot, TickErase(Erased), TickPublish];
    assert xs[1..] == [TickErase(Erased), TickPublish] && xs[1..][1..] == [TickPublish] && xs[1..][1..][1..] == [];
    assert Run(y, xs) == Run(y1, xs[1..]) == Run(y2, xs[1..][1..]) == Run(Next(y2, TickPublish), []);
  }

  lemma {:induction false} EraseWalk(k: nat, log: Log) returns (xs: seq<Step>, after: Log)
    requires k < PAGES
    ensures var y := Updating(Update(Busy, k * PAGE_SIZE, 0, 0), BLANK, log);
      && y.Wf() && AllAllowed(NO_FAULTS, xs)
      && Run(y, xs) == Updating(Update(Ready, SLOT_SIZE, 0, 0), BLANK, after)
    decreases PAGES - k
  {
    hide Image, ImageCrc, BlankBytes, Updating;
    EraseOne(k, log);
    xs := [TickSnapshot, TickErase(Erased), TickPublish];
    after := log.(erased := log.erased + {k});
    if k + 1 < PAGES {
      var rest, end := EraseWalk(k + 1, after);
      RunConcat(Updating(Update(Busy, k * PAGE_SIZE, 0, 0), BLANK, log), xs, rest);
      xs, after := xs + rest, end;
    }
  }

  /** A chunk request at a small offset. */
  function Request(off: bv8, len: bv8, data: seq<bv8>): seq<bv8> { [off, 0, 0, 0, len] + data }

  lemma RequestFields(off: nat, o: bv8, n: bv8, data: seq<bv8>)
    requires o as nat == off && n as nat == |data|
    ensures var q := Request(o, n, data);
      |q| == |data| + 5 && Word(q, 0) == off && q[4] == n && q[4] as nat == |q| - 5 && q[5..] == data
  {
    hide Word;
    SmallWord(Request(o, n, data), 0);
  }

  lemma PutStored(s: Session, b: Slot, off: nat, data: seq<bv8>)
    requires |b.bytes| == SLOT_SIZE && off % 8 == 0 && off >= s.lastOff && off + |data| <= SLOT_SIZE
    requires data != [] && b.programmed !! Dwords(off, |data|)
    ensures off + Fmc.Up8(|data|) <= SLOT_SIZE
    ensures PutChunk(s, b, off, data, Clean) == ChunkOut(s.(lastOff := off + |data|), Stored(b, off, data), OK, true)
  {
    hide Stored, Dwords;
    PaddingFits(off, |data|);
  }

  /** A chunk above everything programmed is stored. */
  lemma ChunkStored(s: Session, b: Slot, off: nat, o: bv8, n: bv8, data: seq<bv8>)
    requires |b.bytes| == SLOT_SIZE && s.state == Ready && off % 8 == 0 && off >= s.lastOff && off + |data| <= SLOT_SIZE
    requires o as nat == off && n != 0 && n as nat == |data| && data != [] && b.programmed !! Dwords(off, |data|)
    ensures off + Fmc.Up8(|data|) <= SLOT_SIZE
    ensures WriteChunk(s, b, Request(o, n, data), Clean)
         == ChunkOut(s.(lastOff := off + |data|), Stored(b, off, data), OK, true)
  {
    hide Word, Request, Stored, Dwords, PutChunk;
    RequestFields(off, o, n, data);
    PutStored(s, b, off, data);
  }

  /** A chunk of the sample update. */
  lemma WriteSample(b: Slot, from: nat, off: nat, o: bv8, n: bv8, data: seq<bv8>, log: Log) returns (after: Log)
    requires |b.bytes| == SLOT_SIZE && off % 8 == 0 && off >= from && off + |data| <= SLOT_SIZE
    requires o as nat == off && n != 0 && n as nat == |data| && data != [] && b.programmed !! Dwords(off, |data|)
    ensures var y := Updating(Update(Ready, SLOT_SIZE, from, 0), b, log);
      && y.Wf() && off + Fmc.Up8(|data|) <= SLOT_SIZE
      && Next(y, Frame(CmdWrite(Request(o, n, data), Clean)))
        == Updating(Update(Ready, SLOT_SIZE, off + |data|, 0), Stored(b, off, data), after)
  {
    hide Image, ImageCrc, BlankBytes, WriteChunk, Request, Stored, Dwords;
    BlankSized();
    ChunkStored(Update(Ready, SLOT_SIZE, from, 0), b, off, o, n, data);
    after := log.(programs := log.programs + 1);
  }

  function FirstHalf(): Slot { Stored(BLANK, 0, Image(1)[..56]) }
  function BothHalves(): Slot { Stored(FirstHalf(), 56, Image(1)[56..]) }

  lemma HalvesHold()
    ensures |FirstHalf().bytes| == SLOT_SIZE && |BothHalves().bytes| == SLOT_SIZE
    ensures BothHalves().bytes[..LEN] == Image(1)
    ensures BLANK.programmed !! Dwords(0, 56) && FirstHalf().programmed !! Dwords(56, 28)
  {
    hide Image, BlankBytes;
    BlankSized();
    var b := BothHalves().bytes;
    assert forall k | 0 <= k < 56 :: FirstHalf().bytes[k] == Image(1)[k];
    assert forall k | 0 <= k < 56 :: b[k] == FirstHalf().bytes[k];
    assert forall k | 56 <= k < LEN :: b[k] == Image(1)[k];
  }

  lemma VerifySample(b: Slot, log: Log)
    requires |b.bytes| == SLOT_SIZE && b.bytes[..LEN] == Image(1)
    ensures var y := Updating(Update(Ready, SLOT_SIZE, LEN, 0), b, log);
      y.Wf() && Next(y, Frame(CmdVerify)) == Updating(Update(Verified, SLOT_SIZE, LEN, ImageCrc(1)), b, log)
  {
    hide Image, BlankBytes, Crc32.Crc;
    BlankSized();
  }

  lemma RunOne(y: System, x: Step)
    requires y.Wf()
    ensures Run(y, [x]) == Next(y, x)
  {
    assert [x][1..] == [];
    assert Run(Next(y, x), []) == Next(y, x);
  }

  /** Extends a faultless run by one step. */
  lemma Extend(y: System, m: FaultModel, xs: seq<Step>, x: Step, z: System) returns (zs: seq<Step>)
    requires y.Wf() && AllAllowed(m, xs) && Allowed(m, x) && Run(y, xs) == z
    ensures AllAllowed(m, zs) && Run(y, zs) == Next(z, x) && |zs| == |xs| + 1 && zs == xs + [x]
  {
    zs := xs + [x];
    RunConcat(y, xs, [x]);
    RunOne(z, x);
  }

  /** The sample update reaches VERIFIED without a fault. */
  lemma ReachVerified() returns (xs: seq<Step>, log: Log)
    ensures Provisioned().Wf() && AllAllowed(NO_FAULTS, xs)
    ensures Run(Provisioned(), xs) == Updating(Update(Verified, SLOT_SIZE, LEN, ImageCrc(1)), BothHalves(), log)
  {
    hide Image, ImageCrc, BlankBytes, Next, Updating, Update, Stored, Request, BeginRequest, Provisioned;
    BootSample();
    BeginSample();
    var y := Provisioned();
    RunOne(y, Restart(false, Done));
    xs := Extend(y, NO_FAULTS, [Restart(false, Done)], Frame(CmdBegin(BeginRequest(), false, Done)),
                 Next(y, Restart(false, Done)));
    var walk, l := EraseWalk(0, Log({}, 0, DECLARED));
    RunConcat(y, xs, walk);
    xs := xs + walk;
    HalvesHold();
    var l1 := WriteSample(BLANK, 0, 0, 0, 56, Image(1)[..56], l);
    xs := Extend(y, NO_FAULTS, xs, Frame(CmdWrite(Request(0, 56, Image(1)[..56]), Clean)), Run(y, xs));
    var l2 := WriteSample(FirstHalf(), 56, 56, 56, 28, Image(1)[56..], l1);
    xs := Extend(y, NO_FAULTS, xs, Frame(CmdWrite(Request(56, 28, Image(1)[56..]), Clean)), Run(y, xs));
    VerifySample(BothHalves(), l2);
    xs := Extend(y, NO_FAULTS, xs, Frame(CmdVerify), Run(y, xs));
    log := l2;
  }

  // ---- what a misreport makes of it ---------------------------------------------------------------------------

  /** The sample flash with the given metadata pages. */
  function Pages(p0: Page, p1: Page): Flash { Flash(p0, p1, Filled(0), BothHalves()) }

  function Running(f: Flash, run: nat, trial: bool): System {
    System(f, run, true, trial, false, RESET_SESSION, NoTick, Log({}, 0, None))
  }

  const BASE: Page := Valid(Confirmed(2, 0, ZERO_DESC))

  lemma Held(p0: Page, p1: Page)
    ensures var f := Pages(p0, p1);
      && f.Sized() && f.S(0) == Filled(0) && f.S(1) == BothHalves()
      && forall s | 0 <= s < 2 ::
           ImageMatches(f, s, DescOf(s)) && TrialCapable(f.S(s).bytes, LEN) && Bootable(Base(s), f.S(s).bytes, LEN)
  {
    hide Image, ImageCrc, Stored, TrialCapable, Bootable, ImageMatches, BlankBytes;
    BlankSized();
    HalvesHold();
    var f := Pages(p0, p1);
    FilledHolds(f);
    HeldImage(f, 0);
    HeldImage(f, 1);
  }

  lemma CommitSample(log: Log, fault: MetaFault)
    requires fault.Done? || fault.ProgramLate?
    ensures var y := Updating(Update(Verified, SLOT_SIZE, LEN, ImageCrc(1)), BothHalves(), log);
      var z := y.(flash := Pages(Valid(OnTrial(3, 1)), BASE));
      && y.Wf() && z.Wf()
      && Next(y, Frame(CmdCommit(fault))) == (if fault.Done? then z.(up := false) else z.(s := z.s.Fail(CommitFailed)))
  {
    hide Image, ImageCrc, Filled, BothHalves, TrialCapable, Bootable, ImageMatches;
    Held(Valid(Confirmed(1, 0, ZERO_DESC)), BASE);
    Held(Valid(OnTrial(3, 1)), BASE);
  }

  /** Each boot of the sample part below. */
  lemma BootRejected(y: System)
    requires y.Wf() && y.flash == Pages(Valid(OnTrial(3, 1)), BASE)
    ensures Next(y, Restart(true, EraseKept)) == Running(y.flash, 0, false)
  {
    hide Image, ImageCrc, Filled, BothHalves, TrialCapable, Bootable, ImageMatches;
    Held(y.flash.p0, y.flash.p1);
  }

  lemma BootTrial(y: System, n: nat, s: nat)
    requires y.Wf() && n > 2 && s < 2 && y.flash == Pages(Valid(OnTrial(n, s)), BASE)
    ensures Next(y, Restart(false, Done)) == Running(y.flash, s, true)
  {
    hide Image, ImageCrc, Filled, BothHalves, TrialCapable, Bootable, ImageMatches;
    Held(y.flash.p0, y.flash.p1);
  }

  lemma RollbackSample(y: System)
    requires y.Wf() && y.flash == Pages(Valid(OnTrial(3, 1)), BASE)
    requires y.up && !y.trial && y.run == 0 && (y.s.state == Idle || y.s.state == Error)
    ensures Next(y, Frame(CmdRollback(Done))) == y.(flash := Pages(Valid(OnTrial(4, 0)), BASE), up := false)
  {
    hide Image, ImageCrc, Filled, BothHalves, TrialCapable, Bootable, ImageMatches;
    Held(y.flash.p0, y.flash.p1);
  }

  /** A confirm tick of the sample part, whose page 0 is its own. */
  lemma ConfirmSample(y: System, r: Record, fault: MetaFault)
    requires y.Wf() && y.flash == Pages(Valid(r), BASE) && y.run == r.active
    requires 2 < r.counter < 10 && r.D(r.active).valid && y.up && y.trial && y.frameSeen && y.tick.NoTick?
    requires fault.Done? || fault.ProgramLate? || fault.ProgramLost?
    ensures var z := Next(y, TickConfirm(fault));
      if fault.ProgramLost? then z == y.(flash := Pages(Invalid, BASE))
      else z == y.(flash := Pages(Valid(r.(counter := r.counter + 1, flags := 0)), BASE), up := fault.ProgramLate?)
  {
    hide Image, ImageCrc, Filled, BothHalves;
  }

  /** The confirm that finds only the fallback takes it for its own record. */
  lemma ConfirmErasesFallback(y: System)
    requires y.Wf() && y.flash == Pages(Invalid, BASE) && y.run == 0
    requires y.up && y.trial && y.frameSeen && y.tick.NoTick?
    ensures Next(y, TickConfirm(EraseLost)).flash == Pages(Invalid, Invalid)
  {
    hide Image, ImageCrc, Filled, BothHalves;
  }

  /** A run, and the state it ends in. */
  ghost predicate Ends(m: FaultModel, xs: seq<Step>, z: System) {
    Provisioned().Wf() && AllAllowed(m, xs) && Run(Provisioned(), xs) == z
  }

  lemma Then(m: FaultModel, xs: seq<Step>, z: System, x: Step)
    requires Ends(m, xs, z) && Allowed(m, x)
    ensures z.Wf() && Ends(m, xs + [x], Next(z, x))
  {
    hide Next, Allowed;
    var _ := Extend(Provisioned(), m, xs, x, z);
  }

  lemma MoreAllowed(m: FaultModel, xs: seq<Step>)
    requires AllAllowed(NO_FAULTS, xs)
    ensures AllAllowed(m, xs)
  {
  }

  /** Running slot A on trial, with a frame seen, over slot A's own confirmed record. */
  predicate OwnFallback(z: System) {
    && z.Wf() && z.flash == Pages(Valid(OnTrial(4, 0)), BASE) && z.run == 0
    && z.up && z.trial && z.frameSeen && z.tick.NoTick?
  }

  /** The trial of B was rejected, or reported as not written, and its record is still there. */
  lemma StaleTrial(m: FaultModel) returns (xs: seq<Step>, z: System)
    requires m.keptHeal || m.lateSwitch
    ensures Ends(m, xs, z) && z.Wf() && z.flash == Pages(Valid(OnTrial(3, 1)), BASE)
    ensures z.up && !z.trial && z.run == 0 && (z.s.state == Idle || z.s.state == Error)
  {
    hide Next, Image, ImageCrc, Filled, BothHalves, Confirmed, OnTrial, Run;
    var ys, log := ReachVerified();
    MoreAllowed(m, ys);
    var y := Updating(Update(Verified, SLOT_SIZE, LEN, ImageCrc(1)), BothHalves(), log);
    if m.keptHeal {
      CommitSample(log, Done);
      Then(m, ys, y, Frame(CmdCommit(Done)));
      var w := Next(y, Frame(CmdCommit(Done)));
      BootRejected(w);
      xs := ys + [Frame(CmdCommit(Done))];
      Then(m, xs, w, Restart(true, EraseKept));
      xs, z := xs + [Restart(true, EraseKept)], Next(w, Restart(true, EraseKept));
    } else {
      CommitSample(log, ProgramLate);
      Then(m, ys, y, Frame(CmdCommit(ProgramLate)));
      xs, z := ys + [Frame(CmdCommit(ProgramLate))], Next(y, Frame(CmdCommit(ProgramLate)));
    }
  }

  /** A rollback from there puts slot A on trial; `at` is the run up to the rollback. */
  lemma TrialOfSelf(m: FaultModel) returns (at: seq<Step>, w: System, rest: seq<Step>, z: System)
    requires m.keptHeal || m.lateSwitch
    ensures Ends(m, at, w) && w.flash == Pages(Valid(OnTrial(4, 0)), BASE)
    ensures Ends(m, at + rest, z) && OwnFallback(z)
  {
    hide Next, Image, ImageCrc, Filled, BothHalves, Confirmed, OnTrial, Run, Ends;
    var xs, y := StaleTrial(m);
    RollbackSample(y);
    Then(m, xs, y, Frame(CmdRollback(Done)));
    at, w := xs + [Frame(CmdRollback(Done))], Next(y, Frame(CmdRollback(Done)));
    BootTrial(w, 4, 0);
    Then(m, at, w, Restart(false, Done));
    var b := Next(w, Restart(false, Done));
    FrameSeen(b);
    Then(m, at + [Restart(false, Done)], b, Frame(CmdOther));
    rest, z := [Restart(false, Done), Frame(CmdOther)], Next(b, Frame(CmdOther));
    assert at + [Restart(false, Done)] + [Frame(CmdOther)] == at + rest;
  }

  lemma FrameSeen(y: System)
    requires y.Wf() && y.up && y.trial
    ensures Next(y, Frame(CmdOther)) == y.(frameSeen := true)
  {
  }

  /** Two unlucky confirm ticks then leave nothing to boot. */
  lemma Bricked(m: FaultModel) returns (xs: seq<Step>)
    requires m.keptHeal || m.lateSwitch
    ensures AllAllowed(m, xs) && Factory(Provisioned()) && !Safe(Run(Provisioned(), xs))
  {
    hide Next, Image, ImageCrc, Filled, BothHalves, Confirmed, Run, Factory;
    FactorySample();
    var at, w, rest, z := TrialOfSelf(m);
    ConfirmSample(z, OnTrial(4, 0), ProgramLost);
    Then(m, at + rest, z, TickConfirm(ProgramLost));
    var y := Next(z, TickConfirm(ProgramLost));
    ConfirmErasesFallback(y);
    Then(m, at + rest + [TickConfirm(ProgramLost)], y, TickConfirm(EraseLost));
    xs := at + rest + [TickConfirm(ProgramLost)] + [TickConfirm(EraseLost)];
    var f := Run(Provisioned(), xs).flash;
    assert forall i: nat :: f.P(i).Invalid?;
  }

  /** The part is safe over every run of every provisioned part. */
  ghost predicate AlwaysSafe(m: FaultModel) {
    forall y, xs | Factory(y) && AllAllowed(m, xs) :: Safe(Run(y, xs))
  }

  /** Safety holds exactly for flash whose failed self-heal erase does not leave the rejected
      record readable and whose failed COMMIT or ROLLBACK program does not land. */
  lemma SafetyExact(m: FaultModel)
    ensures AlwaysSafe(m) <==> !m.keptHeal && !m.lateSwitch
  {
    hide Good, Safe, Run, AllAllowed;
    if m.keptHeal || m.lateSwitch {
      var xs := Bricked(m);
    } else {
      forall y, xs | Factory(y) && AllAllowed(m, xs) ensures Safe(Run(y, xs)) {
        AlwaysBootable(m, y, xs);
      }
    }
  }

  /** The floor falls somewhere in a run. */
  ghost predicate FloorFalls(m: FaultModel, y: System, xs: seq<Step>, zs: seq<Step>) {
    Factory(y) && AllAllowed(m, xs + zs) && FloorOf(Run(y, xs + zs)) < FloorOf(Run(y, xs))
  }

  /** The same rollback makes the rejected image's version the floor until the confirm. */
  lemma FallsAfterRollback(m: FaultModel) returns (xs: seq<Step>, zs: seq<Step>)
    requires m.keptHeal || m.lateSwitch
    ensures FloorFalls(m, Provisioned(), xs, zs)
  {
    hide Next, Image, ImageCrc, Filled, BothHalves, Run, Factory;
    FactorySample();
    var at, w, rest, z := TrialOfSelf(m);
    ConfirmSample(z, OnTrial(4, 0), Done);
    Then(m, at + rest, z, TickConfirm(Done));
    xs, zs := at, rest + [TickConfirm(Done)];
    assert xs + zs == at + rest + [TickConfirm(Done)];
  }

  /** A confirm that landed unnoticed is repeated, and the repetition may lose it. */
  lemma FallsAfterConfirm(m: FaultModel) returns (xs: seq<Step>, zs: seq<Step>)
    requires m.lateConfirm
    ensures FloorFalls(m, Provisioned(), xs, zs)
  {
    hide Next, Image, ImageCrc, Filled, BothHalves, Run, Factory;
    FactorySample();
    var log;
    xs, log := ReachVerified();
    MoreAllowed(m, xs);
    var y := Updating(Update(Verified, SLOT_SIZE, LEN, ImageCrc(1)), BothHalves(), log);
    CommitSample(log, Done);
    Then(m, xs, y, Frame(CmdCommit(Done)));
    xs, y := xs + [Frame(CmdCommit(Done))], Next(y, Frame(CmdCommit(Done)));
    BootTrial(y, 3, 1);
    Then(m, xs, y, Restart(false, Done));
    xs, y := xs + [Restart(false, Done)], Next(y, Restart(false, Done));
    FrameSeen(y);
    Then(m, xs, y, Frame(CmdOther));
    xs, y := xs + [Frame(CmdOther)], Next(y, Frame(CmdOther));
    ConfirmSample(y, OnTrial(3, 1), ProgramLate);
    Then(m, xs, y, TickConfirm(ProgramLate));
    xs, y := xs + [TickConfirm(ProgramLate)], Next(y, TickConfirm(ProgramLate));
    ConfirmSample(y, OnTrial(3, 1).(counter := 4, flags := 0), ProgramLost);
    zs := [TickConfirm(ProgramLost)];
    Then(m, xs, y, TickConfirm(ProgramLost));
  }

  /** The floor never falls exactly for flash that misreports none of the three. */
  lemma FloorExact(m: FaultModel)
    ensures (forall y, xs, zs :: !FloorFalls(m, y, xs, zs)) <==> !m.keptHeal && !m.lateSwitch && !m.lateConfirm
  {
    hide Run, AllAllowed, Good;
    if m.keptHeal || m.lateSwitch {
      var xs, zs := FallsAfterRollback(m);
    } else if m.lateConfirm {
      var xs, zs := FallsAfterConfirm(m);
    } else {
      forall y, xs, zs ensures !FloorFalls(m, y, xs, zs) {
        if Factory(y) && AllAllowed(m, xs + zs) {
          FloorNeverFalls(m, y, xs, zs);
        }
      }
    }
  }
}
