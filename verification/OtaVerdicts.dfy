/** What each OTA command and tick answers and leaves, exactly, and what that means over runs. */
module OtaVerdicts {
  import opened Wrappers
  import opened OtaLayout
  import opened Ota
  import opened OtaSession
  import Crc32
  import Fmc
  import S = OtaSafety
  import R = OtaRollback

  // ---- requests ----------------------------------------------------------------------------------------

  /** A word as the host sends it. */
  function Le32(c: bv32): seq<bv8> { [ByteOf(c, 0), ByteOf(c, 1), ByteOf(c, 2), ByteOf(c, 3)] }

  lemma ReadBack(req: seq<bv8>, off: nat, c: bv32)
    requires off + 4 <= |req| && req[off..off + 4] == Le32(c)
    ensures Bits(req, off) == c && Word(req, off) == c as nat
  {
    hide ByteOf, Join;
    var r := req[off..off + 4];
    assert r[0] == req[off] && r[1] == req[off + 1] && r[2] == req[off + 2] && r[3] == req[off + 3];
    JoinBytes(c);
  }

  /** OTA_BEGIN in its 8-byte and 11-byte forms reads back as declared. */
  lemma BeginRoundTrip(len: bv32, crc: bv32, major: bv8, minor: bv8, patch: bv8)
    ensures Declared(Le32(len) + Le32(crc)) == Declaration(len as nat, crc, 0)
    ensures Declared(Le32(len) + Le32(crc) + [major, minor, patch])
         == Declaration(len as nat, crc, (major as nat * 256 + minor as nat) * 256 + patch as nat)
  {
    hide ByteOf, Bits, Word;
    var p := Le32(len) + Le32(crc);
    var q := p + [major, minor, patch];
    assert p[0..4] == Le32(len) && p[4..8] == Le32(crc) && q[0..4] == Le32(len) && q[4..8] == Le32(crc);
    ReadBack(p, 0, len); ReadBack(p, 4, crc); ReadBack(q, 0, len); ReadBack(q, 4, crc);
    assert q[8] == major && q[9] == minor && q[10] == patch;
  }

  // ---- metadata writes -----------------------------------------------------------------------------------

  /** A metadata write succeeds exactly if the flash did and the counter has room; then its
      record is the newest, and otherwise no record it would have written is reported. */
  lemma WriteSucceeds(f: Flash, run: nat, w: MetaWrite, fault: MetaFault)
    ensures MetaCommit(f, run, w, fault).ok <==> fault.Done? && !CounterSpent(f, w.flags)
    ensures fault.Done? && !CounterSpent(f, w.flags) && w.page.None? ==>
      Working(MetaCommit(f, run, w, fault).flash) == NewRecord(Working(f), w)
  {
    hide NewRecord, RankTarget;
    if fault.Done? && !CounterSpent(f, w.flags) && w.page.None? { WrittenIsNewest(f, run, w, fault); }
  }

  // ---- BEGIN ---------------------------------------------------------------------------------------------

  /** The request declares a length in range. */
  predicate InRange(req: seq<bv8>) { |req| >= 8 && 1 <= Declared(req).len <= SLOT_SIZE }

  /** BEGIN answers: malformed, out of range, no counter room or a failed demotion, busy, or
      accepted, each in exactly these cases; a malformed or busy one changes nothing, and a
      refused one keeps an armed erase armed. */
  lemma BeginVerdict(y: System, req: seq<bv8>, busy: bool, fault: MetaFault)
    requires y.Wf()
    ensures var r := Begin(y, req, busy, fault);
      var n := PickNewest(y.flash);
      var room := n.Some? ==> n.value.rec.counter <= COUNTER_LIMIT - 3;
      && (r.status == INVAL <==> |req| < 8)
      && (r.status == OUT_OF_RANGE <==> |req| >= 8 && !InRange(req))
      && (r.status == BUSY <==> InRange(req) && n.Some? && room && busy)
      && (r.status == IO <==> InRange(req) && n.Some? && (!room || (!busy && !fault.Done?)))
      && (r.status == OK <==> InRange(req) && (n.Some? ==> room && !busy && fault.Done?))
      && (r.status == INVAL || r.status == BUSY ==> r.y == y)
      && (r.status == OUT_OF_RANGE ==> r.y.s == y.s.Fail(SessionRange).(epoch := r.y.s.epoch) && r.y.flash == y.flash)
      && (r.status == IO ==> r.y.s == y.s.Fail(DemoteFailed).(epoch := r.y.s.epoch))
  {
    hide Declared, NewRecord, RankTarget;
    if PickNewest(y.flash).Some? {
      WriteSucceeds(y.flash, y.run, Demotion(PickNewest(y.flash).value.rec, y.run), fault);
      hide MetaCommit;
    }
  }

  /** An accepted BEGIN opens the session it declares: busy, nothing received, the erase armed
      at the first page. */
  lemma BeginOpens(y: System, req: seq<bv8>, busy: bool, fault: MetaFault)
    requires y.Wf() && Begin(y, req, busy, fault).status == OK
    ensures var s, d := Begin(y, req, busy, fault).y.s, Declared(req);
      && s.state == Busy && s.imgLen == d.len && s.expectedCrc == d.crc && s.fw == d.fw && s.lastOff == 0
      && s.erasing && s.eraseAt == 0
  {
    hide MetaCommit, Declared;
  }

  /** The entry describes no image. */
  predicate Undescribed(d: Desc) { !d.valid && d.len == 0 && d.crc == 0 }

  /** It takes the image to be erased out of the newest record, keeps its version, and leaves the
      rest of the record as it was but for the counter. */
  lemma BeginDemotes(y: System, req: seq<bv8>, busy: bool, fault: MetaFault)
    requires y.Wf() && Begin(y, req, busy, fault).status == OK && PickNewest(y.flash).Some?
    ensures var n, m := Working(y.flash), Working(Begin(y, req, busy, fault).y.flash);
      var t := Other(y.run);
      && m.D(t) == Desc(false, n.D(t).fw, 0, 0)
      && m.counter == n.counter + 1 && m.active == n.active && m.flags == n.flags
      && m.D(y.run) == (if n.active == y.run then n.D(y.run).(valid := true) else n.D(y.run))
  {
    hide MetaCommit, Declared, NewRecord;
    var n := Working(y.flash);
    WriteSucceeds(y.flash, y.run, Demotion(n, y.run), fault);
    DemotedRecord(n, y.run);
  }

  lemma DemotedRecord(n: Record, run: nat)
    requires run < 2
    ensures var m, t := NewRecord(n, Demotion(n, run)), Other(run);
      && m.D(t) == Desc(false, n.D(t).fw, 0, 0)
      && m.counter == n.counter + 1 && m.active == n.active && m.flags == n.flags
      && m.D(run) == (if n.active == run then n.D(run).(valid := true) else n.D(run))
  {
  }

  // ---- while a session is open ----------------------------------------------------------------------------

  predicate Open(s: Session) { s.state == Busy || s.state == Ready || s.state == Verified }

  /** The newest record does not describe the slot being updated, and leaves the counter room
      that COMMIT and its confirm need. */
  predicate Demoted(y: System)
    requires y.Wf()
  {
    y.up && Open(y.s) ==>
      && !y.trial && Undescribed(Working(y.flash).D(Other(y.run)))
      && Working(y.flash).counter <= COUNTER_LIMIT - 2
  }

  lemma BeginDemoted(y: System, req: seq<bv8>, busy: bool, fault: MetaFault)
    requires y.Wf() && y.up && !y.trial && Demoted(y)
    ensures Demoted(Begin(y, req, busy, fault).y)
  {
    hide Declared, MetaCommit, NewRecord;
    BeginVerdict(y, req, busy, fault);
    if Begin(y, req, busy, fault).status == OK && PickNewest(y.flash).Some? {
      BeginDemotes(y, req, busy, fault);
    }
  }

  /** Every other step leaves the metadata alone while a session stays open. */
  lemma OpenKeepsMetadata(y: System, x: Step)
    requires y.Wf() && Demoted(y) && !(x.Frame? && x.cmd.CmdBegin?)
    ensures var z := Next(y, x);
      z.up && Open(z.s) ==>
        && y.up && Open(y.s) && !y.trial && !z.trial && z.run == y.run
        && z.flash.p0 == y.flash.p0 && z.flash.p1 == y.flash.p1
  {
    hide MetaCommit, WriteChunk, CommitError, FindFallback, Declared, Decide, Crc32.Crc, ErasePage, Healed, Trialling,
      Working;
    if x.Frame? && x.cmd.CmdWrite? { ChunkEffect(y.s, y.Target(), x.cmd.chunk, x.cmd.prog); }
  }

  lemma StepDemoted(y: System, x: Step)
    requires y.Wf() && Demoted(y)
    ensures Demoted(Next(y, x))
  {
    if x.Frame? && x.cmd.CmdBegin? && y.up && !y.trial {
      hide Begin;
      BeginDemoted(y, x.cmd.req, x.cmd.busy, x.cmd.begin);
    } else if x.Frame? && x.cmd.CmdBegin? {
      hide Begin;
    } else {
      hide Next;
      OpenKeepsMetadata(y, x);
    }
  }

  /** Over every run: while a session is open, the newest record does not describe the slot being
      updated, and COMMIT and its confirm have counter room. */
  lemma {:induction false} AlwaysDemoted(y: System, xs: seq<Step>)
    requires y.Wf() && Demoted(y)
    ensures Demoted(Run(y, xs))
    decreases |xs|
  {
    hide Demoted, Next;
    if xs != [] {
      StepDemoted(y, xs[0]);
      AlwaysDemoted(Next(y, xs[0]), xs[1..]);
    }
  }

  /** So an accepted BEGIN never strands its cycle on the counter: the COMMIT it leads to is not
      refused for it, nor is the confirm after that. */
  lemma HeadroomSuffices(y: System)
    requires y.Wf() && y.up && Open(y.s) && Demoted(y)
    ensures !CounterSpent(y.flash, TRIAL_FLAG)
    ensures var z := MetaCommit(y.flash, y.run, Activation(y), Done); z.ok && !CounterSpent(z.flash, 0)
  {
    hide NewRecord;
    WriteSucceeds(y.flash, y.run, Activation(y), Done);
    S.NewCounter(Working(y.flash), Activation(y));
    hide MetaCommit;
  }

  // ---- a cut during the update ------------------------------------------------------------------------------

  /** The bootloader would read the image in slot `t`: some record makes it active and describes
      it. */
  predicate Walks(f: Flash, t: nat) {
    exists i | 0 <= i < 2 :: f.P(i).Valid? && f.P(i).rec.active == t && !Undescribed(f.P(i).rec.D(t))
  }

  predicate Unwalked(y: System)
    requires y.Wf()
  {
    y.up && Open(y.s) && PickNewest(y.flash).Some? ==> !y.trial && !Walks(y.flash, Other(y.run))
  }

  lemma DemotionUnwalks(f: Flash, run: nat)
    requires f.Sized() && run < 2 && R.Held(f, run) && !CounterSpent(f, Working(f).flags)
    ensures !Walks(MetaCommit(f, run, Demotion(Working(f), run), Done).flash, Other(run))
  {
    hide NewRecord, ActiveSlotValid, RankTarget;
    var n := PickNewest(f).value;
    DemotedRecord(n.rec, run);
    if S.Settled(f, run) { S.RankKeepsNewest(f, run); } else { R.DivergentTarget(f, run); }
  }

  lemma BeginUnwalks(y: System, req: seq<bv8>, busy: bool, fault: MetaFault)
    requires R.Inv(y) && y.up && !y.trial && Unwalked(y)
    ensures Unwalked(Begin(y, req, busy, fault).y)
  {
    hide Declared, MetaCommit, NewRecord, R.Held;
    BeginVerdict(y, req, busy, fault);
    if Begin(y, req, busy, fault).status == OK && PickNewest(y.flash).Some? {
      WriteSucceeds(y.flash, y.run, Demotion(Working(y.flash), y.run), fault);
      DemotionUnwalks(y.flash, y.run);
    }
  }

  lemma BeginStepUnwalked(y: System, x: Step)
    requires y.Wf() && R.Inv(y) && Unwalked(y) && x.Frame? && x.cmd.CmdBegin?
    ensures Unwalked(Next(y, x))
  {
    hide R.Inv, Begin, Walks;
    if y.up && !y.trial { BeginUnwalks(y, x.cmd.req, x.cmd.busy, x.cmd.begin); }
  }

  lemma StepUnwalked(y: System, x: Step)
    requires y.Wf() && R.Inv(y) && Demoted(y) && Unwalked(y)
    ensures Unwalked(Next(y, x))
  {
    hide R.Inv, Next, Demoted;
    if x.Frame? && x.cmd.CmdBegin? {
      BeginStepUnwalked(y, x);
    } else {
      OpenKeepsMetadata(y, x);
      SamePages(y.flash, Next(y, x).flash, Other(y.run));
    }
  }

  lemma SamePages(f: Flash, g: Flash, t: nat)
    ensures f.p0 == g.p0 && f.p1 == g.p1 ==> Walks(f, t) == Walks(g, t) && PickNewest(f) == PickNewest(g)
  {
    if f.p0 == g.p0 && f.p1 == g.p1 {
      assert forall i: nat :: f.P(i) == g.P(i);
    }
  }

  /** With every fault allowed: wherever the power is cut while a session is open over existing
      metadata, the bootloader does not read the half-written slot. */
  lemma {:induction false} CutNeverWalks(y: System, xs: seq<Step>)
    requires y.Wf() && R.Inv(y) && Demoted(y) && Unwalked(y) && R.NoHazard(y, xs)
    ensures Unwalked(Run(y, xs))
    decreases |xs|
  {
    hide Demoted, Unwalked, Next, R.Inv, R.Hazard;
    if xs != [] {
      StepUnwalked(y, xs[0]);
      StepDemoted(y, xs[0]);
      R.StepHolds(y, xs[0]);
      CutNeverWalks(Next(y, xs[0]), xs[1..]);
    }
  }

  /** The same from a provisioned part. */
  lemma CutNeverWalksFromFactory(y: System, xs: seq<Step>)
    requires S.Factory(y) && R.NoHazard(y, xs)
    ensures Unwalked(Run(y, xs)) && Demoted(Run(y, xs))
  {
    hide R.NoHazard, Run;
    R.FactoryOk(y);
    CutNeverWalks(y, xs);
    AlwaysDemoted(y, xs);
  }

  // ---- WRITE -------------------------------------------------------------------------------------------------

  /** A request of h_write's shape: an offset, an honest non-zero length byte, the data. */
  predicate Shaped(req: seq<bv8>) { |req| > 5 && req[4] as nat == |req| - 5 }

  /** Where a shaped request goes and what it carries. */
  function At(req: seq<bv8>): nat
    requires Shaped(req)
  {
    Word(req, 0)
  }

  function End(req: seq<bv8>): nat
    requires Shaped(req)
  {
    At(req) + |req| - 5
  }

  /** Requests that are refused before any byte is looked at: out of session, misshapen, beyond
      the slot (which fails the session) or misaligned. None touches the slot. */
  lemma ChunkRefused(s: Session, slot: Slot, req: seq<bv8>, fault: ProgFault)
    requires |slot.bytes| == SLOT_SIZE
    ensures var c := WriteChunk(s, slot, req, fault);
      && (c.status == NOT_READY <==> s.state != Ready)
      && (c.status == INVAL <==> s.state == Ready && (!Shaped(req) || (End(req) <= SLOT_SIZE && At(req) % 8 != 0)))
      && (c.status == OUT_OF_RANGE <==> s.state == Ready && Shaped(req) && End(req) > SLOT_SIZE)
      && (c.status == NOT_READY || c.status == INVAL ==> c == ChunkOut(s, slot, c.status, false))
      && (c.status == OUT_OF_RANGE ==> c == ChunkOut(s.(state := Error, err := ChunkRange), slot, OUT_OF_RANGE, false))
  {
    hide Word, Program;
  }

  /** A request that gets past those checks. */
  predicate Placed(s: Session, req: seq<bv8>) {
    s.state == Ready && Shaped(req) && End(req) <= SLOT_SIZE && At(req) % 8 == 0
  }

  /** A replay below the mark is acknowledged if and only if its bytes are those in flash;
      otherwise the session fails. Either way nothing is programmed. */
  lemma ReplayExact(s: Session, slot: Slot, req: seq<bv8>, fault: ProgFault)
    requires |slot.bytes| == SLOT_SIZE && Placed(s, req) && End(req) <= s.lastOff
    ensures var c := WriteChunk(s, slot, req, fault);
      && (c.status == OK <==> slot.bytes[At(req)..End(req)] == req[5..])
      && (c.status == OK ==> c == ChunkOut(s, slot, OK, false))
      && (c.status != OK ==> c == ChunkOut(s.(state := Error, err := ProgramFailed), slot, IO, false))
  {
    hide Word, Program;
  }

  /** A chunk that reaches above the mark is stored if and only if the flash is blank there and
      does not fail; then data and padding are in place, all else is as it was, and the mark is
      its end. A failure fails the session and is a timeout only if the flash says so. */
  lemma ProgramExact(s: Session, slot: Slot, req: seq<bv8>, fault: ProgFault)
    requires |slot.bytes| == SLOT_SIZE && Placed(s, req) && End(req) > s.lastOff
    ensures var c := WriteChunk(s, slot, req, fault);
      var off, n := At(req), |req| - 5;
      var top := off + Fmc.Up8(n);
      && top <= SLOT_SIZE && c.programmed
      && (c.status == OK <==> fault.Clean? && slot.programmed !! Dwords(off, n))
      && (c.status == OK ==>
            && c.s == s.(lastOff := End(req)) && c.slot.programmed == slot.programmed + Dwords(off, n)
            && c.slot.bytes[off..End(req)] == req[5..]
            && (forall k | End(req) <= k < top :: c.slot.bytes[k] == 0xFF)
            && (forall k | 0 <= k < SLOT_SIZE && !(off <= k < top) :: c.slot.bytes[k] == slot.bytes[k]))
      && (c.status != OK ==>
            && c.s == s.(state := Error, err := ProgramFailed) && (c.status == IO || c.status == TIMEOUT)
            && (c.status == TIMEOUT ==> fault.Torn? && fault.timeout)
            && (forall k | 0 <= k < SLOT_SIZE && !(off <= k < top) :: c.slot.bytes[k] == slot.bytes[k]))
  {
    hide Word, Dwords, Stored;
    PaddingFits(At(req), |req| - 5);
    StoredExact(slot, At(req), req[5..]);
  }

  /** What storing leaves: the data, its padding, and the rest as it was. */
  lemma StoredExact(slot: Slot, off: nat, data: seq<bv8>)
    requires off + Fmc.Up8(|data|) <= |slot.bytes|
    ensures var z := Stored(slot, off, data);
      var top := off + Fmc.Up8(|data|);
      && z.bytes[off..off + |data|] == data && z.programmed == slot.programmed + Dwords(off, |data|)
      && (forall k | off + |data| <= k < top :: z.bytes[k] == 0xFF)
      && (forall k | 0 <= k < |slot.bytes| && !(off <= k < top) :: z.bytes[k] == slot.bytes[k])
  {
    hide Dwords;
    var b := Stored(slot, off, data).bytes;
    assert forall k | off <= k < off + |data| :: b[k] == data[k - off];
  }

  // ---- VERIFY --------------------------------------------------------------------------------------------------

  /** VERIFY answers in session only, and verifies exactly the image whose CRC was declared. */
  lemma VerifyExact(y: System)
    requires y.Wf() && SessionOk(y) && y.up
    ensures var r := Verify(y);
      && (r.status == NOT_READY <==> y.s.state != Ready) && (r.status == NOT_READY ==> r.y == y)
      && (y.s.state == Ready ==>
            var crc := Crc32.Crc(0, y.Target().bytes[..y.s.imgLen]);
            && r.status == OK && r.y.flash == y.flash && r.y.s.imgCrc == crc
            && (crc == y.s.expectedCrc ==> r.y.s == y.s.(imgCrc := crc, state := Verified))
            && (crc != y.s.expectedCrc ==> r.y.s == y.s.(imgCrc := crc, state := Error, err := VerifyCrc)))
  {
    hide Crc32.Crc, Blank, TickOk;
  }

  // ---- COMMIT --------------------------------------------------------------------------------------------------

  /** COMMIT activates a verified image if and only if it is bootable, trial-capable, at or above
      the floor, and its record is written; a refusal names the first of these that fails and
      leaves the metadata alone. */
  lemma CommitVerdict(y: System, fault: MetaFault)
    requires y.Wf() && SessionOk(y) && y.up && y.s.state == Verified
    ensures var r := Commit(y, fault);
      var boots := Bootable(Base(Other(y.run)), y.Target().bytes, y.s.imgLen);
      var marked := y.s.imgLen <= SLOT_SIZE && TrialCapable(y.Target().bytes, y.s.imgLen);
      var newer := y.s.fw >= Floor(Working(y.flash));
      var written := fault.Done? && !CounterSpent(y.flash, TRIAL_FLAG);
      && (r.status == OK <==> boots && marked && newer && written)
      && (r.status == OK <==> !r.y.up)
      && (r.status == INVAL <==> !(boots && marked && newer))
      && (r.status == IO <==> boots && marked && newer && !written)
      && (r.status != OK ==> r.y.s == y.s.(state := Error, err := r.y.s.err))
      && (!boots ==> r.y.s.err == CommitFailed) && (boots && !marked ==> r.y.s.err == NotTrialCapable)
      && (boots && marked && !newer ==> r.y.s.err == BelowFloor) && (r.status == IO ==> r.y.s.err == CommitFailed)
      && (r.status == INVAL ==> r.y.flash == y.flash)
  {
    hide Bootable, TrialCapable, Base, Floor, Crc32.Crc, Blank, TickOk, CounterSpent, MetaCommit;
    WriteSucceeds(y.flash, y.run, Activation(y), fault);
  }

  /** Outside VERIFIED it does nothing. */
  lemma CommitWaits(y: System, fault: MetaFault)
    requires y.Wf() && y.s.state != Verified
    ensures Commit(y, fault) == Out(y, NOT_READY)
  {
  }

  /** The slot holds the described image: the length in range, the CRC over its bytes, and vectors
      into RAM and into the image. */
  predicate Intact(f: Flash, t: nat, d: Desc)
    requires f.Sized() && t < 2
  {
    && 1 <= d.len <= SLOT_SIZE && Crc32.Crc(0, f.S(t).bytes[..d.len]) == d.crc
    && Bootable(Base(t), f.S(t).bytes, d.len)
  }

  // ---- ROLLBACK ------------------------------------------------------------------------------------------------

  /** ROLLBACK turns to the slot the newest record does not name if and only if no update is
      open, that slot is described, at or above the floor and intact, and the record is written. */
  lemma RollbackVerdict(y: System, fault: MetaFault)
    requires y.Wf()
    ensures var r := Rollback(y, fault);
      var quiet := y.s.state == Idle || y.s.state == Error;
      var n := Working(y.flash);
      var t := Other(n.active);
      var has := PickNewest(y.flash).Some? && n.active < 2 && n.D(t).valid && 1 <= n.D(t).len <= SLOT_SIZE;
      var newer := n.D(t).fw >= Floor(n);
      var intact := has && Intact(y.flash, t, n.D(t));
      var flags := if intact && TrialCapable(y.flash.S(t).bytes, n.D(t).len) then TRIAL_FLAG else 0;
      var written := fault.Done? && !CounterSpent(y.flash, flags);
      && (r.status == BUSY <==> !quiet)
      && (r.status == OK <==> quiet && intact && newer && written)
      && (r.status == OK ==> !r.y.up) && (y.up && !r.y.up ==> r.status == OK)
      && (r.status == IO <==> quiet && intact && newer && !written)
      && (r.status == INVAL || r.status == BUSY ==> r.y.flash == y.flash)
      && (quiet && has && !newer ==> r.y.s == y.s.(state := Error, err := BelowFloor))
      && (!(quiet && has && !newer) ==> r.y.s == y.s)
  {
    hide TrialCapable, Bootable, Floor, CounterSpent, MetaCommit, Crc32.Crc;
    if FindFallback(y.flash).ReturnTo? { WriteSucceeds(y.flash, y.run, FindFallback(y.flash).write, fault); }
  }

  /** Then the newest record names that slot with both entries as they were, on trial if and only
      if its image carries the trial marker. */
  lemma RollbackHonest(y: System, fault: MetaFault)
    requires y.Wf() && Rollback(y, fault).status == OK
    ensures var n, m := Working(y.flash), Working(Rollback(y, fault).y.flash);
      var t := Other(n.active);
      && n.active < 2 && n.D(t).len <= SLOT_SIZE && !Rollback(y, fault).y.up
      && m.active == t && m.counter == n.counter + 1 && m.a == n.a && m.b == n.b
      && m.flags == (if TrialCapable(y.flash.S(t).bytes, n.D(t).len) then TRIAL_FLAG else 0)
      && Rollback(y, fault).y.flash.a == y.flash.a && Rollback(y, fault).y.flash.b == y.flash.b
  {
    hide TrialCapable, Bootable, Floor, MetaCommit, Crc32.Crc, NewRecord;
    var w := FindFallback(y.flash).write;
    WriteSucceeds(y.flash, y.run, w, fault);
    TurnedRecord(Working(y.flash), w);
  }

  lemma TurnedRecord(n: Record, w: MetaWrite)
    requires n.active < 2 && w.active == Other(n.active) && w.entry.None? && w.invalidate == NO_SLOT
    requires n.D(w.active).valid
    ensures NewRecord(n, w) == n.(counter := n.counter + 1, active := w.active, flags := w.flags)
  {
  }

  // ---- confirm and self-heal -------------------------------------------------------------------------------------

  /** A confirm that succeeds clears the trial flag of its own record, moves the counter, changes
      nothing else and resets. */
  lemma ConfirmHonest(y: System)
    requires R.Inv(y) && y.up && y.trial && y.frameSeen && Working(y.flash).active == y.run
    requires !CounterSpent(y.flash, 0)
    ensures var z := ConfirmTick(y, Done);
      && !z.up && z.flash.a == y.flash.a && z.flash.b == y.flash.b
      && Working(z.flash) == Working(y.flash).(counter := Working(y.flash).counter + 1, flags := 0)
  {
    hide NewRecord, ActiveSlotValid, R.BootOk, R.Held;
    var n := PickNewest(y.flash).value;
    var w := MetaWrite(y.run, None, 0, Some(n.page), NO_SLOT);
    R.ConfirmWrite(y.flash, y.run, Done);
    S.ValidEntry(y.flash, n.rec);
    S.ConfirmRecord(n.rec, w);
    S.NewestReplaced(y.flash, Valid(NewRecord(n.rec, w)));
  }

  /** A self-heal that succeeds points the newest record back at the running slot, confirmed, and
      takes the rejected image out of it, version kept: no ROLLBACK can turn to it again. */
  lemma HealBars(f: Flash, run: nat)
    requires f.Sized() && run < 2 && R.Divergent(f, run) && HealDue(f, run) && !CounterSpent(f, 0)
    ensures var g := Healed(f, run, Done);
      var n, m := Working(f), Working(g);
      && m.active == run && m.flags == 0 && m.counter == n.counter + 1 && m.D(run) == n.D(run)
      && m.D(n.active) == Desc(false, n.D(n.active).fw, 0, 0)
      && g.Sized() && !FindFallback(g).ReturnTo?
  {
    hide NewRecord, ActiveSlotValid, MetaCommit, FindRunning, TrialCapable, ImageMatches;
    var n := Working(f);
    WriteSucceeds(f, run, Heal(run, n.active), Done);
    HealedEntry(f, run);
    HealedRecord(n, run);
  }

  lemma HealedEntry(f: Flash, run: nat)
    requires f.Sized() && run < 2 && R.Divergent(f, run)
    ensures Working(f).active == Other(run) && Working(f).D(run).valid
  {
  }

  lemma HealedRecord(n: Record, run: nat)
    requires run < 2 && n.active == Other(run) && n.D(run).valid
    ensures var m := NewRecord(n, Heal(run, n.active));
      && m.active == run && m.flags == 0 && m.counter == n.counter + 1 && m.D(run) == n.D(run)
      && m.D(n.active) == Desc(false, n.D(n.active).fw, 0, 0)
  {
  }

  // ---- vectors ------------------------------------------------------------------------------------------------------

  lemma LowBits(req: seq<bv8>, off: nat)
    requires off + 4 <= |req|
    ensures Bits(req, off) & 3 == (req[off] & 3) as bv32 && Bits(req, off) & 1 == (req[off] & 1) as bv32
  {
  }

  lemma RamBytes(a: bv8, b: bv8, c: bv8, d: bv8)
    ensures 0x2000_0000 <= Join(a, b, c, d) <= 0x2001_8000 <==>
      d == 0x20 && (c == 0 || (c == 1 && (b < 0x80 || (b == 0x80 && a == 0))))
  {
  }

  lemma FourFold(b: bv8)
    ensures (b & 3) as bv32 == 0 <==> b & 3 == 0
    ensures (b & 1) as bv32 == 1 <==> b & 1 == 1
  {
  }

  /** An image boots if and only if it holds its two vectors, the bytes of the stack pointer are a
      word address in the 96 KiB of RAM or its end, and the entry is a Thumb address inside the
      image at its slot. */
  lemma BootableExact(base: nat, img: seq<bv8>, len: nat)
    ensures Bootable(base, img, len) <==>
      && len >= 8 && |img| >= 8
      && img[0] & 3 == 0 && img[3] == 0x20
      && (img[2] == 0 || (img[2] == 1 && (img[1] < 0x80 || (img[1] == 0x80 && img[0] == 0))))
      && img[4] & 1 == 1 && base <= (Bits(img, 4) & 0xFFFF_FFFE) as nat < base + len
  {
    hide Join;
    if |img| >= 8 {
      LowBits(img, 0);
      LowBits(img, 4);
      FourFold(img[0]);
      FourFold(img[4]);
      RamBytes(img[0], img[1], img[2], img[3]);
    }
  }

  // ---- the bootloader's decision ----------------------------------------------------------------------------------

  /** The slot a record makes active holds the image it describes. */
  predicate Whole(f: Flash, r: Record)
    requires f.Sized()
  {
    r.active < 2 && r.D(r.active).valid && Intact(f, r.active, r.D(r.active))
  }

  /** A trial that was ended by the watchdog. */
  predicate Hung(r: Record, wdt: bool) { r.Trial() && wdt }

  /** The bootloader starts nothing if and only if no record's image is whole; otherwise it starts
      the newest one that is whole and not a trial the watchdog ended, or if there are only
      such, as a last resort, the newest of them. */
  lemma BootVerdict(f: Flash, wdt: bool)
    requires f.Sized()
    ensures var c, d := Candidates(f), Decide(f, wdt);
      && (d.None? <==> forall i | 0 <= i < |c| :: !Whole(f, c[i]))
      && (d.Some? ==>
            exists i | 0 <= i < |c| ::
              && Whole(f, c[i]) && d.value == Decision(c[i].active, c[i].Trial(), Hung(c[i], wdt))
              && forall j | 0 <= j < |c| && Whole(f, c[j]) && j != i ::
                   (j < i ==> Hung(c[j], wdt) && !Hung(c[i], wdt)) && (Hung(c[i], wdt) ==> Hung(c[j], wdt)))
  {
    hide Crc32.Crc, Bootable;
    assert forall r: Record :: ActiveSlotValid(f, r) == Whole(f, r);
    hide ActiveSlotValid, Whole;
    var c := Candidates(f);
    assert |c| <= 2;
  }

  /** The records in the order they are tried. */
  lemma NewestFirst(f: Flash)
    ensures var c := Candidates(f);
      && (forall i: nat | i < 2 && f.P(i).Valid? :: f.P(i).rec in c)
      && (forall r | r in c :: exists i: nat | i < 2 :: f.P(i) == Valid(r))
      && (forall i, j | 0 <= i < j < |c| :: c[i].counter >= c[j].counter)
      && (c != [] ==> PickNewest(f).Some? && PickNewest(f).value.rec == c[0])
  {
    assert f.P(0) == f.p0 && f.P(1) == f.p1;
  }

  /** A reset starts the chosen slot's application with cleared RAM, or nothing if nothing was
      chosen; it leaves both images alone, and the metadata too unless a self-heal is due. */
  lemma RestartVerdict(y: System, wdt: bool, heal: MetaFault)
    requires y.Wf()
    ensures var z, d := Boot(y, wdt, heal), Decide(y.flash, wdt);
      && (z.up <==> d.Some?) && z.flash.a == y.flash.a && z.flash.b == y.flash.b
      && (z.up ==>
            && z.run == d.value.slot && z.s.state == Idle && z.s.err == NoError && !z.s.erasing && z.tick.NoTick?
            && !z.frameSeen && (z.trial <==> Trialling(y.flash, z.run))
            && (!HealDue(y.flash, z.run) ==> z.flash == y.flash))
      && (!z.up ==> z.flash == y.flash)
  {
    hide Decide, Trialling, HealDue;
  }

  // ---- ABORT and the erase tick -----------------------------------------------------------------------------------

  /** After ABORT the session reads idle without error, whatever erase ticks follow. */
  lemma {:induction false} AbortQuiets(y: System, xs: seq<Step>)
    requires y.Wf() && y.up && !y.trial
    requires forall i | 0 <= i < |xs| :: xs[i].TickSnapshot? || xs[i].TickErase? || xs[i].TickPublish?
    ensures var z := Run(Dispatch(y, CmdAbort).y, xs);
      && z.s == Dispatch(y, CmdAbort).y.s
      && z.s.state == Idle && z.s.err == NoError && !z.s.erasing && z.up
  {
    DisarmedStays(Dispatch(y, CmdAbort).y, xs);
  }

  lemma {:induction false} DisarmedStays(y: System, xs: seq<Step>)
    requires y.Wf() && y.up && !y.s.erasing
    requires forall i | 0 <= i < |xs| :: xs[i].TickSnapshot? || xs[i].TickErase? || xs[i].TickPublish?
    ensures Run(y, xs).s == y.s && Run(y, xs).up
    decreases |xs|
  {
    hide ErasePage;
    if xs != [] { DisarmedStays(Next(y, xs[0]), xs[1..]); }
  }

  /** A current tick's publication: a failed page fails the session and disarms, the last page
      opens it or keeps an error, any other moves on by one page. */
  lemma PublicationExact(y: System)
    requires SessionOk(y) && y.up && y.tick.AfterErase? && y.s.erasing && y.tick.bumps == 0
    ensures var s, t := Next(y, TickPublish).s, y.tick;
      && Next(y, TickPublish).tick == NoTick
      && (!t.ok ==> s == y.s.(state := Error, err := EraseFailed, erasing := false))
      && (t.ok && y.s.eraseAt + PAGE_SIZE < SLOT_SIZE ==> s == y.s.(eraseAt := y.s.eraseAt + PAGE_SIZE))
      && (t.ok && y.s.eraseAt + PAGE_SIZE == SLOT_SIZE ==>
            s == y.s.(eraseAt := SLOT_SIZE, erasing := false, state := if y.s.state == Busy then Ready else Error))
  {
    hide Blank, Crc32.Crc;
  }

  /** One whole tick of the erase, undisturbed and on working flash. */
  const ROUND: seq<Step> := [TickSnapshot, TickErase(Erased), TickPublish]

  function Rounds(n: nat): seq<Step> { if n == 0 then [] else ROUND + Rounds(n - 1) }

  lemma RoundIs(y: System, xs: seq<Step>)
    requires y.Wf()
    ensures Run(y, ROUND + xs) == Run(Next(Next(Next(y, TickSnapshot), TickErase(Erased)), TickPublish), xs)
  {
    hide Next;
    var a := ROUND + xs;
    var b := a[1..];
    var c := b[1..];
    assert a[0] == TickSnapshot && b[0] == TickErase(Erased) && c[0] == TickPublish && c[1..] == xs;
    var z := Next(y, TickSnapshot);
    assert Run(y, a) == Run(z, b) && Run(z, b) == Run(Next(z, TickErase(Erased)), c);
  }

  lemma RoundErases(y: System)
    requires SessionOk(y) && y.up && !y.trial && y.s.erasing && y.tick.NoTick?
    ensures var z := Next(Next(Next(y, TickSnapshot), TickErase(Erased)), TickPublish);
      && z == y.(flash := z.flash, s := z.s, log := z.log)
      && z.log.erased == y.log.erased + {y.s.eraseAt / PAGE_SIZE}
      && (y.s.eraseAt + PAGE_SIZE < SLOT_SIZE ==> z.s == y.s.(eraseAt := y.s.eraseAt + PAGE_SIZE))
      && (y.s.eraseAt + PAGE_SIZE == SLOT_SIZE ==>
            z.s == y.s.(eraseAt := SLOT_SIZE, erasing := false, state := if y.s.state == Busy then Ready else Error))
  {
    hide ErasePage, Blank, Crc32.Crc;
  }

  /** An armed erase gets through: after as many undisturbed ticks as pages are left, whatever the
      session's state, it is over, and an update still waiting for it is READY. */
  lemma {:induction false} EraseCompletes(y: System, n: nat)
    requires y.Wf() && SessionOk(y) && y.up && !y.trial && y.s.erasing && y.tick.NoTick?
    requires n > 0 && y.s.eraseAt + n * PAGE_SIZE == SLOT_SIZE
    ensures var z := Run(y, Rounds(n));
      && z.up && !z.s.erasing && z.tick.NoTick? && SessionOk(z)
      && z.s.state == (if y.s.state == Busy then Ready else Error)
    decreases n
  {
    hide SessionOk, Next, ErasePage, Run;
    RoundIs(y, Rounds(n - 1));
    RoundErases(y);
    RoundKeeps(y);
    if n > 1 {
      EraseCompletes(Next(Next(Next(y, TickSnapshot), TickErase(Erased)), TickPublish), n - 1);
    } else {
      RunNone(Next(Next(Next(y, TickSnapshot), TickErase(Erased)), TickPublish));
    }
  }

  lemma RunNone(y: System)
    requires y.Wf()
    ensures Run(y, []) == y
  {
  }

  lemma RoundKeeps(y: System)
    requires SessionOk(y) && y.tick.NoTick?
    ensures SessionOk(Next(Next(Next(y, TickSnapshot), TickErase(Erased)), TickPublish))
  {
    hide StateOk, TickOk, ErasePage;
    var a := Next(y, TickSnapshot);
    var b := Next(a, TickErase(Erased));
    StepKeeps(y, TickSnapshot);
    StepKeeps(a, TickErase(Erased));
    StepKeeps(b, TickPublish);
  }
}
