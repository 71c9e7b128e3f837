/** Persistent boot flags (src/boot_config.c): two record pages, a RAM cache and one queued
    SET committed from the base level. */
module BootConfig {
  import opened Wrappers
  import Crc32

  const MAGIC: u32 := 0x3246_4342
  const COUNTER_LIMIT: u32 := 0xFFFF_FFF0

  type u32 = x: int | 0 <= x < 0x1_0000_0000

  /** BOOT_CONFIG_KNOWN_FLAGS is bit 0. */
  function Known(flags: u32): u32 { flags % 2 }

  // ---- flash -----------------------------------------------------------------------------------------

  /** One doubleword: erased, uncorrectable, or two words. */
  datatype Cell = Blank | Unreadable | Words(lo: u32, hi: u32)

  datatype Page = Page(payload: Cell, commit: Cell)
  datatype Rec = Rec(counter: u32, flags: u32)

  function Bytes(w: u32): seq<bv8> {
    [(w % 256) as bv8, (w / 256 % 256) as bv8, (w / 256 / 256 % 256) as bv8, (w / 256 / 256 / 256) as bv8]
  }

  function RecordCrc(counter: u32, flags: u32): u32 {
    Crc32.Crc(0, Bytes(counter) + Bytes(flags)) as u32
  }

  /** boot_config_read_page. */
  function Read(p: Page): Option<Rec> {
    if !p.commit.Words? || p.commit.hi != MAGIC then None
    else if !p.payload.Words? || p.commit.lo != RecordCrc(p.payload.lo, p.payload.hi) then None
    else if p.payload.lo == 0 || p.payload.lo >= COUNTER_LIMIT then None
    else Some(Rec(p.payload.lo, p.payload.hi))
  }

  datatype Flash = Flash(p0: Page, p1: Page) {
    function P(i: nat): Page { if i == 0 then p0 else p1 }
    function With(i: nat, p: Page): Flash { if i == 0 then this.(p0 := p) else this.(p1 := p) }
  }

  /** newest_record: the record in force, and the page the next one goes to. */
  function Newest(f: Flash): Option<Rec> {
    match (Read(f.p0), Read(f.p1))
    case (Some(a), None) => Some(a)
    case (Some(a), Some(b)) => if a.counter > b.counter then Some(a) else Some(b)
    case (None, r) => r
  }

  function Target(f: Flash): nat {
    match (Read(f.p0), Read(f.p1))
    case (Some(a), None) => 1
    case (Some(a), Some(b)) => if a.counter > b.counter then 1 else 0
    case (None, _) => 0
  }

  function Other(page: nat): nat { if page == 0 then 1 else 0 }

  /** The flags in force. */
  function FlagsOf(f: Flash): u32 {
    match Newest(f) case Some(r) => r.flags case None => 0
  }

  // ---- storing ------------------------------------------------------------------------------------------

  /** How a store ends, or where the power was cut: before the erase took effect; within the
      erase; within the payload; after it or within the commit doubleword; after a commit
      doubleword that was reported as failed; or done. */
  datatype Outcome =
    | EraseKept | EraseTorn(page: Page) | PayloadTorn(cell: Cell) | CommitTorn(cell: Cell) | CommitLate | Done

  datatype Stored = Stored(flash: Flash, ok: bool)

  /** Torn content does not validate. */
  function Torn(p: Page): Page { if Read(p).Some? then Page(Unreadable, Unreadable) else p }

  function NextCounter(f: Flash): int {
    match Newest(f) case Some(r) => r.counter + 1 case None => 1
  }

  function Sealed(r: Rec): Page { Page(Words(r.counter, r.flags), Words(RecordCrc(r.counter, r.flags), MAGIC)) }

  /** A page reads as a record exactly if it is that record sealed, under a counter in range: any
      other content, whatever the CRC, is refused. */
  lemma ReadExact(p: Page, r: Rec)
    ensures Read(p) == Some(r) <==> p == Sealed(r) && 1 <= r.counter < COUNTER_LIMIT
  {
    hide RecordCrc;
  }

  /** The store writes a record: the flags differ and the counter has room. */
  predicate Writes(f: Flash, flags: u32) { FlagsOf(f) != Known(flags) && NextCounter(f) < COUNTER_LIMIT }

  /** boot_config_store. */
  function StoreFlags(f: Flash, flags: u32, o: Outcome): Stored {
    if !Writes(f, flags) then Stored(f, FlagsOf(f) == Known(flags))
    else
      var r, t := Rec(NextCounter(f), Known(flags)), Target(f);
      match o
      case EraseKept => Stored(f, false)
      case EraseTorn(p) => Stored(f.With(t, Torn(p)), false)
      case PayloadTorn(c) => Stored(f.With(t, Page(c, Blank)), false)
      case CommitTorn(c) => Stored(f.With(t, Torn(Page(Words(r.counter, r.flags), c))), false)
      case CommitLate => Stored(f.With(t, Sealed(r)), false)
      case Done => Stored(f.With(t, Sealed(r)), true)
  }

  /** Wherever a store stops, the record in force is the old one or the new one, the old one's
      page is untouched, and the counter rose below its limit. */
  lemma StoreAtomic(f: Flash, flags: u32, o: Outcome)
    ensures var g := StoreFlags(f, flags, o);
      && (Newest(g.flash) == Newest(f)
          || (Newest(g.flash) == Some(Rec(NextCounter(f), Known(flags))) && NextCounter(f) < COUNTER_LIMIT
              && (g.ok || o.CommitLate?)))
      && (FlagsOf(g.flash) == FlagsOf(f) || FlagsOf(g.flash) == Known(flags))
      && (g.ok ==> FlagsOf(g.flash) == Known(flags))
      && (!g.ok && !o.CommitLate? ==> Newest(g.flash) == Newest(f))
      && (Newest(f).Some? ==> Read(f.P(Other(Target(f)))) == Newest(f))
      && g.flash.P(Other(Target(f))) == f.P(Other(Target(f)))
  {
    hide RecordCrc;
  }

  /** The counter of the record in force has no successor below the limit. */
  predicate Spent(f: Flash) { Newest(f).Some? && Newest(f).value.counter + 1 >= COUNTER_LIMIT }

  /** On working flash a store succeeds if and only if the flags already hold, or there is no
      record, or its counter has room; then it leaves the flash alone, or puts a record in
      force with the flags and the next counter, the first being 1. */
  lemma StoreExact(f: Flash, flags: u32)
    ensures var g := StoreFlags(f, flags, Done);
      && (g.ok <==> FlagsOf(f) == Known(flags) || !Spent(f))
      && (g.ok && FlagsOf(f) == Known(flags) ==> g.flash == f)
      && (g.ok && FlagsOf(f) != Known(flags) ==>
            Newest(g.flash) == Some(Rec(if Newest(f).Some? then Newest(f).value.counter + 1 else 1, Known(flags))))
      && (!g.ok ==> g.flash == f)
  {
    hide RecordCrc;
  }

  /** The record in force has the highest counter of the valid ones, and the next record does not
      go to its page. */
  lemma NewestExact(f: Flash)
    ensures Newest(f).None? <==> Read(f.p0).None? && Read(f.p1).None?
    ensures Newest(f).Some? ==>
      && Read(f.P(Other(Target(f)))) == Newest(f) && Target(f) < 2
      && forall i: nat | i < 2 && Read(f.P(i)).Some? :: Read(f.P(i)).value.counter <= Newest(f).value.counter
  {
    hide Read;
  }

  // ---- the queue ------------------------------------------------------------------------------------------

  /** boot_config_tick: idle, back from the store, or past the cache update. Nothing reads
      `excused`. */
  datatype Phase = Idle | AfterStore(flags: u32, ok: bool, excused: bool) | AfterCache(ok: bool, excused: bool)

  /** `owed` is the last accepted SET that no flash failure, spent counter or reset has excused;
      nothing reads it. */
  datatype System = System(
    flash: Flash, stored: u32, pending: bool, pendingFlags: u32, phase: Phase, owed: Option<u32>)

  /** boot_config_request. */
  function Request(y: System, flags: u32): (System, bool) {
    if y.pending then (if y.pendingFlags == flags then (y.(owed := Some(flags)), true) else (y, false))
    else if flags == y.stored then (y.(owed := Some(flags)), true)
    else (y.(pending := true, pendingFlags := flags, owed := Some(flags)), true)
  }

  datatype Reply = Accepted | Busy | Invalid | Refused

  /** handle_boot_config's SET: unknown bits are refused, and so is a change that is unsafe or
      collides with an OTA session (`blocked`). */
  function Set(y: System, flags: u32, blocked: bool): (System, Reply) {
    if Known(flags) != flags then (y, Invalid)
    else if flags != y.stored && blocked then (y, Refused)
    else
      var r := Request(y, flags);
      (r.0, if r.1 then Accepted else Busy)
  }

  /** boot_config_load. */
  function Load(f: Flash): System { System(f, Known(FlagsOf(f)), false, 0, Idle, None) }

  /** Why a store may fail: the flags are new, and the flash fails or the counter is spent. */
  predicate Excused(f: Flash, flags: u32, o: Outcome) { FlagsOf(f) != Known(flags) && (!o.Done? || Spent(f)) }

  datatype Step =
    | DoSet(flags: u32, blocked: bool)
    | TickStore(busy: bool, outcome: Outcome)
    | TickCache
    | TickClear
    | Reset

  function Next(y: System, x: Step): System {
    match x
    case DoSet(flags, blocked) => Set(y, flags, blocked).0
    case TickStore(busy, o) =>
      if !y.phase.Idle? || !y.pending || busy then y
      else
        var g, excused := StoreFlags(y.flash, y.pendingFlags, o), Excused(y.flash, y.pendingFlags, o);
        y.(flash := g.flash, phase := AfterStore(y.pendingFlags, g.ok, excused),
           owed := if excused then None else y.owed)
    case TickCache =>
      if !y.phase.AfterStore? then y
      else
        y.(stored := if y.phase.ok then y.phase.flags else y.stored, phase := AfterCache(y.phase.ok, y.phase.excused))
    case TickClear =>
      if !y.phase.AfterCache? then y
      else y.(pending := false, phase := Idle, owed := if y.phase.excused then None else y.owed)
    case Reset => Load(y.flash)
  }

  function Run(y: System, xs: seq<Step>): System
    decreases |xs|
  {
    if xs == [] then y else Run(Next(y, xs[0]), xs[1..])
  }

  /** Cache, queue and flash agree. */
  predicate Agree(y: System) {
    && y.stored < 2 && (y.pending ==> y.pendingFlags < 2)
    && (!y.phase.Idle? ==> y.pending)
    && (y.phase.AfterStore? ==> y.phase.flags == y.pendingFlags)
    && (if y.phase.AfterStore? && y.phase.ok then FlagsOf(y.flash) == y.pendingFlags
        else y.stored == Known(FlagsOf(y.flash)))
    && (y.phase.AfterCache? && y.phase.ok ==> y.stored == y.pendingFlags)
    && (!y.phase.Idle? && !y.phase.excused ==> y.phase.ok)
    && (y.owed.Some? ==> y.owed.value == if y.pending then y.pendingFlags else y.stored)
  }

  predicate NoLate(xs: seq<Step>) { forall i | 0 <= i < |xs| :: xs[i].TickStore? ==> !xs[i].outcome.CommitLate? }

  lemma SameFlags(f: Flash, g: Flash)
    ensures Newest(f) == Newest(g) ==> FlagsOf(f) == FlagsOf(g)
  {
  }

  lemma StepAgrees(y: System, x: Step)
    requires Agree(y) && (x.TickStore? ==> !x.outcome.CommitLate?)
    ensures Agree(Next(y, x))
  {
    hide StoreFlags, FlagsOf, NextCounter, Target, Newest, Spent;
    if x.TickStore? {
      StoreAtomic(y.flash, y.pendingFlags, x.outcome);
      StoreExact(y.flash, y.pendingFlags);
      NoOpStore(y.flash, y.pendingFlags, x.outcome);
      SameFlags(y.flash, StoreFlags(y.flash, y.pendingFlags, x.outcome).flash);
    }
  }

  /** Between ticks the cache is the record in force, and an accepted SET has reached it unless it
      is still queued, or since then a flash operation failed, the counter was spent, or the
      part was reset. */
  lemma {:induction false} CacheIsFlash(y: System, xs: seq<Step>)
    requires Agree(y) && NoLate(xs)
    ensures var z := Run(y, xs);
      && Agree(z)
      && (z.phase.Idle? ==> z.stored == Known(FlagsOf(z.flash)))
      && (z.owed.Some? && !z.pending ==> z.stored == z.owed.value == Known(FlagsOf(z.flash)))
    decreases |xs|
  {
    hide FlagsOf;
    if xs != [] {
      StepAgrees(y, xs[0]);
      CacheIsFlash(Next(y, xs[0]), xs[1..]);
    }
  }

  /** The same from any boot. */
  lemma CacheIsFlashSinceBoot(f: Flash, xs: seq<Step>)
    requires NoLate(xs)
    ensures var z := Run(Load(f), xs);
      && (z.phase.Idle? ==> z.stored == Known(FlagsOf(z.flash)))
      && (z.owed.Some? && !z.pending ==> z.stored == z.owed.value == Known(FlagsOf(z.flash)))
  {
    assert Agree(Load(f));
    CacheIsFlash(Load(f), xs);
  }

  /** After a whole tick of a change, the cache is right exactly when no record landed behind
      a reported failure. */
  lemma LateExact(y: System, o: Outcome)
    requires Agree(y) && y.phase.Idle? && y.pending && y.pendingFlags != y.stored
    ensures var z := Next(Next(Next(y, TickStore(false, o)), TickCache), TickClear);
      z.stored == Known(FlagsOf(z.flash)) <==> !(o.CommitLate? && Writes(y.flash, y.pendingFlags))
  {
    hide StoreFlags, FlagsOf, NextCounter, Target, Newest, Writes;
    StoreAtomic(y.flash, y.pendingFlags, o);
    SameFlags(y.flash, StoreFlags(y.flash, y.pendingFlags, o).flash);
    LateLands(y.flash, y.pendingFlags);
  }

  lemma LateLands(f: Flash, flags: u32)
    ensures var g := StoreFlags(f, flags, CommitLate);
      if Writes(f, flags) then !g.ok && FlagsOf(g.flash) == Known(flags) else g.flash == f
  {
    hide RecordCrc;
  }

  /** Whether a record that landed behind a reported failure is outstanding after a step: a
      store that succeeds or a boot settles it. */
  function LateAfter(y: System, late: bool, x: Step): bool {
    match x
    case TickStore(busy, o) =>
      if !y.phase.Idle? || !y.pending || busy then late
      else if StoreFlags(y.flash, y.pendingFlags, o).ok then false
      else late || (o.CommitLate? && Writes(y.flash, y.pendingFlags))
    case Reset => false
    case _ => late
  }

  function LateOver(y: System, late: bool, xs: seq<Step>): bool
    decreases |xs|
  {
    if xs == [] then late else LateOver(Next(y, xs[0]), LateAfter(y, late, xs[0]), xs[1..])
  }

  /** What holds with late commits allowed: the cache is right unless one is outstanding, and
      then it is wrong and the flags in force are the very ones a SET would queue. */
  predicate Tracks(y: System, late: bool) {
    && y.stored < 2 && (y.pending ==> y.pendingFlags < 2)
    && (!y.phase.Idle? ==> y.pending)
    && (y.pending && !y.phase.AfterCache? ==> y.pendingFlags != y.stored)
    && (y.phase.AfterStore? ==> y.phase.flags == y.pendingFlags)
    && (if y.phase.AfterStore? && y.phase.ok then !late && FlagsOf(y.flash) == y.pendingFlags
        else if late then FlagsOf(y.flash) == 1 - y.stored
        else y.stored == Known(FlagsOf(y.flash)))
  }

  lemma StepTracks(y: System, late: bool, x: Step)
    requires Tracks(y, late)
    ensures Tracks(Next(y, x), LateAfter(y, late, x))
  {
    hide StoreFlags, FlagsOf, NextCounter, Target, Newest, Writes;
    if x.TickStore? {
      StoreAtomic(y.flash, y.pendingFlags, x.outcome);
      SameFlags(y.flash, StoreFlags(y.flash, y.pendingFlags, x.outcome).flash);
      LateLands(y.flash, y.pendingFlags);
      NoOpStore(y.flash, y.pendingFlags, x.outcome);
    }
  }

  lemma NoOpStore(f: Flash, flags: u32, o: Outcome)
    ensures FlagsOf(f) == Known(flags) ==> StoreFlags(f, flags, o).ok
  {
  }

  lemma {:induction false} RunTracks(y: System, late: bool, xs: seq<Step>)
    requires Tracks(y, late)
    ensures Tracks(Run(y, xs), LateOver(y, late, xs))
    decreases |xs|
  {
    hide Tracks, Next, LateAfter;
    if xs != [] {
      StepTracks(y, late, xs[0]);
      RunTracks(Next(y, xs[0]), LateAfter(y, late, xs[0]), xs[1..]);
    }
  }

  /** Over every run since a boot, whatever the flash reports: between ticks the cache is the
      record in force if and only if no late commit is outstanding. */
  lemma LateExactOverRuns(f: Flash, xs: seq<Step>)
    ensures var z := Run(Load(f), xs);
      z.phase.Idle? ==> (z.stored == Known(FlagsOf(z.flash)) <==> !LateOver(Load(f), false, xs))
  {
    hide FlagsOf, Run, LateOver;
    assert Tracks(Load(f), false);
    RunTracks(Load(f), false, xs);
  }

  /** What a SET answers: invalid for unknown bits, refused for a change while blocked, busy if
      another change is queued, else accepted; and only an accepted one leaves a trace: the
      flags are then in the cache or queued. */
  lemma SetVerdict(y: System, flags: u32, blocked: bool)
    requires Agree(y)
    ensures var (z, r) := Set(y, flags, blocked);
      && (r == Invalid <==> flags >= 2)
      && (r == Refused <==> flags < 2 && flags != y.stored && blocked)
      && (r == Busy <==> flags < 2 && (flags == y.stored || !blocked) && y.pending && y.pendingFlags != flags)
      && (r != Accepted ==> z == y)
      && (r == Accepted ==>
            && z.flash == y.flash && z.stored == y.stored && z.owed == Some(flags)
            && (if z.pending then z.pendingFlags == flags else flags == y.stored)
            && (y.pending ==> z.pending))
  {
    hide FlagsOf;
  }

  /** No change is queued or stored while changes are blocked. */
  lemma {:induction false} BlockedInert(y: System, xs: seq<Step>)
    requires Agree(y) && y.phase.Idle? && !y.pending
    requires forall i | 0 <= i < |xs| :: (xs[i].DoSet? ==> xs[i].blocked) && !xs[i].Reset?
    ensures var z := Run(y, xs);
      z.flash == y.flash && z.stored == y.stored && !z.pending && z.phase.Idle?
    decreases |xs|
  {
    hide StoreFlags, FlagsOf, Excused;
    if xs != [] {
      BlockedInert(Next(y, xs[0]), xs[1..]);
    }
  }

  // ---- the module's own form -----------------------------------------------------------------------------------

  class Config {
    var p0: Page
    var p1: Page
    var stored: u32            // s_stored
    var pending: bool          // s_pending
    var pendingFlags: u32      // s_pending_flags
    ghost var owed: Option<u32>

    ghost function Abs(): System
      reads this
    {
      System(Flash(p0, p1), stored, pending, pendingFlags, Idle, owed)
    }

    /** boot_config_load. */
    constructor (f: Flash)
      ensures Abs() == Load(f)
    {
      p0, p1 := f.p0, f.p1;
      pending, pendingFlags, owed := false, 0, None;
      stored := match Newest(f) case Some(r) => Known(r.flags) case None => 0;
    }

    method WritePage(page: nat, p: Page)
      modifies this`p0, this`p1
      ensures Flash(p0, p1) == Flash(old(p0), old(p1)).With(page, p)
    {
      if page == 0 { p0 := p; } else { p1 := p; }
    }

    /** boot_config_store: erase, payload doubleword, commit doubleword, read back. How the flash
        behaves is an argument. */
    method Store(flags: u32, o: Outcome) returns (ok: bool)
      modifies this`p0, this`p1
      ensures StoreFlags(Flash(old(p0), old(p1)), flags, o) == Stored(Flash(p0, p1), ok)
    {
      hide RecordCrc;
      var f := Flash(p0, p1);
      var cur, target, wanted := Newest(f), Target(f), Known(flags);
      if (if cur.Some? then cur.value.flags else 0) == wanted { return true; }
      if cur.Some? && cur.value.counter + 1 >= COUNTER_LIMIT { return false; }
      var r := Rec(if cur.Some? then cur.value.counter + 1 else 1, wanted);
      if o.EraseKept? { return false; }
      WritePage(target, if o.EraseTorn? then Torn(o.page) else Page(Blank, Blank));
      if o.EraseTorn? { return false; }
      WritePage(target, Page(if o.PayloadTorn? then o.cell else Words(r.counter, r.flags), Blank));
      if o.PayloadTorn? { return false; }
      WritePage(target, if o.CommitTorn? then Torn(Page(Words(r.counter, r.flags), o.cell)) else Sealed(r));
      if o.CommitTorn? || o.CommitLate? { return false; }
      ok := Read(Sealed(r)) == Some(r);
    }

    /** boot_config_request. */
    method QueueSet(flags: u32) returns (accepted: bool)
      modifies this
      ensures Request(old(Abs()), flags) == (Abs(), accepted)
    {
      if pending {
        accepted := pendingFlags == flags;
        owed := if accepted then Some(flags) else owed;
        return;
      }
      accepted, owed := true, Some(flags);
      if flags == stored { return; }
      pendingFlags := flags;
      pending := true;
    }

    /** boot_config_tick, when nothing preempts it. */
    method Tick(busy: bool, o: Outcome)
      modifies this
      ensures Abs() == if busy then old(Abs())
                       else Next(Next(Next(old(Abs()), TickStore(false, o)), TickCache), TickClear)
    {
      hide StoreFlags;
      if !pending || busy { return; }
      var flags := pendingFlags;
      ghost var f := Flash(p0, p1);
      var ok := Store(flags, o);
      if ok { stored := flags; }
      owed := if Excused(f, flags, o) then None else owed;
      pending := false;
    }
  }
}
