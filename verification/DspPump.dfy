/** The base-level DSP pump against ISR-side BEGIN, BIND and END (hal/gd32/adc_stream.c).
    The pump is a program counter over its lock sections; an interrupt handler is one step
    that may run between any two of them. Data is modelled by where it came from: each
    sample carries the session it was converted in. */
module DspPump {

  const STREAMS := 2
  const RING := 1024
  const BATCH := 8
  const SEQS := 0x1_0000_0000
  const FOREIGN := 0          // a ring cell not written in the current session

  /** The owner byte of the filter or FFT block. */
  datatype Owner = Free | Active(sid: nat) | Token(sid: nat)

  /** adc_streams[i]: `session` numbers its BEGINs; `pos` is the write position, laps and index,
      and `filled` how many cells of the raw ring the session has written, from cell 0 on; `out`
      is what was published to the processed ring since BIND. The raw ring is never cleared. */
  datatype Stream = Stream(
    inUse: bool, bound: bool, fft: bool, session: nat, pos: nat, filled: nat, pumpRead: nat, gap: bool,
    out: seq<set<nat>>)

  /** The bin buffer: one whole frame of a session, or a mixture. */
  datatype Bins = Mixed | Frame(session: nat, number: nat)

  /** Where the pump stands. `ses` is the session it believes it serves. */
  datatype Pc =
    | Idle
    | FacWant(sid: nat)
    | FacConfig(sid: nat, ses: nat)
    | FacConfigured(sid: nat, ses: nat, ok: bool)
    | FacReady(sid: nat, ses: nat, first: bool)
    | FacJump(sid: nat, ses: nat, total: nat)
    | FacResync(sid: nat, ses: nat, total: nat)
    | FacLoop(sid: nat, ses: nat, avail: nat)
    | FacLeased(sid: nat, ses: nat, avail: nat)
    | FacFill(sid: nat, ses: nat, avail: nat, raw: nat, used: nat, batch: seq<set<nat>>)
    | FftWant(sid: nat)
    | FftConfig(sid: nat, ses: nat)
    | FftConfigured(sid: nat, ses: nat, ok: bool)
    | FftReady(sid: nat, ses: nat)
    | FftResync(sid: nat, ses: nat, total: nat)
    | FftTake(sid: nat, ses: nat, avail: nat)
    | FftHold(sid: nat, ses: nat, avail: nat, tag: nat)
    | FftWait(sid: nat, ses: nat, avail: nat, frame: seq<nat>)
    | FftReduce(sid: nat, ses: nat, avail: nat, frame: seq<nat>, done: bool)

  /** `fac` is the set of sessions in the filter's delay line; `window` the tags of the FFT
      input so far; `frames` the frames published since the last reset, whose count modulo
      2^32 is adc_dsp_fft_seq. */
  datatype System = System(
    streams: seq<Stream>, facOwner: Owner, fac: set<nat>,
    fftOwner: Owner, points: nat, window: seq<nat>, frames: nat, bins: Bins,
    nextSession: nat, pc: Pc)
  {
    predicate Wf() { |streams| == STREAMS }
    function With(s: nat, x: Stream): System
      requires s < |streams|
    {
      this.(streams := streams[s := x])
    }
  }

  const IDLE_STREAM := Stream(false, false, false, 0, 0, 0, 0, false, [])
  const RESET := System([IDLE_STREAM, IDLE_STREAM], Free, {}, Free, 0, [], 0, Mixed, 1, Idle)

  // ---- owner helpers --------------------------------------------------------------------------------

  /** adc_dsp_owner_live_locked. */
  predicate Live(y: System, owner: Owner, want: Owner, s: nat, fft: bool)
    requires y.Wf() && s < STREAMS
  {
    owner == want && y.streams[s].inUse && y.streams[s].bound && y.streams[s].fft == fft
  }

  /** adc_dsp_owner_release. */
  function Released(owner: Owner, s: nat): Owner {
    if owner == Active(s) || owner == Token(s) then Free else owner
  }

  /** The failing side of a commit: never leave a token behind. */
  function Unwedged(owner: Owner, s: nat): Owner { if owner == Token(s) then Free else owner }

  /** The signed byte that stands for an owner. */
  function Code(o: Owner): int {
    match o case Free => -1 case Active(s) => s case Token(s) => -2 - s
  }

  /** Owners keep apart in a signed byte for up to 126 streams. */
  lemma CodesDistinct(a: Owner, b: Owner)
    requires (!a.Free? ==> a.sid <= 126) && (!b.Free? ==> b.sid <= 126)
    ensures -128 <= Code(a) <= 127 && (Code(a) == Code(b) ==> a == b)
  {
  }

  /** The session of the ring cell the pump reads at raw index `r`. */
  function Tag(x: Stream, r: nat): nat { if r % RING < x.filled then x.session else FOREIGN }

  function Max(a: nat, b: nat): nat { if a < b then b else a }

  /** A deposit of the DMA. */
  function Deposited(x: Stream): Stream { x.(pos := x.pos + 1, filled := Max(x.filled, x.pos % RING + 1)) }

  /** A recovery restarts the ring at cell 0, where `w` samples have landed by the time the
      readers are re-anchored; of the laps counted so far, `lap` are known to the software. */
  function Rewound(x: Stream, lap: nat, w: nat): Stream {
    x.(pos := lap * RING + w, filled := Max(x.filled, w), pumpRead := lap * RING + w)
  }

  // ---- interrupt side -----------------------------------------------------------------------------------

  datatype Isr =
    | Begin(s: nat)
    | Bind(s: nat, fft: bool, totalRead: nat)
    | End(s: nat)
    | Dma(s: nat)
    | Read(s: nat, max: nat)                 // stream_read, of at most `max` samples
    | Recover(s: nat, lap: nat, w: nat)      // stream_read after a converter overflow

  predicate CanRewind(a: Stream, lap: nat, w: nat) { a.inUse && lap <= a.pos / RING && w < RING }

  function Interrupt(y: System, x: Isr): (z: System)
    requires y.Wf()
    ensures z.Wf()
  {
    if x.s >= STREAMS then y
    else
      var a := y.streams[x.s];
      match x
      case Begin(s) =>
        if a.inUse then y
        else y.With(s, a.(inUse := true, bound := false, session := y.nextSession, pos := 0, filled := 0, gap := false))
             .(nextSession := y.nextSession + 1)
      case Bind(s, fft, totalRead) =>
        if !a.inUse || a.bound || totalRead > a.pos then y
        else y.With(s, a.(bound := true, fft := fft, pumpRead := totalRead, gap := false, out := []))
      case End(s) =>
        if !a.inUse then y
        else
          var z := y.With(s, a.(inUse := false, bound := false));
          if !a.bound then z
          else
            var z := z.(facOwner := Released(z.facOwner, s));
            if Released(z.fftOwner, s) == z.fftOwner then z
            else z.(fftOwner := Free, window := [], frames := 0)
      case Dma(s) => if a.inUse then y.With(s, Deposited(a)) else y
      case Read(s, _) => if a.bound && !a.fft then y.With(s, a.(gap := false)) else y
      case Recover(s, lap, w) => if CanRewind(a, lap, w) then y.With(s, Rewound(a, lap, w)) else y
  }

  // ---- the filter pump ----------------------------------------------------------------------------------

  /** What the pump observes between two lock sections: a sample total that never overcounts,
      whether the block's configuration or computation succeeded, the FFT size, and how many
      filter outputs were ready. */
  datatype Seen = Seen(total: nat, ok: bool, points: nat, ready: nat)

  function Total(x: Stream, seen: Seen): nat { if seen.total <= x.pos then seen.total else x.pos }

  function Min(a: nat, b: nat): nat { if a < b then a else b }

  /** `n` filter outputs drawn from the same delay line. */
  function Copies(tags: set<nat>, n: nat): (r: seq<set<nat>>)
    ensures |r| == n && forall i | 0 <= i < n :: r[i] == tags
  {
    if n == 0 then [] else [tags] + Copies(tags, n - 1)
  }

  /** The batch can take another sample. */
  predicate Room(pc: Pc)
    requires pc.FacFill?
  {
    pc.used < Min(pc.avail, BATCH) && |pc.batch| < BATCH
  }

  /** One sample into the filter, and the outputs it made ready. */
  function Feed(y: System, seen: Seen): System
    requires y.Wf() && y.pc.FacFill? && y.pc.sid < STREAMS
  {
    var fac := y.fac + {Tag(y.streams[y.pc.sid], y.pc.raw)};
    var more := Copies(fac, Min(seen.ready, if |y.pc.batch| < BATCH then BATCH - |y.pc.batch| else 0));
    y.(fac := fac, pc := y.pc.(raw := y.pc.raw + 1, used := y.pc.used + 1, batch := y.pc.batch + more))
  }

  /** COMMIT: publish the batch if the token is still ours. A batch with room left stalled. */
  function CommitBatch(y: System): System
    requires y.Wf() && y.pc.FacFill? && y.pc.sid < STREAMS
  {
    var s, a := y.pc.sid, y.streams[y.pc.sid];
    if Live(y, y.facOwner, Token(s), s, false) then
      y.With(s, a.(pumpRead := y.pc.raw, out := a.out + y.pc.batch))
      .(facOwner := Active(s),
        pc := if Room(y.pc) then Idle else FacLoop(s, y.pc.ses, y.pc.avail - Min(y.pc.used, y.pc.avail)))
    else y.(facOwner := Unwedged(y.facOwner, s), pc := Idle)
  }

  function FacStep(y: System, seen: Seen): (z: System)
    requires y.Wf() && !y.pc.Idle? && y.pc.sid < STREAMS
    ensures z.Wf()
  {
    var s := y.pc.sid;
    var a := y.streams[s];
    match y.pc
    case FacWant(_) =>                                   // adc_dsp_owner_claim_config
      if Live(y, y.facOwner, Free, s, false) then y.(facOwner := Token(s), pc := FacConfig(s, a.session))
      else y.(pc := Idle)
    case FacConfig(_, ses) => y.(fac := {}, pc := FacConfigured(s, ses, seen.ok))
    case FacConfigured(_, ses, ok) =>                    // release, or adc_dsp_owner_commit_config
      if !ok then y.(facOwner := Released(y.facOwner, s), pc := Idle)
      else if Live(y, y.facOwner, Token(s), s, false) then y.(facOwner := Active(s), pc := FacReady(s, ses, true))
      else y.(facOwner := Unwedged(y.facOwner, s), pc := Idle)
    case FacReady(_, ses, first) =>
      var avail := Total(a, seen) - a.pumpRead;
      if first then                                      // compared as unsigned
        y.(pc := if avail < 0 || avail >= RING then FacJump(s, ses, Total(a, seen)) else FacReady(s, ses, false))
      else if avail <= 0 then y.(pc := Idle)
      else if avail >= RING then y.(pc := FacResync(s, ses, Total(a, seen)))
      else y.(pc := FacLoop(s, ses, avail))
    case FacJump(_, ses, total) =>
      var z := if Live(y, y.facOwner, Active(s), s, false) then y.With(s, a.(pumpRead := total)) else y;
      z.(pc := FacReady(s, ses, false))
    case FacResync(_, _, total) =>
      var z := if Live(y, y.facOwner, Active(s), s, false) then y.With(s, a.(pumpRead := total, gap := true)) else y;
      z.(pc := Idle)
    case FacLoop(_, ses, avail) =>                       // CLAIM
      if avail == 0 || !Live(y, y.facOwner, Active(s), s, false) then y.(pc := Idle)
      else y.(facOwner := Token(s), pc := FacLeased(s, ses, avail))
    case FacLeased(_, ses, avail) => y.(pc := FacFill(s, ses, avail, a.pumpRead, 0, []))
    case FacFill(_, _, _, _, _, _) => if Room(y.pc) && seen.ok then Feed(y, seen) else CommitBatch(y)
    case _ => y
  }

  // ---- the FFT pump -----------------------------------------------------------------------------------------

  /** The frame the window's samples make. */
  function FrameOf(tags: seq<nat>, number: nat): Bins {
    if tags != [] && forall i | 0 <= i < |tags| :: tags[i] == tags[0] then Frame(tags[0], number) else Mixed
  }

  function FftStep(y: System, seen: Seen): (z: System)
    requires y.Wf() && !y.pc.Idle? && y.pc.sid < STREAMS
    ensures z.Wf()
  {
    var s := y.pc.sid;
    var a := y.streams[s];
    match y.pc
    case FftWant(_) =>
      if Live(y, y.fftOwner, Free, s, true) then y.(fftOwner := Token(s), pc := FftConfig(s, a.session))
      else y.(pc := Idle)
    case FftConfig(_, ses) =>
      if !seen.ok || !(32 <= seen.points <= 1024) then y.(pc := FftConfigured(s, ses, false))
      else y.(points := seen.points, window := [], frames := 0, pc := FftConfigured(s, ses, true))
    case FftConfigured(_, ses, ok) =>
      if !ok then y.(fftOwner := Released(y.fftOwner, s), pc := Idle)
      else if Live(y, y.fftOwner, Token(s), s, true) then y.(fftOwner := Active(s), pc := FftReady(s, ses))
      else y.(fftOwner := Unwedged(y.fftOwner, s), pc := Idle)
    case FftReady(_, ses) =>
      var avail := Total(a, seen) - a.pumpRead;
      if avail <= 0 then y.(pc := Idle)
      else if avail >= RING then y.(pc := FftResync(s, ses, Total(a, seen)))
      else y.(pc := FftTake(s, ses, avail))
    case FftResync(_, _, total) =>
      var z := if Live(y, y.fftOwner, Active(s), s, true) then y.With(s, a.(pumpRead := total)).(window := []) else y;
      z.(pc := Idle)
    case FftTake(_, ses, avail) =>                       // capture under the lease
      if avail == 0 || !Live(y, y.fftOwner, Active(s), s, true) then y.(pc := Idle)
      else y.(pc := FftHold(s, ses, avail - 1, Tag(a, a.pumpRead)))
    case FftHold(_, ses, avail, tag) =>                  // store under the lease
      if !Live(y, y.fftOwner, Active(s), s, true) then y.(pc := Idle)
      else
        var window := y.window + [tag];
        y.With(s, a.(pumpRead := a.pumpRead + 1))
        .(window := window,
          pc := if |window| >= y.points then FftWait(s, ses, avail, window) else FftTake(s, ses, avail))
    case FftWait(_, ses, avail, frame) =>
      if !Live(y, y.fftOwner, Active(s), s, true) then y.(pc := Idle)
      else if !seen.ok then y.(window := [], pc := FftTake(s, ses, avail))
      else y.(fftOwner := Token(s), pc := FftReduce(s, ses, avail, frame, false))
    case FftReduce(_, ses, avail, frame, done) =>
      if !done then
        if seen.ok then y.(bins := FrameOf(frame, y.frames + 1), pc := FftReduce(s, ses, avail, frame, true))
        else y.(bins := Mixed)
      else if Live(y, y.fftOwner, Token(s), s, true) then
        y.(frames := y.frames + 1, window := [], fftOwner := Active(s), pc := FftTake(s, ses, avail))
      else y.(fftOwner := Unwedged(y.fftOwner, s), pc := Idle)
    case _ => y
  }

  predicate IsFft(pc: Pc) {
    pc.FftWant? || pc.FftConfig? || pc.FftConfigured? || pc.FftReady? || pc.FftResync? || pc.FftTake? || pc.FftHold?
    || pc.FftWait? || pc.FftReduce?
  }

  /** bridge_hw_dsp_pump turning to stream `s`. */
  function Visit(y: System, s: nat): (z: System)
    requires y.Wf()
    ensures z.Wf()
  {
    if !y.pc.Idle? || s >= STREAMS || !y.streams[s].inUse || !y.streams[s].bound then y
    else if y.streams[s].fft then
      y.(pc := if y.fftOwner == Active(s) then FftReady(s, y.streams[s].session) else FftWant(s))
    else
      y.(pc := if y.facOwner == Active(s) then FacReady(s, y.streams[s].session, false) else FacWant(s))
  }

  datatype Step = Preempt(isr: Isr) | PumpVisit(s: nat) | PumpStep(seen: Seen)

  function Next(y: System, x: Step): (z: System)
    requires y.Wf()
    ensures z.Wf()
  {
    match x
    case Preempt(isr) => Interrupt(y, isr)
    case PumpVisit(s) => Visit(y, s)
    case PumpStep(seen) =>
      if y.pc.Idle? || y.pc.sid >= STREAMS then y else if IsFft(y.pc) then FftStep(y, seen) else FacStep(y, seen)
  }

  function Run(y: System, xs: seq<Step>): (z: System)
    requires y.Wf()
    ensures z.Wf()
    decreases |xs|
  {
    if xs == [] then y else Run(Next(y, xs[0]), xs[1..])
  }

  // ---- readers -------------------------------------------------------------------------------------------

  datatype Spectrum = Unavailable | Bins(seqNo: nat, bins: Bins)

  /** bridge_hw_adc_spectrum_read, as far as which bins it serves. */
  function SpectrumRead(y: System, s: nat): Spectrum
    requires y.Wf()
  {
    if s >= STREAMS || !y.streams[s].inUse || !y.streams[s].bound || !y.streams[s].fft then Unavailable
    else if y.fftOwner != Active(s) || y.frames % SEQS == 0 then Unavailable
    else Bins(y.frames % SEQS, y.bins)
  }

  // ---- what every step keeps ---------------------------------------------------------------------------------

  /** All samples of a batch come from session `ses`. */
  predicate Pure(batch: seq<set<nat>>, ses: nat) { forall i | 0 <= i < |batch| :: batch[i] <= {ses} }
  predicate Uniform(tags: seq<nat>, ses: nat) { forall i | 0 <= i < |tags| :: tags[i] == ses }

  /** The cells below the write position are the session's: all of them once it has lapped. */
  predicate RingOk(a: Stream) {
    a.filled <= RING && (a.pos < RING ==> a.pos <= a.filled) && (a.pos >= RING ==> a.filled == RING)
  }

  predicate StreamsOk(y: System)
    requires y.Wf()
  {
    forall s: nat | s < STREAMS ::
      var a := y.streams[s];
      && a.session < y.nextSession && (a.bound ==> a.inUse) && (a.inUse ==> a.session != FOREIGN)
      && (a.bound ==> Pure(a.out, a.session)) && RingOk(a)
  }

  /** The pump holds, or believes to hold, the filter for stream `s` in session `ses`. */
  predicate FacWindow(pc: Pc) { pc.FacConfig? || pc.FacConfigured? || pc.FacLeased? || pc.FacFill? }
  predicate FftWindow(pc: Pc) { pc.FftConfig? || pc.FftConfigured? || pc.FftReduce? }

  /** The filter's owner, its delay line, and what the pump knows while it holds the lease. */
  predicate FacOk(y: System)
    requires y.Wf()
  {
    && (y.facOwner.Active? ==>
          y.facOwner.sid < STREAMS && Live(y, y.facOwner, y.facOwner, y.facOwner.sid, false)
          && y.fac <= {y.streams[y.facOwner.sid].session})
    && (y.facOwner.Token? ==>
          y.facOwner.sid < STREAMS && Live(y, y.facOwner, y.facOwner, y.facOwner.sid, false)
          && FacWindow(y.pc) && y.pc.sid == y.facOwner.sid)
    && (FacWindow(y.pc) ==> !y.facOwner.Active?)
    && (!y.pc.Idle? && !IsFft(y.pc) ==> y.pc.sid < STREAMS && FacPcOk(y))
  }

  predicate FacPcOk(y: System)
    requires y.Wf() && !y.pc.Idle? && y.pc.sid < STREAMS
  {
    var a := y.streams[y.pc.sid];
    match y.pc
    case FacConfig(s, ses) => y.facOwner == Token(s) ==> a.session == ses
    case FacConfigured(s, ses, ok) => y.facOwner == Token(s) ==> a.session == ses && y.fac == {}
    case FacReady(s, ses, _) => y.facOwner == Active(s) ==> a.session == ses
    case FacJump(s, ses, total) => y.facOwner == Active(s) ==> a.session == ses
    case FacResync(s, ses, total) => y.facOwner == Active(s) ==> a.session == ses
    case FacLoop(s, ses, avail) =>
      avail < RING && (y.facOwner == Active(s) ==> a.session == ses && Covered(a, a.pumpRead, avail))
    case FacLeased(s, ses, avail) =>
      avail < RING && (y.facOwner == Token(s) ==> a.session == ses && Covered(a, a.pumpRead, avail) && y.fac <= {ses})
    case FacFill(s, ses, avail, raw, used, batch) =>
      && avail < RING && used <= BATCH && |batch| <= BATCH
      && (y.facOwner == Token(s) ==>
            && a.session == ses && used <= avail && Covered(a, raw, avail - used)
            && y.fac <= {ses} && Pure(batch, ses))
    case _ => true
  }

  lemma FeedKeeps(y: System, seen: Seen)
    requires y.Wf() && StreamsOk(y) && FacOk(y) && y.pc.FacFill? && y.pc.sid < STREAMS && Room(y.pc)
    ensures StreamsOk(Feed(y, seen)) && FacOk(Feed(y, seen))
  {
    hide Copies;
  }

  lemma CommitKeeps(y: System)
    requires y.Wf() && StreamsOk(y) && FacOk(y) && y.pc.FacFill? && y.pc.sid < STREAMS
    ensures StreamsOk(CommitBatch(y)) && FacOk(CommitBatch(y))
  {
  }

  lemma FacConfigKeeps(y: System, seen: Seen)
    requires y.Wf() && StreamsOk(y) && FacOk(y) && (y.pc.FacWant? || y.pc.FacConfig? || y.pc.FacConfigured?)
    ensures var z := FacStep(y, seen); StreamsOk(z) && FacOk(z)
  {
    hide Feed, CommitBatch, Pure;
  }

  /** Every cell from the pump's position up to a measured total is the session's. */
  lemma MeasuredCovered(a: Stream, total: nat)
    requires RingOk(a) && total <= a.pos && total >= a.pumpRead
    ensures Covered(a, a.pumpRead, total - a.pumpRead)
  {
  }

  lemma FacMeasureKeeps(y: System, seen: Seen)
    requires y.Wf() && StreamsOk(y) && FacOk(y) && y.pc.FacReady?
    ensures var z := FacStep(y, seen); StreamsOk(z) && FacOk(z)
  {
    hide Feed, CommitBatch, Covered;
    var a := y.streams[y.pc.sid];
    if Total(a, seen) >= a.pumpRead { MeasuredCovered(a, Total(a, seen)); }
  }

  lemma FacLeaseKeeps(y: System, seen: Seen)
    requires y.Wf() && StreamsOk(y) && FacOk(y) && (y.pc.FacLoop? || y.pc.FacLeased?)
    ensures var z := FacStep(y, seen); StreamsOk(z) && FacOk(z)
  {
    hide Feed, CommitBatch, Covered;
  }

  lemma FacResyncKeeps(y: System, seen: Seen)
    requires y.Wf() && StreamsOk(y) && FacOk(y) && (y.pc.FacJump? || y.pc.FacResync?)
    ensures var z := FacStep(y, seen); StreamsOk(z) && FacOk(z)
  {
    hide Feed, CommitBatch, Pure;
  }

  lemma FacStepKeeps(y: System, seen: Seen)
    requires y.Wf() && StreamsOk(y) && FacOk(y) && !y.pc.Idle? && !IsFft(y.pc)
    ensures var z := FacStep(y, seen); StreamsOk(z) && FacOk(z)
  {
    hide Feed, CommitBatch, StreamsOk;
    if y.pc.FacFill? {
      if Room(y.pc) && seen.ok { FeedKeeps(y, seen); } else { CommitKeeps(y); }
    } else if y.pc.FacWant? || y.pc.FacConfig? || y.pc.FacConfigured? {
      FacConfigKeeps(y, seen);
    } else if y.pc.FacReady? {
      FacMeasureKeeps(y, seen);
    } else if y.pc.FacLoop? || y.pc.FacLeased? {
      FacLeaseKeeps(y, seen);
    } else {
      FacResyncKeeps(y, seen);
    }
  }

  // ---- FFT ---------------------------------------------------------------------------------------------------

  /** The FFT block's owner, its window and its bins. */
  predicate FftOk(y: System)
    requires y.Wf()
  {
    && (y.fftOwner.Active? ==> y.fftOwner.sid < STREAMS && FftActive(y))
    && (y.fftOwner.Token? ==>
          y.fftOwner.sid < STREAMS && Live(y, y.fftOwner, y.fftOwner, y.fftOwner.sid, true)
          && FftWindow(y.pc) && y.pc.sid == y.fftOwner.sid)
    && (FftWindow(y.pc) ==> !y.fftOwner.Active?)
    && (IsFft(y.pc) ==> y.pc.sid < STREAMS && FftPcOk(y))
  }

  /** A readable FFT block: its window and its bins belong to the owner's session, and the
      window has room unless a transform is running on it. */
  predicate FftActive(y: System)
    requires y.Wf() && y.fftOwner.Active? && y.fftOwner.sid < STREAMS
  {
    var s := y.fftOwner.sid;
    var ses := y.streams[s].session;
    && Live(y, y.fftOwner, Active(s), s, true)
    && 32 <= y.points <= 1024 && Uniform(y.window, ses)
    && |y.window| <= y.points && (|y.window| == y.points ==> y.pc.FftWait? && y.pc.sid == s)
    && (y.frames > 0 ==> y.bins == Frame(ses, y.frames))
  }

  /** The next `n` cells from raw index `r` on were written in the session. */
  predicate Covered(a: Stream, r: nat, n: nat) { forall i | r <= i < r + n :: i % RING < a.filled }

  predicate FftPcOk(y: System)
    requires y.Wf() && !y.pc.Idle? && y.pc.sid < STREAMS
  {
    var a := y.streams[y.pc.sid];
    match y.pc
    case FftConfig(s, ses) => y.fftOwner == Token(s) ==> a.session == ses
    case FftConfigured(s, ses, ok) =>
      && (y.fftOwner == Token(s) ==> a.session == ses)
      && (ok ==> y.window == [] && y.frames == 0 && 32 <= y.points <= 1024)
    case FftReady(s, ses) => y.fftOwner == Active(s) ==> a.session == ses
    case FftResync(s, ses, total) => y.fftOwner == Active(s) ==> a.session == ses
    case FftTake(s, ses, avail) =>
      avail < RING && (y.fftOwner == Active(s) ==> a.session == ses && Covered(a, a.pumpRead, avail))
    case FftHold(s, ses, avail, tag) =>
      avail < RING && (y.fftOwner == Active(s) ==> a.session == ses && tag == ses && Covered(a, a.pumpRead + 1, avail))
    case FftWait(s, ses, avail, frame) =>
      && avail < RING
      && (y.fftOwner == Active(s) ==>
            a.session == ses && frame != [] && Uniform(frame, ses) && Covered(a, a.pumpRead, avail))
    case FftReduce(s, ses, avail, frame, done) =>
      && avail < RING
      && (y.fftOwner == Token(s) ==>
            && a.session == ses && frame != [] && Uniform(frame, ses) && Covered(a, a.pumpRead, avail)
            && 32 <= y.points <= 1024 && (done ==> y.bins == Frame(ses, y.frames + 1)))
    case _ => true
  }

  lemma FftConfigKeeps(y: System, seen: Seen)
    requires y.Wf() && StreamsOk(y) && FftOk(y) && (y.pc.FftWant? || y.pc.FftConfig? || y.pc.FftConfigured?)
    ensures var z := FftStep(y, seen); StreamsOk(z) && FftOk(z)
  {
    hide Pure;
  }

  lemma FftMeasureKeeps(y: System, seen: Seen)
    requires y.Wf() && StreamsOk(y) && FftOk(y) && y.pc.FftReady?
    ensures var z := FftStep(y, seen); StreamsOk(z) && FftOk(z)
  {
    hide Pure, Uniform, Covered;
    var a := y.streams[y.pc.sid];
    if Total(a, seen) >= a.pumpRead { MeasuredCovered(a, Total(a, seen)); }
  }

  lemma FftTakeKeeps(y: System, seen: Seen)
    requires y.Wf() && StreamsOk(y) && FftOk(y) && (y.pc.FftResync? || y.pc.FftTake?)
    ensures var z := FftStep(y, seen); StreamsOk(z) && FftOk(z)
  {
    hide Pure;
  }

  lemma FftHoldKeeps(y: System, seen: Seen)
    requires y.Wf() && StreamsOk(y) && FftOk(y) && y.pc.FftHold?
    ensures var z := FftStep(y, seen); StreamsOk(z) && FftOk(z)
  {
    hide Pure;
  }

  lemma FftPublishKeeps(y: System, seen: Seen)
    requires y.Wf() && StreamsOk(y) && FftOk(y) && (y.pc.FftWait? || y.pc.FftReduce?)
    ensures var z := FftStep(y, seen); StreamsOk(z) && FftOk(z)
  {
    hide Pure;
  }

  lemma FftStepKeeps(y: System, seen: Seen)
    requires y.Wf() && StreamsOk(y) && FftOk(y) && IsFft(y.pc)
    ensures var z := FftStep(y, seen); StreamsOk(z) && FftOk(z)
  {
    hide StreamsOk, FftPcOk, FftActive;
    match y.pc
    case FftWant(_) => FftConfigKeeps(y, seen);
    case FftConfig(_, _) => FftConfigKeeps(y, seen);
    case FftConfigured(_, _, _) => FftConfigKeeps(y, seen);
    case FftHold(_, _, _, _) => FftHoldKeeps(y, seen);
    case FftWait(_, _, _, _) => FftPublishKeeps(y, seen);
    case FftReduce(_, _, _, _, _) => FftPublishKeeps(y, seen);
    case FftReady(_, _) => FftMeasureKeeps(y, seen);
    case _ => FftTakeKeeps(y, seen);
  }

  // ---- every run -----------------------------------------------------------------------------------------------

  predicate Inv(y: System) { y.Wf() && StreamsOk(y) && FacOk(y) && FftOk(y) && y.nextSession >= 1 }

  lemma FillLeavesFft(y: System, seen: Seen)
    requires Inv(y) && y.pc.FacFill?
    ensures FftOk(FacStep(y, seen))
  {
    hide Pure, Uniform, Copies, FacPcOk, FftPcOk, StreamsOk;
  }

  lemma ConfigLeavesFft(y: System, seen: Seen)
    requires Inv(y) && (y.pc.FacWant? || y.pc.FacConfig? || y.pc.FacConfigured? || y.pc.FacLoop? || y.pc.FacLeased?)
    ensures FftOk(FacStep(y, seen))
  {
    hide Pure, Uniform, FacPcOk, FftPcOk, StreamsOk, Feed, CommitBatch;
  }

  lemma MeasureLeavesFft(y: System, seen: Seen)
    requires Inv(y) && (y.pc.FacReady? || y.pc.FacJump? || y.pc.FacResync?)
    ensures FftOk(FacStep(y, seen))
  {
    hide Pure, Uniform, FacPcOk, FftPcOk, StreamsOk, Feed, CommitBatch;
  }

  lemma FacLeavesFft(y: System, seen: Seen)
    requires Inv(y) && !y.pc.Idle? && !IsFft(y.pc)
    ensures FftOk(FacStep(y, seen))
  {
    hide FftOk, StreamsOk, FacPcOk, FacStep;
    if y.pc.FacFill? {
      FillLeavesFft(y, seen);
    } else if y.pc.FacReady? || y.pc.FacJump? || y.pc.FacResync? {
      MeasureLeavesFft(y, seen);
    } else {
      ConfigLeavesFft(y, seen);
    }
  }

  lemma FftLeavesFac(y: System, seen: Seen)
    requires Inv(y) && IsFft(y.pc)
    ensures FacOk(FftStep(y, seen))
  {
    hide Pure, Uniform, FrameOf, FftPcOk, FacPcOk, StreamsOk, FftActive;
  }

  lemma VisitKeeps(y: System, s: nat)
    requires Inv(y)
    ensures Inv(Visit(y, s))
  {
    hide Pure, Uniform;
  }

  lemma BeginKeeps(y: System, s: nat)
    requires Inv(y)
    ensures Inv(Interrupt(y, Begin(s)))
  {
    hide Pure, Uniform;
  }

  /** A session is new: its number is above every earlier one, nothing of the ring counts as written
      in it, and it starts unattached and without a gap. */
  lemma BeginIsNew(y: System, s: nat)
    requires Inv(y) && s < STREAMS && !y.streams[s].inUse
    ensures var z := Interrupt(y, Begin(s));
      && (forall t: nat | t < STREAMS :: y.streams[t].session < z.streams[s].session < z.nextSession)
      && (forall r: nat :: Tag(z.streams[s], r) == FOREIGN)
      && z.streams[s].inUse && !z.streams[s].bound && !z.streams[s].gap
      && forall t: nat | t < STREAMS && t != s :: z.streams[t] == y.streams[t]
  {
    hide FacOk, FftOk, Pure;
  }

  lemma BindKeeps(y: System, s: nat, fft: bool, totalRead: nat)
    requires Inv(y)
    ensures Inv(Interrupt(y, Bind(s, fft, totalRead)))
  {
    hide Uniform;
  }

  lemma EndKeepsFac(y: System, s: nat)
    requires Inv(y)
    ensures FacOk(Interrupt(y, End(s)))
  {
    hide Pure, Uniform, FftPcOk, FftActive;
  }

  lemma EndKeepsStreams(y: System, s: nat)
    requires Inv(y)
    ensures StreamsOk(Interrupt(y, End(s)))
  {
    hide Pure, FacOk, FftOk;
  }

  lemma EndKeepsFft(y: System, s: nat)
    requires Inv(y)
    ensures FftOk(Interrupt(y, End(s)))
  {
    hide Uniform, FacOk, StreamsOk;
  }

  lemma EndKeeps(y: System, s: nat)
    requires Inv(y)
    ensures Inv(Interrupt(y, End(s)))
  {
    hide StreamsOk, FacOk, FftOk;
    EndKeepsStreams(y, s);
    EndKeepsFac(y, s);
    EndKeepsFft(y, s);
  }

  lemma DmaKeeps(y: System, s: nat)
    requires Inv(y)
    ensures Inv(Interrupt(y, Dma(s)))
  {
    hide Pure, Uniform;
  }

  lemma ReadKeeps(y: System, s: nat, max: nat)
    requires Inv(y)
    ensures Inv(Interrupt(y, Read(s, max)))
  {
    hide Pure, Uniform;
  }

  /** How many samples the pump still counts on for stream `s`: those it measured and has not
      fixed its index for, as long as it holds the lease. */
  function Outstanding(y: System, s: nat): nat {
    match y.pc
    case FacLoop(t, _, avail) => if t == s && y.facOwner == Active(s) then avail else 0
    case FacLeased(t, _, avail) => if t == s && y.facOwner == Token(s) then avail else 0
    case FftTake(t, _, avail) => if t == s && y.fftOwner == Active(s) then avail else 0
    case FftHold(t, _, avail, _) => if t == s && y.fftOwner == Active(s) then avail else 0
    case FftWait(t, _, avail, _) => if t == s && y.fftOwner == Active(s) then avail else 0
    case FftReduce(t, _, avail, _, _) => if t == s && y.fftOwner == Token(s) then avail else 0
    case _ => 0
  }

  /** Where it reads them: a sample already held is stored first. */
  function NextIndex(y: System, a: Stream): nat { if y.pc.FftHold? then a.pumpRead + 1 else a.pumpRead }

  /** After the recovery, not all cells the pump counts on were written in the session. */
  predicate Harmful(y: System, s: nat, lap: nat, w: nat)
    requires y.Wf()
  {
    && s < STREAMS && CanRewind(y.streams[s], lap, w)
    && var a := Rewound(y.streams[s], lap, w);
    !Covered(a, NextIndex(y, a), Outstanding(y, s))
  }

  lemma RecoverKeeps(y: System, s: nat, lap: nat, w: nat)
    requires Inv(y) && !Harmful(y, s, lap, w)
    ensures Inv(Interrupt(y, Recover(s, lap, w)))
  {
    hide Pure, Uniform;
  }

  predicate Permitted(y: System, x: Step)
    requires y.Wf()
  {
    x.Preempt? && x.isr.Recover? ==> !Harmful(y, x.isr.s, x.isr.lap, x.isr.w)
  }

  /** No recovery of the run is harmful where it strikes. */
  predicate AllPermitted(y: System, xs: seq<Step>)
    requires y.Wf()
    decreases |xs|
  {
    xs == [] || (Permitted(y, xs[0]) && AllPermitted(Next(y, xs[0]), xs[1..]))
  }

  lemma StepKeeps(y: System, x: Step)
    requires Inv(y) && Permitted(y, x)
    ensures Inv(Next(y, x))
  {
    hide FacOk, FftOk, StreamsOk, Interrupt, Visit;
    match x
    case Preempt(Begin(s)) => BeginKeeps(y, s);
    case Preempt(Bind(s, fft, r)) => BindKeeps(y, s, fft, r);
    case Preempt(End(s)) => EndKeeps(y, s);
    case Preempt(Dma(s)) => DmaKeeps(y, s);
    case Preempt(Read(s, max)) => ReadKeeps(y, s, max);
    case Preempt(Recover(s, lap, w)) => RecoverKeeps(y, s, lap, w);
    case PumpVisit(s) => VisitKeeps(y, s);
    case PumpStep(seen) =>
      if !y.pc.Idle? && y.pc.sid < STREAMS {
        if IsFft(y.pc) {
          FftStepKeeps(y, seen);
          FftLeavesFac(y, seen);
        } else {
          FacStepKeeps(y, seen);
          FacLeavesFft(y, seen);
        }
      }
  }

  /** Free, or owned by a running stream bound to this kind of block. */
  predicate OwnerOk(y: System, owner: Owner, fft: bool)
    requires y.Wf()
  {
    owner.Free? || (owner.Active? && owner.sid < STREAMS && Live(y, owner, owner, owner.sid, fft))
  }

  /** What a host may rely on in a state: published samples are of the stream's own session;
      the bins on offer are one whole frame of it, and a spectrum read serves them under that
      frame's number; and outside a claim-to-commit window each block is free or owned by a
      live bound stream. */
  predicate Isolated(y: System)
    requires y.Wf()
  {
    && (forall s: nat | s < STREAMS && y.streams[s].bound :: Pure(y.streams[s].out, y.streams[s].session))
    && (y.fftOwner.Active? && y.fftOwner.sid < STREAMS && y.frames > 0 ==>
          y.bins == Frame(y.streams[y.fftOwner.sid].session, y.frames))
    && (forall s: nat | s < STREAMS && SpectrumRead(y, s).Bins? ::
          SpectrumRead(y, s) == Bins(y.frames % SEQS, Frame(y.streams[s].session, y.frames)) && y.frames >= 1)
    && (!FacWindow(y.pc) ==> OwnerOk(y, y.facOwner, false))
    && (!FftWindow(y.pc) ==> OwnerOk(y, y.fftOwner, true))
  }

  lemma InvIsolates(y: System)
    requires Inv(y)
    ensures Isolated(y)
  {
    hide Pure, Uniform;
  }

  /** For every interleaving of the pump with BEGIN, BIND, END, reads, the DMA, and overflow
      recoveries after which the cells the pump counts on are all the session's. */
  lemma {:induction false} SessionsIsolated(y: System, xs: seq<Step>)
    requires Inv(y) && AllPermitted(y, xs)
    ensures Inv(Run(y, xs)) && Isolated(Run(y, xs))
    decreases |xs|
  {
    hide Isolated, StreamsOk, FacOk, FftOk;
    if xs == [] {
      InvIsolates(y);
    } else {
      StepKeeps(y, xs[0]);
      SessionsIsolated(Next(y, xs[0]), xs[1..]);
    }
  }

  /** The same from reset. */
  lemma IsolatedFromReset(xs: seq<Step>)
    requires RESET.Wf() && AllPermitted(RESET, xs)
    ensures Isolated(Run(RESET, xs))
  {
    ResetOk();
    SessionsIsolated(RESET, xs);
  }

  lemma ResetOk()
    ensures Inv(RESET)
  {
  }
}
