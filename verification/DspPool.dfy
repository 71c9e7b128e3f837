/** The DSP chain pool and its binding to ADC streams (hal/gd32/adc_dsp_chain.c and the
    lifecycle part of hal/gd32/adc_stream.c). */
module DspPool {
  import opened DspStage

  const CHAINS := 4
  const STAGES := 4
  const STREAMS := 2
  const HEADER := 4
  const FIR := 0
  const IIR := 1
  const WINDOW := 2
  const FFT := 3

  datatype Chain = Chain(inUse: bool, bound: bool, stages: seq<Upload>)
  datatype Stream = Stream(inUse: bool, bound: bool, terminal: nat, chain: nat)
  datatype Pool = Pool(chains: seq<Chain>, streams: seq<Stream>)

  const FRESH: seq<Upload> := [EMPTY, EMPTY, EMPTY, EMPTY]
  const RESET := Pool(seq(CHAINS, _ => Chain(false, false, FRESH)), seq(STREAMS, _ => Stream(false, false, 0, 0)))

  // ---- what a chain may look like ------------------------------------------------------------------

  /** Byte `i` of the stage buffer, zero until received. */
  function At(st: Upload, i: nat): bv8 { if i in st.got then st.got[i] else 0 }

  function Points(st: Upload): bv16 { (At(st, 0) as bv16) | ((At(st, 1) as bv16) << 8) }
  function Count(st: Upload): nat { At(st, 1) as nat }

  /** adc_dsp_stage_blob_valid. */
  predicate BlobValid(st: Upload) {
    && st.total >= HEADER
    && match st.kind
       case 0 => At(st, 0) <= 1 && 1 <= Count(st) <= 64 && st.total == HEADER + Count(st) * 4
       case 1 => At(st, 0) <= 1 && 1 <= Count(st) <= 8 && st.total == HEADER + Count(st) * 5 * 4
       case 2 => At(st, 0) <= 3 && st.total == HEADER
       case 3 =>
         var n := Points(st);
         At(st, 2) <= 2 && 32 <= n <= 1024 && n & (n - 1) == 0 && st.total == HEADER
       case _ => false
  }

  /** The `complete` flag of a stage. */
  predicate CompleteStage(st: Upload) { st.Complete() }

  predicate Populated(c: seq<Upload>, i: nat)
    requires |c| == STAGES
  {
    i < STAGES && c[i].total != 0
  }

  predicate Is(c: seq<Upload>, i: nat, kind: nat)
    requires |c| == STAGES
  {
    Populated(c, i) && c[i].kind == kind
  }

  predicate HasFft(c: seq<Upload>)
    requires |c| == STAGES
  {
    exists i: nat | i < STAGES :: Is(c, i, FFT)
  }

  /** The structural rules of chain_bind: complete valid blobs without a gap between them; at
      most one FFT, last; at most one WINDOW, directly before the FFT. */
  predicate Shaped(c: seq<Upload>)
    requires |c| == STAGES
  {
    && (forall i: nat | i < STAGES && Populated(c, i) :: CompleteStage(c[i]) && BlobValid(c[i]))
    && (forall i: nat, j: nat, k: nat | i < j < k < STAGES && Populated(c, i) && Populated(c, k) :: Populated(c, j))
    && (exists i: nat | i < STAGES :: Populated(c, i))
    && (forall i: nat, j: nat | i < STAGES && j < STAGES && Is(c, i, FFT) && Populated(c, j) :: j <= i)
    && (forall i: nat, j: nat | i < STAGES && j < STAGES && Is(c, i, WINDOW) && Is(c, j, WINDOW) :: i == j)
    && (forall i: nat | i < STAGES && Is(c, i, WINDOW) :: Is(c, i + 1, FFT))
  }

  /** adc_dsp_chain_p1_capable: what the single filter and the single FFT block can run. */
  predicate Capable(c: seq<Upload>)
    requires |c| == STAGES
  {
    && (forall i: nat | i < STAGES && Populated(c, i) :: BlobValid(c[i]))
    && if HasFft(c) then forall i: nat | i < STAGES && Populated(c, i) :: Is(c, i, FFT) || Is(c, i, WINDOW)
       else
         && (exists i: nat | i < STAGES :: Populated(c, i))
         && (forall i: nat, j: nat | i < STAGES && j < STAGES && Populated(c, i) && Populated(c, j) :: i == j)
         && (forall i: nat | i < STAGES && Is(c, i, IIR) :: Count(c[i]) == 1)
  }

  /** The kind of the last populated stage. */
  function Terminal(c: seq<Upload>): nat
    requires |c| == STAGES
  {
    if Populated(c, 3) then c[3].kind else if Populated(c, 2) then c[2].kind
    else if Populated(c, 1) then c[1].kind else c[0].kind
  }

  /** A lone filter stage is accepted at any index: the rules bar a gap between populated
      stages, not before the first one. */
  lemma LeadingGapAllowed(st: Upload)
    requires CompleteStage(st) && BlobValid(st) && st.kind == FIR
    ensures Shaped([EMPTY, EMPTY, st, EMPTY]) && Capable([EMPTY, EMPTY, st, EMPTY])
  {
    hide BlobValid;
    var c := [EMPTY, EMPTY, st, EMPTY];
    assert Populated(c, 2);
  }

  /** Empty stages stand only at the tail: every stage before a populated one is populated. */
  predicate TailOnly(c: seq<Upload>)
    requires |c| == STAGES
  {
    forall i: nat, j: nat | i < j < STAGES && Populated(c, j) :: Populated(c, i)
  }

  /** An accepted chain keeps the documented rule exactly when its first stage is populated. */
  lemma TailOnlyExact(c: seq<Upload>)
    requires |c| == STAGES && Shaped(c)
    ensures TailOnly(c) <==> Populated(c, 0)
  {
    hide BlobValid, CompleteStage;
  }

  /** The kinds of the populated stages from index `i` on, in order. */
  function Kinds(c: seq<Upload>, i: nat): seq<nat>
    requires |c| == STAGES
    decreases STAGES - i
  {
    if i >= STAGES then [] else (if Populated(c, i) then [c[i].kind] else []) + Kinds(c, i + 1)
  }

  lemma KindsAre(c: seq<Upload>)
    requires |c| == STAGES
    ensures var one := (i: nat) => if i < STAGES && Populated(c, i) then [c[i].kind] else [];
      Kinds(c, 0) == one(0) + one(1) + one(2) + one(3)
  {
    assert Kinds(c, 4) == [];
    assert Kinds(c, 3) == (if Populated(c, 3) then [c[3].kind] else []);
    assert Kinds(c, 2) == (if Populated(c, 2) then [c[2].kind] else []) + Kinds(c, 3);
    assert Kinds(c, 1) == (if Populated(c, 1) then [c[1].kind] else []) + Kinds(c, 2);
  }

  /** What the two blocks can run: one FIR, one IIR of one section, an FFT, or a WINDOW before an
      FFT. */
  predicate Realisable(c: seq<Upload>)
    requires |c| == STAGES
  {
    || Kinds(c, 0) == [FIR] || Kinds(c, 0) == [FFT] || Kinds(c, 0) == [WINDOW, FFT]
    || (Kinds(c, 0) == [IIR] && forall i: nat | i < STAGES && Is(c, i, IIR) :: Count(c[i]) == 1)
  }

  lemma KindsKnown(c: seq<Upload>)
    requires |c| == STAGES && Shaped(c)
    ensures forall i: nat | i < STAGES && Populated(c, i) :: BlobValid(c[i]) && c[i].kind < 4
  {
  }

  /** One, two, or more populated stages. */
  lemma LoneKinds(c: seq<Upload>, i: nat)
    requires |c| == STAGES && Populated(c, i) && forall k: nat | k < STAGES && Populated(c, k) :: k == i
    ensures Kinds(c, 0) == [c[i].kind]
  {
    KindsAre(c);
    hide Kinds;
    assert !Populated(c, 0) || !Populated(c, 1);
  }

  lemma PairKinds(c: seq<Upload>, i: nat, j: nat)
    requires |c| == STAGES && i < j && Populated(c, i) && Populated(c, j)
    requires forall k: nat | k < STAGES && Populated(c, k) :: k == i || k == j
    ensures Kinds(c, 0) == [c[i].kind, c[j].kind]
  {
    KindsAre(c);
    hide Kinds;
  }

  lemma ManyKinds(c: seq<Upload>, i: nat, j: nat, k: nat)
    requires |c| == STAGES && i < j <= k && Populated(c, i) && Populated(c, j) && Populated(c, k)
    ensures |Kinds(c, 0)| >= if j < k then 3 else 2
  {
    KindsAre(c);
    hide Kinds;
  }

  lemma FftCapable(c: seq<Upload>, i: nat)
    requires |c| == STAGES && Shaped(c) && Is(c, i, FFT) && Capable(c)
    ensures Kinds(c, 0) == [FFT] || Kinds(c, 0) == [WINDOW, FFT]
  {
    hide Kinds, CompleteStage, BlobValid, Count;
    assert HasFft(c);
    forall j: nat | j < STAGES && Populated(c, j) ensures j == i || (Is(c, j, WINDOW) && j + 1 == i) {
      if Is(c, j, WINDOW) { assert Is(c, j + 1, FFT); }
    }
    if i > 0 && Populated(c, i - 1) { PairKinds(c, i - 1, i); } else { LoneKinds(c, i); }
  }

  lemma FftKinds(c: seq<Upload>, i: nat)
    requires |c| == STAGES && Shaped(c) && Is(c, i, FFT) && (Kinds(c, 0) == [FFT] || Kinds(c, 0) == [WINDOW, FFT])
    ensures Capable(c)
  {
    hide Kinds, CompleteStage, BlobValid, Count;
    KindsKnown(c);
    forall j: nat | j < STAGES && Populated(c, j) ensures Is(c, j, FFT) || Is(c, j, WINDOW) {
      if j < i {
        ManyKinds(c, j, i, i);
        forall k: nat | k < STAGES && Populated(c, k) ensures k == j || k == i {
          if k < j { ManyKinds(c, k, j, i); }
          if j < k < i { ManyKinds(c, j, k, i); }
        }
        PairKinds(c, j, i);
      }
    }
  }

  lemma FilterExact(c: seq<Upload>)
    requires |c| == STAGES && Shaped(c) && !HasFft(c)
    ensures Capable(c) <==> Realisable(c)
  {
    hide Kinds, CompleteStage, BlobValid, Count;
    KindsKnown(c);
    var i: nat :| i < STAGES && Populated(c, i);
    if j: nat :| j < STAGES && Populated(c, j) && j != i {
      if i < j { ManyKinds(c, i, j, j); } else { ManyKinds(c, j, i, i); }
      assert !Capable(c);
      LastKind(c);
    } else {
      LoneKinds(c, i);
      assert !Is(c, i, WINDOW) && !Is(c, i, FFT);
    }
  }

  /** A well-shaped chain can be realised if and only if it is one of those four, wherever its
      stages stand. */
  lemma CapableExact(c: seq<Upload>)
    requires |c| == STAGES && Shaped(c)
    ensures Capable(c) <==> Realisable(c)
  {
    hide Kinds, Shaped, Capable, Count;
    if HasFft(c) {
      var i: nat :| i < STAGES && Is(c, i, FFT);
      if Capable(c) { FftCapable(c, i); }
      EndsInFft(c, i);
      if Realisable(c) { FftKinds(c, i); }
    } else {
      FilterExact(c);
    }
  }

  lemma EndsInFft(c: seq<Upload>, i: nat)
    requires |c| == STAGES && Is(c, i, FFT)
    ensures FFT in Kinds(c, 0)
  {
    hide Kinds;
    KindsAre(c);
  }

  /** The data plane is chosen by the last populated stage. */
  lemma LastKind(c: seq<Upload>)
    requires |c| == STAGES && exists i: nat | i < STAGES :: Populated(c, i)
    ensures Kinds(c, 0) != [] && Terminal(c) == Kinds(c, 0)[|Kinds(c, 0)| - 1]
    ensures Terminal(c) == FFT ==> HasFft(c)
  {
    hide Kinds;
    KindsAre(c);
    if Terminal(c) == FFT { assert Is(c, 0, FFT) || Is(c, 1, FFT) || Is(c, 2, FFT) || Is(c, 3, FFT); }
  }

  // ---- operations -------------------------------------------------------------------------------------

  datatype Reply = Done(id: nat) | Refused(status: Status) | Unsupported | IoError

  datatype Out = Out(p: Pool, reply: Reply)

  predicate Sized(p: Pool) {
    |p.chains| == CHAINS && |p.streams| == STREAMS && forall c | 0 <= c < CHAINS :: |p.chains[c].stages| == STAGES
  }

  /** The first chain not in use, from `i` on. */
  function FirstFree(chains: seq<Chain>, i: nat): (r: nat)
    ensures r < |chains| ==> i <= r && !chains[r].inUse
    ensures forall k | i <= k < r && k < |chains| :: chains[k].inUse
    decreases |chains| - i
  {
    if i < |chains| && chains[i].inUse then FirstFree(chains, i + 1) else i
  }

  /** bridge_hw_adc_dsp_chain_open. */
  function Open(p: Pool): Out {
    var i := FirstFree(p.chains, 0);
    if i >= |p.chains| then Out(p, Unsupported)
    else Out(p.(chains := p.chains[i := Chain(true, false, FRESH)]), Done(i))
  }

  /** bridge_hw_adc_dsp_stage_push. */
  function PushStage(p: Pool, c: nat, stage: nat, chunk: Chunk): Out
    requires Sized(p)
  {
    if c >= CHAINS || stage >= STAGES then Out(p, Refused(RANGE))
    else if Refusal(chunk) != OK then Out(p, Refused(Refusal(chunk)))
    else if !p.chains[c].inUse || p.chains[c].bound then Out(p, Refused(INVAL))
    else
      var r := Push(p.chains[c].stages[stage], chunk);
      if r.status != OK then Out(p, Refused(r.status))
      else Out(p.(chains := p.chains[c := p.chains[c].(stages := p.chains[c].stages[stage := r.up])]), Done(c))
  }

  predicate Attached(p: Pool, s: nat)
    requires Sized(p)
  {
    s < STREAMS && p.streams[s].inUse && p.streams[s].bound
  }

  /** adc_dsp_fft_stream_busy and adc_dsp_filter_stream_busy. */
  predicate BlockBusy(p: Pool, s: nat, fft: bool)
    requires Sized(p)
  {
    exists t: nat | t < STREAMS :: t != s && Attached(p, t) && (p.streams[t].terminal == FFT) == fft
  }

  /** adc_dsp_chain_release. */
  function Release(p: Pool, c: nat): Pool {
    if c >= |p.chains| then p else p.(chains := p.chains[c := p.chains[c].(bound := false, inUse := false)])
  }

  /** bridge_hw_adc_dsp_chain_bind. */
  function Bind(p: Pool, c: nat, s: nat): Out
    requires Sized(p)
  {
    if c >= CHAINS || s >= STREAMS then Out(p, Refused(RANGE))
    else
      var chain := p.chains[c];
      if !chain.inUse || chain.bound || !Shaped(chain.stages) then Out(p, Refused(INVAL))
      else if !p.streams[s].inUse || p.streams[s].bound then Out(p, Refused(INVAL))
      else if !Capable(chain.stages) then Out(Release(p, c), Unsupported)
      else if BlockBusy(p, s, Terminal(chain.stages) == FFT) then Out(p, Unsupported)
      else
        var stream := Stream(true, true, Terminal(chain.stages), c);
        Out(Pool(p.chains[c := chain.(bound := true)], p.streams[s := stream]), Done(c))
  }

  /** BIND attaches an open, unattached, well-shaped and realisable chain to a running, unattached
      stream whose block is free, and nothing else; then the two point at each other and the last
      stage picks the data plane. A chain that cannot be realised gives its slot back; any other
      refusal changes nothing. */
  lemma BindVerdict(p: Pool, c: nat, s: nat)
    requires Sized(p)
    ensures var r := Bind(p, c, s);
      var named := c < CHAINS && s < STREAMS;
      var ready := named && p.chains[c].inUse && !p.chains[c].bound && p.streams[s].inUse && !p.streams[s].bound;
      var shaped := ready && Shaped(p.chains[c].stages);
      var fits := shaped && Realisable(p.chains[c].stages);
      var free := fits && !BlockBusy(p, s, Kinds(p.chains[c].stages, 0)[|Kinds(p.chains[c].stages, 0)| - 1] == FFT);
      && (r.reply == Refused(RANGE) <==> !named) && (r.reply == Refused(INVAL) <==> named && !shaped)
      && (r.reply == Unsupported <==> shaped && !free) && (r.reply.Done? <==> free)
      && (free ==>
            && r.reply == Done(c) && r.p.chains == p.chains[c := p.chains[c].(bound := true)]
            && r.p.streams[s].bound && r.p.streams[s].inUse && r.p.streams[s].chain == c
            && r.p.streams[s].terminal == Kinds(p.chains[c].stages, 0)[|Kinds(p.chains[c].stages, 0)| - 1]
            && forall t: nat | t < STREAMS && t != s :: r.p.streams[t] == p.streams[t])
      && (shaped && !fits ==> r.p == p.(chains := p.chains[c := p.chains[c].(inUse := false)]))
      && (!free && !(shaped && !fits) ==> r.p == p)
  {
    hide Kinds, BlobValid, Capable, Realisable, BlockBusy, Terminal;
    if c < CHAINS && Shaped(p.chains[c].stages) {
      CapableExact(p.chains[c].stages);
      LastKind(p.chains[c].stages);
    }
    hide Shaped;
  }

  /** So such a chain binds, wherever its one stage stands. */
  lemma LeadingGapBinds(p: Pool, c: nat, s: nat, st: Upload)
    requires Sized(p) && c < CHAINS && s < STREAMS && CompleteStage(st) && BlobValid(st) && st.kind == FIR
    requires p.chains[c] == Chain(true, false, [EMPTY, EMPTY, st, EMPTY])
    requires p.streams[s].inUse && !p.streams[s].bound && !BlockBusy(p, s, false)
    ensures Bind(p, c, s).reply == Done(c) && !TailOnly(p.chains[c].stages)
  {
    hide Shaped, Capable, BlobValid, BlockBusy;
    var stages := p.chains[c].stages;
    LeadingGapAllowed(st);
    assert Populated(stages, 2) && !Populated(stages, 0);
  }

  /** The state stream_begin publishes; `started` is the outcome of its hardware steps. */
  function BeginStream(p: Pool, s: nat, started: bool): Out
    requires Sized(p)
  {
    if s >= STREAMS then Out(p, Refused(RANGE))
    else if p.streams[s].inUse then Out(p, Refused(INVAL))
    else if !started then Out(p, IoError)
    else Out(p.(streams := p.streams[s := Stream(true, false, p.streams[s].terminal, 0)]), Done(s))
  }

  /** bridge_hw_adc_stream_end; `stopped` is whether the DMA channel confirmed, `restored` whether
      the converter came back. A stream whose converter did not is over all the same. */
  function EndStream(p: Pool, s: nat, stopped: bool, restored: bool): Out
    requires Sized(p)
  {
    if s >= STREAMS then Out(p, Refused(RANGE))
    else if !p.streams[s].inUse then Out(p, Done(s))
    else if !stopped then Out(p, IoError)
    else
      var q := if p.streams[s].bound then Release(p, p.streams[s].chain) else p;
      Out(q.(streams := p.streams[s := p.streams[s].(inUse := false, bound := false)]),
          if restored then Done(s) else IoError)
  }

  /** OPEN hands out a slot if and only if one is free, unbound and with every stage untouched,
      and leaves the other slots alone. */
  lemma OpenVerdict(p: Pool)
    requires Sized(p)
    ensures var r := Open(p);
      && (r.reply.Done? <==> exists c: nat | c < CHAINS :: !p.chains[c].inUse)
      && (r.reply.Done? ==>
            && r.reply.id < CHAINS && !p.chains[r.reply.id].inUse && r.p.streams == p.streams && Sized(r.p)
            && r.p.chains[r.reply.id].inUse && !r.p.chains[r.reply.id].bound
            && (forall i: nat | i < STAGES :: r.p.chains[r.reply.id].stages[i] == EMPTY)
            && forall c: nat | c < CHAINS && c != r.reply.id :: r.p.chains[c] == p.chains[c])
      && (!r.reply.Done? ==> r == Out(p, Unsupported))
  {
  }

  /** A stage is pushed to if and only if the indices are in range, the arguments are good, the slot
      is in use and not bound, and the stage accepts the chunk; then that stage alone changes. */
  lemma PushVerdict(p: Pool, c: nat, stage: nat, chunk: Chunk)
    requires Sized(p)
    ensures var r := PushStage(p, c, stage, chunk);
      && (r.reply.Done? <==>
            && c < CHAINS && stage < STAGES && p.chains[c].inUse && !p.chains[c].bound
            && Push(p.chains[c].stages[stage], chunk).status == OK)
      && (!r.reply.Done? ==> r.p == p)
      && (r.reply.Done? ==>
            && Sized(r.p) && r.p.streams == p.streams
            && r.p.chains[c].stages[stage] == Push(p.chains[c].stages[stage], chunk).up
            && r.p.chains[c].inUse && !r.p.chains[c].bound
            && (forall i: nat | i < STAGES && i != stage :: r.p.chains[c].stages[i] == p.chains[c].stages[i])
            && forall d: nat | d < CHAINS && d != c :: r.p.chains[d] == p.chains[d])
  {
    hide Conflicts, ChunkMap;
  }

  /** A stream starts if and only if it is not running and its hardware does; it starts unattached,
      and a failure changes nothing. */
  lemma BeginVerdict(p: Pool, s: nat, started: bool)
    requires Inv(p)
    ensures var r := BeginStream(p, s, started);
      && (r.reply.Done? <==> s < STREAMS && !p.streams[s].inUse && started)
      && (!r.reply.Done? ==> r.p == p)
      && (r.reply.Done? ==>
            && r.p.chains == p.chains && r.p.streams[s].inUse && !r.p.streams[s].bound
            && forall t: nat | t < STREAMS && t != s :: r.p.streams[t] == p.streams[t])
  {
    hide Shaped, Capable, Terminal;
  }

  /** END frees the stream and the slot of its chain if the DMA channel confirms; while it does
      not, the answer is an IO error and nothing is freed. */
  lemma EndVerdict(p: Pool, s: nat, stopped: bool, restored: bool)
    requires Inv(p) && s < STREAMS && p.streams[s].inUse
    ensures var r := EndStream(p, s, stopped, restored);
      && (!stopped ==> r == Out(p, IoError))
      && (stopped ==>
            && r.reply == (if restored then Done(s) else IoError) && Sized(r.p)
            && !r.p.streams[s].inUse && !r.p.streams[s].bound
            && (forall t: nat | t < STREAMS && t != s :: r.p.streams[t] == p.streams[t])
            && forall c: nat | c < CHAINS ::
                 if p.streams[s].bound && p.streams[s].chain == c then !r.p.chains[c].inUse && !r.p.chains[c].bound
                 else r.p.chains[c] == p.chains[c])
  {
    hide Shaped, Capable, Terminal;
    assert p.streams[s].bound ==> Attached(p, s);
  }

  datatype Step =
    | DoOpen
    | DoPush(chain: nat, stage: nat, chunk: Chunk)
    | DoBind(chain: nat, stream: nat)
    | DoBegin(stream: nat, ok: bool)
    | DoEnd(stream: nat, ok: bool, restored: bool)

  function Next(p: Pool, x: Step): (q: Pool)
    requires Sized(p)
    ensures Sized(q)
  {
    match x
    case DoOpen => Open(p).p
    case DoPush(c, stage, chunk) => PushStage(p, c, stage, chunk).p
    case DoBind(c, s) => Bind(p, c, s).p
    case DoBegin(s, ok) => BeginStream(p, s, ok).p
    case DoEnd(s, ok, restored) => EndStream(p, s, ok, restored).p
  }

  function Run(p: Pool, xs: seq<Step>): (q: Pool)
    requires Sized(p)
    ensures Sized(q)
    decreases |xs|
  {
    if xs == [] then p else Run(Next(p, xs[0]), xs[1..])
  }

  // ---- every run -----------------------------------------------------------------------------------------

  /** Chains and streams point at each other, the two single blocks serve one stream each, and
      what is bound can run. */
  predicate Inv(p: Pool) {
    && Sized(p)
    && (forall s: nat | s < STREAMS && p.streams[s].bound :: p.streams[s].inUse)
    && (forall s: nat | s < STREAMS && Attached(p, s) ::
          p.streams[s].chain < CHAINS && p.chains[p.streams[s].chain].bound
          && p.streams[s].terminal == Terminal(p.chains[p.streams[s].chain].stages))
    && (forall s: nat, t: nat | s < t < STREAMS && Attached(p, s) && Attached(p, t) ::
          p.streams[s].chain != p.streams[t].chain && (p.streams[s].terminal == FFT) != (p.streams[t].terminal == FFT))
    && (forall c: nat | c < CHAINS && p.chains[c].bound ::
          p.chains[c].inUse && Shaped(p.chains[c].stages) && Capable(p.chains[c].stages)
          && exists s: nat | s < STREAMS :: Attached(p, s) && p.streams[s].chain == c)
  }

  /** The stream a bound chain serves. */
  lemma Served(p: Pool, c: nat) returns (s: nat)
    requires Inv(p) && c < CHAINS && p.chains[c].bound
    ensures s < STREAMS && Attached(p, s) && p.streams[s].chain == c
  {
    hide Shaped, Capable, Terminal;
    s :| s < STREAMS && Attached(p, s) && p.streams[s].chain == c;
  }

  /** Changing a chain that is not bound, or any chain's upload while unbound, leaves the
      bindings alone. */
  lemma UnboundChange(p: Pool, c: nat, chain: Chain)
    requires Inv(p) && c < CHAINS && !p.chains[c].bound && !chain.bound && |chain.stages| == STAGES
    ensures Inv(p.(chains := p.chains[c := chain]))
  {
    hide Shaped, Capable, Terminal;
    var q := p.(chains := p.chains[c := chain]);
    forall d: nat | d < CHAINS && q.chains[d].bound
      ensures exists s: nat | s < STREAMS :: Attached(q, s) && q.streams[s].chain == d
    {
      var s := Served(p, d);
      assert Attached(q, s);
    }
    assert forall s: nat | s < STREAMS :: Attached(q, s) == Attached(p, s);
  }

  lemma BindKeeps(p: Pool, c: nat, s: nat)
    requires Inv(p)
    ensures Inv(Bind(p, c, s).p)
  {
    hide Shaped, Capable, Terminal;
    var q := Bind(p, c, s).p;
    if Bind(p, c, s).reply.Done? {
      assert Attached(q, s);
      forall d: nat | d < CHAINS && q.chains[d].bound
        ensures exists t: nat | t < STREAMS :: Attached(q, t) && q.streams[t].chain == d
      {
        if d != c {
          var t := Served(p, d);
          assert Attached(q, t);
        }
      }
      forall t: nat | t < STREAMS && t != s ensures Attached(q, t) == Attached(p, t) {}
    } else if q != p {
      UnboundChange(p, c, p.chains[c].(inUse := false));
    }
  }

  lemma BeginKeeps(p: Pool, s: nat, ok: bool)
    requires Inv(p)
    ensures Inv(BeginStream(p, s, ok).p)
  {
    hide Shaped, Capable, Terminal;
    var q := BeginStream(p, s, ok).p;
    forall t: nat | t < STREAMS ensures Attached(q, t) == Attached(p, t) {}
    forall d: nat | d < CHAINS && q.chains[d].bound
      ensures exists t: nat | t < STREAMS :: Attached(q, t) && q.streams[t].chain == d
    {
      var t := Served(p, d);
      assert Attached(q, t);
    }
  }

  lemma EndKeeps(p: Pool, s: nat, ok: bool, restored: bool)
    requires Inv(p)
    ensures Inv(EndStream(p, s, ok, restored).p)
  {
    hide Shaped, Capable, Terminal;
    var q := EndStream(p, s, ok, restored).p;
    forall t: nat | t < STREAMS && t != s ensures Attached(q, t) == Attached(p, t) {}
    forall d: nat | d < CHAINS && q.chains[d].bound
      ensures exists t: nat | t < STREAMS :: Attached(q, t) && q.streams[t].chain == d
    {
      var t := Served(p, d);
      assert Attached(q, t);
    }
  }

  lemma StepKeeps(p: Pool, x: Step)
    requires Inv(p)
    ensures Inv(Next(p, x))
  {
    hide Shaped, Capable, Terminal, Bind, BeginStream, EndStream, Push, Refusal;
    match x
    case DoOpen =>
      var i := FirstFree(p.chains, 0);
      if i < |p.chains| {
        FreeIsUnbound(p, i);
        UnboundChange(p, i, Chain(true, false, FRESH));
      }
    case DoPush(c, stage, chunk) =>
      var q := PushStage(p, c, stage, chunk).p;
      if q != p { UnboundChange(p, c, q.chains[c]); }
    case DoBind(c, s) => BindKeeps(p, c, s);
    case DoBegin(s, ok) => BeginKeeps(p, s, ok);
    case DoEnd(s, ok, restored) => EndKeeps(p, s, ok, restored);
  }

  lemma FreeIsUnbound(p: Pool, c: nat)
    requires Inv(p) && c < CHAINS && !p.chains[c].inUse
    ensures !p.chains[c].bound
  {
  }

  /** Stream `s`, and no other, runs chain `c`. */
  predicate Only(p: Pool, s: nat, c: nat)
    requires Sized(p)
  {
    && Attached(p, s) && p.streams[s].chain == c
    && forall t: nat | t < STREAMS && Attached(p, t) && p.streams[t].chain == c :: t == s
  }

  /** A chain is bound exactly when one and only one running stream points to it. */
  predicate OneToOne(p: Pool)
    requires Sized(p)
  {
    forall c: nat | c < CHAINS :: p.chains[c].bound <==> exists s: nat | s < STREAMS :: Only(p, s, c)
  }

  /** Over every run from reset: binding is one to one, at most one stream has each kind of
      terminal, and every bound chain is realisable. */
  lemma {:induction false} AlwaysConsistent(p: Pool, xs: seq<Step>)
    requires Inv(p)
    ensures Inv(Run(p, xs)) && OneToOne(Run(p, xs))
    decreases |xs|
  {
    if xs == [] {
      OneToOneHolds(p);
    } else {
      hide Inv;
      StepKeeps(p, xs[0]);
      AlwaysConsistent(Next(p, xs[0]), xs[1..]);
    }
  }

  lemma OneToOneHolds(p: Pool)
    requires Inv(p)
    ensures OneToOne(p)
  {
    hide Shaped, Capable, Terminal;
    forall c: nat | c < CHAINS && p.chains[c].bound ensures exists s: nat | s < STREAMS :: Only(p, s, c) {
      var s := Served(p, c);
      assert Only(p, s, c);
    }
  }

  /** The same from reset. */
  lemma ConsistentFromReset(xs: seq<Step>)
    ensures Sized(RESET) && Inv(Run(RESET, xs)) && OneToOne(Run(RESET, xs))
  {
    assert Inv(RESET);
    AlwaysConsistent(RESET, xs);
  }

  /** What the pump relies on when it decodes a bound chain: complete stages, tap and section
      counts inside the received bytes, and a point count the FFT buffers hold. */
  lemma PumpReadsInRange(p: Pool, c: nat, i: nat)
    requires Inv(p) && c < CHAINS && p.chains[c].bound && Populated(p.chains[c].stages, i)
    ensures var st := p.chains[c].stages[i];
      && (forall k | 0 <= k < st.total :: k in st.got)
      && (st.kind == FIR ==> 1 <= Count(st) <= 64 && HEADER + 4 * Count(st) == st.total)
      && (st.kind == IIR ==> Count(st) == 1 && st.total == HEADER + 20)
      && (st.kind == FFT ==> 32 <= Points(st) <= 1024)
      && (st.kind == IIR || st.kind == FIR ==> forall j: nat | j < STAGES && Populated(p.chains[c].stages, j) :: j == i)
  {
    hide Points, Count;
    assert Is(p.chains[c].stages, i, p.chains[c].stages[i].kind);
  }

  // ---- the module's own form ---------------------------------------------------------------------------------

  /** adc_dsp_chain_p1_capable: the counting and checking loops. */
  method CheckCapable(c: seq<Upload>) returns (ok: bool)
    requires |c| == STAGES
    ensures ok == Capable(c)
  {
    hide BlobValid, Count;
    var populated: nat, fft: nat := 0, STAGES;
    ghost var only: nat, prev: nat := 0, 0;
    for i := 0 to STAGES
      invariant fft == STAGES ==> forall k: nat | k < i :: !Is(c, k, FFT)
      invariant fft != STAGES ==> fft < i && Is(c, fft, FFT)
      invariant populated == 0 ==> forall k: nat | k < i :: !Populated(c, k)
      invariant populated >= 1 ==> only < i && Populated(c, only)
      invariant populated == 1 ==> forall k: nat | k < i && Populated(c, k) :: k == only
      invariant populated >= 2 ==> prev < only && Populated(c, prev)
    {
      if c[i].total == 0 { continue; }
      populated, only, prev := populated + 1, i, only;
      if c[i].kind == FFT { fft := i; }
      assert Populated(c, i) && (Is(c, i, FFT) <==> fft == i);
    }
    for i := 0 to STAGES
      invariant forall k: nat | k < i && Populated(c, k) :: BlobValid(c[k])
    {
      if c[i].total != 0 && !BlobValid(c[i]) {
        assert Populated(c, i);
        return false;
      }
    }
    if fft != STAGES {
      for i := 0 to STAGES
        invariant forall k: nat | k < i && Populated(c, k) :: Is(c, k, FFT) || Is(c, k, WINDOW)
      {
        if c[i].total != 0 && c[i].kind != FFT && c[i].kind != WINDOW {
          assert Populated(c, i);
          return false;
        }
      }
      return true;
    }
    if populated != 1 { return false; }
    for i := 0 to STAGES
      invariant forall k: nat | k < i && Is(c, k, IIR) :: Count(c[k]) == 1
    {
      if c[i].total != 0 && c[i].kind == IIR && Count(c[i]) != 1 {
        assert Is(c, i, IIR);
        return false;
      }
    }
    return true;
  }

  /** Where chain_bind's scan of the stages below `i` stands. */
  ghost predicate Scanned(c: seq<Upload>, i: nat, fft: nat, window: nat, last: nat)
    requires |c| == STAGES && i <= STAGES
  {
    && (forall k: nat | k < i && Populated(c, k) :: CompleteStage(c[k]) && BlobValid(c[k]))
    && (if last == STAGES then forall k: nat | k < i :: !Populated(c, k)
        else last < i && Populated(c, last) && forall k: nat | last < k < i :: !Populated(c, k))
    && (forall j: nat, m: nat, k: nat | j < m < k < i && Populated(c, j) && Populated(c, k) :: Populated(c, m))
    && (if fft == STAGES then forall k: nat | k < i :: !Is(c, k, FFT)
        else fft < i && Is(c, fft, FFT) && forall k: nat | k < i && Is(c, k, FFT) :: k == fft)
    && (if window == STAGES then forall k: nat | k < i :: !Is(c, k, WINDOW)
        else window < i && Is(c, window, WINDOW) && forall k: nat | k < i && Is(c, k, WINDOW) :: k == window)
  }

  /** Stage `i` fits what the scan has seen. */
  predicate Continues(c: seq<Upload>, i: nat, fft: nat, window: nat, last: nat)
    requires |c| == STAGES && i < STAGES
  {
    && CompleteStage(c[i]) && BlobValid(c[i])
    && (last == STAGES || i - last == 1)
    && !(c[i].kind == FFT && fft != STAGES) && !(c[i].kind == WINDOW && window != STAGES)
  }

  lemma ScanSkips(c: seq<Upload>, i: nat, fft: nat, window: nat, last: nat)
    requires |c| == STAGES && i < STAGES && Scanned(c, i, fft, window, last) && !Populated(c, i)
    ensures Scanned(c, i + 1, fft, window, last)
  {
    hide BlobValid, CompleteStage;
  }

  lemma ScanTakes(c: seq<Upload>, i: nat, fft: nat, window: nat, last: nat)
    requires |c| == STAGES && i < STAGES && Scanned(c, i, fft, window, last) && Populated(c, i)
    requires Continues(c, i, fft, window, last)
    ensures Scanned(c, i + 1, if c[i].kind == FFT then i else fft, if c[i].kind == WINDOW then i else window, i)
  {
    hide BlobValid, CompleteStage;
  }

  lemma ScanStops(c: seq<Upload>, i: nat, fft: nat, window: nat, last: nat)
    requires |c| == STAGES && i < STAGES && Scanned(c, i, fft, window, last) && Populated(c, i)
    requires !Continues(c, i, fft, window, last)
    ensures !Shaped(c)
  {
    hide BlobValid, CompleteStage;
    if last != STAGES && i - last != 1 {
      assert !Populated(c, last + 1);
    }
    if c[i].kind == FFT && fft != STAGES { assert Is(c, fft, FFT) && Is(c, i, FFT); }
    if c[i].kind == WINDOW && window != STAGES { assert Is(c, window, WINDOW) && Is(c, i, WINDOW); }
  }

  /** The scan of chain_bind: stops at the first stage that breaks a rule. */
  method ScanStages(c: seq<Upload>) returns (ok: bool, fft: nat, window: nat, last: nat)
    requires |c| == STAGES
    ensures if ok then Scanned(c, STAGES, fft, window, last) else !Shaped(c)
  {
    hide BlobValid, CompleteStage, Shaped;
    fft, window, last := STAGES, STAGES, STAGES;
    for i := 0 to STAGES
      invariant Scanned(c, i, fft, window, last)
    {
      if c[i].total == 0 {
        ScanSkips(c, i, fft, window, last);
        continue;
      }
      if !Continues(c, i, fft, window, last) {
        ScanStops(c, i, fft, window, last);
        return false, fft, window, last;
      }
      ScanTakes(c, i, fft, window, last);
      if c[i].kind == FFT { fft := i; } else if c[i].kind == WINDOW { window := i; }
      last := i;
    }
    ok := true;
  }

  /** What the scan leaves for the ordering checks. */
  predicate Ordered(fft: nat, window: nat, last: nat) {
    && last != STAGES
    && if fft != STAGES then fft == last && (window == STAGES || (fft != 0 && window == fft - 1)) else window == STAGES
  }

  lemma ScanDecides(c: seq<Upload>, fft: nat, window: nat, last: nat)
    requires |c| == STAGES && Scanned(c, STAGES, fft, window, last)
    ensures Shaped(c) <==> Ordered(fft, window, last)
    ensures Shaped(c) ==> last < STAGES && c[last].kind == Terminal(c)
  {
    hide BlobValid, CompleteStage;
    if Ordered(fft, window, last) {
      assert Shaped(c);
    }
  }

  /** The checks of chain_bind on a chain's stages; `last` is the terminal stage. */
  method CheckShape(c: seq<Upload>) returns (ok: bool, last: nat)
    requires |c| == STAGES
    ensures ok == Shaped(c)
    ensures ok ==> last < STAGES && c[last].kind == Terminal(c)
  {
    hide Shaped, Terminal, Scanned;
    var fft, window;
    ok, fft, window, last := ScanStages(c);
    if ok {
      ScanDecides(c, fft, window, last);
      ok := Ordered(fft, window, last);
    }
  }

  /** adc_dsp_chains and the DSP fields of adc_streams. */
  class Device {
    var chains: seq<Chain>
    var streams: seq<Stream>

    ghost function Abs(): Pool
      reads this
    {
      Pool(chains, streams)
    }

    constructor ()
      ensures Abs() == RESET
    {
      chains, streams := RESET.chains, RESET.streams;
    }

    /** bridge_hw_adc_dsp_chain_open: first fit. */
    method OpenChain() returns (reply: Reply)
      requires Sized(Abs())
      modifies this
      ensures Open(old(Abs())) == Out(Abs(), reply)
    {
      for i := 0 to CHAINS
        invariant FirstFree(chains, 0) == FirstFree(chains, i) && Abs() == old(Abs())
      {
        if !chains[i].inUse {
          chains := chains[i := chains[i].(stages := FRESH, inUse := true, bound := false)];
          return Done(i);
        }
      }
      return Unsupported;
    }

    /** The busy scans. */
    method Busy(except: nat, fft: bool) returns (busy: bool)
      requires Sized(Abs())
      ensures busy == BlockBusy(Abs(), except, fft)
    {
      for i := 0 to STREAMS
        invariant forall t: nat | t < i :: !(t != except && Attached(Abs(), t) && (streams[t].terminal == FFT) == fft)
      {
        if i == except { continue; }
        if streams[i].inUse && streams[i].bound && (streams[i].terminal == FFT) == fft {
          assert Attached(Abs(), i);
          return true;
        }
      }
      return false;
    }

    /** bridge_hw_adc_dsp_chain_bind. */
    method BindChain(c: nat, s: nat) returns (reply: Reply)
      requires Sized(Abs())
      modifies this
      ensures Bind(old(Abs()), c, s) == Out(Abs(), reply)
    {
      hide Shaped, Capable, BlockBusy;
      if c >= CHAINS || s >= STREAMS { return Refused(RANGE); }
      if !chains[c].inUse || chains[c].bound { return Refused(INVAL); }
      var shaped, last := CheckShape(chains[c].stages);
      if !shaped { return Refused(INVAL); }
      if !streams[s].inUse || streams[s].bound { return Refused(INVAL); }
      var capable := CheckCapable(chains[c].stages);
      if !capable {
        chains := chains[c := chains[c].(bound := false, inUse := false)];
        return Unsupported;
      }
      var kind := chains[c].stages[last].kind;
      var busy := Busy(s, kind == FFT);
      if busy { return Unsupported; }
      streams := streams[s := streams[s].(terminal := kind, chain := c, bound := true)];
      chains := chains[c := chains[c].(bound := true)];
      return Done(c);
    }

    /** bridge_hw_adc_stream_end, its bookkeeping. */
    method End(s: nat, stopped: bool, restored: bool) returns (reply: Reply)
      requires Sized(Abs())
      modifies this
      ensures EndStream(old(Abs()), s, stopped, restored) == Out(Abs(), reply)
    {
      if s >= STREAMS { return Refused(RANGE); }
      if !streams[s].inUse { return Done(s); }
      if !stopped { return IoError; }
      if streams[s].bound && streams[s].chain < CHAINS {
        chains := chains[streams[s].chain := chains[streams[s].chain].(bound := false, inUse := false)];
      }
      streams := streams[s := streams[s].(inUse := false, bound := false)];
      return if restored then Done(s) else IoError;
    }
  }

  // ---- a reachable gap ------------------------------------------------------------------------------------------

  /** A one-tap filter. */
  const ONE_TAP: Chunk := Chunk(FIR, 0, 8, [0, 1, 0, 0, 0, 0, 0, 0])

  lemma OneTapValid()
    ensures var r := Push(EMPTY, ONE_TAP);
      r.status == OK && CompleteStage(r.up) && BlobValid(r.up) && r.up.kind == FIR
  {
    var m := ChunkMap(ONE_TAP);
    assert m[0] == 0 && m[1] == 1;
    assert !Conflicts(map[], ONE_TAP);
    assert map[] + m == m;
  }

  /** From reset: begin a stream, open a chain, push the filter as stage 2, bind. */
  lemma LeadingGapReached()
    ensures var p := Run(RESET, [DoBegin(0, true), DoOpen, DoPush(0, 2, ONE_TAP)]);
      Bind(p, 0, 0).reply == Done(0) && !TailOnly(p.chains[0].stages)
  {
    hide Push, BlobValid, CompleteStage, Shaped, Capable, Refusal;
    OneTapValid();
    Accepts();
    var xs := [DoBegin(0, true), DoOpen, DoPush(0, 2, ONE_TAP)];
    var p1 := Next(RESET, xs[0]);
    var p2 := Next(p1, xs[1]);
    var p3 := Next(p2, xs[2]);
    assert xs[1..][1..] == [xs[2]] && [xs[2]][1..] == [];
    assert Run(RESET, xs) == Run(p1, xs[1..]) == Run(p2, [xs[2]]) == Run(p3, []) == p3;
    var st := Push(EMPTY, ONE_TAP).up;
    assert p3.chains[0].stages == [EMPTY, EMPTY, st, EMPTY];
    LeadingGapBinds(p3, 0, 0, st);
  }

  lemma Accepts()
    ensures Refusal(ONE_TAP) == OK
  {
  }
}
