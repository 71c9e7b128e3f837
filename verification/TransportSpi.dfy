/** The SPI slave framing layer (src/transport_spi.c): request decoding, the bounded drain
    ladder, and what a zero-extended capture can do to an update. */
module TransportSpi {
  import Crc16
  import Ota
  import OtaLayout

  const MAX_PAYLOAD := 65
  const MAX_FRAME := 1 + 1 + MAX_PAYLOAD + 2
  const SOF: bv8 := 0xA5
  const STATUS_IO: bv8 := 0x05
  const DRAIN_BOUND := 12

  datatype Reply = Reply(status: bv8, payload: seq<bv8>)

  /** Received bytes, staged reply and cursor, drain streak, 4-bit stamp counter, and the
      number of requests dispatched and replies staged, which nothing reads. */
  datatype Link = Link(rx: seq<bv8>, tx: seq<bv8>, cursor: nat, streak: nat, stamp: nat, dispatched: nat, staged: nat)

  const RESET := Link([], [], 0, 0, 0, 0, 0)

  predicate AllZero(rx: seq<bv8>) { forall i | 0 <= i < |rx| :: rx[i] == 0 }

  /** A transaction in which the host only clocked a reply out. */
  predicate IsDrain(rx: seq<bv8>) { rx == [] || (rx[0] != SOF && AllZero(rx)) }

  predicate FrameOk(rx: seq<bv8>) { |rx| >= 4 && rx[0] == SOF && Crc16.SpanOk(rx) }

  function Stamped(status: bv8, stamp: nat): bv8
    requires stamp < 16
  {
    status | ((stamp as bv8) << 4)
  }

  /** stage_reply; `seqOn` says whether the host negotiated STATUS_SEQ. */
  function Stage(y: Link, r: Reply, seqOn: bool): Link {
    var stamp := if seqOn then (y.stamp + 1) % 16 else y.stamp;
    var status := if seqOn then Stamped(r.status, stamp) else r.status;
    var frame := Crc16.Envelope([SOF, status] + r.payload);
    y.(tx := frame, cursor := 0, streak := 0, stamp := stamp, staged := y.staged + 1)
  }

  function StageError(y: Link, seqOn: bool): Link { Stage(y, Reply(STATUS_IO, []), seqOn) }

  function Drain(y: Link, seqOn: bool): Link {
    if y.streak + 1 > DRAIN_BOUND then StageError(y, seqOn) else y.(streak := y.streak + 1, cursor := 0)
  }

  /** decode_and_dispatch. */
  function Decode(y: Link, reply: Reply, seqOn: bool): Link {
    if IsDrain(y.rx) then Drain(y, seqOn)
    else if !FrameOk(y.rx) then StageError(y, seqOn)
    else Stage(y.(dispatched := y.dispatched + 1), reply, seqOn)
  }

  datatype Call = CsLow | RxByte(b: bv8) | CsHigh(reply: Reply, seqOn: bool) | TransportError(seqOn: bool) | TxNextByte

  function Next(y: Link, c: Call): Link {
    match c
    case CsLow => y.(rx := [])
    case RxByte(b) => if |y.rx| < MAX_FRAME then y.(rx := y.rx + [b]) else y
    case CsHigh(reply, seqOn) => Decode(y, reply, seqOn)
    case TransportError(seqOn) => StageError(y.(rx := []), seqOn)
    case TxNextByte => if y.cursor < |y.tx| then y.(cursor := y.cursor + 1) else y
  }

  function Run(y: Link, cs: seq<Call>): Link
    decreases |cs|
  {
    if cs == [] then y else Run(Next(y, cs[0]), cs[1..])
  }

  predicate Inv(y: Link) {
    && |y.rx| <= MAX_FRAME && y.cursor <= |y.tx| && y.streak <= DRAIN_BOUND && y.stamp < 16
    && (y.tx != [] ==> FrameOk(y.tx))
    && y.dispatched <= y.staged
  }

  lemma StageOk(y: Link, r: Reply, seqOn: bool)
    ensures FrameOk(Stage(y, r, seqOn).tx)
  {
    hide Crc16.SpanOk, Crc16.Crc, Crc16.LowerByte, Crc16.UpperByte, Stamped;
    var stamp := (y.stamp + 1) % 16;
    Crc16.EnvelopeOk([SOF, Stamped(r.status, stamp)] + r.payload);
    Crc16.EnvelopeOk([SOF, r.status] + r.payload);
  }

  lemma StepKeeps(y: Link, c: Call)
    requires Inv(y)
    ensures Inv(Next(y, c))
    ensures Next(y, c).dispatched != y.dispatched ==>
      c.CsHigh? && FrameOk(y.rx) && Next(y, c).dispatched == y.dispatched + 1
  {
    hide FrameOk, Crc16.Envelope, Stamped;
    match c
    case CsHigh(reply, seqOn) =>
      StageOk(y.(dispatched := y.dispatched + 1), reply, seqOn);
      StageOk(y, Reply(STATUS_IO, []), seqOn);
    case TransportError(seqOn) => StageOk(y.(rx := []), Reply(STATUS_IO, []), seqOn);
    case _ =>
  }

  /** Falling edges of chip select. */
  function LowEdges(cs: seq<Call>): nat
    decreases |cs|
  {
    if cs == [] then 0 else (if cs[0].CsLow? then 1 else 0) + LowEdges(cs[1..])
  }

  /** Each rising edge follows a falling edge of its own; `low` says whether one is pending. */
  predicate Paired(low: bool, cs: seq<Call>)
    decreases |cs|
  {
    cs == [] ||
    match cs[0]
    case CsLow => Paired(true, cs[1..])
    case CsHigh(_, _) => low && Paired(false, cs[1..])
    case _ => Paired(low, cs[1..])
  }

  /** Over every sequence of seam calls the staged reply is nothing or a whole CRC-valid
      frame, and the drain streak and stamp stay in range; and if edges are paired, at most
      one request is dispatched per falling edge. */
  lemma {:induction false} AlwaysEnveloped(y: Link, low: bool, cs: seq<Call>)
    requires Inv(y)
    ensures Inv(Run(y, cs)) && y.dispatched <= Run(y, cs).dispatched
    ensures Paired(low, cs) ==> Run(y, cs).dispatched <= y.dispatched + LowEdges(cs) + (if low then 1 else 0)
    decreases |cs|
  {
    hide Inv, Next;
    if cs != [] {
      StepKeeps(y, cs[0]);
      AlwaysEnveloped(Next(y, cs[0]), if cs[0].CsLow? then true else if cs[0].CsHigh? then false else low, cs[1..]);
    }
  }

  /** The same from reset. */
  lemma EnvelopedFromReset(cs: seq<Call>)
    ensures Inv(Run(RESET, cs))
    ensures Paired(false, cs) ==> Run(RESET, cs).dispatched <= LowEdges(cs)
  {
    assert Inv(RESET);
    AlwaysEnveloped(RESET, false, cs);
  }

  /** Unpaired rising edges dispatch the same capture each time, exactly if it is a good
      frame. */
  lemma {:induction false} RepeatedEdges(y: Link, cs: seq<Call>)
    requires forall i | 0 <= i < |cs| :: cs[i].CsHigh?
    ensures Run(y, cs).dispatched == y.dispatched + (if FrameOk(y.rx) then |cs| else 0) && Run(y, cs).rx == y.rx
    decreases |cs|
  {
    hide Crc16.SpanOk, Crc16.Envelope, Stamped;
    if cs != [] { RepeatedEdges(Next(y, cs[0]), cs[1..]); }
  }

  // ---- the drain ladder --------------------------------------------------------------------------------

  lemma {:induction false} RunConcat(y: Link, a: seq<Call>, b: seq<Call>)
    ensures Run(y, a + b) == Run(Run(y, a), b)
    decreases |a|
  {
    hide Next;
    if a == [] {
      assert a + b == b;
    } else {
      assert (a + b)[1..] == a[1..] + b;
      RunConcat(Next(y, a[0]), a[1..], b);
    }
  }

  function Times(c: Call, n: nat): seq<Call> { if n == 0 then [] else [c] + Times(c, n - 1) }

  /** One reply-read transaction of the host: any number of zero bytes clocked in between the
      edges, then any number of reply bytes read. */
  datatype Reading = Reading(zeros: nat, reply: Reply, seqOn: bool, bytes: nat)

  function Clocking(r: Reading): seq<Call> {
    [CsLow] + Times(RxByte(0), r.zeros) + [CsHigh(r.reply, r.seqOn)]
  }

  function Calls(r: Reading): seq<Call> { Clocking(r) + Times(TxNextByte, r.bytes) }

  function AllCalls(rs: seq<Reading>): seq<Call> {
    if rs == [] then [] else AllCalls(rs[..|rs| - 1]) + Calls(rs[|rs| - 1])
  }

  function Min(a: nat, b: nat): nat { if a < b then a else b }

  lemma {:induction false} ZerosArrive(y: Link, n: nat)
    requires AllZero(y.rx)
    ensures var z := Run(y, Times(RxByte(0), n)); z == y.(rx := z.rx) && AllZero(z.rx)
    decreases n
  {
    if n > 0 {
      var cs := Times(RxByte(0), n);
      assert cs[0] == RxByte(0) && cs[1..] == Times(RxByte(0), n - 1);
      ZerosArrive(Next(y, RxByte(0)), n - 1);
    }
  }

  lemma {:induction false} ReadsAdvance(y: Link, n: nat)
    requires y.cursor <= |y.tx|
    ensures Run(y, Times(TxNextByte, n)) == y.(cursor := Min(y.cursor + n, |y.tx|))
    decreases n
  {
    if n > 0 {
      var cs := Times(TxNextByte, n);
      assert cs[0] == TxNextByte && cs[1..] == Times(TxNextByte, n - 1);
      ReadsAdvance(Next(y, TxNextByte), n - 1);
    }
  }

  lemma RunOne(y: Link, c: Call)
    ensures Run(y, [c]) == Next(y, c)
  {
    assert [c][1..] == [];
    assert Run(Next(y, c), []) == Next(y, c);
  }

  /** The edges and zeros of a reading are one drain of the staged reply. */
  lemma ClockingDrains(y: Link, r: Reading)
    ensures var z := Run(y, Clocking(r));
      AllZero(z.rx) && z == Drain(y.(rx := z.rx), r.seqOn)
  {
    hide Crc16.Envelope, Stamped, Run;
    var low := y.(rx := []);
    RunOne(y, CsLow);
    ZerosArrive(low, r.zeros);
    var z := Run(low, Times(RxByte(0), r.zeros));
    RunConcat(y, [CsLow], Times(RxByte(0), r.zeros));
    RunConcat(y, [CsLow] + Times(RxByte(0), r.zeros), [CsHigh(r.reply, r.seqOn)]);
    RunOne(z, CsHigh(r.reply, r.seqOn));
    assert IsDrain(z.rx);
  }

  /** A reading below the bound arms the staged reply again from its first byte, and reads on
      from there. */
  lemma ReadingServes(y: Link, r: Reading)
    requires y.streak < DRAIN_BOUND
    ensures var z := Run(y, Clocking(r)); z == y.(rx := z.rx, streak := y.streak + 1, cursor := 0)
    ensures var z := Run(y, Calls(r));
      z == y.(rx := z.rx, streak := y.streak + 1, cursor := Min(r.bytes, |y.tx|))
  {
    hide Run, Clocking, AllZero;
    ClockingDrains(y, r);
    RunConcat(y, Clocking(r), Times(TxNextByte, r.bytes));
    ReadsAdvance(Run(y, Clocking(r)), r.bytes);
  }

  /** The reading past the bound gets the STATUS_IO frame instead. */
  lemma ReadingGivesUp(y: Link, r: Reading)
    requires y.streak >= DRAIN_BOUND
    ensures var z := Run(y, Calls(r));
      var e := StageError(y, r.seqOn);
      z.tx == e.tx && z.stamp == e.stamp && z.streak == 0 && z.cursor == Min(r.bytes, |e.tx|)
      && z.dispatched == y.dispatched && z.staged == y.staged + 1
  {
    hide Run, Clocking, AllZero, Crc16.Envelope, Stamped;
    ClockingDrains(y, r);
    RunConcat(y, Clocking(r), Times(TxNextByte, r.bytes));
    ReadsAdvance(Run(y, Clocking(r)), r.bytes);
  }

  /** After a fresh reply, up to the bound every reading serves that reply under its stamp from
      the first byte; the next one gets the STATUS_IO frame. */
  lemma {:induction false} DrainLadder(y: Link, rs: seq<Reading>)
    requires y.streak == 0
    ensures |rs| <= 12 ==>
      var z := Run(y, AllCalls(rs)); z == y.(rx := z.rx, streak := |rs|, cursor := z.cursor)
    ensures |rs| == 13 ==>
      var z := Run(y, AllCalls(rs));
      z.tx == StageError(y, rs[12].seqOn).tx && z.dispatched == y.dispatched && z.staged == y.staged + 1
    decreases |rs|
  {
    hide Run, Calls, Stage;
    if rs == [] {
      Nothing(y);
    } else {
      var init, r := rs[..|rs| - 1], rs[|rs| - 1];
      RunConcat(y, AllCalls(init), Calls(r));
      if |rs| <= DRAIN_BOUND + 1 {
        DrainLadder(y, init);
        var z := Run(y, AllCalls(init));
        if |rs| <= DRAIN_BOUND {
          ReadingServes(z, r);
        } else {
          ReadingGivesUp(z, r);
          SameError(y, z, r.seqOn);
        }
      }
    }
  }

  lemma Nothing(y: Link)
    ensures Run(y, []) == y
  {
  }

  lemma SameError(y: Link, z: Link, seqOn: bool)
    requires y.stamp == z.stamp
    ensures StageError(y, seqOn).tx == StageError(z, seqOn).tx
  {
  }

  /** The stamp moves exactly when a reply is staged, so an unmoved stamp means an old reply. */
  lemma StampMeansFresh(y: Link, c: Call)
    requires Inv(y) && (c.CsHigh? || c.TransportError? ==> c.seqOn)
    ensures Next(y, c).stamp == (y.stamp + (Next(y, c).staged - y.staged)) % 16
    ensures y.staged <= Next(y, c).staged <= y.staged + 1
    ensures Next(y, c).staged == y.staged ==> Next(y, c).tx == y.tx
  {
    hide FrameOk, Crc16.Envelope, Stamped;
  }

  // ---- what the host receives ------------------------------------------------------------------------------

  /** The payload of a frame. */
  function Payload(frame: seq<bv8>): seq<bv8>
    requires |frame| >= 4
  {
    frame[2..|frame| - 2]
  }

  lemma StampBits(status: bv8, b: bv8)
    requires status < 16 && b < 16
    ensures (status | (b << 4)) & 0x0F == status && (status | (b << 4)) >> 4 == b
  {
  }

  lemma Narrow(n: nat)
    requires n < 16
    ensures (n as bv8) < 16 && (n as bv8) as nat == n
  {
  }

  /** A staged reply read from its first byte carries the reply's payload, its status in the low
      half of the status byte, and in the high half the stamp, or nothing before STATUS_SEQ is
      negotiated; then the drain ladder starts afresh. */
  lemma StageCarries(y: Link, r: Reply, seqOn: bool)
    requires r.status < 16
    ensures var z := Stage(y, r, seqOn);
      && |z.tx| == |r.payload| + 4 && z.tx[0] == SOF && Payload(z.tx) == r.payload && FrameOk(z.tx)
      && z.tx[1] & 0x0F == r.status && (z.tx[1] >> 4) as nat == (if seqOn then z.stamp else 0)
      && z.stamp == (if seqOn then (y.stamp + 1) % 16 else y.stamp)
      && z.cursor == 0 && z.streak == 0
  {
    hide Crc16.SpanOk, Crc16.Crc, Crc16.LowerByte, Crc16.UpperByte;
    StageOk(y, r, seqOn);
    var z := Stage(y, r, seqOn);
    assert Payload(z.tx) == r.payload;
    Narrow((y.stamp + 1) % 16);
    StampBits(r.status, ((y.stamp + 1) % 16) as bv8);
    StampBits(r.status, 0);
  }

  /** spi_slave_tx_next_byte, as the byte it returns. */
  function Byte(y: Link): bv8 { if y.cursor < |y.tx| then y.tx[y.cursor] else 0xFF }

  function ReadBytes(y: Link, n: nat): seq<bv8>
    decreases n
  {
    if n == 0 then [] else [Byte(y)] + ReadBytes(Next(y, TxNextByte), n - 1)
  }

  /** Reads serve what is left of the staged reply, then idle bytes. */
  lemma {:induction false} ReadsStaged(y: Link, n: nat)
    requires y.cursor <= |y.tx|
    ensures |ReadBytes(y, n)| == n
    ensures forall i | 0 <= i < n :: ReadBytes(y, n)[i] == if y.cursor + i < |y.tx| then y.tx[y.cursor + i] else 0xFF
    decreases n
  {
    if n > 0 { ReadsStaged(Next(y, TxNextByte), n - 1); }
  }

  /** A hardware fault drops the capture and replaces whatever was staged by an empty STATUS_IO
      frame. */
  lemma FaultIsLoud(y: Link, seqOn: bool)
    ensures var z := Next(y, TransportError(seqOn));
      && z.rx == [] && z.dispatched == y.dispatched
      && |z.tx| == 4 && FrameOk(z.tx) && z.tx[1] & 0x0F == STATUS_IO && z.cursor == 0 && z.streak == 0
  {
    hide Stage, FrameOk;
    StageCarries(y.(rx := []), Reply(STATUS_IO, []), seqOn);
    StageFields(y.(rx := []), Reply(STATUS_IO, []), seqOn);
  }

  lemma StageFields(y: Link, r: Reply, seqOn: bool)
    ensures var z := Stage(y, r, seqOn); z.rx == y.rx && z.dispatched == y.dispatched
  {
  }

  /** The bytes the buffer keeps of a transaction. */
  function Kept(bs: seq<bv8>): seq<bv8> { if |bs| <= MAX_FRAME then bs else bs[..MAX_FRAME] }

  function Receive(bs: seq<bv8>): seq<Call> { seq(|bs|, i requires 0 <= i < |bs| => RxByte(bs[i])) }

  lemma {:induction false} ReceivesAll(y: Link, bs: seq<bv8>)
    requires |y.rx| <= MAX_FRAME
    ensures Run(y, Receive(bs)) == y.(rx := Kept(y.rx + bs))
    decreases |bs|
  {
    if bs == [] {
      assert y.rx + bs == y.rx;
    } else {
      var z := Next(y, RxByte(bs[0]));
      assert Receive(bs)[0] == RxByte(bs[0]) && Receive(bs)[1..] == Receive(bs[1..]);
      ReceivesAll(z, bs[1..]);
      assert Kept(z.rx + bs[1..]) == Kept(y.rx + bs) by {
        if |y.rx| < MAX_FRAME { assert z.rx + bs[1..] == y.rx + bs; }
      }
    }
  }

  lemma TransactionIs(y: Link, bs: seq<bv8>, reply: Reply, seqOn: bool)
    ensures Run(y, [CsLow] + Receive(bs) + [CsHigh(reply, seqOn)]) == Decode(y.(rx := Kept(bs)), reply, seqOn)
  {
    hide Run, Decode, Kept, Receive;
    var low := y.(rx := []);
    RunOne(y, CsLow);
    ReceivesAll(low, bs);
    assert [] + bs == bs;
    RunConcat(y, [CsLow], Receive(bs));
    RunConcat(y, [CsLow] + Receive(bs), [CsHigh(reply, seqOn)]);
    RunOne(low.(rx := Kept(bs)), CsHigh(reply, seqOn));
  }

  /** A whole transaction, from any state: what the buffer kept is dispatched and answered if and
      only if it is a good frame; otherwise nothing or only zeros is a drain, which below the
      bound arms the staged reply again, and anything else stages the STATUS_IO frame. */
  lemma Transaction(y: Link, bs: seq<bv8>, reply: Reply, seqOn: bool)
    ensures var z := Run(y, [CsLow] + Receive(bs) + [CsHigh(reply, seqOn)]);
      var rx := Kept(bs);
      && (z.dispatched == y.dispatched + 1 <==> FrameOk(rx)) && z.dispatched <= y.dispatched + 1
      && (FrameOk(rx) ==> z.tx == Stage(y, reply, seqOn).tx)
      && (!FrameOk(rx) && (!AllZero(rx) || y.streak >= DRAIN_BOUND) ==> z.tx == StageError(y, seqOn).tx)
      && (AllZero(rx) && y.streak < DRAIN_BOUND ==> z.tx == y.tx && z.stamp == y.stamp)
      && z.cursor == 0
  {
    hide Run, Crc16.SpanOk, Crc16.Envelope, Stamped, Kept, Receive;
    TransactionIs(y, bs, reply, seqOn);
  }

  /** The host's frame for a command. */
  function Request(cmd: bv8, payload: seq<bv8>): seq<bv8> { Crc16.Envelope([SOF, cmd] + payload) }

  /** Good frames are exactly the frames a host builds. */
  lemma FrameExact(rx: seq<bv8>)
    ensures FrameOk(rx) <==> exists cmd, payload :: rx == Request(cmd, payload)
  {
    hide Crc16.SpanOk, Crc16.Envelope;
    if FrameOk(rx) {
      Crc16.SpanExact(rx);
      var body := rx[..|rx| - 2];
      assert body == [SOF, body[1]] + body[2..];
      assert rx == Request(body[1], body[2..]);
    }
    forall cmd, payload ensures FrameOk(Request(cmd, payload)) { RequestsTaken(cmd, payload, []); }
  }

  /** Every request up to the protocol's payload size is taken as sent. A longer one is not
      rejected as such: it is dispatched if its first 69 bytes happen to be a frame. */
  lemma RequestsTaken(cmd: bv8, payload: seq<bv8>, more: seq<bv8>)
    ensures var r := Request(cmd, payload);
      && FrameOk(r) && Payload(r) == payload
      && (|payload| <= MAX_PAYLOAD ==> Kept(r) == r)
      && (|payload| == MAX_PAYLOAD ==> FrameOk(Kept(r + more)))
  {
    hide Crc16.SpanOk;
    var r := Request(cmd, payload);
    Crc16.EnvelopeOk([SOF, cmd] + payload);
    assert Payload(r) == payload;
    if |payload| == MAX_PAYLOAD { assert Kept(r + more) == r; }
  }

  // ---- zero-extended captures ------------------------------------------------------------------------------

  /** A WRITE_CHUNK frame as a host builds it: the length byte counts the data. */
  predicate ChunkFrame(frame: seq<bv8>) {
    FrameOk(frame) && |frame| >= 9 && Payload(frame)[4] as nat == |Payload(frame)| - 5
  }

  /** A chunk frame captured with two or more trailing zeros is dispatched exactly when the
      bytes of its CRC are equal. */
  lemma ZeroExtendedCapture(frame: seq<bv8>, k: nat)
    requires ChunkFrame(frame) && k >= 2
    ensures FrameOk(frame + Crc16.Zeros(k)) <==> frame[|frame| - 2] == frame[|frame| - 1]
  {
    hide Crc16.SpanOk;
    Crc16.ZeroExtension(frame, k);
  }

  lemma ExtendedPayload(frame: seq<bv8>, k: nat)
    requires ChunkFrame(frame)
    ensures var p := Payload(frame + Crc16.Zeros(k));
      |p| == |Payload(frame)| + k && p[4] == Payload(frame)[4] && p[4] as nat == |p| - 5 - k
  {
    hide Crc16.SpanOk;
  }

  /** Dispatched or not, and with any number of zeros, it changes neither session nor slot and
      programs nothing. */
  lemma ZeroExtendedChunk(frame: seq<bv8>, k: nat, s: Ota.Session, slot: OtaLayout.Slot, fault: Ota.ProgFault)
    requires ChunkFrame(frame) && k >= 1 && |slot.bytes| == OtaLayout.SLOT_SIZE
    ensures var c := Ota.WriteChunk(s, slot, Payload(frame + Crc16.Zeros(k)), fault);
      c.s == s && c.slot == slot && !c.programmed
  {
    hide Crc16.SpanOk, Ota.PutChunk, Payload;
    ExtendedPayload(frame, k);
  }

  /** At the system: such a capture leaves flash and session untouched. */
  lemma ZeroExtendedInert(y: Ota.System, frame: seq<bv8>, k: nat, fault: Ota.ProgFault)
    requires y.Wf() && ChunkFrame(frame) && k >= 1
    ensures var z := Ota.Dispatch(y, Ota.CmdWrite(Payload(frame + Crc16.Zeros(k)), fault)).y;
      z.flash == y.flash && z.s == y.s && z.log == y.log
  {
    hide Crc16.SpanOk, Ota.WriteChunk;
    ZeroExtendedChunk(frame, k, y.s, y.Target(), fault);
  }

  // ---- the module's own form -------------------------------------------------------------------------------

  class Slave {
    const rxBuf: array<bv8>
    var rxLen: nat
    const txBuf: array<bv8>
    var txLen: nat
    var txCursor: nat
    var drainStreak: nat
    var counter: nat           // spi_seq
    ghost var dispatched: nat
    ghost var staged: nat

    ghost predicate Valid()
      reads this
    {
      && rxBuf.Length == MAX_FRAME && txBuf.Length == MAX_FRAME && rxBuf != txBuf
      && rxLen <= MAX_FRAME && txLen <= MAX_FRAME && counter < 16
    }

    ghost function Abs(): Link
      requires Valid()
      reads this, rxBuf, txBuf
    {
      Link(rxBuf[..rxLen], txBuf[..txLen], txCursor, drainStreak, counter, dispatched, staged)
    }

    /** transport_spi_init. */
    constructor ()
      ensures Valid() && fresh(rxBuf) && fresh(txBuf) && Abs() == RESET
    {
      rxBuf, txBuf := new bv8[MAX_FRAME], new bv8[MAX_FRAME];
      rxLen, txLen, txCursor, drainStreak, counter, dispatched, staged := 0, 0, 0, 0, 0, 0, 0;
    }

    /** The bytes of stage_reply. */
    method FillReply(byte: bv8, payload: seq<bv8>)
      requires Valid() && |payload| <= MAX_PAYLOAD
      modifies txBuf, this`txLen
      ensures Valid() && txBuf[..txLen] == Crc16.Envelope([SOF, byte] + payload)
    {
      hide Crc16.Crc, Crc16.LowerByte, Crc16.UpperByte;
      txBuf[0], txBuf[1] := SOF, byte;
      for i := 0 to |payload|
        invariant txBuf[0] == SOF && txBuf[1] == byte && forall k | 0 <= k < i :: txBuf[2 + k] == payload[k]
      {
        txBuf[2 + i] := payload[i];
      }
      var covered := 2 + |payload|;
      assert txBuf[..covered] == [SOF, byte] + payload;
      var crc := Crc16.CcittFalse(txBuf[..covered]);
      txBuf[covered] := Crc16.LowerByte(crc);
      txBuf[covered + 1] := Crc16.UpperByte(crc);
      txLen := covered + 2;
    }

    /** stage_reply. */
    method StageReply(status: bv8, payload: seq<bv8>, seqOn: bool)
      requires Valid() && |payload| <= MAX_PAYLOAD
      modifies this, txBuf
      ensures Valid() && Abs() == Stage(old(Abs()), Reply(status, payload), seqOn)
    {
      hide Crc16.Envelope, Stamped;
      if seqOn {
        counter := (counter + 1) % 16;
        FillReply(Stamped(status, counter), payload);
      } else {
        FillReply(status, payload);
      }
      txCursor, drainStreak, staged := 0, 0, staged + 1;
    }

    /** Some received byte is not zero. */
    method AnyNonZero() returns (found: bool)
      requires Valid()
      ensures found == !AllZero(rxBuf[..rxLen])
    {
      for i := 0 to rxLen
        invariant forall k | 0 <= k < i :: rxBuf[k] == 0
      {
        if rxBuf[i] != 0 {
          assert rxBuf[..rxLen][i] != 0;
          return true;
        }
      }
      return false;
    }

    method Rewind(seqOn: bool)
      requires Valid()
      modifies this, txBuf
      ensures Valid() && Abs() == Drain(old(Abs()), seqOn)
    {
      hide Crc16.Envelope, Stamped;
      drainStreak := drainStreak + 1;
      if drainStreak > DRAIN_BOUND {
        StageReply(STATUS_IO, [], seqOn);
        return;
      }
      txCursor := 0;
    }

    /** spi_slave_cs_low. */
    method OnCsLow()
      requires Valid()
      modifies this
      ensures Valid() && Abs() == Next(old(Abs()), CsLow)
    {
      rxLen := 0;
    }

    /** spi_slave_rx_byte. */
    method OnRxByte(b: bv8)
      requires Valid()
      modifies this, rxBuf
      ensures Valid() && Abs() == Next(old(Abs()), RxByte(b))
    {
      if rxLen < MAX_FRAME {
        rxBuf[rxLen] := b;
        rxLen := rxLen + 1;
      }
    }

    /** spi_slave_tx_next_byte. */
    method OnTxNextByte() returns (b: bv8)
      requires Valid()
      modifies this
      ensures Valid() && Abs() == Next(old(Abs()), TxNextByte) && b == Byte(old(Abs()))
    {
      if txCursor < txLen {
        b := txBuf[txCursor];
        txCursor := txCursor + 1;
      } else {
        b := 0xFF;
      }
    }

    /** spi_slave_transport_error. */
    method OnTransportError(seqOn: bool)
      requires Valid()
      modifies this, txBuf
      ensures Valid() && Abs() == Next(old(Abs()), TransportError(seqOn))
    {
      hide Stage;
      rxLen := 0;
      StageReply(STATUS_IO, [], seqOn);
    }

    /** spi_slave_cs_high. What the command answers, if dispatched, is an argument. */
    method OnCsHigh(reply: Reply, seqOn: bool)
      requires Valid() && |reply.payload| <= MAX_PAYLOAD
      modifies this, txBuf
      ensures Valid() && Abs() == Next(old(Abs()), CsHigh(reply, seqOn))
    {
      hide Stage, AllZero, Crc16.Crc, Crc16.Field;
      ghost var rx := rxBuf[..rxLen];
      if rxLen == 0 {
        Rewind(seqOn);
        return;
      }
      if rxBuf[0] != SOF {
        var mangled := AnyNonZero();
        if mangled { StageReply(STATUS_IO, [], seqOn); } else { Rewind(seqOn); }
        return;
      }
      if rxLen < 4 {
        StageReply(STATUS_IO, [], seqOn);
        return;
      }
      var n := rxLen - 4;
      var got := Crc16.Field(rxBuf[2 + n], rxBuf[2 + n + 1]);
      var want := Crc16.CcittFalse(rxBuf[..2 + n]);
      assert rx[..|rx| - 2] == rxBuf[..2 + n];
      if got != want {
        StageReply(STATUS_IO, [], seqOn);
        return;
      }
      dispatched := dispatched + 1;
      StageReply(reply.status, reply.payload, seqOn);
    }
  }
}
