/** The I2C slave framing layer (src/transport_i2c.c): seams the hardware calls in any order. */
module TransportI2c {
  import Crc16

  const MAX_PAYLOAD := 65
  const MAX_WRITE := 1 + 1 + MAX_PAYLOAD + 2
  const MAX_READ := 1 + MAX_PAYLOAD + 2
  const REG_CMD: bv8 := 0x00
  const STATUS_NO_PENDING: bv8 := 0x80

  /** What protocol_dispatch answers. */
  datatype Reply = Reply(status: bv8, payload: seq<bv8>)

  /** Received bytes, staged reply and cursor, the two flags, and the frames dispatched since
      the last write_start, which nothing reads. */
  datatype Link = Link(
    rx: seq<bv8>, tx: seq<bv8>, cursor: nat, pending: bool, rejected: bool, frames: seq<seq<bv8>>)

  const RESET := Link([], [], 0, false, false, [])

  function NoPending(): seq<bv8> { Crc16.Envelope([STATUS_NO_PENDING]) }
  function Answer(r: Reply): seq<bv8> { Crc16.Envelope([r.status] + r.payload) }

  /** A complete request: register, command, payload, CRC over all but the register. */
  predicate FrameOk(rx: seq<bv8>) {
    |rx| >= 4 && rx[0] == REG_CMD && Crc16.SpanOk(rx[1..])
  }

  datatype Call = WriteStart | RxByte(b: bv8) | WriteEnd(reply: Reply) | TxNextByte | TxAbort

  /** The reply of this addressed write has been decided. */
  predicate Decided(y: Link) { y.pending || y.rejected }

  predicate Drained(y: Link) { y.rejected || y.cursor >= |y.tx| }

  /** i2c_slave_write_end. */
  function End(y: Link, reply: Reply): Link {
    if Decided(y) then (if Drained(y) then y.(tx := NoPending(), cursor := 0) else y)
    else if !FrameOk(y.rx) then y.(rejected := true, tx := NoPending(), cursor := 0)
    else y.(pending := true, tx := Answer(reply), cursor := 0, frames := y.frames + [y.rx])
  }

  /** i2c_slave_tx_next_byte, first the state it leaves and then the byte. */
  function Restaged(y: Link): Link {
    if !y.pending && y.cursor == 0 then y.(tx := NoPending(), cursor := 0) else y
  }

  function Advance(y: Link): Link {
    var z := Restaged(y);
    if z.cursor < |z.tx| then z.(cursor := z.cursor + 1) else z
  }

  function Byte(y: Link): bv8 {
    var z := Restaged(y);
    if z.cursor < |z.tx| then z.tx[z.cursor] else 0xFF
  }

  function Next(y: Link, c: Call): Link {
    match c
    case WriteStart => y.(rx := [], pending := false, rejected := false, frames := [])
    case RxByte(b) => if |y.rx| < MAX_WRITE then y.(rx := y.rx + [b]) else y
    case WriteEnd(reply) => End(y, reply)
    case TxNextByte => Advance(y)
    case TxAbort => y.(tx := [], cursor := 0)
  }

  function Run(y: Link, cs: seq<Call>): Link
    decreases |cs|
  {
    if cs == [] then y else Run(Next(y, cs[0]), cs[1..])
  }

  /** What every seam call keeps. */
  predicate Inv(y: Link) {
    && |y.rx| <= MAX_WRITE && y.cursor <= |y.tx|
    && (y.tx != [] ==> Crc16.SpanOk(y.tx))
    && !(y.pending && y.rejected)
    && |y.frames| == (if y.pending then 1 else 0)
    && forall i | 0 <= i < |y.frames| :: FrameOk(y.frames[i])
  }

  lemma StepKeeps(y: Link, c: Call)
    requires Inv(y)
    ensures Inv(Next(y, c))
  {
    hide Crc16.SpanOk, Crc16.Envelope;
    Crc16.EnvelopeOk([STATUS_NO_PENDING]);
    if c.WriteEnd? { Crc16.EnvelopeOk([c.reply.status] + c.reply.payload); }
  }

  /** Over every sequence of seam calls: since the last write_start at most one frame was
      dispatched, its CRC matched, and what is staged is a CRC-valid envelope or nothing. */
  lemma {:induction false} DispatchOnce(y: Link, cs: seq<Call>)
    requires Inv(y)
    ensures Inv(Run(y, cs))
    decreases |cs|
  {
    hide Inv;
    if cs != [] {
      StepKeeps(y, cs[0]);
      DispatchOnce(Next(y, cs[0]), cs[1..]);
    }
  }

  /** The same from reset. */
  lemma DispatchOnceFromReset(cs: seq<Call>)
    ensures var z := Run(RESET, cs);
      |z.frames| <= 1 && forall i | 0 <= i < |z.frames| :: FrameOk(z.frames[i])
  {
    hide FrameOk;
    assert Inv(RESET);
    DispatchOnce(RESET, cs);
  }

  /** A dispatch happens only in write_end, on the received bytes, the first time. */
  lemma DispatchesReceived(y: Link, c: Call)
    requires Next(y, c).frames != y.frames && !c.WriteStart?
    ensures c.WriteEnd? && !Decided(y) && FrameOk(y.rx) && Next(y, c).frames == y.frames + [y.rx]
  {
    hide FrameOk, Crc16.Envelope;
  }

  // ---- reads ---------------------------------------------------------------------------------------

  /** The bytes of `n` consecutive read calls. */
  function ReadBytes(y: Link, n: nat): seq<bv8>
    decreases n
  {
    if n == 0 then [] else [Byte(y)] + ReadBytes(Advance(y), n - 1)
  }

  /** What a read right after write_end will serve. */
  function Serves(y: Link, reply: Reply): seq<bv8> {
    if Decided(y) then (if Drained(y) then NoPending() else y.tx[y.cursor..])
    else if FrameOk(y.rx) then Answer(reply) else NoPending()
  }

  /** No call between here and the cursor's start would restage something else. */
  predicate Steady(y: Link) { y.cursor <= |y.tx| && (y.pending || y.cursor > 0 || y.tx == NoPending()) }

  /** One read of a steady link serves the first byte of what is left. */
  lemma ReadsOne(y: Link)
    requires Steady(y)
    ensures var tail, z := y.tx[y.cursor..], Advance(y);
      && Steady(z)
      && (if tail == [] then Byte(y) == 0xFF && z.tx[z.cursor..] == []
          else Byte(y) == tail[0] && z.tx[z.cursor..] == tail[1..])
  {
    hide Crc16.Envelope;
    assert Restaged(y) == y;
  }

  lemma {:induction false} ReadsTail(y: Link, n: nat)
    requires Steady(y)
    ensures |ReadBytes(y, n)| == n
    ensures var tail := y.tx[y.cursor..];
      forall i | 0 <= i < n :: ReadBytes(y, n)[i] == if i < |tail| then tail[i] else 0xFF
    decreases n
  {
    hide Byte, Advance, NoPending;
    if n > 0 {
      ReadsOne(y);
      ReadsTail(Advance(y), n - 1);
    }
  }

  /** A read begun by write_end serves the NO_PENDING envelope whole when the reply was drained,
      the write rejected, or its frame bad; the fresh reply whole when a good frame was just
      decoded; otherwise the rest of the reply being read. Idle bytes follow. */
  lemma ReadAfterWriteEnd(y: Link, reply: Reply, n: nat)
    requires Inv(y)
    ensures var r := ReadBytes(End(y, reply), n);
      && |r| == n
      && forall i | 0 <= i < n :: r[i] == if i < |Serves(y, reply)| then Serves(y, reply)[i] else 0xFF
    ensures Serves(y, reply) == NoPending() || Serves(y, reply) == Answer(reply)
      || (y.pending && 0 <= y.cursor < |y.tx|)
    ensures Crc16.SpanOk(NoPending()) && Crc16.SpanOk(Answer(reply))
  {
    hide Crc16.SpanOk, Crc16.Envelope;
    Crc16.EnvelopeOk([STATUS_NO_PENDING]);
    Crc16.EnvelopeOk([reply.status] + reply.payload);
    var z := End(y, reply);
    ReadsTail(z, n);
    assert z.tx[z.cursor..] == Serves(y, reply);
  }

  /** `r` is `s` followed by idle bytes. */
  predicate ThenIdle(r: seq<bv8>, s: seq<bv8>) { forall i | 0 <= i < |r| :: r[i] == if i < |s| then s[i] else 0xFF }

  // ---- bus errors ----------------------------------------------------------------------------------

  /** After an abort a read begun by write_end serves the NO_PENDING envelope whole, however much
      of the reply had been read; one begun without it serves idle bytes while a reply was
      pending and the envelope otherwise. */
  lemma ReadAfterAbort(y: Link, reply: Reply, n: nat)
    requires Inv(y) && Decided(y)
    ensures |ReadBytes(End(Next(y, TxAbort), reply), n)| == n
    ensures ThenIdle(ReadBytes(End(Next(y, TxAbort), reply), n), NoPending())
    ensures |ReadBytes(Next(y, TxAbort), n)| == n
    ensures ThenIdle(ReadBytes(Next(y, TxAbort), n), if y.pending then [] else NoPending())
  {
    hide Crc16.SpanOk, Crc16.Envelope;
    var z := Next(y, TxAbort);
    ReadAfterWriteEnd(z, reply, n);
    if y.pending { ReadsTail(z, n); } else { RestagedReads(z, n); }
  }

  /** A read outside a transaction restages the envelope first. */
  lemma RestagedReads(y: Link, n: nat)
    requires !y.pending && y.cursor == 0
    ensures |ReadBytes(y, n)| == n && ThenIdle(ReadBytes(y, n), NoPending())
  {
    hide Crc16.Envelope;
    var z := Restaged(y);
    ReadsTail(z, n);
    if n > 0 { assert ReadBytes(y, n) == ReadBytes(z, n); }
  }

  /** Nothing of an earlier reply is staged. */
  predicate Quelled(y: Link) { y.tx == [] || y.tx == NoPending() }

  /** Some write_end of the run dispatches a frame. */
  predicate Dispatches(y: Link, cs: seq<Call>)
    decreases |cs|
  {
    cs != [] && ((cs[0].WriteEnd? && !Decided(y) && FrameOk(y.rx)) || Dispatches(Next(y, cs[0]), cs[1..]))
  }

  /** Every byte read over the run. */
  function Clocked(y: Link, cs: seq<Call>): seq<bv8>
    decreases |cs|
  {
    if cs == [] then [] else (if cs[0].TxNextByte? then [Byte(y)] else []) + Clocked(Next(y, cs[0]), cs[1..])
  }

  lemma {:induction false} QuelledStays(y: Link, cs: seq<Call>)
    requires Quelled(y) && !Dispatches(y, cs)
    ensures Quelled(Run(y, cs))
    ensures forall b | b in Clocked(y, cs) :: b == 0xFF || b in NoPending()
    decreases |cs|
  {
    hide NoPending, Answer, FrameOk;
    if cs != [] {
      QuelledStays(Next(y, cs[0]), cs[1..]);
    }
  }

  /** Over every run that follows an abort: until a write_end dispatches the next frame, no byte
      of the aborted reply is read, only the envelope's bytes and idle ones. */
  lemma AbortedForGood(y: Link, cs: seq<Call>)
    requires !Dispatches(Next(y, TxAbort), cs)
    ensures forall b | b in Clocked(Next(y, TxAbort), cs) :: b == 0xFF || b in NoPending()
  {
    hide NoPending;
    QuelledStays(Next(y, TxAbort), cs);
  }

  // ---- whole transactions ----------------------------------------------------------------------------

  /** The bytes the buffer keeps of a write. */
  function Kept(bs: seq<bv8>): seq<bv8> { if |bs| <= MAX_WRITE then bs else bs[..MAX_WRITE] }

  function Receive(bs: seq<bv8>): seq<Call> { seq(|bs|, i requires 0 <= i < |bs| => RxByte(bs[i])) }

  lemma {:induction false} ReceivesAll(y: Link, bs: seq<bv8>, reply: Reply)
    requires |y.rx| <= MAX_WRITE
    ensures Run(y, Receive(bs) + [WriteEnd(reply)]) == End(y.(rx := Kept(y.rx + bs)), reply)
    decreases |bs|
  {
    hide End;
    var cs := Receive(bs) + [WriteEnd(reply)];
    if bs == [] {
      assert y.rx + bs == y.rx && cs == [WriteEnd(reply)];
      assert Run(End(y, reply), cs[1..]) == End(y, reply);
    } else {
      var z := Next(y, RxByte(bs[0]));
      assert cs[0] == RxByte(bs[0]) && cs[1..] == Receive(bs[1..]) + [WriteEnd(reply)];
      ReceivesAll(z, bs[1..], reply);
      assert Kept(z.rx + bs[1..]) == Kept(y.rx + bs) by {
        if |y.rx| < MAX_WRITE { assert z.rx + bs[1..] == y.rx + bs; }
      }
      assert z.(rx := Kept(z.rx + bs[1..])) == y.(rx := Kept(y.rx + bs));
    }
  }

  /** A whole transaction, from any state: the write is dispatched once if and only if what the
      buffer kept of it is a good frame, and the read serves that frame's answer, or else the
      NO_PENDING envelope, then idle bytes. */
  lemma Transaction(y: Link, bs: seq<bv8>, reply: Reply, n: nat)
    ensures var z := Run(y, [WriteStart] + (Receive(bs) + [WriteEnd(reply)]));
      && z.frames == (if FrameOk(Kept(bs)) then [Kept(bs)] else [])
      && |ReadBytes(z, n)| == n
      && ThenIdle(ReadBytes(z, n), if FrameOk(Kept(bs)) then Answer(reply) else NoPending())
  {
    hide NoPending, Answer, FrameOk, ReadBytes, Kept;
    var z := Next(y, WriteStart);
    var cs := [WriteStart] + (Receive(bs) + [WriteEnd(reply)]);
    assert cs[0] == WriteStart && cs[1..] == Receive(bs) + [WriteEnd(reply)];
    ReceivesAll(z, bs, reply);
    assert [] + bs == bs;
    ReadsTail(End(z.(rx := Kept(bs)), reply), n);
  }

  /** The host's frame for a command. */
  function Request(cmd: bv8, payload: seq<bv8>): seq<bv8> { [REG_CMD] + Crc16.Envelope([cmd] + payload) }

  /** Good frames are exactly the frames a host builds for the command register. */
  lemma FrameExact(rx: seq<bv8>)
    ensures FrameOk(rx) <==> exists cmd, payload :: rx == Request(cmd, payload)
  {
    hide Crc16.SpanOk, Crc16.Envelope;
    if FrameOk(rx) {
      Crc16.SpanExact(rx[1..]);
      var body := rx[1..][..|rx| - 3];
      assert body == [body[0]] + body[1..];
      assert rx == Request(body[0], body[1..]);
    }
    forall cmd, payload ensures FrameOk(Request(cmd, payload)) { RequestsTaken(cmd, payload, []); }
  }

  /** The first write_end of a transaction decides it: whatever follows before the next
      write_start, further bytes included, nothing more is dispatched. */
  lemma {:induction false} DecisionStands(y: Link, cs: seq<Call>)
    requires Decided(y) && forall i | 0 <= i < |cs| :: !cs[i].WriteStart?
    ensures Decided(Run(y, cs)) && Run(y, cs).frames == y.frames && !Dispatches(y, cs)
    decreases |cs|
  {
    hide NoPending, Answer, FrameOk;
    if cs != [] { DecisionStands(Next(y, cs[0]), cs[1..]); }
  }

  lemma FirstEndDecides(y: Link, reply: Reply, cs: seq<Call>)
    requires forall i | 0 <= i < |cs| :: !cs[i].WriteStart?
    ensures Run(End(y, reply), cs).frames == End(y, reply).frames && Decided(End(y, reply))
  {
    hide NoPending, Answer, FrameOk;
    DecisionStands(End(y, reply), cs);
  }

  /** Every request up to the protocol's payload size is dispatched as sent. A longer write is
      not rejected as such: it is dispatched if its first 69 bytes happen to be a frame. */
  lemma RequestsTaken(cmd: bv8, payload: seq<bv8>, more: seq<bv8>)
    ensures FrameOk(Request(cmd, payload))
    ensures |payload| <= MAX_PAYLOAD ==> Kept(Request(cmd, payload)) == Request(cmd, payload)
    ensures |payload| == MAX_PAYLOAD ==> FrameOk(Kept(Request(cmd, payload) + more))
  {
    hide Crc16.SpanOk;
    var r := Request(cmd, payload);
    Crc16.EnvelopeOk([cmd] + payload);
    assert r[1..] == Crc16.Envelope([cmd] + payload);
    if |payload| == MAX_PAYLOAD { assert Kept(r + more) == r; }
  }

  /** What is served decodes to the answer. */
  lemma AnswerDecodes(reply: Reply)
    ensures var a, n := Answer(reply), |reply.payload|;
      |a| == n + 3 && a[0] == reply.status && a[1..1 + n] == reply.payload && Crc16.SpanOk(a)
  {
    hide Crc16.SpanOk;
    Crc16.EnvelopeOk([reply.status] + reply.payload);
    assert Answer(reply)[1..1 + |reply.payload|] == reply.payload;
  }

  // ---- the module's own form ---------------------------------------------------------------------------

  class Slave {
    const rxBuf: array<bv8>
    var rxLen: nat
    const txBuf: array<bv8>
    var txLen: nat
    var txCursor: nat
    var pendingReplyValid: bool
    var frameRejected: bool
    ghost var frames: seq<seq<bv8>>

    ghost predicate Valid()
      reads this
    {
      && rxBuf.Length == MAX_WRITE && txBuf.Length == MAX_READ && rxBuf != txBuf
      && rxLen <= MAX_WRITE && txLen <= MAX_READ
    }

    ghost function Abs(): Link
      requires Valid()
      reads this, rxBuf, txBuf
    {
      Link(rxBuf[..rxLen], txBuf[..txLen], txCursor, pendingReplyValid, frameRejected, frames)
    }

    /** transport_i2c_init. */
    constructor ()
      ensures Valid() && fresh(rxBuf) && fresh(txBuf) && Abs() == RESET
    {
      rxBuf, txBuf := new bv8[MAX_WRITE], new bv8[MAX_READ];
      rxLen, txLen, txCursor, pendingReplyValid, frameRejected, frames := 0, 0, 0, false, false, [];
    }

    method StageReply(status: bv8, payload: seq<bv8>)
      requires Valid() && |payload| <= MAX_PAYLOAD
      modifies txBuf, this`txLen, this`txCursor
      ensures Valid() && txBuf[..txLen] == Answer(Reply(status, payload)) && txCursor == 0
    {
      hide Crc16.Crc, Crc16.LowerByte, Crc16.UpperByte;
      txBuf[0] := status;
      for i := 0 to |payload|
        invariant txBuf[0] == status && forall k | 0 <= k < i :: txBuf[1 + k] == payload[k]
      {
        txBuf[1 + i] := payload[i];
      }
      var covered := 1 + |payload|;
      assert txBuf[..covered] == [status] + payload;
      var crc := Crc16.CcittFalse(txBuf[..covered]);
      txBuf[covered] := Crc16.LowerByte(crc);
      txBuf[covered + 1] := Crc16.UpperByte(crc);
      txLen, txCursor := covered + 2, 0;
    }

    method StageNoPending()
      requires Valid()
      modifies txBuf, this`txLen, this`txCursor
      ensures Valid() && txBuf[..txLen] == NoPending() && txCursor == 0
    {
      hide Crc16.Envelope;
      StageReply(STATUS_NO_PENDING, []);
      assert [STATUS_NO_PENDING] + [] == [STATUS_NO_PENDING];
    }

    /** i2c_slave_write_start. */
    method OnWriteStart()
      requires Valid()
      modifies this
      ensures Valid() && Abs() == Next(old(Abs()), WriteStart)
    {
      rxLen, pendingReplyValid, frameRejected, frames := 0, false, false, [];
    }

    /** i2c_slave_tx_abort. */
    method OnTxAbort()
      requires Valid()
      modifies this
      ensures Valid() && Abs() == Next(old(Abs()), TxAbort)
    {
      txLen, txCursor := 0, 0;
    }

    /** i2c_slave_rx_byte. */
    method OnRxByte(b: bv8)
      requires Valid()
      modifies this, rxBuf
      ensures Valid() && Abs() == Next(old(Abs()), RxByte(b))
    {
      if rxLen < MAX_WRITE {
        rxBuf[rxLen] := b;
        rxLen := rxLen + 1;
      }
    }

    /** i2c_slave_write_end. What the command answers, if dispatched, is an argument. */
    method OnWriteEnd(reply: Reply) returns (staged: bool)
      requires Valid() && |reply.payload| <= MAX_PAYLOAD
      modifies this, txBuf
      ensures Valid() && Abs() == Next(old(Abs()), WriteEnd(reply)) && staged == pendingReplyValid
    {
      hide Crc16.Envelope, Crc16.Crc, Crc16.Field;
      if pendingReplyValid || frameRejected {
        if frameRejected || txCursor >= txLen { StageNoPending(); }
        return pendingReplyValid;
      }
      ghost var rx := rxBuf[..rxLen];
      if rxLen < 4 || rxBuf[0] != REG_CMD {
        frameRejected := true;
        StageNoPending();
        return false;
      }
      var n := rxLen - 4;
      var got := Crc16.Field(rxBuf[2 + n], rxBuf[2 + n + 1]);
      var want := Crc16.CcittFalse(rxBuf[1..2 + n]);
      assert rx[1..][..|rx[1..]| - 2] == rxBuf[1..2 + n];
      if got != want {
        frameRejected := true;
        StageNoPending();
        return false;
      }
      frames := frames + [rx];
      StageReply(reply.status, reply.payload);
      pendingReplyValid := true;
      staged := true;
    }

    /** i2c_slave_tx_next_byte. */
    method OnTxNextByte() returns (b: bv8)
      requires Valid()
      modifies this, txBuf
      ensures Valid() && Abs() == Next(old(Abs()), TxNextByte) && b == Byte(old(Abs()))
    {
      hide Crc16.Envelope;
      if !pendingReplyValid && txCursor == 0 { StageNoPending(); }
      if txCursor < txLen {
        b := txBuf[txCursor];
        txCursor := txCursor + 1;
      } else {
        b := 0xFF;
      }
    }
  }
}
