/** CRC-16/CCITT-FALSE, the framing CRC of both transports (src/protocol.c): the
    table-driven routine against its bit-serial definition, and what the check makes of a
    frame captured together with trailing zero bytes. */
module Crc16 {

  // ---- the bit-serial definition -------------------------------------------------------

  const POLY: bv16 := 0x1021

  function Xor(x: bv16, y: bv16): bv16 { x ^ y }
  function Twice(c: bv16): bv16 { c << 1 }
  predicate Top(c: bv16) { c & 0x8000 == 0x8000 }
  /** A byte placed in the upper half of the register, where it enters. */
  function High(b: bv8): bv16 { (b as bv16) << 8 }
  function Low(b: bv8): bv16 { b as bv16 }

  function BitStep(c: bv16): bv16 {
    if Top(c) then Xor(POLY, Twice(c)) else Twice(c)
  }

  function ByteStep(c: bv16): bv16 {
    BitStep(BitStep(BitStep(BitStep(BitStep(BitStep(BitStep(BitStep(c))))))))
  }

  /** The register after consuming `data`, highest bit of each byte first. */
  function Serial(reg: bv16, data: seq<bv8>): bv16
    decreases |data|
  {
    if data == [] then reg else Serial(ByteStep(Xor(reg, High(data[0]))), data[1..])
  }

  function Crc(data: seq<bv8>): bv16 { Serial(0xFFFF, data) }

  /** The bytes of "123456789". */
  const DIGITS: seq<bv8> := [0x31, 0x32, 0x33, 0x34, 0x35, 0x36, 0x37, 0x38, 0x39]

  /** The check value that fixes the initial register. */
  lemma CheckValue()
    ensures Crc(DIGITS) == 0x29B1
  {
  }

  // ---- the checked-in table, sixteen entries a row --------------------------------------

  const ROW0: seq<bv16> := [
    0x0000, 0x1021, 0x2042, 0x3063, 0x4084, 0x50A5, 0x60C6, 0x70E7,
    0x8108, 0x9129, 0xA14A, 0xB16B, 0xC18C, 0xD1AD, 0xE1CE, 0xF1EF]
  const ROW1: seq<bv16> := [
    0x1231, 0x0210, 0x3273, 0x2252, 0x52B5, 0x4294, 0x72F7, 0x62D6,
    0x9339, 0x8318, 0xB37B, 0xA35A, 0xD3BD, 0xC39C, 0xF3FF, 0xE3DE]
  const ROW2: seq<bv16> := [
    0x2462, 0x3443, 0x0420, 0x1401, 0x64E6, 0x74C7, 0x44A4, 0x5485,
    0xA56A, 0xB54B, 0x8528, 0x9509, 0xE5EE, 0xF5CF, 0xC5AC, 0xD58D]
  const ROW3: seq<bv16> := [
    0x3653, 0x2672, 0x1611, 0x0630, 0x76D7, 0x66F6, 0x5695, 0x46B4,
    0xB75B, 0xA77A, 0x9719, 0x8738, 0xF7DF, 0xE7FE, 0xD79D, 0xC7BC]
  const ROW4: seq<bv16> := [
    0x48C4, 0x58E5, 0x6886, 0x78A7, 0x0840, 0x1861, 0x2802, 0x3823,
    0xC9CC, 0xD9ED, 0xE98E, 0xF9AF, 0x8948, 0x9969, 0xA90A, 0xB92B]
  const ROW5: seq<bv16> := [
    0x5AF5, 0x4AD4, 0x7AB7, 0x6A96, 0x1A71, 0x0A50, 0x3A33, 0x2A12,
    0xDBFD, 0xCBDC, 0xFBBF, 0xEB9E, 0x9B79, 0x8B58, 0xBB3B, 0xAB1A]
  const ROW6: seq<bv16> := [
    0x6CA6, 0x7C87, 0x4CE4, 0x5CC5, 0x2C22, 0x3C03, 0x0C60, 0x1C41,
    0xEDAE, 0xFD8F, 0xCDEC, 0xDDCD, 0xAD2A, 0xBD0B, 0x8D68, 0x9D49]
  const ROW7: seq<bv16> := [
    0x7E97, 0x6EB6, 0x5ED5, 0x4EF4, 0x3E13, 0x2E32, 0x1E51, 0x0E70,
    0xFF9F, 0xEFBE, 0xDFDD, 0xCFFC, 0xBF1B, 0xAF3A, 0x9F59, 0x8F78]
  const ROW8: seq<bv16> := [
    0x9188, 0x81A9, 0xB1CA, 0xA1EB, 0xD10C, 0xC12D, 0xF14E, 0xE16F,
    0x1080, 0x00A1, 0x30C2, 0x20E3, 0x5004, 0x4025, 0x7046, 0x6067]
  const ROW9: seq<bv16> := [
    0x83B9, 0x9398, 0xA3FB, 0xB3DA, 0xC33D, 0xD31C, 0xE37F, 0xF35E,
    0x02B1, 0x1290, 0x22F3, 0x32D2, 0x4235, 0x5214, 0x6277, 0x7256]
  const ROWA: seq<bv16> := [
    0xB5EA, 0xA5CB, 0x95A8, 0x8589, 0xF56E, 0xE54F, 0xD52C, 0xC50D,
    0x34E2, 0x24C3, 0x14A0, 0x0481, 0x7466, 0x6447, 0x5424, 0x4405]
  const ROWB: seq<bv16> := [
    0xA7DB, 0xB7FA, 0x8799, 0x97B8, 0xE75F, 0xF77E, 0xC71D, 0xD73C,
    0x26D3, 0x36F2, 0x0691, 0x16B0, 0x6657, 0x7676, 0x4615, 0x5634]
  const ROWC: seq<bv16> := [
    0xD94C, 0xC96D, 0xF90E, 0xE92F, 0x99C8, 0x89E9, 0xB98A, 0xA9AB,
    0x5844, 0x4865, 0x7806, 0x6827, 0x18C0, 0x08E1, 0x3882, 0x28A3]
  const ROWD: seq<bv16> := [
    0xCB7D, 0xDB5C, 0xEB3F, 0xFB1E, 0x8BF9, 0x9BD8, 0xABBB, 0xBB9A,
    0x4A75, 0x5A54, 0x6A37, 0x7A16, 0x0AF1, 0x1AD0, 0x2AB3, 0x3A92]
  const ROWE: seq<bv16> := [
    0xFD2E, 0xED0F, 0xDD6C, 0xCD4D, 0xBDAA, 0xAD8B, 0x9DE8, 0x8DC9,
    0x7C26, 0x6C07, 0x5C64, 0x4C45, 0x3CA2, 0x2C83, 0x1CE0, 0x0CC1]
  const ROWF: seq<bv16> := [
    0xEF1F, 0xFF3E, 0xCF5D, 0xDF7C, 0xAF9B, 0xBFBA, 0x8FD9, 0x9FF8,
    0x6E17, 0x7E36, 0x4E55, 0x5E74, 0x2E93, 0x3EB2, 0x0ED1, 0x1EF0]

  const TABLE: seq<seq<bv16>> :=
    [ROW0, ROW1, ROW2, ROW3, ROW4, ROW5, ROW6, ROW7, ROW8, ROW9, ROWA, ROWB, ROWC, ROWD, ROWE, ROWF]

  /** crc16_table[i]. */
  function Lookup(i: bv8): bv16 {
    TABLE[(i >> 4) as nat][(i & 15) as nat]
  }

  // ---- linearity of the register over GF(2) ----------------------------------------------

  lemma XorAssoc(x: bv16, y: bv16, z: bv16)
    ensures Xor(Xor(x, y), z) == Xor(x, Xor(y, z))
  {
  }

  lemma XorComm(x: bv16, y: bv16)
    ensures Xor(x, y) == Xor(y, x)
    ensures Xor(x, Xor(x, y)) == y
    ensures Xor(x, x) == 0
    ensures Xor(x, y) == 0 <==> x == y
  {
  }

  lemma XorAlgebra(p: bv16, x: bv16, y: bv16)
    ensures Xor(Xor(p, x), Xor(p, y)) == Xor(x, y)
    ensures Xor(Xor(p, x), y) == Xor(p, Xor(x, y))
    ensures Xor(x, Xor(p, y)) == Xor(p, Xor(x, y))
  {
    hide Xor;
    XorAssoc(p, x, y); XorAssoc(x, p, y); XorAssoc(x, p, Xor(p, y));
    XorComm(p, x); XorComm(p, y);
  }

  lemma TwiceXor(x: bv16, y: bv16)
    ensures Twice(Xor(x, y)) == Xor(Twice(x), Twice(y))
    ensures Top(Xor(x, y)) == (Top(x) != Top(y))
  {
  }

  lemma BitLinear(x: bv16, y: bv16)
    ensures BitStep(Xor(x, y)) == Xor(BitStep(x), BitStep(y))
  {
    hide Xor, Twice, Top;
    TwiceXor(x, y);
    XorAlgebra(POLY, Twice(x), Twice(y));
  }

  lemma ByteLinear(x: bv16, y: bv16)
    ensures ByteStep(Xor(x, y)) == Xor(ByteStep(x), ByteStep(y))
  {
    hide BitStep, Xor;
    var x1, y1 := BitStep(x), BitStep(y);
    var x2, y2 := BitStep(x1), BitStep(y1);
    var x3, y3 := BitStep(x2), BitStep(y2);
    var x4, y4 := BitStep(x3), BitStep(y3);
    var x5, y5 := BitStep(x4), BitStep(y4);
    var x6, y6 := BitStep(x5), BitStep(y5);
    var x7, y7 := BitStep(x6), BitStep(y6);
    BitLinear(x, y); BitLinear(x1, y1); BitLinear(x2, y2); BitLinear(x3, y3);
    BitLinear(x4, y4); BitLinear(x5, y5); BitLinear(x6, y6); BitLinear(x7, y7);
  }

  /** No non-zero register is stepped to zero, so a step loses nothing. */
  lemma BitKernel(x: bv16)
    ensures BitStep(x) == 0 <==> x == 0
  {
  }

  lemma ByteKernel(x: bv16)
    ensures ByteStep(x) == 0 <==> x == 0
  {
    hide BitStep;
    var x1 := BitStep(x); var x2 := BitStep(x1); var x3 := BitStep(x2); var x4 := BitStep(x3);
    var x5 := BitStep(x4); var x6 := BitStep(x5); var x7 := BitStep(x6);
    BitKernel(x); BitKernel(x1); BitKernel(x2); BitKernel(x3);
    BitKernel(x4); BitKernel(x5); BitKernel(x6); BitKernel(x7);
  }

  lemma ByteInjective(x: bv16, y: bv16)
    requires ByteStep(x) == ByteStep(y)
    ensures x == y
  {
    hide *;
    ByteLinear(x, y);
    XorComm(ByteStep(x), ByteStep(y));
    ByteKernel(Xor(x, y));
    XorComm(x, y);
  }

  /** A byte in the lower half only slides up: no feedback reaches it in eight steps. */
  lemma LowByte(b: bv8)
    ensures ByteStep(Low(b)) == High(b)
  {
  }

  // ---- the table is the generator's output --------------------------------------------------

  /** A row is the first row offset by its own first entry. */
  function Offset(b: bv16): seq<bv16> {
    [Xor(b, ROW0[0]), Xor(b, ROW0[1]), Xor(b, ROW0[2]), Xor(b, ROW0[3]), Xor(b, ROW0[4]), Xor(b, ROW0[5]),
     Xor(b, ROW0[6]), Xor(b, ROW0[7]), Xor(b, ROW0[8]), Xor(b, ROW0[9]), Xor(b, ROW0[10]), Xor(b, ROW0[11]),
     Xor(b, ROW0[12]), Xor(b, ROW0[13]), Xor(b, ROW0[14]), Xor(b, ROW0[15])]
  }

  lemma RowsAreOffsets()
    ensures ROW1 == Offset(ROW1[0]) && ROW2 == Offset(ROW2[0]) && ROW3 == Offset(ROW3[0])
    ensures ROW4 == Offset(ROW4[0]) && ROW5 == Offset(ROW5[0]) && ROW6 == Offset(ROW6[0])
    ensures ROW7 == Offset(ROW7[0]) && ROW8 == Offset(ROW8[0]) && ROW9 == Offset(ROW9[0])
    ensures ROWA == Offset(ROWA[0]) && ROWB == Offset(ROWB[0]) && ROWC == Offset(ROWC[0])
    ensures ROWD == Offset(ROWD[0]) && ROWE == Offset(ROWE[0]) && ROWF == Offset(ROWF[0])
  {
  }

  lemma LowNibble(j: bv8)
    requires j < 16
    ensures ROW0[j as nat] == ByteStep(High(j))
  {
  }

  lemma HighNibble(k: bv8)
    requires k < 16
    ensures |TABLE| == 16 && |TABLE[k as nat]| == 16 && TABLE[k as nat][0] == ByteStep(High(k << 4))
  {
  }

  lemma OffsetAt(b: bv16, j: nat)
    requires j < 16
    ensures Offset(b)[j] == Xor(b, ROW0[j])
  {
    hide Xor;
  }

  lemma Row0Offset(j: nat)
    requires j < 16
    ensures ROW0[j] == Xor(ROW0[0], ROW0[j])
  {
    assert ROW0[0] == 0;
  }

  lemma RowOffset(k: nat, j: nat)
    requires k < 16 && j < 16
    ensures |TABLE| == 16 && |TABLE[k]| == 16 && TABLE[k][j] == Xor(TABLE[k][0], ROW0[j])
  {
    hide Offset, Xor;
    RowsAreOffsets();
    OffsetAt(TABLE[k][0], j);
    if k == 0 { Row0Offset(j); }
  }

  lemma Nibbles(i: bv8)
    ensures High(i) == Xor(High((i >> 4) << 4), High(i & 15))
  {
  }

  /** Every entry of the checked-in table is the generator's value for its index. */
  lemma TableCorrect(i: bv8)
    ensures Lookup(i) == ByteStep(High(i))
  {
    hide ByteStep, Xor, High;
    var k, j := i >> 4, i & 15;
    Nibbles(i);
    ByteLinear(High(k << 4), High(j));
    HighNibble(k);
    LowNibble(j);
    RowOffset(k as nat, j as nat);
  }

  function UpperByte(c: bv16): bv8 { (c >> 8) as bv8 }
  function LowerByte(c: bv16): bv8 { (c & 0xFF) as bv8 }
  function Shift8(c: bv16): bv16 { c << 8 }

  lemma SplitBytes(c: bv16, b: bv8)
    ensures Xor(c, High(b)) == Xor(High(UpperByte(c) ^ b), Low(LowerByte(c)))
    ensures Shift8(c) == High(LowerByte(c))
  {
  }

  /** The table recurrence is eight bit steps with the byte entered at the top. */
  lemma TableStep(c: bv16, b: bv8)
    ensures Xor(Shift8(c), Lookup(UpperByte(c) ^ b)) == ByteStep(Xor(c, High(b)))
  {
    hide *;
    SplitBytes(c, b);
    ByteLinear(High(UpperByte(c) ^ b), Low(LowerByte(c)));
    LowByte(LowerByte(c));
    TableCorrect(UpperByte(c) ^ b);
    XorComm(Lookup(UpperByte(c) ^ b), Shift8(c));
  }

  /** crc16_ccitt_false: one table lookup a byte. */
  method CcittFalse(data: seq<bv8>) returns (crc: bv16)
    ensures crc == Crc(data)
  {
    hide Xor, ByteStep, Lookup, UpperByte, Shift8, High;
    crc := 0xFFFF;
    for i := 0 to |data|
      invariant Serial(crc, data[i..]) == Serial(0xFFFF, data)
    {
      TableStep(crc, data[i]);
      assert data[i..][0] == data[i] && data[i..][1..] == data[i + 1..];
      crc := Xor(Shift8(crc), Lookup(UpperByte(crc) ^ data[i]));
    }
    assert data[|data|..] == [];
  }

  lemma {:induction false} SerialConcat(reg: bv16, a: seq<bv8>, b: seq<bv8>)
    ensures Serial(reg, a + b) == Serial(Serial(reg, a), b)
    decreases |a|
  {
    hide ByteStep, Xor, High;
    if a == [] {
      assert a + b == b;
    } else {
      assert (a + b)[0] == a[0] && (a + b)[1..] == a[1..] + b;
      SerialConcat(ByteStep(Xor(reg, High(a[0]))), a[1..], b);
    }
  }

  // ---- the span check and trailing zeros ----------------------------------------------------

  /** The transports read the CRC field low byte first. */
  function Field(lo: bv8, hi: bv8): bv16 { Low(lo) | High(hi) }

  /** The check both transports make: the last two bytes are the CRC of the rest. */
  predicate SpanOk(span: seq<bv8>) {
    |span| >= 2 && Field(span[|span| - 2], span[|span| - 1]) == Crc(span[..|span| - 2])
  }

  /** A body followed by its CRC field, as both transports stage replies. */
  function Envelope(body: seq<bv8>): (r: seq<bv8>)
    ensures |r| == |body| + 2 && r[..|body|] == body
  {
    body + [LowerByte(Crc(body)), UpperByte(Crc(body))]
  }

  lemma FieldRoundTrip(c: bv16)
    ensures Field(LowerByte(c), UpperByte(c)) == c
  {
  }

  lemma EnvelopeOk(body: seq<bv8>)
    ensures SpanOk(Envelope(body))
  {
    hide Crc, LowerByte, UpperByte, Field;
    FieldRoundTrip(Crc(body));
  }

  lemma FieldUnique(lo: bv8, hi: bv8)
    ensures LowerByte(Field(lo, hi)) == lo && UpperByte(Field(lo, hi)) == hi
  {
  }

  /** And only envelopes pass the check. */
  lemma SpanExact(span: seq<bv8>)
    ensures SpanOk(span) <==> |span| >= 2 && span == Envelope(span[..|span| - 2])
  {
    hide Crc, LowerByte, UpperByte, Field;
    if |span| >= 2 {
      var n := |span| - 2;
      FieldUnique(span[n], span[n + 1]);
      FieldRoundTrip(Crc(span[..n]));
      assert span == span[..n] + [span[n], span[n + 1]];
    }
  }

  function Zeros(n: nat): seq<bv8> { seq(n, _ => 0) }

  lemma ByteFacts(lo: bv8, hi: bv8)
    ensures Xor(Field(lo, hi), High(lo)) == Xor(High(hi ^ lo), Low(lo))
    ensures lo == hi <==> hi ^ lo == 0
    ensures High(lo) == High(hi) <==> lo == hi
    ensures High(hi ^ lo) == Low(hi ^ lo) <==> hi ^ lo == 0
    ensures High(0) == 0 && Low(0) == 0 && Field(0, 0) == 0
    ensures Xor(High(hi ^ lo), High(lo)) == High(hi)
  {
  }

  /** The register after a frame's own CRC field has been fed too: zero exactly for a
      field of two equal bytes. */
  lemma Residue(lo: bv8, hi: bv8)
    ensures Serial(Field(lo, hi), [lo, hi]) == 0 <==> lo == hi
  {
    hide ByteStep, Field, Xor, High, Low;
    var r1 := ByteStep(Xor(Field(lo, hi), High(lo)));
    var r2 := ByteStep(Xor(r1, High(hi)));
    assert Serial(Field(lo, hi), [lo, hi]) == r2 by {
      assert [lo, hi][1..] == [hi] && [hi][1..] == [];
      assert Serial(r1, [hi]) == Serial(r2, []);
    }
    ByteFacts(lo, hi);
    ByteLinear(High(hi ^ lo), Low(lo));
    LowByte(lo);
    ByteKernel(Xor(r1, High(hi)));
    XorComm(r1, High(hi));
    // r2 == 0 <==> r1 == High(hi), where r1 == Xor(ByteStep(High(hi ^ lo)), High(lo))
    if lo == hi {
      ByteKernel(0);
      XorZero(High(lo));
    } else if r1 == High(hi) {
      XorCancelRight(ByteStep(High(hi ^ lo)), High(hi ^ lo), High(lo));
      LowByte(hi ^ lo);
      ByteInjective(High(hi ^ lo), Low(hi ^ lo));
    }
  }

  lemma XorZero(x: bv16)
    ensures Xor(x, 0) == x && Xor(0, x) == x
  {
  }

  lemma XorCancelRight(x: bv16, y: bv16, z: bv16)
    requires Xor(x, z) == Xor(y, z)
    ensures x == y
  {
  }

  lemma {:induction false} ZerosKeepKernel(reg: bv16, n: nat)
    ensures Serial(reg, Zeros(n)) == 0 <==> reg == 0
    decreases n
  {
    hide ByteStep, Xor, High;
    if n > 0 {
      assert Zeros(n)[1..] == Zeros(n - 1);
      ByteFacts(0, 0);
      XorZero(reg);
      ByteKernel(reg);
      ZerosKeepKernel(ByteStep(reg), n - 1);
    }
  }

  /** A good frame captured with two or more trailing zero bytes passes the span check
      exactly when the two bytes of its CRC are equal. */
  lemma ZeroExtension(frame: seq<bv8>, k: nat)
    requires SpanOk(frame) && k >= 2
    ensures SpanOk(frame + Zeros(k)) <==> frame[|frame| - 2] == frame[|frame| - 1]
  {
    hide Serial, Field, Xor, High, Low;
    var n := |frame| - 2;
    var body, lo, hi := frame[..n], frame[n], frame[n + 1];
    var span := frame + Zeros(k);
    assert span[..|span| - 2] == body + ([lo, hi] + Zeros(k - 2));
    SerialConcat(0xFFFF, body, [lo, hi] + Zeros(k - 2));
    SerialConcat(Field(lo, hi), [lo, hi], Zeros(k - 2));
    ZerosKeepKernel(Serial(Field(lo, hi), [lo, hi]), k - 2);
    Residue(lo, hi);
    ByteFacts(0, 0);
    assert span[|span| - 2] == 0 && span[|span| - 1] == 0;
  }
}
