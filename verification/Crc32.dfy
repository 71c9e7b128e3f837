/** CRC-32 of the OTA path (src/crc32.c): the table-driven routine, the bit-serial
    IEEE 802.3 definition its table is generated from, and the proof that the two agree
    for every seed and every byte string. */
module Crc32 {

  // ---- the bit-serial definition -----------------------------------------------------

  const POLY: bv32 := 0xEDB88320

  // The word operations, named so that proofs can treat them as algebra.
  function Xor(x: bv32, y: bv32): bv32 { x ^ y }
  function Half(c: bv32): bv32 { c >> 1 }
  predicate Odd(c: bv32) { c & 1 == 1 }
  function Word(b: bv8): bv32 { b as bv32 }

  /** One bit of the reflected register: the generator's inner step. */
  function BitStep(c: bv32): bv32 {
    if Odd(c) then Xor(POLY, Half(c)) else Half(c)
  }

  function ByteStep(c: bv32): bv32 {
    BitStep(BitStep(BitStep(BitStep(BitStep(BitStep(BitStep(BitStep(c))))))))
  }

  /** The register after consuming `data`, lowest bit of each byte first. */
  function Serial(reg: bv32, data: seq<bv8>): bv32
    decreases |data|
  {
    if data == [] then reg else Serial(ByteStep(Xor(reg, Word(data[0]))), data[1..])
  }

  /** CRC-32 with pre- and post-inversion, continuing a run whose value so far is `seed`. */
  function Crc(seed: bv32, data: seq<bv8>): bv32 {
    Xor(Serial(Xor(seed, 0xFFFF_FFFF), data), 0xFFFF_FFFF)
  }

  /** The bytes of "123456789". */
  const DIGITS: seq<bv8> := [0x31, 0x32, 0x33, 0x34, 0x35, 0x36, 0x37, 0x38, 0x39]

  /** The check value that fixes the initial register and the final inversion. */
  lemma CheckValue()
    ensures Crc(0, DIGITS) == 0xCBF4_3926
  {
  }

  // ---- the checked-in table, sixteen entries a row -----------------------------------

  const ROW0: seq<bv32> := [
    0x00000000, 0x77073096, 0xEE0E612C, 0x990951BA, 0x076DC419, 0x706AF48F, 0xE963A535, 0x9E6495A3,
    0x0EDB8832, 0x79DCB8A4, 0xE0D5E91E, 0x97D2D988, 0x09B64C2B, 0x7EB17CBD, 0xE7B82D07, 0x90BF1D91]
  const ROW1: seq<bv32> := [
    0x1DB71064, 0x6AB020F2, 0xF3B97148, 0x84BE41DE, 0x1ADAD47D, 0x6DDDE4EB, 0xF4D4B551, 0x83D385C7,
    0x136C9856, 0x646BA8C0, 0xFD62F97A, 0x8A65C9EC, 0x14015C4F, 0x63066CD9, 0xFA0F3D63, 0x8D080DF5]
  const ROW2: seq<bv32> := [
    0x3B6E20C8, 0x4C69105E, 0xD56041E4, 0xA2677172, 0x3C03E4D1, 0x4B04D447, 0xD20D85FD, 0xA50AB56B,
    0x35B5A8FA, 0x42B2986C, 0xDBBBC9D6, 0xACBCF940, 0x32D86CE3, 0x45DF5C75, 0xDCD60DCF, 0xABD13D59]
  const ROW3: seq<bv32> := [
    0x26D930AC, 0x51DE003A, 0xC8D75180, 0xBFD06116, 0x21B4F4B5, 0x56B3C423, 0xCFBA9599, 0xB8BDA50F,
    0x2802B89E, 0x5F058808, 0xC60CD9B2, 0xB10BE924, 0x2F6F7C87, 0x58684C11, 0xC1611DAB, 0xB6662D3D]
  const ROW4: seq<bv32> := [
    0x76DC4190, 0x01DB7106, 0x98D220BC, 0xEFD5102A, 0x71B18589, 0x06B6B51F, 0x9FBFE4A5, 0xE8B8D433,
    0x7807C9A2, 0x0F00F934, 0x9609A88E, 0xE10E9818, 0x7F6A0DBB, 0x086D3D2D, 0x91646C97, 0xE6635C01]
  const ROW5: seq<bv32> := [
    0x6B6B51F4, 0x1C6C6162, 0x856530D8, 0xF262004E, 0x6C0695ED, 0x1B01A57B, 0x8208F4C1, 0xF50FC457,
    0x65B0D9C6, 0x12B7E950, 0x8BBEB8EA, 0xFCB9887C, 0x62DD1DDF, 0x15DA2D49, 0x8CD37CF3, 0xFBD44C65]
  const ROW6: seq<bv32> := [
    0x4DB26158, 0x3AB551CE, 0xA3BC0074, 0xD4BB30E2, 0x4ADFA541, 0x3DD895D7, 0xA4D1C46D, 0xD3D6F4FB,
    0x4369E96A, 0x346ED9FC, 0xAD678846, 0xDA60B8D0, 0x44042D73, 0x33031DE5, 0xAA0A4C5F, 0xDD0D7CC9]
  const ROW7: seq<bv32> := [
    0x5005713C, 0x270241AA, 0xBE0B1010, 0xC90C2086, 0x5768B525, 0x206F85B3, 0xB966D409, 0xCE61E49F,
    0x5EDEF90E, 0x29D9C998, 0xB0D09822, 0xC7D7A8B4, 0x59B33D17, 0x2EB40D81, 0xB7BD5C3B, 0xC0BA6CAD]
  const ROW8: seq<bv32> := [
    0xEDB88320, 0x9ABFB3B6, 0x03B6E20C, 0x74B1D29A, 0xEAD54739, 0x9DD277AF, 0x04DB2615, 0x73DC1683,
    0xE3630B12, 0x94643B84, 0x0D6D6A3E, 0x7A6A5AA8, 0xE40ECF0B, 0x9309FF9D, 0x0A00AE27, 0x7D079EB1]
  const ROW9: seq<bv32> := [
    0xF00F9344, 0x8708A3D2, 0x1E01F268, 0x6906C2FE, 0xF762575D, 0x806567CB, 0x196C3671, 0x6E6B06E7,
    0xFED41B76, 0x89D32BE0, 0x10DA7A5A, 0x67DD4ACC, 0xF9B9DF6F, 0x8EBEEFF9, 0x17B7BE43, 0x60B08ED5]
  const ROWA: seq<bv32> := [
    0xD6D6A3E8, 0xA1D1937E, 0x38D8C2C4, 0x4FDFF252, 0xD1BB67F1, 0xA6BC5767, 0x3FB506DD, 0x48B2364B,
    0xD80D2BDA, 0xAF0A1B4C, 0x36034AF6, 0x41047A60, 0xDF60EFC3, 0xA867DF55, 0x316E8EEF, 0x4669BE79]
  const ROWB: seq<bv32> := [
    0xCB61B38C, 0xBC66831A, 0x256FD2A0, 0x5268E236, 0xCC0C7795, 0xBB0B4703, 0x220216B9, 0x5505262F,
    0xC5BA3BBE, 0xB2BD0B28, 0x2BB45A92, 0x5CB36A04, 0xC2D7FFA7, 0xB5D0CF31, 0x2CD99E8B, 0x5BDEAE1D]
  const ROWC: seq<bv32> := [
    0x9B64C2B0, 0xEC63F226, 0x756AA39C, 0x026D930A, 0x9C0906A9, 0xEB0E363F, 0x72076785, 0x05005713,
    0x95BF4A82, 0xE2B87A14, 0x7BB12BAE, 0x0CB61B38, 0x92D28E9B, 0xE5D5BE0D, 0x7CDCEFB7, 0x0BDBDF21]
  const ROWD: seq<bv32> := [
    0x86D3D2D4, 0xF1D4E242, 0x68DDB3F8, 0x1FDA836E, 0x81BE16CD, 0xF6B9265B, 0x6FB077E1, 0x18B74777,
    0x88085AE6, 0xFF0F6A70, 0x66063BCA, 0x11010B5C, 0x8F659EFF, 0xF862AE69, 0x616BFFD3, 0x166CCF45]
  const ROWE: seq<bv32> := [
    0xA00AE278, 0xD70DD2EE, 0x4E048354, 0x3903B3C2, 0xA7672661, 0xD06016F7, 0x4969474D, 0x3E6E77DB,
    0xAED16A4A, 0xD9D65ADC, 0x40DF0B66, 0x37D83BF0, 0xA9BCAE53, 0xDEBB9EC5, 0x47B2CF7F, 0x30B5FFE9]
  const ROWF: seq<bv32> := [
    0xBDBDF21C, 0xCABAC28A, 0x53B39330, 0x24B4A3A6, 0xBAD03605, 0xCDD70693, 0x54DE5729, 0x23D967BF,
    0xB3667A2E, 0xC4614AB8, 0x5D681B02, 0x2A6F2B94, 0xB40BBE37, 0xC30C8EA1, 0x5A05DF1B, 0x2D02EF8D]

  const TABLE: seq<seq<bv32>> :=
    [ROW0, ROW1, ROW2, ROW3, ROW4, ROW5, ROW6, ROW7, ROW8, ROW9, ROWA, ROWB, ROWC, ROWD, ROWE, ROWF]

  /** crc32_table[i]. */
  function Lookup(i: bv8): bv32 {
    TABLE[(i >> 4) as nat][(i & 15) as nat]
  }

  // ---- linearity of the register over GF(2) -------------------------------------------

  lemma XorAssoc(x: bv32, y: bv32, z: bv32)
    ensures Xor(Xor(x, y), z) == Xor(x, Xor(y, z))
  {
  }

  lemma XorComm(x: bv32, y: bv32)
    ensures Xor(x, y) == Xor(y, x)
    ensures Xor(x, Xor(x, y)) == y
  {
  }

  lemma XorAlgebra(p: bv32, x: bv32, y: bv32)
    ensures Xor(Xor(p, x), Xor(p, y)) == Xor(x, y)
    ensures Xor(Xor(p, x), y) == Xor(p, Xor(x, y))
    ensures Xor(x, Xor(p, y)) == Xor(p, Xor(x, y))
  {
    hide Xor;
    XorAssoc(p, x, y); XorAssoc(x, p, y); XorAssoc(x, p, Xor(p, y));
    XorComm(p, x); XorComm(p, y);
  }

  lemma XorTwice(x: bv32, p: bv32)
    ensures Xor(Xor(x, p), p) == x
  {
  }

  lemma HalfXor(x: bv32, y: bv32)
    ensures Half(Xor(x, y)) == Xor(Half(x), Half(y))
    ensures Odd(Xor(x, y)) == (Odd(x) != Odd(y))
  {
  }

  lemma BitLinear(x: bv32, y: bv32)
    ensures BitStep(Xor(x, y)) == Xor(BitStep(x), BitStep(y))
  {
    hide Xor, Half, Odd;
    HalfXor(x, y);
    XorAlgebra(POLY, Half(x), Half(y));
  }

  lemma ByteLinear(x: bv32, y: bv32)
    ensures ByteStep(Xor(x, y)) == Xor(ByteStep(x), ByteStep(y))
  {
    hide BitStep, Xor;
    var x1, y1 := BitStep(x), BitStep(y);
    var x2, y2 := BitStep(x1), BitStep(y1);
    var x3, y3 := BitStep(x2), BitStep(y2);
    var x4, y4 := BitStep(x3), BitStep(y3);
    var x5, y5 := BitStep(x4), BitStep(y4);
    var x6, y6 := BitStep(x5), BitStep(y5);
    var x7, y7 := BitStep(x6), BitStep(y6);
    BitLinear(x, y); BitLinear(x1, y1); BitLinear(x2, y2); BitLinear(x3, y3);
    BitLinear(x4, y4); BitLinear(x5, y5); BitLinear(x6, y6); BitLinear(x7, y7);
  }

  // ---- the table is the generator's output ----------------------------------------------

  /** A row is the first row offset by its own first entry. */
  function Offset(b: bv32): seq<bv32> {
    [Xor(b, ROW0[0]), Xor(b, ROW0[1]), Xor(b, ROW0[2]), Xor(b, ROW0[3]), Xor(b, ROW0[4]), Xor(b, ROW0[5]),
     Xor(b, ROW0[6]), Xor(b, ROW0[7]), Xor(b, ROW0[8]), Xor(b, ROW0[9]), Xor(b, ROW0[10]), Xor(b, ROW0[11]),
     Xor(b, ROW0[12]), Xor(b, ROW0[13]), Xor(b, ROW0[14]), Xor(b, ROW0[15])]
  }

  lemma RowsAreOffsets()
    ensures ROW1 == Offset(ROW1[0]) && ROW2 == Offset(ROW2[0]) && ROW3 == Offset(ROW3[0])
    ensures ROW4 == Offset(ROW4[0]) && ROW5 == Offset(ROW5[0]) && ROW6 == Offset(ROW6[0])
    ensures ROW7 == Offset(ROW7[0]) && ROW8 == Offset(ROW8[0]) && ROW9 == Offset(ROW9[0])
    ensures ROWA == Offset(ROWA[0]) && ROWB == Offset(ROWB[0]) && ROWC == Offset(ROWC[0])
    ensures ROWD == Offset(ROWD[0]) && ROWE == Offset(ROWE[0]) && ROWF == Offset(ROWF[0])
  {
  }

  lemma LowNibble(j: bv8)
    requires j < 16
    ensures ROW0[j as nat] == ByteStep(Word(j))
  {
  }

  lemma HighNibble(k: bv8)
    requires k < 16
    ensures |TABLE| == 16 && |TABLE[k as nat]| == 16 && TABLE[k as nat][0] == ByteStep(Word(k << 4))
  {
  }

  lemma OffsetAt(b: bv32, j: nat)
    requires j < 16
    ensures Offset(b)[j] == Xor(b, ROW0[j])
  {
    hide Xor;
  }

  lemma RowOffset(k: nat, j: nat)
    requires k < 16 && j < 16
    ensures |TABLE| == 16 && |TABLE[k]| == 16 && TABLE[k][j] == Xor(TABLE[k][0], ROW0[j])
  {
    hide Offset, Xor;
    RowsAreOffsets();
    OffsetAt(TABLE[k][0], j);
    if k == 0 { Row0Offset(j); }
  }

  lemma Row0Offset(j: nat)
    requires j < 16
    ensures ROW0[j] == Xor(ROW0[0], ROW0[j])
  {
    assert ROW0[0] == 0;
  }

  lemma Nibbles(i: bv8)
    ensures Word(i) == Xor(Word((i >> 4) << 4), Word(i & 15))
  {
  }

  /** Every entry of the checked-in table is the generator's value for its index. */
  lemma TableCorrect(i: bv8)
    ensures Lookup(i) == ByteStep(Word(i))
  {
    hide ByteStep, Xor, Word;
    var k, j := i >> 4, i & 15;
    Nibbles(i);
    ByteLinear(Word(k << 4), Word(j));
    HighNibble(k);
    LowNibble(j);
    RowOffset(k as nat, j as nat);
  }

  function Low8(c: bv32): bv8 { (c & 0xFF) as bv8 }
  function Shift8(c: bv32): bv32 { c >> 8 }
  function Upper(c: bv32): bv32 { c & 0xFFFF_FF00 }

  lemma SplitByte(c: bv32)
    ensures c == Xor(Word(Low8(c)), Upper(c))
    ensures Shift8(Upper(c)) == Shift8(c)
  {
  }

  lemma ShiftIgnoresByte(c: bv32, b: bv8)
    ensures Shift8(Xor(c, Word(b))) == Shift8(c)
  {
  }

  /** Bits above the low byte only slide down: no feedback reaches them in eight steps. */
  lemma HighBits(c: bv32)
    ensures ByteStep(Upper(c)) == Shift8(Upper(c))
  {
    hide Half, Odd, Upper, Shift8, Xor;
    Even(c);
    Slide(Upper(c));
  }

  lemma Slide(h: bv32)
    ensures Half(h) == h >> 1 && Half(h >> 1) == h >> 2 && Half(h >> 2) == h >> 3 && Half(h >> 3) == h >> 4
    ensures Half(h >> 4) == h >> 5 && Half(h >> 5) == h >> 6 && Half(h >> 6) == h >> 7 && Half(h >> 7) == Shift8(h)
  {
  }

  lemma Even(c: bv32)
    ensures var h := Upper(c);
      && !Odd(h) && !Odd(h >> 1) && !Odd(h >> 2) && !Odd(h >> 3)
      && !Odd(h >> 4) && !Odd(h >> 5) && !Odd(h >> 6) && !Odd(h >> 7)
  {
  }

  /** The table recurrence is eight bit steps. */
  lemma TableStep(c: bv32)
    ensures Xor(Lookup(Low8(c)), Shift8(c)) == ByteStep(c)
  {
    hide *;
    SplitByte(c);
    ByteLinear(Word(Low8(c)), Upper(c));
    HighBits(c);
    TableCorrect(Low8(c));
  }

  // ---- the routine ---------------------------------------------------------------------

  /** ota_crc32: one table lookup a byte. */
  method OtaCrc32(seed: bv32, data: seq<bv8>) returns (crc: bv32)
    ensures crc == Crc(seed, data)
  {
    hide Xor, ByteStep, Lookup, Low8, Shift8, Word;
    crc := Xor(seed, 0xFFFF_FFFF);
    for i := 0 to |data|
      invariant Serial(crc, data[i..]) == Serial(Xor(seed, 0xFFFF_FFFF), data)
    {
      var x := Xor(crc, Word(data[i]));
      TableStep(x);
      ShiftIgnoresByte(crc, data[i]);
      assert data[i..][0] == data[i] && data[i..][1..] == data[i + 1..];
      crc := Xor(Lookup(Low8(x)), Shift8(crc));
    }
    assert data[|data|..] == [];
    crc := Xor(crc, 0xFFFF_FFFF);
  }

  lemma {:induction false} SerialConcat(reg: bv32, a: seq<bv8>, b: seq<bv8>)
    ensures Serial(reg, a + b) == Serial(Serial(reg, a), b)
    decreases |a|
  {
    hide ByteStep, Xor, Word;
    if a == [] {
      assert a + b == b;
    } else {
      assert (a + b)[0] == a[0] && (a + b)[1..] == a[1..] + b;
      SerialConcat(ByteStep(Xor(reg, Word(a[0]))), a[1..], b);
    }
  }

  /** A string fed in two calls, the second seeded with the first's result. */
  lemma Chaining(seed: bv32, a: seq<bv8>, b: seq<bv8>)
    ensures Crc(Crc(seed, a), b) == Crc(seed, a + b)
  {
    hide Xor, Serial;
    SerialConcat(Xor(seed, 0xFFFF_FFFF), a, b);
    XorTwice(Serial(Xor(seed, 0xFFFF_FFFF), a), 0xFFFF_FFFF);
  }

  function Flatten(chunks: seq<seq<bv8>>): seq<bv8> {
    if chunks == [] then [] else chunks[0] + Flatten(chunks[1..])
  }

  function Chained(seed: bv32, chunks: seq<seq<bv8>>): bv32
    decreases |chunks|
  {
    if chunks == [] then seed else Chained(Crc(seed, chunks[0]), chunks[1..])
  }

  /** Any cutting of a string into chunks, each call seeded with the last result, gives
      the value of one call over the whole string. */
  lemma {:induction false} AnyChunking(seed: bv32, chunks: seq<seq<bv8>>)
    ensures Chained(seed, chunks) == Crc(seed, Flatten(chunks))
    decreases |chunks|
  {
    hide Xor;
    if chunks == [] {
      XorTwice(seed, 0xFFFF_FFFF);
    } else {
      AnyChunking(Crc(seed, chunks[0]), chunks[1..]);
      Chaining(seed, chunks[0], Flatten(chunks[1..]));
    }
  }
}
