/** Chunked upload of one DSP stage blob (bridge_hw_adc_dsp_stage_push in
    hal/gd32/adc_dsp_chain.c): a coverage bitmap over a byte buffer. */
module DspStage {

  const MAX_BYTES := 260
  const COVERAGE_BYTES := (MAX_BYTES + 7) / 8
  const KIND_MAX := 3

  // ---- the upload as a value --------------------------------------------------------------------

  /** Declared kind and size (0: untouched), and the bytes received by offset. */
  datatype Upload = Upload(kind: nat, total: nat, got: map<nat, bv8>) {
    predicate Complete() { total > 0 && forall i | 0 <= i < total :: i in got }
  }

  const EMPTY := Upload(0, 0, map[])

  datatype Chunk = Chunk(kind: nat, off: nat, total: nat, data: seq<bv8>)

  datatype Status = OK | RANGE | INVAL

  datatype Pushed = Pushed(up: Upload, status: Status)

  /** The argument checks, in the source's order. */
  function Refusal(c: Chunk): Status {
    if c.kind > KIND_MAX || c.total == 0 then INVAL
    else if c.total > MAX_BYTES then RANGE
    else if c.data == [] then INVAL
    else if c.off > c.total || |c.data| > c.total - c.off then RANGE
    else OK
  }

  function ChunkMap(c: Chunk): (m: map<nat, bv8>)
    ensures forall i: nat :: i in m <==> c.off <= i < c.off + |c.data|
    ensures forall i | i in m :: m[i] == c.data[i - c.off]
  {
    map i: nat | c.off <= i < c.off + |c.data| && InChunk(c, i) :: c.data[i - c.off]
  }

  predicate InChunk(c: Chunk, i: nat) { c.off <= i < c.off + |c.data| }

  /** A received byte disagrees with the chunk. */
  predicate Conflicts(got: map<nat, bv8>, c: Chunk) {
    exists i | 0 <= i < |c.data| :: c.off + i in got && got[c.off + i] != c.data[i]
  }

  /** bridge_hw_adc_dsp_stage_push on an open, unbound chain's stage. */
  function Push(up: Upload, c: Chunk): Pushed {
    if Refusal(c) != OK then Pushed(up, Refusal(c))
    else
      var other := up.total != 0 && (up.kind != c.kind || up.total != c.total);
      if other && c.off != 0 then Pushed(up, INVAL)
      else
        var got := if up.total == 0 || other then map[] else up.got;
        if Conflicts(got, c) then
          if c.off != 0 || |c.data| != c.total then Pushed(up, INVAL)
          else Pushed(Upload(c.kind, c.total, ChunkMap(c)), OK)
        else Pushed(Upload(c.kind, c.total, got + ChunkMap(c)), OK)
  }

  predicate Valid(up: Upload) {
    && up.total <= MAX_BYTES && (forall i | i in up.got :: i < up.total)
  }

  lemma PushKeeps(up: Upload, c: Chunk)
    requires Valid(up)
    ensures Valid(Push(up, c).up)
    ensures Push(up, c).status != OK ==> Push(up, c).up == up
  {
  }

  /** The chunk belongs to the upload in progress. */
  predicate Same(up: Upload, c: Chunk) { up.total != 0 && up.kind == c.kind && up.total == c.total }

  predicate Whole(c: Chunk) { c.off == 0 && |c.data| == c.total }

  /** A chunk with good arguments is accepted if and only if it is a whole blob, or agrees with
      what the same upload holds, or starts a new upload: anything on an untouched stage, and
      elsewhere a first chunk. A whole blob or a new upload forgets the bytes held before. */
  lemma PushExact(up: Upload, c: Chunk)
    requires Valid(up)
    ensures var r := Push(up, c);
      && (r.status == OK <==>
            Refusal(c) == OK
            && (Whole(c) || (if Same(up, c) then !Conflicts(up.got, c) else up.total == 0 || c.off == 0)))
      && (r.status == OK ==>
            && r.up.kind == c.kind && r.up.total == c.total
            && (forall i | c.off <= i < c.off + |c.data| :: i in r.up.got && r.up.got[i] == c.data[i - c.off])
            && (forall i: nat | !(c.off <= i < c.off + |c.data|) ::
                  (i in r.up.got <==> Same(up, c) && i in up.got) && (i in r.up.got ==> r.up.got[i] == up.got[i])))
      && (r.status == OK && Whole(c) ==> r.up.Complete())
  {
    hide ChunkMap, Conflicts;
    NothingHeld(c);
    var r, m := Push(up, c), ChunkMap(c);
    if r.status == OK { assert r.up.got == m || (Same(up, c) && r.up.got == up.got + m); }
  }

  lemma NothingHeld(c: Chunk)
    ensures !Conflicts(map[], c)
  {
  }

  // ---- any delivery of one blob ---------------------------------------------------------------------

  /** A cut [off, off + len) of a blob of kind `kind`. */
  datatype Cut = Cut(off: nat, len: nat)

  predicate Fits(blob: seq<bv8>, x: Cut) { x.len > 0 && x.off + x.len <= |blob| }

  function ChunkOf(kind: nat, blob: seq<bv8>, x: Cut): Chunk
    requires Fits(blob, x)
  {
    Chunk(kind, x.off, |blob|, blob[x.off..x.off + x.len])
  }

  function PushAll(kind: nat, blob: seq<bv8>, xs: seq<Cut>): Upload
    requires forall i | 0 <= i < |xs| :: Fits(blob, xs[i])
  {
    if xs == [] then EMPTY
    else Push(PushAll(kind, blob, xs[..|xs| - 1]), ChunkOf(kind, blob, xs[|xs| - 1])).up
  }

  /** Some cut covers the offset. */
  predicate Covered(xs: seq<Cut>, i: nat) { exists k | 0 <= k < |xs| :: xs[k].off <= i < xs[k].off + xs[k].len }

  /** Chunks of one blob in any order, overlapping and repeated, are all accepted; exactly the
      covered bytes are held, with the blob's values; and the stage is complete exactly when
      the cuts cover the blob. */
  lemma {:induction false} AnyOrder(kind: nat, blob: seq<bv8>, xs: seq<Cut>)
    requires kind <= KIND_MAX && 0 < |blob| <= MAX_BYTES && forall i | 0 <= i < |xs| :: Fits(blob, xs[i])
    ensures var up := PushAll(kind, blob, xs);
      && (xs != [] ==> up.kind == kind && up.total == |blob|) && (xs == [] ==> up == EMPTY)
      && (forall i: nat :: i in up.got <==> Covered(xs, i))
      && (forall i | i in up.got :: i < |blob| && up.got[i] == blob[i])
      && (up.Complete() <==> forall i | 0 <= i < |blob| :: Covered(xs, i))
  {
    hide Push, Conflicts, ChunkMap, Covered;
    if xs == [] {
      NothingCovered();
      assert !Covered(xs, 0);
    } else {
      var init, x := xs[..|xs| - 1], xs[|xs| - 1];
      AnyOrder(kind, blob, init);
      CoverExtends(xs);
      AcceptedPush(PushAll(kind, blob, init), ChunkOf(kind, blob, x), blob);
    }
  }

  lemma NothingCovered()
    ensures forall i: nat :: !Covered([], i)
  {
  }

  lemma AcceptedPush(up: Upload, c: Chunk, blob: seq<bv8>)
    requires Refusal(c) == OK && c.total == |blob| && c.data == blob[c.off..c.off + |c.data|]
    requires up.total == 0 ==> up.got == map[]
    requires up.total == 0 || (up.kind == c.kind && up.total == c.total)
    requires forall i | i in up.got :: i < |blob| && up.got[i] == blob[i]
    ensures Push(up, c) == Pushed(Upload(c.kind, c.total, up.got + ChunkMap(c)), OK)
    ensures forall i | i in Push(up, c).up.got :: i < |blob| && Push(up, c).up.got[i] == blob[i]
  {
    assert !Conflicts(up.got, c);
  }

  lemma CoverExtends(xs: seq<Cut>)
    requires xs != []
    ensures var x := xs[|xs| - 1];
      forall i: nat :: Covered(xs, i) <==> Covered(xs[..|xs| - 1], i) || x.off <= i < x.off + x.len
  {
    var n := |xs| - 1;
    forall i: nat ensures Covered(xs, i) <==> Covered(xs[..n], i) || xs[n].off <= i < xs[n].off + xs[n].len {
      if Covered(xs[..n], i) {
        var k :| 0 <= k < n && xs[..n][k].off <= i < xs[..n][k].off + xs[..n][k].len;
        assert xs[k] == xs[..n][k];
      }
      if Covered(xs, i) {
        var k :| 0 <= k < |xs| && xs[k].off <= i < xs[k].off + xs[k].len;
        assert k < n ==> xs[..n][k] == xs[k];
      }
    }
  }

  // ---- the bitmap ---------------------------------------------------------------------------------------

  function Mask(bit: nat): bv8
    requires bit < 8
  {
    match bit
    case 0 => 0x01 case 1 => 0x02 case 2 => 0x04 case 3 => 0x08
    case 4 => 0x10 case 5 => 0x20 case 6 => 0x40 case 7 => 0x80
  }

  predicate Bit(byte: bv8, bit: nat)
    requires bit < 8
  {
    byte & Mask(bit) != 0
  }

  function WithBit(byte: bv8, bit: nat): (r: bv8)
    requires bit < 8
    ensures forall k: nat | k < 8 :: Bit(r, k) <==> k == bit || Bit(byte, k)
  {
    byte | Mask(bit)
  }

  lemma NoBits(bit: nat)
    requires bit < 8
    ensures !Bit(0, bit)
  {
  }

  function Below(n: nat): (s: set<nat>)
    ensures |s| == n && forall i: nat :: i in s <==> i < n
  {
    if n == 0 then {} else Below(n - 1) + {n - 1}
  }

  /** A set of offsets below n has n elements exactly when it has them all. */
  lemma FullCount(keys: set<nat>, n: nat)
    requires forall i | i in keys :: i < n
    ensures |keys| <= n && (|keys| == n <==> forall i | 0 <= i < n :: i in keys)
  {
    var rest := Below(n) - keys;
    assert keys + rest == Below(n) && keys !! rest;
    assert |keys| + |rest| == n;
    assert rest == {} <==> forall i | 0 <= i < n :: i in keys;
  }

  // ---- the module's own form ------------------------------------------------------------------------------

  /** adc_dsp_stage_t. `got` mirrors what the bitmap and the buffer hold. */
  class Stage {
    var kind: nat
    var total: nat              // total_size
    var received: nat           // bytes_received
    var complete: bool
    const coverage: array<bv8>
    const data: array<bv8>
    ghost var got: map<nat, bv8>

    predicate Received(i: nat)
      requires coverage.Length == COVERAGE_BYTES && i < MAX_BYTES
      reads coverage
    {
      Bit(coverage[i / 8], i % 8)
    }

    /** Bitmap, buffer and count say what `got` says. */
    ghost predicate Mirrors()
      reads this, coverage, data
    {
      && coverage.Length == COVERAGE_BYTES && data.Length == MAX_BYTES && coverage != data
      && (forall i: nat | i < MAX_BYTES :: i in got <==> Received(i))
      && (forall i | i in got :: i < MAX_BYTES && got[i] == data[i])
      && received == |got|
    }

    ghost predicate Valid()
      reads this, coverage, data
    {
      && Mirrors() && total <= MAX_BYTES && (total == 0 ==> got == map[])
      && (forall i | i in got :: i < total)
      && (complete <==> Abs().Complete())
    }

    ghost function Abs(): Upload
      reads this
    {
      Upload(kind, total, got)
    }

    constructor ()
      ensures Valid() && fresh(coverage) && fresh(data) && Abs() == EMPTY
    {
      coverage, data := new bv8[COVERAGE_BYTES](_ => 0), new bv8[MAX_BYTES](_ => 0);
      kind, total, received, complete, got := 0, 0, 0, false, map[];
      new;
      forall i: nat | i < MAX_BYTES ensures !Received(i) { NoBits(i % 8); }
    }

    /** The memset of a stage that starts over. */
    method Clear()
      requires Mirrors()
      modifies this, coverage, data
      ensures Mirrors() && got == map[] && received == 0
      ensures kind == 0 && total == 0 && !complete
    {
      hide Bit;
      for i := 0 to COVERAGE_BYTES
        invariant forall k | 0 <= k < i :: coverage[k] == 0
      {
        coverage[i] := 0;
      }
      for i := 0 to MAX_BYTES
        invariant forall k | 0 <= k < COVERAGE_BYTES :: coverage[k] == 0
      {
        data[i] := 0;
      }
      kind, total, received, complete, got := 0, 0, 0, false, map[];
      forall i: nat | i < MAX_BYTES ensures !Received(i) { NoBits(i % 8); }
    }

    method Restart(c: Chunk)
      requires Mirrors()
      modifies this, coverage, data
      ensures Mirrors() && got == map[] && kind == c.kind && total == c.total && !complete
    {
      hide Received;
      Clear();
      kind, total := c.kind, c.total;
    }

    /** The scan for a received byte that disagrees. */
    method FindConflict(c: Chunk) returns (found: bool)
      requires Mirrors() && c.off + |c.data| <= MAX_BYTES
      ensures found == Conflicts(got, c)
    {
      hide Bit;
      for i := 0 to |c.data|
        invariant forall k | 0 <= k < i :: !(c.off + k in got && got[c.off + k] != c.data[k])
      {
        if Received(c.off + i) && data[c.off + i] != c.data[i] {
          assert c.off + i in got;
          return true;
        }
      }
      return false;
    }

    /** One byte of the store loop. */
    method StoreByte(offset: nat, b: bv8)
      requires Mirrors() && offset < MAX_BYTES && (offset in got ==> got[offset] == b)
      modifies coverage, data, this`received, this`got
      ensures Mirrors() && got == old(got)[offset := b]
    {
      if Received(offset) { return; }
      data[offset] := b;
      coverage[offset / 8] := WithBit(coverage[offset / 8], offset % 8);
      received := received + 1;
      got := got[offset := b];
      hide Bit, WithBit;
      forall i: nat | i < MAX_BYTES ensures i in got <==> Received(i) {
        if i / 8 == offset / 8 { assert i % 8 == offset % 8 ==> i == offset; }
      }
    }

    method StoreChunk(c: Chunk)
      requires Mirrors() && c.off + |c.data| <= MAX_BYTES && !Conflicts(got, c)
      modifies coverage, data, this`received, this`got
      ensures Mirrors() && got == old(got) + ChunkMap(c)
    {
      hide Mirrors, ChunkMap;
      PartStart(got, c);
      for i := 0 to |c.data|
        invariant Mirrors() && got == old(got) + ChunkMap(Part(c, i))
      {
        PartStep(old(got), c, i);
        StoreByte(c.off + i, c.data[i]);
      }
    }

    /** The metadata decision: seed, carry on, or start over. */
    method Seed(c: Chunk) returns (ok: bool)
      requires Valid() && Refusal(c) == OK
      modifies this, coverage, data
      ensures var other := old(total) != 0 && (old(kind) != c.kind || old(total) != c.total);
        && ok == !(other && c.off != 0)
        && (ok ==> Mirrors() && kind == c.kind && total == c.total && got == (if other then map[] else old(got)))
        && (!ok ==> Valid() && Abs() == old(Abs()))
        && (old(total) != 0 && !other ==> Valid() && Abs() == old(Abs()))
    {
      hide Received;
      if total == 0 {
        kind, total, received, complete := c.kind, c.total, 0, false;
      } else if kind != c.kind || total != c.total {
        if c.off != 0 { return false; }
        Restart(c);
      }
      ok := true;
    }

    /** Stores an accepted chunk and settles the completion flag. */
    method Settle(c: Chunk)
      requires Mirrors() && Refusal(c) == OK && !Conflicts(got, c) && total == c.total
      requires forall i | i in got :: i < total
      modifies this, coverage, data
      ensures Valid() && Abs() == Upload(old(kind), old(total), old(got) + ChunkMap(c))
    {
      hide Mirrors, ChunkMap;
      StoreChunk(c);
      FlagComplete();
    }

    method FlagComplete()
      requires Mirrors() && 0 < total <= MAX_BYTES && forall i | i in got :: i < total
      modifies this`complete
      ensures Valid()
    {
      hide Received;
      FullCount(got.Keys, total);
      assert |got.Keys| == |got|;
      complete := received == total;
    }

    /** bridge_hw_adc_dsp_stage_push after its chain checks. */
    method PushChunk(c: Chunk) returns (status: Status)
      requires Valid()
      modifies this, coverage, data
      ensures Valid()
      ensures Push(old(Abs()), c) == Pushed(Abs(), status)
    {
      hide Received, ChunkMap, Mirrors;
      status := Refusal(c);
      if status != OK { return; }
      var ok := Seed(c);
      if !ok { return INVAL; }
      var conflict := FindConflict(c);
      if conflict {
        if c.off != 0 || |c.data| != c.total { return INVAL; }
        Restart(c);
        assert !Conflicts(map[], c);
        assert map[] + ChunkMap(c) == ChunkMap(c);
      }
      Settle(c);
    }
  }

  /** The first `i` bytes of a chunk. */
  function Part(c: Chunk, i: nat): Chunk
    requires i <= |c.data|
  {
    c.(data := c.data[..i])
  }

  lemma PartStart(got: map<nat, bv8>, c: Chunk)
    ensures got + ChunkMap(Part(c, 0)) == got && Part(c, |c.data|) == c
  {
  }

  lemma ChunkMapStep(c: Chunk, i: nat)
    requires i < |c.data|
    ensures ChunkMap(Part(c, i + 1)) == ChunkMap(Part(c, i))[c.off + i := c.data[i]]
  {
    hide ChunkMap;
  }

  lemma AddThenUpdate(a: map<nat, bv8>, b: map<nat, bv8>, k: nat, v: bv8)
    ensures (a + b)[k := v] == a + b[k := v]
  {
  }

  lemma PartStep(got: map<nat, bv8>, c: Chunk, i: nat)
    requires i < |c.data| && !Conflicts(got, c)
    ensures var now := got + ChunkMap(Part(c, i));
      && now[c.off + i := c.data[i]] == got + ChunkMap(Part(c, i + 1))
      && (c.off + i in now ==> now[c.off + i] == c.data[i])
  {
    hide ChunkMap;
    ChunkMapStep(c, i);
    AddThenUpdate(got, ChunkMap(Part(c, i)), c.off + i, c.data[i]);
  }
}
