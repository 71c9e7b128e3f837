/** At-least-once delivery of OTA_WRITE_CHUNK requests (h_write and its replay rule). */
module OtaStream {
  import opened OtaLayout
  import opened Ota
  import Fmc
  import OtaSession

  /** What a chunk stream works on. */
  datatype Endpoint = Endpoint(s: Session, slot: Slot)

  function Off(req: seq<bv8>): nat
    requires |req| >= 5
  {
    Word(req, 0)
  }

  function End(req: seq<bv8>): nat
    requires |req| >= 5
  {
    Off(req) + |req| - 5
  }

  /** A request whose length byte is honest, aligned and inside the slot. */
  predicate WellFormed(req: seq<bv8>) {
    |req| > 5 && req[4] != 0 && req[4] as nat == |req| - 5 && Off(req) % GRANULE == 0 && End(req) <= SLOT_SIZE
  }

  /** The high-water mark that chunk `i` meets. */
  function Mark(reqs: seq<seq<bv8>>, from: nat, i: nat): nat
    requires i <= |reqs| && forall k | 0 <= k < |reqs| :: WellFormed(reqs[k])
  {
    if i == 0 then from else assert WellFormed(reqs[i - 1]); End(reqs[i - 1])
  }

  /** Chunk `i` starts at or above the high-water mark its predecessors leave, rounded up to
      a doubleword. */
  predicate Paced(reqs: seq<seq<bv8>>, from: nat) {
    && (forall i | 0 <= i < |reqs| :: WellFormed(reqs[i]))
    && (forall i | 0 <= i < |reqs| :: Off(reqs[i]) >= Fmc.Up8(Mark(reqs, from, i)))
  }

  /** Ready, and nothing is programmed at or above the high-water mark. */
  predicate Open(e: Endpoint) {
    && |e.slot.bytes| == SLOT_SIZE && e.s.state == Ready
    && forall d | d in e.slot.programmed :: d * 8 < Fmc.Up8(e.s.lastOff) || d >= SLOT_SIZE / 8
  }

  /** One delivery on working flash. */
  function Deliver(e: Endpoint, req: seq<bv8>): (r: Endpoint)
    requires |e.slot.bytes| == SLOT_SIZE
    ensures |r.slot.bytes| == SLOT_SIZE
  {
    var c := WriteChunk(e.s, e.slot, req, Clean);
    Endpoint(c.s, c.slot)
  }

  /** The duplicate-free stream of the first `n` chunks. */
  function InOrder(e: Endpoint, reqs: seq<seq<bv8>>, n: nat): (r: Endpoint)
    requires |e.slot.bytes| == SLOT_SIZE && n <= |reqs|
    ensures |r.slot.bytes| == SLOT_SIZE
  {
    if n == 0 then e else Deliver(InOrder(e, reqs, n - 1), reqs[n - 1])
  }

  /** The chunk's bytes are in the slot, below the mark. */
  predicate Landed(e: Endpoint, req: seq<bv8>)
    requires |e.slot.bytes| == SLOT_SIZE && WellFormed(req)
  {
    End(req) <= e.s.lastOff && e.slot.bytes[Off(req)..End(req)] == req[5..]
  }

  /** What arrives: the next chunk of the stream, or a request again, whole or cut anew. */
  datatype Delivery = NextChunk | Again(req: seq<bv8>)

  function Reach(d: Delivery, n: nat): nat { if d.NextChunk? then n + 1 else n }

  /** How many chunks a schedule has delivered. */
  function Reached(ds: seq<Delivery>, n: nat): nat
    decreases |ds|
  {
    if ds == [] then n else Reached(ds[1..], Reach(ds[0], n))
  }

  /** With `n` chunks delivered: each delivery is the next chunk, or a request whose bytes the
      delivered chunks have put below the mark. */
  predicate Schedule(e: Endpoint, reqs: seq<seq<bv8>>, n: nat, ds: seq<Delivery>)
    requires |e.slot.bytes| == SLOT_SIZE && n <= |reqs|
    decreases |ds|
  {
    ds == [] ||
    (&& (match ds[0]
         case NextChunk => n < |reqs|
         case Again(req) => WellFormed(req) && Landed(InOrder(e, reqs, n), req))
     && Schedule(e, reqs, Reach(ds[0], n), ds[1..]))
  }

  /** The request a delivery carries. */
  function Carried(d: Delivery, reqs: seq<seq<bv8>>, n: nat): seq<bv8>
    requires d.NextChunk? ==> n < |reqs|
  {
    if d.NextChunk? then reqs[n] else d.req
  }

  function Play(e: Endpoint, reqs: seq<seq<bv8>>, n: nat, ds: seq<Delivery>): (r: Endpoint)
    requires |e.slot.bytes| == SLOT_SIZE && Reached(ds, n) <= |reqs|
    ensures |r.slot.bytes| == SLOT_SIZE
    decreases |ds|
  {
    if ds == [] then e
    else
      ReachedGrows(ds, n);
      Play(Deliver(e, Carried(ds[0], reqs, n)), reqs, Reach(ds[0], n), ds[1..])
  }

  lemma {:induction false} ReachedGrows(ds: seq<Delivery>, n: nat)
    ensures Reached(ds, n) >= n
    ensures ds != [] ==> Reached(ds, n) >= Reach(ds[0], n)
    decreases |ds|
  {
    if ds != [] { ReachedGrows(ds[1..], Reach(ds[0], n)); }
  }

  /** The doublewords a delivery asks the flash to program. */
  function Attempted(e: Endpoint, req: seq<bv8>): set<nat>
    requires |e.slot.bytes| == SLOT_SIZE
  {
    if |req| >= 5 && WriteChunk(e.s, e.slot, req, Clean).programmed then Dwords(Off(req), |req| - 5) else {}
  }

  /** No delivery of a schedule is refused or asks to program a doubleword twice. */
  ghost predicate NeverTwice(e: Endpoint, reqs: seq<seq<bv8>>, n: nat, ds: seq<Delivery>)
    requires |e.slot.bytes| == SLOT_SIZE && Reached(ds, n) <= |reqs|
    decreases |ds|
  {
    if ds == [] then true
    else
      ReachedGrows(ds, n);
      var req := Carried(ds[0], reqs, n);
      && WriteChunk(e.s, e.slot, req, Clean).status == OK
      && Attempted(e, req) !! e.slot.programmed
      && NeverTwice(Deliver(e, req), reqs, Reach(ds[0], n), ds[1..])
  }

  // ---- one delivery -----------------------------------------------------------------------------------

  lemma Fresh(e: Endpoint, req: seq<bv8>)
    requires Open(e) && WellFormed(req) && Off(req) >= Fmc.Up8(e.s.lastOff)
    ensures var c := WriteChunk(e.s, e.slot, req, Clean);
      && c.status == OK && c.programmed && c.s == e.s.(lastOff := End(req))
      && Off(req) + Fmc.Up8(|req| - 5) <= SLOT_SIZE && c.slot == Stored(e.slot, Off(req), req[5..])
      && Attempted(e, req) !! e.slot.programmed
  {
    hide Word;
    var off, n := Off(req), |req| - 5;
    PaddingFits(off, n);
    forall d | d in Dwords(off, n) ensures d !in e.slot.programmed {
      assert off / 8 <= d < SLOT_SIZE / 8;
    }
  }

  lemma FreshLands(e: Endpoint, req: seq<bv8>)
    requires Open(e) && WellFormed(req) && Off(req) >= Fmc.Up8(e.s.lastOff)
    ensures Open(Deliver(e, req)) && Landed(Deliver(e, req), req)
  {
    hide Word;
    Fresh(e, req);
    hide WriteChunk;
    var off, z := Off(req), Deliver(e, req);
    assert forall d | d in Dwords(off, |req| - 5) :: d * 8 < Fmc.Up8(End(req));
    assert z.slot.bytes[off..End(req)] == req[5..];
  }

  lemma FreshKeeps(e: Endpoint, req: seq<bv8>, q: seq<bv8>)
    requires Open(e) && WellFormed(req) && Off(req) >= Fmc.Up8(e.s.lastOff) && WellFormed(q) && Landed(e, q)
    ensures Landed(Deliver(e, req), q)
  {
    hide Word;
    Fresh(e, req);
    hide WriteChunk, Open;
    assert e.s.lastOff <= Off(req);
    assert Deliver(e, req).slot.bytes[Off(q)..End(q)] == e.slot.bytes[Off(q)..End(q)];
  }

  lemma Repeated(e: Endpoint, req: seq<bv8>)
    requires Open(e) && WellFormed(req) && Landed(e, req)
    ensures Deliver(e, req) == e && WriteChunk(e.s, e.slot, req, Clean).status == OK && Attempted(e, req) == {}
  {
    hide Word;
  }

  // ---- streams ----------------------------------------------------------------------------------------

  /** The state after `n` chunks in order. */
  lemma {:induction false} InOrderLands(e: Endpoint, reqs: seq<seq<bv8>>, n: nat)
    requires Open(e) && Paced(reqs, e.s.lastOff) && n <= |reqs|
    ensures var z := InOrder(e, reqs, n);
      && Open(z) && z.s.lastOff == Mark(reqs, e.s.lastOff, n)
      && forall i | 0 <= i < n :: Landed(z, reqs[i])
  {
    hide Open, Landed, Stored, Dwords, Word, WriteChunk, WellFormed, Paced, Off, End, Fmc.Up8;
    PacedOpen(e, reqs);
    if n > 0 {
      InOrderLands(e, reqs, n - 1);
      var z, req := InOrder(e, reqs, n - 1), reqs[n - 1];
      NextPaced(reqs, e.s.lastOff, n - 1);
      Fresh(z, req);
      FreshLands(z, req);
      forall i | 0 <= i < n - 1 ensures Landed(Deliver(z, req), reqs[i]) {
        NextPaced(reqs, e.s.lastOff, i);
        FreshKeeps(z, req, reqs[i]);
      }
    }
  }

  lemma PacedOpen(e: Endpoint, reqs: seq<seq<bv8>>)
    requires Open(e) && Paced(reqs, e.s.lastOff)
    ensures |e.slot.bytes| == SLOT_SIZE && forall k | 0 <= k < |reqs| :: WellFormed(reqs[k])
  {
  }

  lemma NextPaced(reqs: seq<seq<bv8>>, from: nat, i: nat)
    requires Paced(reqs, from) && i < |reqs|
    ensures WellFormed(reqs[i]) && Off(reqs[i]) >= Fmc.Up8(Mark(reqs, from, i))
    ensures Mark(reqs, from, i + 1) == End(reqs[i])
  {
    hide Word;
    assert WellFormed(reqs[i]);
  }

  /** The slot that READY is published over can take a stream. */
  lemma ErasedSlotIsOpen(y: System)
    requires y.Wf() && OtaSession.WhollyErased(y) && y.s.state == Ready
    ensures Open(Endpoint(y.s, y.Target()))
  {
  }

  /** A request cut anew from a delivered chunk has landed. */
  lemma RecutLands(e: Endpoint, req: seq<bv8>, cut: seq<bv8>)
    requires Open(e) && WellFormed(req) && Landed(e, req) && WellFormed(cut)
    requires Off(req) <= Off(cut) && End(cut) <= End(req)
    requires cut[5..] == req[5..][Off(cut) - Off(req)..End(cut) - Off(req)]
    ensures Landed(e, cut)
  {
    hide Word;
    SliceOfSlice(e.slot.bytes, Off(req), End(req), Off(cut) - Off(req), End(cut) - Off(req));
  }

  lemma SliceOfSlice(b: seq<bv8>, lo: nat, hi: nat, i: nat, j: nat)
    requires lo <= hi <= |b| && i <= j <= hi - lo
    ensures b[lo..hi][i..j] == b[lo + i..lo + j]
  {
    var x, y := b[lo..hi][i..j], b[lo + i..lo + j];
    assert |x| == |y|;
    forall k | 0 <= k < |x| ensures x[k] == y[k] {
      assert x[k] == b[lo..hi][i + k] == b[lo + (i + k)];
      assert y[k] == b[(lo + i) + k];
    }
  }

  /** Any schedule of duplicates, whole or cut anew, leaves the slot, the mark and the session
      as the duplicate-free stream of the same chunks does, is never refused, and programs no
      doubleword twice. */
  lemma {:induction false} Idempotent(e: Endpoint, reqs: seq<seq<bv8>>, n: nat, ds: seq<Delivery>)
    requires Open(e) && Paced(reqs, e.s.lastOff) && n <= |reqs| && Schedule(e, reqs, n, ds)
    ensures Reached(ds, n) <= |reqs|
    ensures Play(InOrder(e, reqs, n), reqs, n, ds) == InOrder(e, reqs, Reached(ds, n))
    ensures NeverTwice(InOrder(e, reqs, n), reqs, n, ds)
    decreases |ds|
  {
    hide Word, WriteChunk, Stored, Open, Landed, Dwords, WellFormed, Paced, Off, End, Fmc.Up8;
    PacedOpen(e, reqs);
    if ds != [] {
      var z := InOrder(e, reqs, n);
      InOrderLands(e, reqs, n);
      if ds[0].NextChunk? {
        NextPaced(reqs, e.s.lastOff, n);
        Fresh(z, reqs[n]);
        Idempotent(e, reqs, n + 1, ds[1..]);
      } else {
        Repeated(z, ds[0].req);
        Idempotent(e, reqs, n, ds[1..]);
      }
    }
  }
}
