/** On-flash OTA structures and the boot decision (src/ota_layout.h, src/boot/boot_decide.c). */
module OtaLayout {
  import opened Wrappers
  import Crc32
  import Fmc

  const SLOT_SIZE := Fmc.SLOT_SIZE
  const COUNTER_LIMIT := 0xFFFF_FFF0
  const BEGIN_MAX_COUNTER := COUNTER_LIMIT - 3

  /** One slot's entry of the metadata record. */
  datatype Desc = Desc(valid: bool, fw: nat, len: nat, crc: bv32)

  /** ota_meta_record_t, decoded. `active` is a byte and may hold anything. */
  datatype Record = Record(counter: nat, active: nat, flags: nat, a: Desc, b: Desc) {
    function D(s: nat): Desc { if s == 0 then a else b }
    function With(s: nat, d: Desc): Record { if s == 0 then this.(a := d) else this.(b := d) }
    /** OTA_META_FLAG_TRIAL. */
    predicate Trial() { flags % 2 == 1 }
  }

  const ZERO_DESC := Desc(false, 0, 0, 0)
  const ZERO_RECORD := Record(0, 0, 0, ZERO_DESC, ZERO_DESC)

  /** A metadata page: blank, torn or foreign content, or a record whose CRC holds. */
  datatype Page = Invalid | Valid(rec: Record)

  /** A slot's bytes, and the doublewords programmed since they were last erased. */
  datatype Slot = Slot(bytes: seq<bv8>, programmed: set<nat>)

  datatype Flash = Flash(p0: Page, p1: Page, a: Slot, b: Slot) {
    function P(i: nat): Page { if i == 0 then p0 else p1 }
    function WithPage(i: nat, p: Page): Flash { if i == 0 then this.(p0 := p) else this.(p1 := p) }
    function S(s: nat): Slot { if s == 0 then a else b }
    function WithSlot(s: nat, x: Slot): Flash { if s == 0 then this.(a := x) else this.(b := x) }
    predicate Sized() { |a.bytes| == SLOT_SIZE && |b.bytes| == SLOT_SIZE }
  }

  function Other(s: nat): nat { if s == 0 then 1 else 0 }

  /** ota_slot_base_checked. */
  function Base(s: nat): nat
    requires s < 2
  {
    if s == 0 then Fmc.SLOT_A_BASE else Fmc.SLOT_B_BASE
  }

  // ---- image checks -------------------------------------------------------------------------

  function Join(a: bv8, b: bv8, c: bv8, d: bv8): bv32 {
    (a as bv32) | ((b as bv32) << 8) | ((c as bv32) << 16) | ((d as bv32) << 24)
  }

  /** rd_u32, as a bit pattern and as a number. */
  function Bits(bytes: seq<bv8>, off: nat): bv32
    requires off + 4 <= |bytes|
  {
    Join(bytes[off], bytes[off + 1], bytes[off + 2], bytes[off + 3])
  }

  function Word(bytes: seq<bv8>, off: nat): nat
    requires off + 4 <= |bytes|
  {
    Bits(bytes, off) as nat
  }

  /** wr_u32: byte `i` of a word. */
  function ByteOf(c: bv32, i: nat): bv8
    requires i < 4
  {
    match i
    case 0 => (c & 0xFF) as bv8
    case 1 => ((c >> 8) & 0xFF) as bv8
    case 2 => ((c >> 16) & 0xFF) as bv8
    case 3 => ((c >> 24) & 0xFF) as bv8
  }

  lemma JoinBytes(c: bv32)
    ensures Join(ByteOf(c, 0), ByteOf(c, 1), ByteOf(c, 2), ByteOf(c, 3)) == c
  {
  }

  /** ota_image_bootable. */
  predicate Bootable(base: nat, img: seq<bv8>, len: nat) {
    && len >= 8 && |img| >= 8
    && var msp, reset := Bits(img, 0), Bits(img, 4);
    && msp & 3 == 0 && 0x2000_0000 <= msp <= 0x2001_8000
    && reset & 1 == 1 && base <= (reset & 0xFFFF_FFFE) as nat < base + len
  }

  const MAGIC: seq<bv8> :=
    [0x47, 0x44, 0x33, 0x32, 0x42, 0x52, 0x49, 0x44, 0x47, 0x45, 0x2D, 0x54, 0x52, 0x49, 0x41, 0x4C]
  const SCAN_LIMIT := 2048
  const MARKER_MIN := 64
  const MARKER_SIZE := 20

  function ScanLimit(len: nat): nat { if len < SCAN_LIMIT then len else SCAN_LIMIT }

  /** An offset the marker scan visits. */
  predicate Visited(img: seq<bv8>, len: nat, off: nat) {
    MARKER_MIN <= off && off % 4 == 0 && off + MARKER_SIZE <= ScanLimit(len) <= |img|
  }

  predicate MagicAt(img: seq<bv8>, off: nat)
    requires off + MARKER_SIZE <= |img|
  {
    img[off..off + 16] == MAGIC
  }

  predicate ConfirmCapable(img: seq<bv8>, off: nat)
    requires off + MARKER_SIZE <= |img|
  {
    && img[off + 16] == 1 && img[off + 17] == 0           // struct_version == 1
    && img[off + 18] & 1 == 1                             // OTA_TRIAL_CAP_CONFIRM
  }

  /** ota_image_trial_capable as a scan from `off`. */
  predicate CapableFrom(img: seq<bv8>, len: nat, off: nat)
    requires ScanLimit(len) <= |img| && off % 4 == 0 && MARKER_MIN <= off
    decreases SCAN_LIMIT - off
  {
    off + MARKER_SIZE <= ScanLimit(len) &&
    if MagicAt(img, off) then ConfirmCapable(img, off) else CapableFrom(img, len, off + 4)
  }

  predicate TrialCapable(img: seq<bv8>, len: nat)
    requires ScanLimit(len) <= |img|
  {
    CapableFrom(img, len, MARKER_MIN)
  }

  /** What the scan decides: the first visited magic must carry the confirm capability. */
  ghost predicate FirstMarkerCapable(img: seq<bv8>, len: nat, from: nat) {
    exists off :: from <= off && Visited(img, len, off) && MagicAt(img, off) && ConfirmCapable(img, off)
      && forall k | from <= k < off && Visited(img, len, k) :: !MagicAt(img, k)
  }

  lemma {:induction false} CapableMeansFirstMarker(img: seq<bv8>, len: nat, off: nat)
    requires ScanLimit(len) <= |img| && off % 4 == 0 && MARKER_MIN <= off
    ensures CapableFrom(img, len, off) <==> FirstMarkerCapable(img, len, off)
    decreases SCAN_LIMIT - off
  {
    if off + MARKER_SIZE <= ScanLimit(len) {
      assert Visited(img, len, off);
      if !MagicAt(img, off) {
        CapableMeansFirstMarker(img, len, off + 4);
        forall k | off < k < off + 4 ensures !Visited(img, len, k) {}
      }
    }
  }

  /** ota_image_trial_capable: the scanning loop. */
  method ImageTrialCapable(img: seq<bv8>, len: nat) returns (capable: bool)
    requires ScanLimit(len) <= |img|
    ensures capable == TrialCapable(img, len)
  {
    if ScanLimit(len) < MARKER_SIZE { return false; }
    var off := MARKER_MIN;
    while off + MARKER_SIZE <= ScanLimit(len)
      invariant MARKER_MIN <= off && off % 4 == 0
      invariant TrialCapable(img, len) == CapableFrom(img, len, off)
      decreases SCAN_LIMIT - off
    {
      if MagicAt(img, off) {
        return ConfirmCapable(img, off);
      }
      off := off + 4;
    }
    return false;
  }

  /** The image a record's entry describes is in the slot, whole and bootable. */
  predicate ImageMatches(f: Flash, s: nat, d: Desc)
    requires s < 2 && f.Sized()
  {
    && 1 <= d.len <= SLOT_SIZE
    && Crc32.Crc(0, f.S(s).bytes[..d.len]) == d.crc
    && Bootable(Base(s), f.S(s).bytes, d.len)
  }

  /** active_slot_valid of the bootloader. */
  predicate ActiveSlotValid(f: Flash, r: Record)
    requires f.Sized()
  {
    r.active < 2 && r.D(r.active).valid && ImageMatches(f, r.active, r.D(r.active))
  }

  // ---- anti-rollback floor --------------------------------------------------------------------

  /** ota_version_floor. */
  function Floor(r: Record): nat {
    if r.active >= 2 then 0
    else if r.Trial() then r.D(Other(r.active)).fw else r.D(r.active).fw
  }

  // ---- candidate selection ----------------------------------------------------------------------

  datatype Newest = Newest(rec: Record, page: nat)

  /** meta_pick_newest: highest counter, page 0 on a tie. */
  function PickNewest(f: Flash): Option<Newest> {
    match (f.p0, f.p1)
    case (Valid(x), Valid(y)) => if x.counter >= y.counter then Some(Newest(x, 0)) else Some(Newest(y, 1))
    case (Valid(x), Invalid) => Some(Newest(x, 0))
    case (Invalid, Valid(y)) => Some(Newest(y, 1))
    case (Invalid, Invalid) => None
  }

  /** meta_candidates: the valid records, newest first. */
  function Candidates(f: Flash): seq<Record> {
    match (f.p0, f.p1)
    case (Valid(x), Valid(y)) => if x.counter >= y.counter then [x, y] else [y, x]
    case (Valid(x), Invalid) => [x]
    case (Invalid, Valid(y)) => [y]
    case (Invalid, Invalid) => []
  }

  /** ota_boot_candidate_ok. */
  predicate CandidateOk(r: Record, wdt: bool) { !(r.Trial() && wdt) }

  datatype Selection = Selection(index: int, lastResort: bool)

  predicate IsSelection(c: seq<Record>, valid: seq<bool>, wdt: bool, x: Selection)
    requires |c| == |valid|
  {
    if exists i | 0 <= i < |c| :: valid[i] && CandidateOk(c[i], wdt) then
      && !x.lastResort && 0 <= x.index < |c| && valid[x.index] && CandidateOk(c[x.index], wdt)
      && forall i | 0 <= i < x.index :: !(valid[i] && CandidateOk(c[i], wdt))
    else if exists i | 0 <= i < |c| :: valid[i] then
      && x.lastResort && 0 <= x.index < |c| && valid[x.index]
      && forall i | 0 <= i < x.index :: !valid[i]
    else
      !x.lastResort && x.index == -1
  }

  /** ota_boot_select: the strict pass, then the last-resort pass. */
  method BootSelect(c: seq<Record>, valid: seq<bool>, wdt: bool) returns (x: Selection)
    requires |c| == |valid|
    ensures IsSelection(c, valid, wdt, x)
  {
    for i := 0 to |c|
      invariant forall k | 0 <= k < i :: !(valid[k] && CandidateOk(c[k], wdt))
    {
      if valid[i] && CandidateOk(c[i], wdt) {
        return Selection(i, false);
      }
    }
    for i := 0 to |c|
      invariant forall k | 0 <= k < i :: !valid[k]
    {
      if valid[i] && !CandidateOk(c[i], wdt) {
        return Selection(i, true);
      }
    }
    return Selection(-1, false);
  }

  datatype Decision = Decision(slot: nat, trial: bool, lastResort: bool)

  function DecisionFor(r: Record, lastResort: bool): Decision {
    Decision(r.active, r.Trial(), lastResort)
  }

  /** boot_decide_slot as a function: the first acceptable candidate, else the first valid. */
  function Decide(f: Flash, wdt: bool): (d: Option<Decision>)
    requires f.Sized()
    ensures d.Some? ==> d.value.slot < 2
  {
    var c := Candidates(f);
    if |c| > 0 && ActiveSlotValid(f, c[0]) && CandidateOk(c[0], wdt) then Some(DecisionFor(c[0], false))
    else if |c| > 1 && ActiveSlotValid(f, c[1]) && CandidateOk(c[1], wdt) then Some(DecisionFor(c[1], false))
    else if |c| > 0 && ActiveSlotValid(f, c[0]) then Some(DecisionFor(c[0], true))
    else if |c| > 1 && ActiveSlotValid(f, c[1]) then Some(DecisionFor(c[1], true))
    else None
  }

  /** boot_decide_slot: order the records, validate each image, select. */
  method BootDecideSlot(f: Flash, wdt: bool) returns (d: Option<Decision>)
    requires f.Sized()
    ensures d == Decide(f, wdt)
  {
    hide ActiveSlotValid, CandidateOk;
    var c := Candidates(f);
    var valid: seq<bool> := [];
    for i := 0 to |c|
      invariant |valid| == i && forall k | 0 <= k < i :: valid[k] == ActiveSlotValid(f, c[k])
    {
      valid := valid + [ActiveSlotValid(f, c[i])];
    }
    var x := BootSelect(c, valid, wdt);
    if x.index < 0 { return None; }
    return Some(DecisionFor(c[x.index], x.lastResort));
  }
}
