/** The flash funnel (hal/fmc_ota.c, hal/fmc_ota_guard.h): the address guard, the page
    mapping of both bank modes, the erase and program walks, and the ownership interlock. */
module Fmc {

  const U32_MAX := 0xFFFF_FFFF
  const FLASH_BASE := 0x0800_0000
  const FLASH_END := 0x0808_0000
  const BANK1_BASE := 0x0804_0000
  const BOOTLOADER_SIZE := 0x8000
  const META_BASE := 0x0800_8000
  const SLOT_A_BASE := 0x0800_A000
  const SLOT_B_BASE := 0x0804_0000
  const CONFIG_BASE := 0x0807_6000
  const SLOT_SIZE := 0x3_6000
  const PAGE_SIZE := 0x800        // layout granule
  const PAGE_DUAL := 0x400        // real page, dual bank
  const PAGE_SINGLE := 0x800      // real page, single bank

  datatype Result = Ok | Error | Timeout

  // ---- the address guard ----------------------------------------------------------------

  predicate Intersects(aBase: nat, aEnd: nat, bBase: nat, bEnd: nat) {
    aBase < bEnd && bBase < aEnd
  }

  /** ota_fmc_range_forbidden, for a build running from `runBase`. */
  predicate RangeForbidden(base: nat, len: nat, runBase: nat)
    requires base <= U32_MAX
  {
    || len > U32_MAX - base
    || Intersects(base, base + len, FLASH_BASE, FLASH_BASE + BOOTLOADER_SIZE)
    || Intersects(base, base + len, runBase, runBase + SLOT_SIZE)
  }

  /** The bytes no flash operation may touch. */
  predicate Protected(addr: int, runBase: nat) {
    || FLASH_BASE <= addr < FLASH_BASE + BOOTLOADER_SIZE
    || runBase <= addr < runBase + SLOT_SIZE
  }

  predicate SlotBase(b: nat) { b == SLOT_A_BASE || b == SLOT_B_BASE }

  function Up8(n: nat): nat { (n + 7) / 8 * 8 }

  /** Byte k of `data`, or the padding after it. */
  function Padded(data: seq<bv8>, k: nat): bv8 {
    if k < |data| then data[k] else 0xFF
  }

  /** A non-empty range is allowed exactly when it does not wrap and holds no protected byte. */
  lemma GuardExact(base: nat, len: nat, runBase: nat)
    requires base <= U32_MAX && len > 0 && SlotBase(runBase)
    ensures !RangeForbidden(base, len, runBase) <==>
      base + len <= U32_MAX && (forall a | base <= a < base + len :: !Protected(a, runBase))
  {
    if base < FLASH_BASE + BOOTLOADER_SIZE && FLASH_BASE < base + len {
      var a := if base < FLASH_BASE then FLASH_BASE else base;
      assert Protected(a, runBase);
    }
    if base < runBase + SLOT_SIZE && runBase < base + len {
      var a := if base < runBase then runBase else base;
      assert Protected(a, runBase);
    }
  }

  /** Programming pads its last doubleword past the guarded length; the padding of an
      allowed range is still clear of every protected byte. */
  lemma PaddingIsSafe(addr: nat, len: nat, runBase: nat)
    requires addr <= U32_MAX && addr % 8 == 0 && len > 0 && SlotBase(runBase)
    requires !RangeForbidden(addr, len, runBase)
    ensures forall a | addr <= a < addr + Up8(len) :: !Protected(a, runBase)
  {
    assert len <= Up8(len) < len + 8 && Up8(len) % 8 == 0;
    assert SLOT_A_BASE % 8 == 0 && SLOT_B_BASE % 8 == 0 && SLOT_SIZE % 8 == 0;
  }

  // ---- page mapping -----------------------------------------------------------------------

  /** What erase_one_page puts into BKSEL and PNSEL. */
  datatype PageSelect = PageSelect(bank1: bool, page: nat)

  function Step(dual: bool): nat { if dual then PAGE_DUAL else PAGE_SINGLE }

  function SelectPage(dual: bool, addr: nat): PageSelect
    requires FLASH_BASE <= addr < FLASH_END
  {
    if dual then
      var bank1 := addr >= BANK1_BASE;
      PageSelect(bank1, (addr - (if bank1 then BANK1_BASE else FLASH_BASE)) / PAGE_DUAL)
    else
      PageSelect(false, (addr - FLASH_BASE) / PAGE_SINGLE)
  }

  /** The first address of the page the hardware erases for a selection. */
  function PageStart(dual: bool, s: PageSelect): nat {
    if dual then (if s.bank1 then BANK1_BASE else FLASH_BASE) + s.page * PAGE_DUAL
    else FLASH_BASE + s.page * PAGE_SINGLE
  }

  /** The selected page is the one that starts at the address, and its number fits the
      eight bits of PNSEL. */
  lemma SelectionCorrect(dual: bool, addr: nat)
    requires FLASH_BASE <= addr < FLASH_END && addr % Step(dual) == 0
    ensures PageStart(dual, SelectPage(dual, addr)) == addr
    ensures SelectPage(dual, addr).page < 256
    ensures addr + Step(dual) <= FLASH_END
  {
  }

  /** A walk in real pages ends exactly on a layout-granule boundary. */
  lemma StepFits(dual: bool, base: nat, len: nat, a: nat)
    requires base % PAGE_SIZE == 0 && len % PAGE_SIZE == 0 && a % Step(dual) == 0 && base <= a < base + len
    ensures a + Step(dual) <= base + len && (a + Step(dual)) % Step(dual) == 0
  {
  }

  lemma StepDivides(dual: bool, base: nat)
    requires base % PAGE_SIZE == 0
    ensures Step(dual) > 0 && base % Step(dual) == 0
  {
    var q := base / PAGE_SIZE;
    assert base == PAGE_DUAL * (2 * q);
    assert PAGE_DUAL * (2 * q) % PAGE_DUAL == 0;
  }

  // ---- ownership under preemption -------------------------------------------------------------

  /** Execution contexts (base level and any nesting of interrupts) with a flash operation
      open, beside the shared flag. */
  datatype Funnel = Funnel(owned: bool, open: set<nat>)

  /** Test-and-set by one context, or release by a context that holds the funnel. */
  datatype Access = ClaimBy(ctx: nat) | ReleaseBy(ctx: nat)

  function Next(f: Funnel, x: Access): Funnel {
    match x
    case ClaimBy(c) => if f.owned then f else Funnel(true, f.open + {c})
    case ReleaseBy(c) => if c in f.open then Funnel(false, f.open - {c}) else f
  }

  function Run(f: Funnel, xs: seq<Access>): Funnel
    decreases |xs|
  {
    if xs == [] then f else Run(Next(f, xs[0]), xs[1..])
  }

  /** At most one operation is open, and the flag says exactly whether one is. */
  predicate AtMostOne(f: Funnel) {
    (f.owned <==> f.open != {}) && forall c, d | c in f.open && d in f.open :: c == d
  }

  /** Whatever preempts whatever, at most one flash operation is open, and the flag says
      exactly whether one is. */
  lemma {:induction false} OneOperationOpen(f: Funnel, xs: seq<Access>)
    requires AtMostOne(f)
    ensures AtMostOne(Run(f, xs))
    decreases |xs|
  {
    if xs != [] {
      if xs[0].ReleaseBy? && xs[0].ctx in f.open {
        assert f.open == {xs[0].ctx};
      }
      OneOperationOpen(Next(f, xs[0]), xs[1..]);
    }
  }

  // ---- what the hardware reports ---------------------------------------------------------------

  /** The outcome of the i-th page or doubleword operation of a call. */
  function Outcome(hw: seq<Result>, i: nat): Result { if i < |hw| then hw[i] else Ok }

  /** What a walk of `n` operations returns: the first failure, if any. */
  function Walk(hw: seq<Result>, i: nat, n: nat): Result
    decreases n - i
  {
    if i >= n then Ok else if Outcome(hw, i).Ok? then Walk(hw, i + 1, n) else Outcome(hw, i)
  }

  /** A walk succeeds exactly if each of its operations does. */
  lemma {:induction false} WalkExact(hw: seq<Result>, i: nat, n: nat)
    ensures Walk(hw, i, n).Ok? <==> forall k: nat | i <= k < n :: Outcome(hw, k).Ok?
    decreases n - i
  {
    if i < n { WalkExact(hw, i + 1, n); }
  }

  /** The real pages of a range, and where the i-th of them starts. */
  function Pages(dual: bool, len: nat): nat { if dual then len / PAGE_DUAL else len / PAGE_SINGLE }
  function PageAt(dual: bool, base: nat, i: nat): nat { base + i * Step(dual) }

  lemma StepsLeft(dual: bool, base: nat, len: nat, i: nat)
    requires len % PAGE_SIZE == 0
    ensures PageAt(dual, base, i) < base + len <==> i < Pages(dual, len)
    ensures PageAt(dual, base, i) + Step(dual) == PageAt(dual, base, i + 1) && PageAt(dual, base, 0) == base
  {
    var q := len / PAGE_SIZE;
    assert len == PAGE_SIZE * q;
    if dual { assert len / PAGE_DUAL == 2 * q; }
  }

  // ---- the device --------------------------------------------------------------------------

  /** A range of main flash. */
  predicate InFlash(base: nat, len: nat) { FLASH_BASE <= base && base + len <= FLASH_END }

  /** Every range the firmware hands to the funnel is one: pages of a slot, of the metadata and
      of the boot flags, and chunks with their padding. */
  lemma CallerRanges(slot: nat, off: nat, n: nat)
    requires SlotBase(slot) && off % 8 == 0 && off + n <= SLOT_SIZE
    ensures InFlash(slot + off, n) && InFlash(slot + off, Up8(n))
    ensures InFlash(META_BASE, 2 * PAGE_SIZE) && InFlash(CONFIG_BASE, 2 * PAGE_SIZE)
    ensures off + PAGE_SIZE <= SLOT_SIZE ==> InFlash(slot + off, PAGE_SIZE)
  {
    assert Up8(n) % 8 == 0 && Up8(n) < n + 8 && SLOT_SIZE % 8 == 0;
  }

  /** The flash behind its funnel. Interrupt handlers may call in between any two pages or
      doublewords of a walk; `open` holds the contexts that have an operation open. */
  class Flash {
    const dual: bool          // FMC_OBCTL.DBS
    const runBase: nat        // BRIDGE_APP_SLOT_BASE
    const mem: array<bv8>     // main flash, from FLASH_BASE
    var owned: bool           // s_fmc_owned
    ghost var open: set<nat>

    ghost function View(): Funnel
      reads this
    {
      Funnel(owned, open)
    }

    ghost predicate Sized() {
      mem.Length == FLASH_END - FLASH_BASE && SlotBase(runBase)
    }

    ghost predicate Valid()
      reads this
    {
      Sized() && AtMostOne(View())
    }

    constructor (dual: bool, runBase: nat)
      requires SlotBase(runBase)
      ensures Valid() && this.dual == dual && this.runBase == runBase && !owned
    {
      this.dual, this.runBase, owned, open := dual, runBase, false, {};
      mem := new bv8[FLASH_END - FLASH_BASE];
    }

    function At(addr: nat): bv8
      requires Sized() && FLASH_BASE <= addr < FLASH_END
      reads mem
    {
      mem[addr - FLASH_BASE]
    }

    /** Nothing is known of an operation addressed outside main flash. */
    method Garble()
      modifies mem
    {
      for i := 0 to mem.Length {
        mem[i] := *;
      }
    }

    /** erase_one_page: select, start, wait. A failed erase leaves the page in any state. */
    method EraseOnePage(addr: nat, st: Result)
      requires Valid() && owned && addr % Step(dual) == 0
      modifies mem
      ensures FLASH_BASE <= addr < FLASH_END ==>
        forall a | FLASH_BASE <= a < FLASH_END && !(addr <= a < addr + Step(dual)) :: At(a) == old(At(a))
      ensures FLASH_BASE <= addr < FLASH_END && st.Ok? ==>
        addr + Step(dual) <= FLASH_END && forall a | addr <= a < addr + Step(dual) :: At(a) == 0xFF
    {
      if addr < FLASH_BASE || addr >= FLASH_END {
        Garble();
        return;
      }
      SelectionCorrect(dual, addr);
      var first := PageStart(dual, SelectPage(dual, addr)) - FLASH_BASE;
      for i := first to first + Step(dual)
        invariant forall k | 0 <= k < mem.Length && !(first <= k < i) :: mem[k] == old(mem[k])
        invariant st.Ok? ==> forall k | first <= k < i :: mem[k] == 0xFF
      {
        var left: bv8 := *;
        mem[i] := if st.Ok? then 0xFF else left;
      }
    }

    /** Whatever an interrupt handler calls while an operation is open is refused. */
    method Preempt(ghost ctx: nat)
      requires Valid() && owned
      modifies mem, this`owned, this`open
      ensures Valid() && View() == old(View())
      ensures forall a | FLASH_BASE <= a < FLASH_END :: At(a) == old(At(a))
      decreases 0, 1
    {
      var erases, programs: bool := *, *;
      var addr: nat, len: nat, data: seq<bv8>, hw: seq<Result> := *, *, *, *;
      if addr > U32_MAX || |data| > U32_MAX || len > U32_MAX { return; }
      if erases {
        var _ := EraseRange(ctx + 1, addr, len, hw);
      }
      if programs {
        var _ := Program(ctx + 1, addr, data, hw);
      }
    }

    /** ota_fmc_erase_range: guard, claim, walk the real page size, release. A refused range
        changes nothing; any other call returns what the walk does. In main flash, success
        erases exactly [base, base + len), and no outcome changes a byte outside it or a
        protected byte. */
    method EraseRange(ghost ctx: nat, base: nat, len: nat, hw: seq<Result>) returns (r: Result)
      requires Valid() && base <= U32_MAX && len <= U32_MAX
      modifies mem, this`owned, this`open
      ensures Valid() && View() == old(View())
      ensures var refused :=
          old(owned) || base % PAGE_SIZE != 0 || len % PAGE_SIZE != 0 || RangeForbidden(base, len, runBase);
        && r == (if refused then Error else Walk(hw, 0, Pages(dual, len)))
        && (refused ==> forall a | FLASH_BASE <= a < FLASH_END :: At(a) == old(At(a)))
      ensures InFlash(base, len) ==>
        forall a | FLASH_BASE <= a < FLASH_END && !(base <= a < base + len) :: At(a) == old(At(a))
      ensures InFlash(base, len) ==>
        forall a | FLASH_BASE <= a < FLASH_END && Protected(a, runBase) :: At(a) == old(At(a))
      ensures InFlash(base, len) && r.Ok? ==> forall a | base <= a < base + len :: At(a) == 0xFF
      decreases (if owned then 0 else 1), 0
    {
      hide Protected, RangeForbidden, Step, PageAt, Pages;
      if base % PAGE_SIZE != 0 || len % PAGE_SIZE != 0 { return Error; }
      if RangeForbidden(base, len, runBase) { return Error; }
      var claimed := Claim(ctx);
      if !claimed { return Error; }
      r := Ok;
      var a := base;
      var i := 0;
      StepDivides(dual, base);
      StepsLeft(dual, base, len, 0);
      while a < base + len
        invariant Valid() && owned && open == {ctx}
        invariant a == PageAt(dual, base, i) && Walk(hw, 0, Pages(dual, len)) == Walk(hw, i, Pages(dual, len))
        invariant base <= a <= base + len && a % Step(dual) == 0
        invariant InFlash(base, len) ==>
          forall k | FLASH_BASE <= k < FLASH_END && !(base <= k < base + len) :: At(k) == old(At(k))
        invariant r.Ok? && (InFlash(base, len) ==> forall k | base <= k < a :: At(k) == 0xFF)
        decreases base + len - a
      {
        StepFits(dual, base, len, a);
        StepsLeft(dual, base, len, i);
        r := Outcome(hw, i);
        EraseOnePage(a, r);
        Preempt(ctx);
        if !r.Ok? { break; }
        a, i := a + Step(dual), i + 1;
      }
      StepsLeft(dual, base, len, i);
      if len > 0 { GuardExact(base, len, runBase); }
      Release(ctx);
    }

    /** ota_fmc_program: the same bracket around a doubleword walk that pads the tail with
        0xFF. In main flash, success stores exactly the data and the padding. */
    method Program(ghost ctx: nat, addr: nat, data: seq<bv8>, hw: seq<Result>) returns (r: Result)
      requires Valid() && addr <= U32_MAX && |data| <= U32_MAX
      modifies mem, this`owned, this`open
      ensures Valid() && View() == old(View())
      ensures var refused := old(owned) || addr % 8 != 0 || RangeForbidden(addr, |data|, runBase);
        && r == (if refused then Error else Walk(hw, 0, Up8(|data|) / 8))
        && (refused ==> forall a | FLASH_BASE <= a < FLASH_END :: At(a) == old(At(a)))
      ensures InFlash(addr, |data|) ==>
        forall a | FLASH_BASE <= a < FLASH_END && !(addr <= a < addr + Up8(|data|)) :: At(a) == old(At(a))
      ensures InFlash(addr, |data|) ==>
        forall a | FLASH_BASE <= a < FLASH_END && Protected(a, runBase) :: At(a) == old(At(a))
      ensures InFlash(addr, |data|) && r.Ok? ==>
        addr + Up8(|data|) <= FLASH_END
        && forall a | addr <= a < addr + Up8(|data|) :: At(a) == Padded(data, a - addr)
      decreases (if owned then 0 else 1), 0
    {
      hide Protected, RangeForbidden, Padded;
      if addr % 8 != 0 { return Error; }
      if RangeForbidden(addr, |data|, runBase) { return Error; }
      var claimed := Claim(ctx);
      if !claimed { return Error; }
      r := Ok;
      var i := 0;
      while i < |data|
        invariant Valid() && owned && open == {ctx}
        invariant 0 <= i <= Up8(|data|) && i % 8 == 0
        invariant InFlash(addr, |data|) ==>
          forall k | FLASH_BASE <= k < FLASH_END && !(addr <= k < addr + Up8(|data|)) :: At(k) == old(At(k))
        invariant Walk(hw, 0, Up8(|data|) / 8) == Walk(hw, i / 8, Up8(|data|) / 8)
        invariant r.Ok? && (InFlash(addr, |data|) ==> addr + i <= FLASH_END)
        invariant InFlash(addr, |data|) ==> forall a | addr <= a < addr + i :: At(a) == Padded(data, a - addr)
        decreases |data| - i
      {
        DwordFits(addr, |data|, i);
        var buf := seq(8, k requires 0 <= k < 8 => Padded(data, i + k));
        r := Outcome(hw, i / 8);
        ProgramOneDword(addr + i, buf, r);
        Preempt(ctx);
        if !r.Ok? { break; }
        i := i + 8;
      }
      if |data| > 0 { PaddingIsSafe(addr, |data|, runBase); }
      Release(ctx);
    }

    /** program_one_dword. A failed program leaves the doubleword in any state. */
    method ProgramOneDword(addr: nat, dw: seq<bv8>, st: Result)
      requires Valid() && owned && |dw| == 8
      modifies mem
      ensures InFlash(addr, 8) ==>
        forall a | FLASH_BASE <= a < FLASH_END && !(addr <= a < addr + 8) :: At(a) == old(At(a))
      ensures InFlash(addr, 8) && st.Ok? ==> forall a | addr <= a < addr + 8 :: At(a) == dw[a - addr]
    {
      if !InFlash(addr, 8) {
        Garble();
        return;
      }
      var first := addr - FLASH_BASE;
      for i := 0 to 8
        invariant forall k | 0 <= k < mem.Length && !(first <= k < first + i) :: mem[k] == old(mem[k])
        invariant st.Ok? ==> forall k | first <= k < first + i :: mem[k] == dw[k - first]
      {
        var left: bv8 := *;
        mem[first + i] := if st.Ok? then dw[i] else left;
      }
    }

    /** fmc_funnel_claim. */
    method Claim(ghost ctx: nat) returns (free: bool)
      requires Valid()
      modifies this`owned, this`open
      ensures Valid() && View() == Next(old(View()), ClaimBy(ctx)) && free == !old(owned)
    {
      free := !owned;
      if free {
        owned := true;
        open := open + {ctx};
      }
    }

    /** fmc_funnel_release, by the context that claimed. */
    method Release(ghost ctx: nat)
      requires Valid() && ctx in open
      modifies this`owned, this`open
      ensures Valid() && View() == Next(old(View()), ReleaseBy(ctx)) && !owned
    {
      owned := false;
      open := open - {ctx};
    }
  }

  lemma DwordFits(addr: nat, n: nat, i: nat)
    requires addr % 8 == 0 && i % 8 == 0 && i < n
    ensures i + 8 <= Up8(n) && (InFlash(addr, n) ==> InFlash(addr + i, 8))
  {
    assert FLASH_END % 8 == 0;
  }
}
