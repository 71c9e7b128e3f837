/** Clock-derived I2C timing (i2c_timing_derive in hal/transport_hw_gd32.c and
    hal/gd32/i2c_timeout.c): fixed-point derivations against the real-valued
    inequalities of the GD32G553 User Manual Rev1.2, sections 28.3.4 and 28.3.9. */
module BusTiming {
  import opened Wrappers

  type Hertz = x: nat | x < 0x1_0000_0000

  const FIELD_MAX := 15
  const MIN_HZ := 4_000_000
  const PS_PER_S := 1_000_000_000_000
  /** The last clock at which SCLDELY still fits its four bits. */
  const MAX_HZ := 639_795_265

  datatype Timing = Timing(psc: nat, sclDely: nat, sdaDely: nat)

  function Prescaler(hz: Hertz): nat {
    var q := hz / 8_000_000;
    var p := if q > 0 then q - 1 else q;
    if p > FIELD_MAX then FIELD_MAX else p
  }

  /** Clock period in whole picoseconds, truncated. */
  function ClockPs(hz: Hertz): (t: nat)
    requires hz > 0
    ensures t > 0
    ensures t * hz <= PS_PER_S < (t + 1) * hz
  {
    Divides(PS_PER_S, hz);
    PS_PER_S / hz
  }

  function TickPs(hz: Hertz): (t: nat)
    requires hz > 0
    ensures t > 0
  {
    (Prescaler(hz) + 1) * ClockPs(hz)
  }

  function Ceil(a: nat, b: nat): nat
    requires b > 0
  {
    (a + b - 1) / b
  }

  /** i2c_timing_derive. */
  function TimingDerive(hz: Hertz): Option<Timing> {
    if hz < MIN_HZ then None else
    var p := Prescaler(hz);
    var sclQ := Ceil(300_000 + 100_000, TickPs(hz));
    var scl := if sclQ > 0 then sclQ - 1 else 0;
    var sda := if 300_000 > 3 * ClockPs(hz) then Ceil(300_000 - 3 * ClockPs(hz), TickPs(hz)) else 0;
    if p > FIELD_MAX || scl > FIELD_MAX || sda > FIELD_MAX then None
    else Some(Timing(p, scl, sda))
  }

  // ---- the manual's inequalities, over the reals ------------------------------------

  /** Period of the kernel clock in picoseconds. */
  function Period(hz: Hertz): (t: real)
    requires hz > 0
    ensures t * hz as real == 1_000_000_000_000.0
  {
    1_000_000_000_000.0 / hz as real
  }

  function Tick(hz: Hertz, t: Timing): real
    requires hz > 0
  {
    (t.psc + 1) as real * Period(hz)
  }

  /** SCLDELY >= [tr(max) + tSU;DAT(min)] / tPSC - 1, with 300 ns and 100 ns. */
  ghost predicate SetupMet(hz: Hertz, t: Timing)
    requires hz > 0
  {
    (t.sclDely + 1) as real * Tick(hz, t) >= 400_000.0
  }

  /** SDADELY >= {tf(max) - (DNF + 3) * tI2CCLK} / tPSC, with 300 ns and DNF = 0. */
  ghost predicate HoldMet(hz: Hertz, t: Timing)
    requires hz > 0
  {
    t.sdaDely as real * Tick(hz, t) >= 300_000.0 - 3.0 * Period(hz)
  }

  lemma Divides(a: nat, b: nat)
    requires b > 0
    ensures a / b * b <= a < (a / b + 1) * b
    ensures b <= a ==> a / b > 0
  {
  }

  lemma CeilIsLeast(a: nat, b: nat, n: nat)
    requires b > 0
    ensures Ceil(a, b) <= n <==> a <= n * b
  {
    var q := Ceil(a, b);
    Divides(a + b - 1, b);
    if q <= n {
      assert q * b <= n * b;
    } else {
      assert (n + 1) * b <= q * b;
    }
  }

  lemma ScaleReal(n: nat, t: nat, p: real)
    requires t as real <= p
    ensures (n * t) as real <= n as real * p
  {
    assert (n * t) as real == n as real * t as real;
  }

  lemma ClockTruncates(hz: Hertz)
    requires hz > 0
    ensures ClockPs(hz) as real <= Period(hz)
  {
    hide ClockPs, Period;
    var t := ClockPs(hz);
    assert (t * hz) as real == t as real * hz as real;
    if t as real > Period(hz) {
      assert t as real * hz as real > Period(hz) * hz as real;
    }
  }

  lemma TickTruncates(hz: Hertz, t: Timing)
    requires hz > 0 && t.psc == Prescaler(hz)
    ensures TickPs(hz) as real <= Tick(hz, t)
  {
    hide ClockPs, Period, Prescaler;
    ClockTruncates(hz);
    ScaleReal(t.psc + 1, ClockPs(hz), Period(hz));
  }

  lemma SetupHolds(hz: Hertz)
    requires TimingDerive(hz).Some?
    ensures SetupMet(hz, TimingDerive(hz).value)
  {
    hide ClockPs, Prescaler, Ceil, TickPs, Tick;
    var t := TimingDerive(hz).value;
    TickTruncates(hz, t);
    CeilIsLeast(400_000, TickPs(hz), t.sclDely + 1);
    ScaleReal(t.sclDely + 1, TickPs(hz), Tick(hz, t));
  }

  lemma HoldHolds(hz: Hertz)
    requires TimingDerive(hz).Some?
    ensures HoldMet(hz, TimingDerive(hz).value)
  {
    hide ClockPs, Prescaler, Ceil, TickPs, Tick, Period;
    var t := TimingDerive(hz).value;
    TickTruncates(hz, t);
    ClockTruncates(hz);
    if 300_000 > 3 * ClockPs(hz) {
      CeilIsLeast(300_000 - 3 * ClockPs(hz), TickPs(hz), t.sdaDely);
    }
    ScaleReal(t.sdaDely, TickPs(hz), Tick(hz, t));
  }

  /** Truncating the period to whole picoseconds only errs on the safe side. */
  lemma InequalitiesHold(hz: Hertz)
    requires TimingDerive(hz).Some?
    ensures SetupMet(hz, TimingDerive(hz).value) && HoldMet(hz, TimingDerive(hz).value)
  {
    hide SetupMet, HoldMet, TimingDerive;
    SetupHolds(hz);
    HoldHolds(hz);
  }

  lemma MulMono(a: nat, b: nat, c: nat)
    requires a <= b
    ensures a * c <= b * c && c * a <= c * b
  {
  }

  /** The prescaled tick stays wide enough for four-bit fields. */
  lemma TickWide(hz: Hertz)
    requires MIN_HZ <= hz <= MAX_HZ
    ensures TickPs(hz) >= 25_000
  {
    hide ClockPs;
    var t, k := ClockPs(hz), Prescaler(hz) + 1;
    if k == 16 {
      MulMono(hz, MAX_HZ, t + 1);
    } else if hz < 8_000_000 {
      MulMono(hz, 8_000_000, t + 1);
    } else {
      assert k == hz / 8_000_000 && hz <= 16_000_000 * k;
      MulMono(hz, 16_000_000 * k, t + 1);
      assert (t + 1) * (16_000_000 * k) == 16_000_000 * (k * t + k);
    }
  }

  /** Above MAX_HZ the setup delay needs a fifth bit. */
  lemma TickTooShort(hz: Hertz)
    requires hz > MAX_HZ
    ensures 16 * TickPs(hz) < 400_000
  {
    hide ClockPs;
    assert Prescaler(hz) == FIELD_MAX;
    if ClockPs(hz) >= 1563 {
      MulMono(1563, ClockPs(hz), hz);
    }
  }

  /** The derivation succeeds on exactly the clocks from the Fast-mode floor to MAX_HZ,
      and then every field fits its four bits. */
  lemma DeriveSucceeds(hz: Hertz)
    ensures TimingDerive(hz).Some? <==> MIN_HZ <= hz <= MAX_HZ
    ensures TimingDerive(hz).Some? ==> var t := TimingDerive(hz).value;
      t.psc <= FIELD_MAX && t.sclDely <= FIELD_MAX && t.sdaDely <= FIELD_MAX
  {
    hide ClockPs, TickPs, Ceil;
    if hz >= MIN_HZ {
      CeilIsLeast(400_000, TickPs(hz), 16);
      if hz <= MAX_HZ {
        TickWide(hz);
        if 300_000 > 3 * ClockPs(hz) {
          CeilIsLeast(300_000 - 3 * ClockPs(hz), TickPs(hz), 15);
        }
      } else {
        TickTooShort(hz);
      }
    }
  }

  /** The prescaler is the largest the field holds that keeps the tick at or above 8 MHz, and 0
      below that. */
  lemma PrescalerLargest(hz: Hertz, p: nat)
    ensures Prescaler(hz) <= FIELD_MAX
    ensures p <= FIELD_MAX && (p + 1) * 8_000_000 <= hz ==> p <= Prescaler(hz)
    ensures Prescaler(hz) > 0 ==> (Prescaler(hz) + 1) * 8_000_000 <= hz
  {
  }

  /** With that tick, in whole picoseconds, no smaller delay would do. */
  lemma DelaysLeast(hz: Hertz, n: nat)
    requires TimingDerive(hz).Some?
    ensures var t := TimingDerive(hz).value;
      && t.psc == Prescaler(hz)
      && (t.sclDely <= n <==> (n + 1) * TickPs(hz) >= 400_000)
      && (t.sdaDely <= n <==> n * TickPs(hz) + 3 * ClockPs(hz) >= 300_000)
  {
    hide ClockPs, TickPs, Ceil, Prescaler;
    CeilIsLeast(400_000, TickPs(hz), n + 1);
    if 300_000 > 3 * ClockPs(hz) { CeilIsLeast(300_000 - 3 * ClockPs(hz), TickPs(hz), n); }
  }

  // ---- clock-stretch timeout ----------------------------------------------------------

  const UNIT := 2048 * 1_000_000   // counter scale times microseconds per second
  const RELOAD_MAX := 4095

  /** bridge_i2c_stretch_timeout_reload. */
  function StretchReload(hz: Hertz): Option<nat> {
    if hz == 0 then None else
    var q := hz * 25_000 / UNIT;
    var units := if q * UNIT < hz * 25_000 then q + 1 else q;
    if units == 0 || units > RELOAD_MAX + 1 || units * UNIT > hz * 35_000 then None
    else Some(units - 1)
  }

  /** How long `units` counter units of 2048 clocks last, in microseconds. */
  function Duration(hz: Hertz, units: nat): (us: real)
    requires hz > 0
    ensures us * hz as real == (units * UNIT) as real
  {
    assert units as real * 2_048_000_000.0 == (units * UNIT) as real;
    units as real * 2_048_000_000.0 / hz as real
  }

  /** The SMBus window: 25 ms to 35 ms. */
  ghost predicate Conforms(hz: Hertz, units: nat)
    requires hz > 0
  {
    25_000.0 <= Duration(hz, units) <= 35_000.0
  }

  lemma CompareScaled(a: real, b: real, h: real)
    requires h > 0.0
    ensures a <= b <==> a * h <= b * h
  {
  }

  lemma ConformsInUnits(hz: Hertz, units: nat)
    requires hz > 0
    ensures Conforms(hz, units) <==> hz * 25_000 <= units * UNIT <= hz * 35_000
  {
    hide Duration;
    CompareScaled(25_000.0, Duration(hz, units), hz as real);
    CompareScaled(Duration(hz, units), 35_000.0, hz as real);
  }

  /** The reload is the smallest timeout inside 25 to 35 ms, and the derivation fails
      exactly when the 12-bit field can represent none. */
  lemma StretchReloadIsLeast(hz: Hertz)
    requires hz > 0
    ensures match StretchReload(hz)
      case Some(r) =>
        && r <= RELOAD_MAX && Conforms(hz, r + 1)
        && (forall n: nat | Conforms(hz, n) :: r + 1 <= n)
      case None => forall n: nat | 1 <= n <= RELOAD_MAX + 1 :: !Conforms(hz, n)
  {
    hide Conforms;
    var q := hz * 25_000 / UNIT;
    var units := if q * UNIT < hz * 25_000 then q + 1 else q;
    ConformsInUnits(hz, units);
    forall n: nat | Conforms(hz, n)
      ensures units <= n && units * UNIT <= n * UNIT <= hz * 35_000
    {
      ConformsInUnits(hz, n);
    }
  }

  /** The clock at which 4096 units of 2048 clocks last exactly 25 ms. */
  const STRETCH_MAX_HZ := 4096 * UNIT / 25_000

  lemma StretchSucceeds(hz: Hertz)
    requires hz >= MIN_HZ
    ensures StretchReload(hz).Some? <==> hz <= STRETCH_MAX_HZ
  {
    var q := hz * 25_000 / UNIT;
    var units := if q * UNIT < hz * 25_000 then q + 1 else q;
    assert STRETCH_MAX_HZ * 25_000 == 4096 * UNIT;
    assert hz * 25_000 <= units * UNIT < hz * 25_000 + UNIT <= hz * 35_000;
  }

  /** Both derivations succeed for exactly the APB1 clocks from 4 MHz to 335,544,320 Hz; above
      that only the stretch timeout has no representable value, up to MAX_HZ. */
  lemma BothSucceed(hz: Hertz)
    ensures STRETCH_MAX_HZ == 335_544_320
    ensures TimingDerive(hz).Some? && StretchReload(hz).Some? <==> MIN_HZ <= hz <= STRETCH_MAX_HZ
  {
    hide TimingDerive, StretchReload;
    DeriveSucceeds(hz);
    if hz >= MIN_HZ { StretchSucceeds(hz); }
  }
}
