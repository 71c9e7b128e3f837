/** The auto-reload mirror of the PWM capture path (hal/gd32/pwm_capture.c,
    hal/gd32/pwm.c, hal/gd32/pwm_preload_transaction.c).

    A timer's active reload register cannot be read: a CAR read returns the preload. The
    firmware keeps a software mirror of the active value, driven by the update flag. The
    timer's own update events are asynchronous: `Gap` lets any number of them land, and it
    stands between every two register accesses of the firmware. */
module PwmMirror {

  const ARR_MAX := 0xFFFF

  /** One call into the PWM backend. */
  datatype Op = PwmSet(arr: nat) | SinglePulse(pulse: nat) | CapturePoll

  class PwmTimer {
    // hardware
    var preload: nat
    var active: nat       // not readable by the firmware
    var up: bool          // TIMER_FLAG_UP
    var enabled: bool     // CTL0.CEN
    var onePulse: bool    // CTL0.SPM
    var updis: bool       // CTL0.UPDIS
    // software (pwm_capture.c)
    var mirror: nat       // pwm_capture_active_car
    var pending: nat      // pwm_capture_pending_car
    var pendingValid: bool

    /** The active register differs from the mirror only while the update flag testifies
        that the outstanding write has been promoted. */
    ghost predicate ActiveKnown()
      reads this
    {
      active == (if up && pendingValid then pending else mirror)
    }

    /** The preload holds the last write handed over. */
    ghost predicate PreloadKnown()
      reads this
    {
      preload == (if pendingValid then pending else mirror)
    }

    ghost predicate Consistent()
      reads this
    {
      ActiveKnown() && PreloadKnown()
    }

    constructor ()
      ensures Consistent() && !updis && mirror == ARR_MAX
    {
      preload, active, mirror := ARR_MAX, ARR_MAX, ARR_MAX;
      up, enabled, onePulse, updis := false, true, false, false;
      pending, pendingValid := 0, false;
    }

    /** Any number of the timer's own update events. */
    method Gap()
      modifies this`active, this`up, this`enabled
      ensures (up == old(up) && active == old(active)) || (up && active == preload && old(enabled) && !updis)
      ensures old(up) ==> up
      ensures enabled ==> old(enabled)
      ensures !onePulse ==> enabled == old(enabled)
    {
      var events: nat := *;
      var i := 0;
      while i < events
        invariant (up == old(up) && active == old(active)) || (up && active == preload && old(enabled) && !updis)
        invariant old(up) ==> up
        invariant enabled ==> old(enabled)
        invariant !onePulse ==> enabled == old(enabled)
      {
        if enabled && !updis {
          active, up := preload, true;
          if onePulse { enabled := false; }
        }
        i := i + 1;
      }
    }

    /** pwm_capture_consume_update. Once the flag has been consumed the mirror is the
        hardware's active value; otherwise it is too, unless the flag has been raised since. */
    method Consume()
      requires ActiveKnown() && (PreloadKnown() || updis)
      modifies this`active, this`up, this`enabled, this`mirror, this`pendingValid
      ensures ActiveKnown() && (old(PreloadKnown()) ==> PreloadKnown())
      ensures old(up) ==> !pendingValid && mirror == active
      ensures mirror != active ==> up && pendingValid
      ensures updis ==> !up && active == old(active)
      ensures pendingValid ==> old(pendingValid) && mirror == old(mirror)
    {
      Gap();
      if !up { return; }
      Gap();
      up := false;
      Gap();
      if pendingValid {
        mirror := pending;
        Gap();
        pendingValid := false;
      }
      Gap();
    }

    /** pwm_car_shadow_defer: hand over a write that is preload-resident but not promoted.
        Runs with updates held off and the new value already in the preload. */
    method Defer(car: nat)
      requires ActiveKnown() && updis && preload == car
      modifies this`active, this`up, this`enabled, this`mirror, this`pending, this`pendingValid
      ensures Consistent() && active == old(active) && mirror == active
      ensures pendingValid && pending == car && !up
    {
      Consume();
      pending, pendingValid := car, true;
    }

    /** The running branch of pwm_apply_counter_values: pwm_preload_transaction around
        pwm_preload_load. Only UPDIS is restored. */
    method PreloadTransaction(arr: nat)
      requires Consistent()
      modifies this`preload, this`updis, this`active, this`up, this`enabled
      modifies this`mirror, this`pending, this`pendingValid
      ensures Consistent() && updis == old(updis)
      ensures preload == arr && pendingValid && pending == arr
    {
      Gap();
      var saved := updis;
      Gap();
      updis := true;
      Gap();
      preload := arr;
      Gap();
      Defer(arr);
      Gap();
      updis := saved;
      Gap();
    }

    /** Preload write, forced update (UPG) and pwm_car_shadow_commit on a halted timer. */
    method ForcedLoad(arr: nat)
      requires !enabled && !updis
      modifies this`preload, this`active, this`up, this`enabled, this`mirror, this`pendingValid
      ensures Consistent() && mirror == active == preload == arr && !up && !pendingValid && !enabled
    {
      Gap();
      preload := arr;
      Gap();
      active, up := preload, true;   // TIMER_EVENT_SRC_UPG
      Gap();
      up := false;
      mirror, pendingValid := arr, false;
      Gap();
    }

    /** pwm_apply_counter_values: CEN is sampled first, and a one-shot may end (clearing
        CEN) between that sample and the writes. */
    method ApplyCounterValues(arr: nat)
      requires Consistent() && !updis
      modifies this
      ensures Consistent() && !updis && preload == arr && enabled && !onePulse
    {
      Gap();
      var wasRunning := enabled;
      Gap();
      onePulse := false;
      if wasRunning {
        PreloadTransaction(arr);
      } else {
        ForcedLoad(arr);
      }
      enabled := true;
      Gap();
    }

    /** The forced-update part of bridge_hw_pwm_single_pulse. */
    method SinglePulseStart(pulse: nat)
      requires Consistent() && !updis
      modifies this
      ensures Consistent() && !updis && mirror == active == pulse
    {
      Gap();
      enabled := false;
      ForcedLoad(pulse);
      onePulse := true;
      enabled := true;
      Gap();
    }

    /** Any stream of PWM writes, one-shots and capture polls, with update events landing
        anywhere: at every return the mirror is the active reload value, or the raised
        update flag and the outstanding write say what it has become. */
    method Exercise(ops: seq<Op>)
      requires Consistent() && !updis
      modifies this
      ensures Consistent() && !updis
      ensures mirror == active || (up && pendingValid && pending == active)
    {
      for i := 0 to |ops|
        invariant Consistent() && !updis
      {
        match ops[i] {
          case PwmSet(arr) => ApplyCounterValues(arr);
          case SinglePulse(pulse) => SinglePulseStart(pulse);
          case CapturePoll => Consume();
        }
      }
    }
  }

  // ---- the edge delta of pwm_capture_drain ---------------------------------------------

  /** The capture arithmetic, in the source's uint32_t: modulus one more than the mirror. */
  function EdgeDelta(now: nat, last: nat, car: nat): nat {
    var m := (car + 1) % 0x1_0000_0000;
    if m == 0 then 0 else (now + m - last % m) % 0x1_0000_0000 % m
  }

  /** An up-counter of period car + 1, read at one edge and `span` ticks later: the delta
      is the span itself for every span under one period ... */
  lemma EdgeDeltaIsSpan(last: nat, span: nat, car: nat)
    requires car <= ARR_MAX && last <= car && span <= car
    ensures EdgeDelta((last + span) % (car + 1), last, car) == span
  {
    var m := car + 1;
    ModUnique(last, 0, last, m);
    if last + span < m {
      ModUnique(last + span, 0, last + span, m);
      ModUnique(span + m, 1, span, m);
    } else {
      ModUnique(last + span, 1, last + span - m, m);
      ModUnique(span, 0, span, m);
    }
  }

  /** ... and a slower signal aliases to the remainder. */
  lemma EdgeDeltaAliases(last: nat, span: nat, car: nat)
    requires car <= ARR_MAX && last <= car
    ensures EdgeDelta((last + span) % (car + 1), last, car) == span % (car + 1)
  {
    hide EdgeDelta;
    var m := car + 1;
    DivMod(span, m);
    DivMod(last + span % m, m);
    ModUnique(last + span, span / m + (last + span % m) / m, (last + span % m) % m, m);
    EdgeDeltaIsSpan(last, span % m, car);
  }

  lemma DivMod(x: nat, m: nat)
    requires m > 0
    ensures x == x / m * m + x % m && 0 <= x % m < m
  {
  }

  lemma ModUnique(x: nat, q: int, r: nat, m: nat)
    requires m > 0 && r < m && x == q * m + r
    ensures x % m == r
  {
    DivMod(x, m);
    var d := x / m - q;
    MulBound(d, m);
    assert d * m == x / m * m - q * m;
  }

  lemma MulBound(d: int, m: nat)
    ensures d >= 1 ==> d * m >= m
    ensures d <= -1 ==> d * m + m <= 0
  {
  }
}
