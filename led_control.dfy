/**
 * The RGB LED thread: each wake-up handles the gesture flags that are set
 * (shake picks a random colour, tilt steps the brightness by 10 % modulo
 * 100 %, flip toggles the LED), then drives the LED through set_rgb_led,
 * which checks its four percentages and turns them into PWM pulse widths.
 *
 * rand() is the triple of values its three calls return; the PWM driver is
 * reduced to the periods of the three channels and the status code each
 * pulse write returns.
 */
module LedControl {

  const MaxPercent: int := 100
  /** Zephyr's EINVAL. */
  const EINVAL: int := 22

  /** The gesture event bits. */
  const ShakeEvent: bv32 := 1
  const TiltEvent: bv32 := 2
  const FlipEvent: bv32 := 4

  const U32: int := 0x1_0000_0000

  /** A value per colour channel. */
  datatype Rgb<T> = Rgb(red: T, green: T, blue: T)

  /** The conversion of an unsigned value to uint8_t at the call of set_rgb_led. */
  function ToU8(x: nat): (r: nat)
    ensures r < 256
    ensures x < 256 ==> r == x
  {
    x % 256
  }

  // ---------------------------------------------------------------- set_rgb_led

  /**
   * The pulse width for a channel: period * pct * brightness / 10000 in
   * 64-bit arithmetic, then cast to 32 bits.
   */
  function Pulse(period: nat, pct: nat, brightness: nat): nat
  {
    (period * pct * brightness / (MaxPercent * MaxPercent)) % U32
  }

  /** What set_rgb_led returns, and the pulse widths it hands to the PWM driver, in order. */
  datatype LedCall = LedCall(ret: int, writes: seq<nat>)

  /**
   * set_rgb_led on uint8_t percentages: -EINVAL and no write when any
   * exceeds 100; otherwise the red, green and blue pulses are written in
   * turn, stopping at the first write that fails and returning its code.
   */
  function SetRgbLed(pct: Rgb<nat>, brightness: nat, period: Rgb<nat>, status: Rgb<int>): (c: LedCall)
    requires pct.red < 256 && pct.green < 256 && pct.blue < 256 && brightness < 256
  {
    if pct.red > MaxPercent || pct.green > MaxPercent || pct.blue > MaxPercent || brightness > MaxPercent then
      LedCall(-EINVAL, [])
    else
      var r := Pulse(period.red, pct.red, brightness);
      var g := Pulse(period.green, pct.green, brightness);
      var b := Pulse(period.blue, pct.blue, brightness);
      if status.red != 0 then LedCall(status.red, [r])
      else if status.green != 0 then LedCall(status.green, [r, g])
      else if status.blue != 0 then LedCall(status.blue, [r, g, b])
      else LedCall(0, [r, g, b])
  }

  /**
   * The range check: a percentage above 100 gives -EINVAL and no write,
   * whatever the PWM driver would return.  With all four in range:
   * - the red, green and blue pulses are written in that order, each
   *   period * pct * brightness / 10000 rounded down and at most the period
   *   when the period fits in 32 bits;
   * - the first write that fails ends the call with its code, and nothing
   *   after it is written;
   * - 0 is returned exactly when all three writes succeed, and -EINVAL only
   *   when a write itself returned it.
   */
  lemma SetRgbLedSpec(pct: Rgb<nat>, brightness: nat, period: Rgb<nat>, status: Rgb<int>)
    requires pct.red < 256 && pct.green < 256 && pct.blue < 256 && brightness < 256
    ensures var c := SetRgbLed(pct, brightness, period, status);
      var inRange := pct.red <= 100 && pct.green <= 100 && pct.blue <= 100 && brightness <= 100;
      && (!inRange ==> c == LedCall(-EINVAL, []))
      && (inRange ==>
            && 1 <= |c.writes| <= 3
            && (period.red < U32 ==> c.writes[0] == period.red * pct.red * brightness / 10000 <= period.red)
            && (|c.writes| >= 2 && period.green < U32 ==>
                  c.writes[1] == period.green * pct.green * brightness / 10000 <= period.green)
            && (|c.writes| == 3 && period.blue < U32 ==>
                  c.writes[2] == period.blue * pct.blue * brightness / 10000 <= period.blue)
            && (status.red != 0 ==> c.ret == status.red && |c.writes| == 1)
            && (status.red == 0 && status.green != 0 ==> c.ret == status.green && |c.writes| == 2)
            && (status.red == 0 && status.green == 0 && status.blue != 0 ==> c.ret == status.blue && |c.writes| == 3)
            && (c.ret == 0 <==> status == Rgb(0, 0, 0))
            && (c.ret == 0 ==> |c.writes| == 3)
            && (c.ret == -EINVAL ==> status.red == -EINVAL || status.green == -EINVAL || status.blue == -EINVAL))
  {
    if pct.red <= 100 && pct.green <= 100 && pct.blue <= 100 && brightness <= 100 {
      if period.red < U32 {
        PulseBound(period.red, pct.red, brightness);
      }
      if period.green < U32 {
        PulseBound(period.green, pct.green, brightness);
      }
      if period.blue < U32 {
        PulseBound(period.blue, pct.blue, brightness);
      }
    }
  }

  /** With both percentages at most 100 the pulse is the exact quotient and at most the period. */
  lemma PulseBound(period: nat, pct: nat, brightness: nat)
    requires pct <= 100 && brightness <= 100 && period < U32
    ensures Pulse(period, pct, brightness) == period * pct * brightness / 10000 <= period
  {
    assert pct * brightness <= 10000 by {
      ProductAtMost(pct, brightness, 100);
    }
    assert period * pct * brightness == period * (pct * brightness);
    ProductAtMost(period, pct * brightness, 10000);
    assert period * (pct * brightness) <= period * 10000;
    assert period * pct * brightness / 10000 <= period;
  }

  lemma ProductAtMost(a: nat, b: nat, m: nat)
    requires b <= m
    ensures a * b <= a * m
  {
  }

  // ---------------------------------------------------------------- the thread

  /** The thread's colour and brightness variables and the static led_on flag. */
  datatype LedState = LedState(red: nat, green: nat, blue: nat, brightness: nat, ledOn: bool)

  /** The values before the first wake-up. */
  function InitialState(): LedState
  {
    LedState(100, 100, 100, 50, true)
  }

  /** The flag handling of one wake-up, given the three rand() values a shake uses. */
  function Handle(s: LedState, events: bv32, rands: Rgb<nat>): (n: LedState)
  {
    var s1 := if events & ShakeEvent != 0 then s.(red := rands.red % 100, green := rands.green % 100, blue := rands.blue % 100) else s;
    var s2 := if events & TiltEvent != 0 then s1.(brightness := ((s1.brightness + 10) % U32) % 100) else s1;
    if events & FlipEvent != 0 then s2.(ledOn := !s2.ledOn) else s2
  }

  /** The percentages set_rgb_led is called with after the flags are handled. */
  function Request(s: LedState): (r: (Rgb<nat>, nat))
  {
    if s.ledOn then (Rgb(ToU8(s.red), ToU8(s.green), ToU8(s.blue)), ToU8(s.brightness))
    else (Rgb(0, 0, 0), 0)
  }

  /** Colours at most 100, brightness a multiple of 10 in [0, 90]. */
  predicate Inv(s: LedState)
  {
    s.red <= 100 && s.green <= 100 && s.blue <= 100 && s.brightness % 10 == 0 && s.brightness <= 90
  }

  /**
   * From a state satisfying Inv (as the initial one does), every wake-up
   * keeps colours in range and the brightness a multiple of 10 in [0, 90], so
   * set_rgb_led is never called with an out-of-range percentage.
   */
  lemma HandleKeepsInv(s: LedState, events: bv32, rands: Rgb<nat>)
    requires Inv(s)
    ensures Inv(Handle(s, events, rands))
    ensures var (pct, br) := Request(Handle(s, events, rands));
      pct.red <= 100 && pct.green <= 100 && pct.blue <= 100 && br <= 100
  {
    var s1 := if events & ShakeEvent != 0 then s.(red := rands.red % 100, green := rands.green % 100, blue := rands.blue % 100) else s;
    assert Inv(s1);
    var s2 := if events & TiltEvent != 0 then s1.(brightness := ((s1.brightness + 10) % U32) % 100) else s1;
    if events & TiltEvent != 0 {
      TiltStep(s1.brightness, s1.brightness);
      TiltKeepsStep(s1.brightness);
    }
    assert Inv(s2);
    var n := Handle(s, events, rands);
    assert n == if events & FlipEvent != 0 then s2.(ledOn := !s2.ledOn) else s2;
  }

  /** A tilt from a multiple of 10 in [0, 90] lands on one. */
  lemma TiltKeepsStep(b: nat)
    requires b % 10 == 0 && b <= 90
    ensures (b + 10) % 100 % 10 == 0 && (b + 10) % 100 <= 90
  {
    if b == 90 {
      assert (b + 10) % 100 == 0;
    } else {
      assert (b + 10) % 100 == b + 10;
    }
  }

  /**
   * What each flag does: shake sets each colour to its rand() value modulo
   * 100, tilt adds 10 to the brightness modulo 100, flip toggles the LED;
   * a flag that is clear leaves its variables alone, and the flags are
   * independent of each other.
   */
  lemma HandleFlags(s: LedState, events: bv32, rands: Rgb<nat>)
    requires Inv(s)
    ensures var n := Handle(s, events, rands);
      && (events & ShakeEvent != 0 ==>
            n.red == rands.red % 100 <= 99 && n.green == rands.green % 100 <= 99 && n.blue == rands.blue % 100 <= 99)
      && (events & ShakeEvent == 0 ==> n.red == s.red && n.green == s.green && n.blue == s.blue)
      && (n.brightness == if events & TiltEvent != 0 then (s.brightness + 10) % 100 else s.brightness)
      && (n.ledOn == if events & FlipEvent != 0 then !s.ledOn else s.ledOn)
  {
  }

  /** Two flips restore the on/off state, whatever else the wake-ups do. */
  lemma TwoFlips(s: LedState, e1: bv32, r1: Rgb<nat>, e2: bv32, r2: Rgb<nat>)
    requires e1 & FlipEvent != 0 && e2 & FlipEvent != 0
    ensures Handle(Handle(s, e1, r1), e2, r2).ledOn == s.ledOn
  {
  }

  /** With the LED off every percentage sent is 0: the range check passes and every pulse written is 0. */
  lemma OffWritesZero(s: LedState, period: Rgb<nat>, status: Rgb<int>)
    requires !s.ledOn
    ensures Request(s) == (Rgb(0, 0, 0), 0)
    ensures var c := SetRgbLed(Rgb(0, 0, 0), 0, period, status);
      |c.writes| >= 1 && forall k :: 0 <= k < |c.writes| ==> c.writes[k] == 0
  {
    assert Pulse(period.red, 0, 0) == 0 && Pulse(period.green, 0, 0) == 0 && Pulse(period.blue, 0, 0) == 0;
  }

  /** The brightness after k tilts. */
  function Tilted(b: nat, k: nat): nat
    decreases k
  {
    if k == 0 then b else ((Tilted(b, k - 1) + 10) % U32) % 100
  }

  /** From a brightness in [0, 90] that is a multiple of 10, k tilts give (b + 10 k) mod 100: ten tilts are a full cycle. */
  lemma {:induction false} TiltCycle(b: nat, k: nat)
    requires b % 10 == 0 && b <= 90
    ensures Tilted(b, k) == (b + 10 * k) % 100
    ensures k == 10 ==> Tilted(b, k) == b
    decreases k
  {
    if k > 0 {
      TiltCycle(b, k - 1);
      TiltStep(Tilted(b, k - 1), b + 10 * (k - 1));
      assert b + 10 * (k - 1) + 10 == b + 10 * k;
    }
    if k == 10 {
      assert (b + 100) % 100 == b;
    }
  }

  /** One tilt from t = x mod 100 gives (x + 10) mod 100. */
  lemma TiltStep(t: nat, x: nat)
    requires t == x % 100
    ensures ((t + 10) % U32) % 100 == (x + 10) % 100
  {
    assert (t + 10) % U32 == t + 10;
  }

  /** The variables of led_control_thread, and the static led_on. */
  class LedThread {
    var red: nat
    var green: nat
    var blue: nat
    var brightness: nat
    var ledOn: bool

    function State(): LedState
      reads this
    {
      LedState(red, green, blue, brightness, ledOn)
    }

    /** The values before the loop: white at 50 %, LED on. */
    constructor ()
      ensures State() == InitialState()
      ensures Inv(State())
    {
      red, green, blue, brightness := 100, 100, 100, 50;
      ledOn := true;
    }

    /**
     * One pass of the loop after k_event_wait returns events: handle the
     * flags, then call set_rgb_led with the colour or with zeros.
     */
    method Wake(events: bv32, rands: Rgb<nat>, period: Rgb<nat>, status: Rgb<int>) returns (call: LedCall)
      modifies this
      ensures State() == Handle(old(State()), events, rands)
      ensures call == SetRgbLed(Request(State()).0, Request(State()).1, period, status)
      ensures Inv(old(State())) ==> Inv(State())
    {
      ghost var before := State();
      if events & ShakeEvent != 0 {
        red := rands.red % 100;
        green := rands.green % 100;
        blue := rands.blue % 100;
      }
      if events & TiltEvent != 0 {
        brightness := ((brightness + 10) % U32) % 100;
      }
      if events & FlipEvent != 0 {
        ledOn := !ledOn;
      }
      if ledOn {
        call := SetRgbLed(Rgb(ToU8(red), ToU8(green), ToU8(blue)), ToU8(brightness), period, status);
      } else {
        call := SetRgbLed(Rgb(0, 0, 0), 0, period, status);
      }
      if Inv(before) {
        HandleKeepsInv(before, events, rands);
      }
    }
  }
}
