/**
 * The mode button: after the debounce delay the work handler reads the pin
 * and, when the read returns non-zero, advances the shared visualisation
 * mode by one, wrapping after the last mode.  Whether the read returned
 * non-zero (a level of 1 or a negative error code) is a parameter.
 */
module Button {

  /** The visualisation modes, in declaration order. */
  const SplashScreen: int := 0
  const SnakeGameMode: int := 8
  /** e_VisualizationMode_MAX, the number of modes. */
  const ModeCount: int := 9

  /** C's % on int, which truncates toward zero. */
  function CRem(a: int, b: int): (r: int)
    requires b > 0
    ensures a >= 0 ==> 0 <= r < b && r == a % b
    ensures a < 0 ==> -b < r <= 0
  {
    if a >= 0 then a % b else -((-a) % b)
  }

  /** The mode after one press. */
  function NextMode(m: int): int
  {
    CRem(m + 1, ModeCount)
  }

  /**
   * From any mode, a press moves to the next mode in declaration order and
   * from the last one (the snake game) back to the splash screen.
   */
  lemma NextModeCycle(m: int)
    requires SplashScreen <= m < ModeCount
    ensures SplashScreen <= NextMode(m) < ModeCount
    ensures m < SnakeGameMode ==> NextMode(m) == m + 1
    ensures m == SnakeGameMode ==> NextMode(m) == SplashScreen
  {
  }

  /** The mode after k presses. */
  function Presses(m: int, k: nat): int
    decreases k
  {
    if k == 0 then m else NextMode(Presses(m, k - 1))
  }

  /** k presses advance a valid mode by k modulo the number of modes. */
  lemma {:induction false} PressesCycle(m: int, k: nat)
    requires SplashScreen <= m < ModeCount
    ensures Presses(m, k) == (m + k) % ModeCount
    decreases k
  {
    if k > 0 {
      PressesCycle(m, k - 1);
      var before := Presses(m, k - 1);
      assert Presses(m, k) == CRem(before + 1, ModeCount);
      assert CRem(before + 1, ModeCount) == (before + 1) % ModeCount;
      WrapStep(m + k - 1);
    }
  }

  /** Every nine presses the modes repeat: nine more presses return to the same mode. */
  lemma PressesPeriodic(m: int, k: nat)
    requires SplashScreen <= m < ModeCount
    ensures Presses(m, k + ModeCount) == Presses(m, k)
  {
    PressesCycle(m, k + ModeCount);
    PressesCycle(m, k);
    ShiftByCount(m + k);
  }

  lemma ShiftByCount(x: nat)
    ensures (x + ModeCount) % ModeCount == x % ModeCount
  {
    var q, r := x / ModeCount, x % ModeCount;
    assert x == ModeCount * q + r;
    assert x + ModeCount == ModeCount * (q + 1) + r;
  }

  lemma WrapStep(x: nat)
    ensures ((x % ModeCount) + 1) % ModeCount == (x + 1) % ModeCount
  {
    var q, r := x / ModeCount, x % ModeCount;
    assert x == ModeCount * q + r;
    if r + 1 == ModeCount {
      assert x + 1 == ModeCount * (q + 1);
    } else {
      assert x + 1 == ModeCount * q + (r + 1);
    }
  }

  /** The shared mode variable. */
  class ModeSwitch {
    var mode: int

    /** shared_data_init starts in the splash screen. */
    constructor ()
      ensures mode == SplashScreen
    {
      mode := SplashScreen;
    }

    /** button_debounced; `pressed` is whether gpio_pin_get_dt returned non-zero after the delay. */
    method Debounced(pressed: bool)
      modifies this
      ensures mode == if pressed then NextMode(old(mode)) else old(mode)
      ensures SplashScreen <= old(mode) < ModeCount ==> SplashScreen <= mode < ModeCount
    {
      if pressed {
        var current := mode;
        current := CRem(current + 1, ModeCount);
        mode := current;
      }
    }
  }
}
