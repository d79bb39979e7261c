// The fill-and-clear show skeleton (FillAndClear.h / FillAndClear.cpp):
// 2N steps, each shifting the buffer one place toward the end and putting the
// colour chosen by the `nextColor` hook into cell 0, with a cancellation
// check after every step.

module Fill {
  import opened Palette
  import opened Leds
  import opened Shows

  /** The cells after `k` steps of `display` from `s`: each step is
      `advanceLEDs` (background `bg` in at cell 0) followed by
      `setLED(0, nextColor(i))` for the step number `i`. */
  function FillSteps(s: seq<Color>, bg: Color, nextColor: int -> Color, k: nat): (r: seq<Color>)
    requires |s| >= 1 || k == 0
    ensures |r| == |s|
    decreases k
  {
    if k == 0 then s
    else ShiftForward(FillSteps(s, bg, nextColor, k - 1), bg)[0 := nextColor(k - 1)]
  }

  /** After `k` steps, cell `j` holds the colour chosen at step `k-1-j` when
      `j < k`, and the old cell `j-k` otherwise; the device background that
      `advanceLEDs` puts in is always overwritten. */
  lemma {:induction false} FillStepsAt(s: seq<Color>, bg: Color, nextColor: int -> Color, k: nat, j: int)
    requires |s| >= 1 && 0 <= j < |s|
    ensures FillSteps(s, bg, nextColor, k)[j] == if j < k then nextColor(k - 1 - j) else s[j - k]
    decreases k
  {
    if k > 0 && j > 0 {
      FillStepsAt(s, bg, nextColor, k - 1, j - 1);
    }
  }

  /** The first `k` steps ask the hook only for the step numbers 0 .. k-1:
      two hooks that agree there give the same cells. */
  lemma {:induction false} FillStepsUsesEarlierSteps(s: seq<Color>, bg: Color, f: int -> Color, g: int -> Color, k: nat)
    requires |s| >= 1 || k == 0
    requires forall i :: 0 <= i < k ==> f(i) == g(i)
    ensures FillSteps(s, bg, f, k) == FillSteps(s, bg, g, k)
    decreases k
  {
    if k > 0 {
      FillStepsUsesEarlierSteps(s, bg, f, g, k - 1);
    }
  }

  /**
   * A `FillAndClear` show: the `LightShow` part and `maxLEDs`, the device's
   * LED count cached at construction. Subclasses differ only in the
   * `nextColor` hook, which `Display` takes as a function.
   */
  class FillAndClear {
    const base: LightShow
    const maxLEDs: int

    ghost predicate Valid()
    {
      base.device.Valid() && maxLEDs == base.device.maxLEDs
    }

    /** The constructor caches the device's LED count. */
    constructor (dLED: LedDevice)
      requires dLED.Valid()
      ensures Valid() && fresh(base)
      ensures base.device == dLED && !base.exitRun && maxLEDs == dLED.maxLEDs
    {
      base := new LightShow(dLED);
      maxLEDs := dLED.NumberOfLEDs();
    }

    /** `display`: clears `exitRun`, then runs up to 2N steps; the check after
        step `i` is check point `i`, and a set flag ends the show there with
        `exitRun` set. Returns the number of steps performed. */
    method Display(nextColor: int -> Color, raisedAt: nat) returns (iterations: nat)
      requires Valid()
      modifies base, base.device.leds
      ensures iterations == if raisedAt < 2 * maxLEDs then raisedAt + 1 else 2 * maxLEDs
      ensures base.exitRun == (raisedAt < 2 * maxLEDs)
      ensures base.device.leds[..] == FillSteps(old(base.device.leds[..]), base.device.background, nextColor, iterations)
    {
      base.exitRun := false;
      var max := 2 * maxLEDs;
      iterations := 0;
      while iterations < max
        invariant 0 <= iterations <= max
        invariant iterations <= raisedAt
        invariant !base.exitRun
        invariant base.device.leds[..] == FillSteps(old(base.device.leds[..]), base.device.background, nextColor, iterations)
      {
        base.device.AdvanceLEDs();
        base.device.SetLED(0, nextColor(iterations));
        base.device.Show();
        iterations := iterations + 1;
        var leave := base.CheckIntr(ModeChangeAt(raisedAt, iterations - 1));
        if leave {
          return;
        }
      }
    }
  }
}
