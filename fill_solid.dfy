// The solid fill show (FillSolid.h / FillSolid.cpp): a FillAndClear show
// whose hook gives the show's own foreground for the first N steps and its
// own background for the next N, so the device fills one unit at a time and
// then clears one unit at a time.

module Solid {
  import opened Palette
  import opened Leds
  import opened Shows
  import opened Fill

  /** The FillSolid hook for a device of `maxLEDs` units. */
  function SolidColor(maxLEDs: int, fg: Color, bg: Color, offset: int): (c: Color)
    ensures 0 <= offset < maxLEDs ==> c == fg
    ensures maxLEDs <= offset < 2 * maxLEDs ==> c == bg
  {
    if offset < maxLEDs then fg else bg
  }

  /** The cells after `k` FillSolid steps from `s`, cell by cell. */
  function SolidFrame(s: seq<Color>, fg: Color, bg: Color, k: nat): (r: seq<Color>)
    ensures |r| == |s|
  {
    seq(|s|, j requires 0 <= j < |s| => if j < k then SolidColor(|s|, fg, bg, k - 1 - j) else s[j - k])
  }

  /** The fill stage: after `k <= N` steps the first `k` units show the
      foreground and the old content has moved `k` places toward the end. */
  lemma SolidFilling(s: seq<Color>, fg: Color, bg: Color, k: nat)
    requires k <= |s|
    ensures SolidFrame(s, fg, bg, k) == Uniform(k, fg) + s[..|s| - k]
  {
    var r := SolidFrame(s, fg, bg, k);
    var t := Uniform(k, fg) + s[..|s| - k];
    assert |r| == |t|;
    forall j | 0 <= j < |s|
      ensures r[j] == t[j]
    {
      if j < k {
        assert t[j] == Uniform(k, fg)[j] == fg;
        assert r[j] == SolidColor(|s|, fg, bg, k - 1 - j) == fg;
      } else {
        assert t[j] == s[..|s| - k][j - k] == s[j - k];
        assert r[j] == s[j - k];
      }
    }
  }

  /** The clear stage: after `N + k` steps (`k <= N`) the first `k` units
      show the background and the rest the foreground. */
  lemma SolidClearing(s: seq<Color>, fg: Color, bg: Color, k: nat)
    requires k <= |s|
    ensures SolidFrame(s, fg, bg, |s| + k) == Uniform(k, bg) + Uniform(|s| - k, fg)
  {
    var r := SolidFrame(s, fg, bg, |s| + k);
    var t := Uniform(k, bg) + Uniform(|s| - k, fg);
    assert |r| == |t|;
    forall j | 0 <= j < |s|
      ensures r[j] == t[j]
    {
      if j < k {
        assert t[j] == Uniform(k, bg)[j] == bg;
        assert r[j] == SolidColor(|s|, fg, bg, |s| + k - 1 - j) == bg;
      } else {
        assert t[j] == Uniform(|s| - k, fg)[j - k] == fg;
        assert r[j] == SolidColor(|s|, fg, bg, |s| + k - 1 - j) == fg;
      }
    }
  }

  /** After N steps every unit is the foreground; after 2N every unit is the
      background, whatever the buffer held before. */
  lemma SolidStages(s: seq<Color>, fg: Color, bg: Color)
    ensures SolidFrame(s, fg, bg, |s|) == Uniform(|s|, fg)
    ensures SolidFrame(s, fg, bg, 2 * |s|) == Uniform(|s|, bg)
  {
    SolidFilling(s, fg, bg, |s|);
    assert s[..0] == [];
    assert Uniform(|s|, fg) + [] == Uniform(|s|, fg);
    SolidClearing(s, fg, bg, |s|);
    assert Uniform(|s|, bg) + Uniform(0, fg) == Uniform(|s|, bg);
  }

  /**
   * A `FillSolid` show: its FillAndClear part and its own foreground and
   * background colours, separate from the device's defaults.
   */
  class FillSolid {
    const fill: FillAndClear
    var foreground: Color
    var background: Color

    ghost predicate Valid()
    {
      fill.Valid()
    }

    /** The constructor stores the two colours as the show's own. */
    constructor (fColor: Color, bColor: Color, dLED: LedDevice)
      requires dLED.Valid()
      ensures Valid() && fresh(fill) && fresh(fill.base)
      ensures fill.base.device == dLED && !fill.base.exitRun && fill.maxLEDs == dLED.maxLEDs
      ensures foreground == fColor && background == bColor
    {
      fill := new FillAndClear(dLED);
      foreground := fColor;
      background := bColor;
    }

    /** `nextColor(offset)`: the show's foreground for the fill stage
        [0, N) and its background for the clear stage [N, 2N). */
    function NextColor(offset: int): (c: Color)
      reads this
      ensures 0 <= offset < fill.maxLEDs ==> c == foreground
      ensures fill.maxLEDs <= offset < 2 * fill.maxLEDs ==> c == background
    {
      SolidColor(fill.maxLEDs, foreground, background, offset)
    }

    /** `setForeground`: changes the show's foreground only. */
    method SetForeground(fColor: Color)
      modifies this`foreground
      ensures foreground == fColor && background == old(background)
      ensures fill.base.device.leds[..] == old(fill.base.device.leds[..])
    {
      foreground := fColor;
    }

    /** `setBackground`: changes the show's background only. */
    method SetBackground(bColor: Color)
      modifies this`background
      ensures background == bColor && foreground == old(foreground)
      ensures fill.base.device.leds[..] == old(fill.base.device.leds[..])
    {
      background := bColor;
    }

    /** The inherited `display` with this show's `nextColor`. */
    method Display(raisedAt: nat) returns (iterations: nat)
      requires Valid()
      modifies fill.base, fill.base.device.leds
      ensures iterations == if raisedAt < 2 * fill.maxLEDs then raisedAt + 1 else 2 * fill.maxLEDs
      ensures fill.base.exitRun == (raisedAt < 2 * fill.maxLEDs)
      ensures fill.base.device.leds[..] == SolidFrame(old(fill.base.device.leds[..]), foreground, background, iterations)
    {
      var n, f, b := fill.maxLEDs, foreground, background;
      ghost var s := fill.base.device.leds[..];
      iterations := fill.Display(k => SolidColor(n, f, b, k), raisedAt);
      var r := fill.base.device.leds[..];
      forall j | 0 <= j < n
        ensures r[j] == SolidFrame(s, f, b, iterations)[j]
      {
        FillStepsAt(s, fill.base.device.background, k => SolidColor(n, f, b, k), iterations, j);
      }
    }

    /** `run(clear)`: with `clear`, first every cell becomes the device
        background; then the show runs. */
    method Run(clear: bool, raisedAt: nat) returns (iterations: nat)
      requires Valid()
      modifies fill.base, fill.base.device.leds
      ensures iterations == if raisedAt < 2 * fill.maxLEDs then raisedAt + 1 else 2 * fill.maxLEDs
      ensures fill.base.exitRun == (raisedAt < 2 * fill.maxLEDs)
      ensures fill.base.device.leds[..] == SolidFrame(
                if clear then Uniform(fill.maxLEDs, fill.base.device.background) else old(fill.base.device.leds[..]),
                foreground, background, iterations)
    {
      if clear {
        fill.base.device.ShowBackground();
      }
      iterations := Display(raisedAt);
    }

    /** `run()`: the same as `run(true)`. */
    method RunDefault(raisedAt: nat) returns (iterations: nat)
      requires Valid()
      modifies fill.base, fill.base.device.leds
      ensures iterations == if raisedAt < 2 * fill.maxLEDs then raisedAt + 1 else 2 * fill.maxLEDs
      ensures fill.base.exitRun == (raisedAt < 2 * fill.maxLEDs)
      ensures fill.base.device.leds[..] == SolidFrame(Uniform(fill.maxLEDs, fill.base.device.background), foreground, background, iterations)
    {
      iterations := Run(true, raisedAt);
    }
  }

  /** Run to completion from a cleared device, the show leaves every unit in
      its own background colour, not the device's. */
  method SolidRunClears(dLED: LedDevice, fg: Color, bg: Color) returns (iterations: nat)
    requires dLED.Valid()
    modifies dLED.leds
    ensures iterations == 2 * dLED.maxLEDs
    ensures dLED.leds[..] == Uniform(dLED.maxLEDs, bg)
  {
    var show := new FillSolid(fg, bg, dLED);
    iterations := show.RunDefault(2 * dLED.maxLEDs);
    SolidStages(Uniform(dLED.maxLEDs, dLED.background), fg, bg);
  }
}
