// The LED device (LedDevice.h / LedDevice.cpp): a fixed-length array of
// colours, one per LED unit, with a default foreground and background colour,
// single-cell and fill-all writes, and the two one-step shifts.

module Leds {
  import opened Palette

  /** `n` cells, all of colour `c`. */
  function Uniform(n: nat, c: Color): (r: seq<Color>)
    ensures |r| == n && forall i :: 0 <= i < n ==> r[i] == c
  {
    seq(n, _ => c)
  }

  /** The cells after `advanceLEDs`: content moves one place toward the end,
      the last cell falls off, and `fill` enters at index 0. */
  function ShiftForward(s: seq<Color>, fill: Color): (r: seq<Color>)
    requires |s| >= 1
    ensures |r| == |s| && r[0] == fill
    ensures forall i :: 1 <= i < |s| ==> r[i] == s[i - 1]
  {
    [fill] + s[..|s| - 1]
  }

  /** The cells after `retreatLEDs`: content moves one place toward the start,
      the first cell falls off, and `fill` enters at index N-1. */
  function ShiftBackward(s: seq<Color>, fill: Color): (r: seq<Color>)
    requires |s| >= 1
    ensures |r| == |s| && r[|s| - 1] == fill
    ensures forall i :: 0 <= i < |s| - 1 ==> r[i] == s[i + 1]
  {
    s[1..] + [fill]
  }

  /** Advancing and then retreating restores every cell but the last, which
      becomes `fill`; so it restores the whole buffer exactly when the last
      cell already held `fill`. */
  lemma AdvanceThenRetreat(s: seq<Color>, fill: Color)
    requires |s| >= 1
    ensures ShiftBackward(ShiftForward(s, fill), fill) == s[..|s| - 1] + [fill]
    ensures ShiftBackward(ShiftForward(s, fill), fill) == s <==> s[|s| - 1] == fill
  {
    var r := ShiftBackward(ShiftForward(s, fill), fill);
    assert r == s[..|s| - 1] + [fill];
    if s[|s| - 1] == fill {
      assert s == s[..|s| - 1] + [s[|s| - 1]];
    }
    if r == s {
      assert r[|s| - 1] == fill;
    }
  }

  /** Retreating and then advancing restores every cell but the first, which
      becomes `fill`. */
  lemma RetreatThenAdvance(s: seq<Color>, fill: Color)
    requires |s| >= 1
    ensures ShiftForward(ShiftBackward(s, fill), fill) == [fill] + s[1..]
    ensures ShiftForward(ShiftBackward(s, fill), fill) == s <==> s[0] == fill
  {
    var r := ShiftForward(ShiftBackward(s, fill), fill);
    assert r == [fill] + s[1..];
    if s[0] == fill {
      assert s == [s[0]] + s[1..];
    }
  }

  /**
   * An `LedDevice`: `leds` is the colour array of `maxLEDs` LED units, and
   * `foreground` / `background` are the default colours. The count and the
   * array are fixed for the object's lifetime.
   */
  class LedDevice {
    const maxLEDs: nat
    const dataPin: int
    const leds: array<Color>
    var foreground: Color
    var background: Color

    ghost predicate Valid()
    {
      leds.Length == maxLEDs
    }

    /** A new device has foreground Yellow and background Cyan. */
    constructor (nLEDs: nat, dPin: int, lights: array<Color>)
      requires lights.Length == nLEDs
      ensures Valid()
      ensures maxLEDs == nLEDs && dataPin == dPin && leds == lights
      ensures foreground == Yellow && background == Cyan
    {
      maxLEDs := nLEDs;
      dataPin := dPin;
      leds := lights;
      foreground := Yellow;
      background := Cyan;
    }

    /** `numberOfLEDs`: the number of LED units, which is the array's length. */
    function NumberOfLEDs(): (n: nat)
      requires Valid()
      ensures n == leds.Length
    {
      maxLEDs
    }

    /** `getBackground`: the stored default background colour. */
    function GetBackground(): (c: Color)
      reads this
      ensures c == background
    {
      background
    }

    /** `getForeground`: the stored default foreground colour. */
    function GetForeground(): (c: Color)
      reads this
      ensures c == foreground
    {
      foreground
    }

    /** `show`: transmits the cells to the hardware; no effect on the model. */
    method Show()
    {
    }

    /** `setLED(offset, color)`: changes cell `offset` and no other. */
    method SetLED(offset: int, color: Color)
      requires Valid() && 0 <= offset < maxLEDs
      modifies leds
      ensures leds[..] == old(leds[..])[offset := color]
    {
      leds[offset] := color;
    }

    /** `advanceLEDs`: one step toward the end, background in at index 0. */
    method AdvanceLEDs()
      requires Valid() && maxLEDs >= 1
      modifies leds
      ensures leds[..] == ShiftForward(old(leds[..]), background)
    {
      var i := maxLEDs - 1;
      while i > 0
        invariant 0 <= i <= maxLEDs - 1
        invariant forall k :: 0 <= k <= i ==> leds[k] == old(leds[k])
        invariant forall k :: i < k < maxLEDs ==> leds[k] == old(leds[k - 1])
      {
        leds[i] := leds[i - 1];
        i := i - 1;
      }
      leds[0] := background;
    }

    /** `retreatLEDs`: one step toward the start, background in at index N-1. */
    method RetreatLEDs()
      requires Valid() && maxLEDs >= 1
      modifies leds
      ensures leds[..] == ShiftBackward(old(leds[..]), background)
    {
      var i := 1;
      while i < maxLEDs
        invariant 1 <= i <= maxLEDs
        invariant forall k :: 0 <= k < i - 1 ==> leds[k] == old(leds[k + 1])
        invariant forall k :: i - 1 <= k < maxLEDs ==> leds[k] == old(leds[k])
      {
        leds[i - 1] := leds[i];
        i := i + 1;
      }
      leds[maxLEDs - 1] := background;
    }

    /** `setLEDs(color)`: every cell becomes `color`. */
    method SetLEDs(color: Color)
      requires Valid()
      modifies leds
      ensures leds[..] == Uniform(maxLEDs, color)
    {
      var i := 0;
      while i < maxLEDs
        invariant 0 <= i <= maxLEDs
        invariant forall k :: 0 <= k < i ==> leds[k] == color
      {
        leds[i] := color;
        i := i + 1;
      }
    }

    /** `setLEDsBackground`: every cell becomes the default background. */
    method SetLEDsBackground()
      requires Valid()
      modifies leds
      ensures leds[..] == Uniform(maxLEDs, background)
    {
      SetLEDs(background);
    }

    /** `setLEDsForeground`: every cell becomes the default foreground. */
    method SetLEDsForeground()
      requires Valid()
      modifies leds
      ensures leds[..] == Uniform(maxLEDs, foreground)
    {
      SetLEDs(foreground);
    }

    /** `showBackground`: overwrites every cell with the background and shows it. */
    method ShowBackground()
      requires Valid()
      modifies leds
      ensures leds[..] == Uniform(maxLEDs, background)
    {
      SetLEDsBackground();
      Show();
    }

    /** `showForeground`: overwrites every cell with the foreground and shows it. */
    method ShowForeground()
      requires Valid()
      modifies leds
      ensures leds[..] == Uniform(maxLEDs, foreground)
    {
      SetLEDsForeground();
      Show();
    }

    /** `setBackground`: changes the stored default and no cell. */
    method SetBackground(color: Color)
      modifies this`background
      ensures background == color && GetBackground() == color
      ensures leds[..] == old(leds[..])
    {
      background := color;
    }

    /** `setForeground`: changes the stored default and no cell. */
    method SetForeground(color: Color)
      modifies this`foreground
      ensures foreground == color && GetForeground() == color
      ensures leds[..] == old(leds[..])
    {
      foreground := color;
    }
  }
}
