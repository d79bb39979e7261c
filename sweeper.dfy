// The sweeper show (Sweeper.h / Sweeper.cpp): a block of `fPixels`
// foreground units is swept to the end of the device and back, one shift at
// a time, for `nCycles` full cycles or, when `nCycles <= 0`, until the
// mode-change interrupt is seen.

module Sweep {
  import opened Palette
  import opened Leds
  import opened Shows

  function Min(a: int, b: int): int
  {
    if a <= b then a else b
  }

  /** The block size that `setNumLEDs(numLEDs)` stores on a device of `n`
      units: a request below `n` is kept as it is (negative ones too), any
      other becomes `n / 2`. */
  function ClampPixels(n: int, numLEDs: int): (f: int)
    ensures numLEDs < n ==> f == numLEDs
    ensures 1 <= n && 0 <= numLEDs ==> 0 <= f < n
  {
    if numLEDs < n then numLEDs else n / 2
  }

  /** On a 12-unit ring, a request of 20 is cut to 6 while 8 and -3 are kept. */
  lemma ClampOnTwelve()
    ensures ClampPixels(12, 20) == 6 && ClampPixels(12, 12) == 6
    ensures ClampPixels(12, 8) == 8 && ClampPixels(12, -3) == -3
  {
  }

  /** The buffer during a sweep: `a` background units, the `f` foreground
      units of the block, then background up to `n` units. */
  function Block(n: nat, a: int, f: int, fg: Color, bg: Color): (r: seq<Color>)
    ensures |r| == n
  {
    seq(n, i => if a <= i < a + f then fg else bg)
  }

  /** The layout `display` writes before sweeping: foreground on [0, f),
      background on [f, n). */
  lemma InitialLayout(n: nat, f: nat, fg: Color, bg: Color)
    requires f <= n
    ensures Block(n, 0, f, fg, bg) == Uniform(f, fg) + Uniform(n - f, bg)
  {
    var r := Block(n, 0, f, fg, bg);
    var t := Uniform(f, fg) + Uniform(n - f, bg);
    forall i | 0 <= i < n
      ensures r[i] == t[i]
    {
      if i < f {
        assert t[i] == Uniform(f, fg)[i];
      } else {
        assert t[i] == Uniform(n - f, bg)[i - f];
      }
    }
  }

  /** `advanceLEDs` moves a block that is not yet at the end one unit on. */
  lemma BlockAdvance(n: nat, a: nat, f: nat, fg: Color, bg: Color)
    requires a + f < n
    ensures ShiftForward(Block(n, a, f, fg, bg), bg) == Block(n, a + 1, f, fg, bg)
  {
    var r := ShiftForward(Block(n, a, f, fg, bg), bg);
    var t := Block(n, a + 1, f, fg, bg);
    forall i | 0 <= i < n
      ensures r[i] == t[i]
    {
    }
  }

  /** `retreatLEDs` moves a block that is not at the start one unit back. */
  lemma BlockRetreat(n: nat, a: nat, f: nat, fg: Color, bg: Color)
    requires 1 <= a && a + f <= n
    ensures ShiftBackward(Block(n, a, f, fg, bg), bg) == Block(n, a - 1, f, fg, bg)
  {
    var r := ShiftBackward(Block(n, a, f, fg, bg), bg);
    var t := Block(n, a - 1, f, fg, bg);
    forall i | 0 <= i < n
      ensures r[i] == t[i]
    {
    }
  }

  /** Where the block starts after `t` shifts of back-and-forth sweeping over
      `m` positions: out on the forward sweep, back on the backward one. */
  function SweepPosition(m: nat, t: nat): (p: nat)
    requires m > 0 || t == 0
    ensures p <= m
    decreases t
  {
    if t <= m then t
    else if t <= 2 * m then 2 * m - t
    else SweepPosition(m, t - 2 * m)
  }

  /** Every full cycle (2m shifts) brings the block back to where it was. */
  lemma {:induction false} SweepPositionCycles(m: nat, c: nat, t: nat)
    requires m > 0
    ensures SweepPosition(m, 2 * m * c + t) == SweepPosition(m, t)
    decreases c
  {
    if c > 0 {
      var x := 2 * m * c + t;
      assert x == 2 * m * (c - 1) + t + 2 * m;
      SweepPositionCycles(m, c - 1, t);
      if x <= 2 * m {
        assert c == 1 && t == 0;
      }
    }
  }

  /** The arithmetic of one cycle: its 2m shifts follow the earlier ones. */
  lemma CycleStep(m: nat, i: nat)
    ensures 2 * m * i + 2 * m == 2 * m * (i + 1)
  {
  }

  /** The cycles done so far leave room for the current one. */
  lemma CycleBound(m: nat, i: nat, nCycles: int)
    requires i < nCycles
    ensures 2 * m * i + 2 * m <= 2 * m * nCycles
  {
    CycleStep(m, i);
    assert 2 * m * nCycles == 2 * m * (i + 1) + 2 * m * (nCycles - i - 1);
  }

  /** Within cycle `i`, the position is the offset on the way out and the
      distance from the end on the way back. */
  lemma PositionInCycle(m: nat, i: nat, t: nat)
    requires m > 0 && t <= 2 * m
    ensures SweepPosition(m, 2 * m * i + t) == if t <= m then t else 2 * m - t
  {
    SweepPositionCycles(m, i, t);
  }

  /** A show that ends during a forward sweep that starts after `b` shifts
      ends after `SweepLength` shifts. */
  lemma ForwardExit(m: nat, nCycles: int, stale: bool, raisedAt: nat, b: nat, shifts: nat)
    requires nCycles > 0 ==> b + 2 * m <= 2 * m * nCycles
    requires b < raisedAt && (stale ==> b == 0)
    requires b <= shifts && shifts - b == Min(m, raisedAt - b)
    requires stale || raisedAt <= shifts
    ensures shifts == SweepLength(m, nCycles, stale, raisedAt)
    ensures m > 0 || shifts == 0
  {
  }

  /** A show that ends during a backward sweep that starts after `b + m`
      shifts ends after `SweepLength` shifts, and never on a stale flag. */
  lemma BackwardExit(m: nat, nCycles: int, raisedAt: nat, b: nat, shifts: nat)
    requires nCycles > 0 ==> b + 2 * m <= 2 * m * nCycles
    requires b + m < raisedAt <= shifts
    requires shifts - b - m == Min(m, raisedAt - b - m)
    ensures shifts == SweepLength(m, nCycles, false, raisedAt)
    ensures m > 0 && shifts - b <= 2 * m
  {
  }

  /** The number of shifts `display` performs, given `m = N - fPixels`, the
      cycle count, whether `exitRun` was already set on entry (`stale`),
      and the check point at which the mode change is first seen. */
  function SweepLength(m: nat, nCycles: int, stale: bool, raisedAt: nat): nat
  {
    Min(raisedAt, if stale then m else if nCycles > 0 then 2 * m * nCycles else raisedAt)
  }

  /** With a positive cycle count and no interrupt, `display` performs
      exactly `nCycles` forward and backward sweeps and leaves the block
      where it started; with a count of 0 or less it stops only at the
      interrupt. */
  lemma SweepLengthCases(m: nat, nCycles: int, raisedAt: nat)
    ensures nCycles > 0 && 2 * m * nCycles < raisedAt ==>
              SweepLength(m, nCycles, false, raisedAt) == 2 * m * nCycles
    ensures nCycles > 0 && m > 0 ==> SweepPosition(m, 2 * m * nCycles) == 0
    ensures nCycles <= 0 ==> SweepLength(m, nCycles, false, raisedAt) == raisedAt
  {
    if nCycles > 0 && m > 0 {
      SweepPositionCycles(m, nCycles, 0);
    }
  }

  /**
   * A `Sweeper` show: its `LightShow` part, the block size `fPixels` and the
   * cycle count `nCycles` (0 or less: sweep until interrupted).
   */
  class Sweeper {
    const base: LightShow
    var fPixels: int
    var nCycles: int

    ghost predicate Valid()
    {
      base.device.Valid()
    }

    /** A new sweeper has a block of 2 units and an unlimited cycle count. */
    constructor (dLEDs: LedDevice)
      ensures fresh(base) && base.device == dLEDs && !base.exitRun
      ensures fPixels == 2 && nCycles == 0
    {
      base := new LightShow(dLEDs);
      fPixels := 2;
      nCycles := 0;
    }

    /** `getNumLEDs`: the block size. */
    function GetNumLEDs(): (f: int)
      reads this
      ensures f == fPixels
    {
      fPixels
    }

    /** `setNumLEDs`: stores the clamped block size. */
    method SetNumLEDs(numLEDs: int)
      requires Valid()
      modifies this`fPixels
      ensures fPixels == ClampPixels(base.device.maxLEDs, numLEDs)
    {
      fPixels := ClampPixels(base.device.NumberOfLEDs(), numLEDs);
    }

    /** `setCycles`: stores the cycle count unchanged. */
    method SetCycles(numberOfCycles: int)
      modifies this`nCycles
      ensures nCycles == numberOfCycles
    {
      nCycles := numberOfCycles;
    }

    /** `forwardSweep`: up to N - fPixels advances of the block, each
        followed by the check point numbered by the shifts done so far. */
    method ForwardSweep(raisedAt: nat, before: nat) returns (after: nat)
      requires Valid() && 0 <= fPixels <= base.device.maxLEDs
      requires before < raisedAt
      requires base.device.leds[..] == Block(base.device.maxLEDs, 0, fPixels, base.device.foreground, base.device.background)
      modifies base, base.device.leds
      ensures before <= after
      ensures after - before == Min(base.device.maxLEDs - fPixels, raisedAt - before)
      ensures base.exitRun == (old(base.exitRun) || raisedAt <= after)
      ensures base.device.leds[..] == Block(base.device.maxLEDs, after - before, fPixels, base.device.foreground, base.device.background)
    {
      var iterations := base.device.NumberOfLEDs() - fPixels;
      var i := 0;
      after := before;
      while i < iterations
        invariant 0 <= i <= iterations
        invariant after == before + i && after < raisedAt
        invariant base.exitRun == old(base.exitRun)
        invariant base.device.leds[..] == Block(base.device.maxLEDs, i, fPixels, base.device.foreground, base.device.background)
      {
        BlockAdvance(base.device.maxLEDs, i, fPixels, base.device.foreground, base.device.background);
        base.device.AdvanceLEDs();
        base.device.Show();
        i := i + 1;
        after := after + 1;
        var leave := base.CheckIntr(ModeChangeAt(raisedAt, after));
        if leave {
          return;
        }
      }
    }

    /** `backwardSweep`: up to N - fPixels retreats of the block, each
        followed by the check point numbered by the shifts done so far. */
    method BackwardSweep(raisedAt: nat, before: nat) returns (after: nat)
      requires Valid() && 0 <= fPixels <= base.device.maxLEDs
      requires before < raisedAt
      requires base.device.leds[..] == Block(base.device.maxLEDs, base.device.maxLEDs - fPixels, fPixels, base.device.foreground, base.device.background)
      modifies base, base.device.leds
      ensures before <= after
      ensures after - before == Min(base.device.maxLEDs - fPixels, raisedAt - before)
      ensures base.exitRun == (old(base.exitRun) || raisedAt <= after)
      ensures base.device.leds[..] == Block(base.device.maxLEDs, base.device.maxLEDs - fPixels - (after - before), fPixels, base.device.foreground, base.device.background)
    {
      var iterations := base.device.NumberOfLEDs() - fPixels;
      var i := 0;
      after := before;
      while i < iterations
        invariant 0 <= i <= iterations
        invariant after == before + i && after < raisedAt
        invariant base.exitRun == old(base.exitRun)
        invariant base.device.leds[..] == Block(base.device.maxLEDs, iterations - i, fPixels, base.device.foreground, base.device.background)
      {
        BlockRetreat(base.device.maxLEDs, iterations - i, fPixels, base.device.foreground, base.device.background);
        base.device.RetreatLEDs();
        base.device.Show();
        i := i + 1;
        after := after + 1;
        var leave := base.CheckIntr(ModeChangeAt(raisedAt, after));
        if leave {
          return;
        }
      }
    }

    /** `limitedCycles`: `nCycles` forward and backward sweeps, each followed
        by `CHECK_EXIT`. */
    method LimitedCycles(raisedAt: nat) returns (shifts: nat)
      requires Valid() && 0 <= fPixels <= base.device.maxLEDs
      requires nCycles > 0 && 0 < raisedAt
      requires base.device.leds[..] == Block(base.device.maxLEDs, 0, fPixels, base.device.foreground, base.device.background)
      modifies base, base.device.leds
      ensures shifts == SweepLength(base.device.maxLEDs - fPixels, nCycles, old(base.exitRun), raisedAt)
      ensures base.exitRun == (old(base.exitRun) || raisedAt <= shifts)
      ensures base.device.maxLEDs - fPixels > 0 || shifts == 0
      ensures base.device.leds[..] == Block(base.device.maxLEDs, SweepPosition(base.device.maxLEDs - fPixels, shifts), fPixels, base.device.foreground, base.device.background)
    {
      ghost var m := base.device.maxLEDs - fPixels;
      ghost var stale := base.exitRun;
      shifts := 0;
      var i := 0;
      while i < nCycles
        invariant 0 <= i <= nCycles
        invariant shifts == 2 * m * i && shifts < raisedAt
        invariant base.exitRun == stale && (i > 0 ==> !stale)
        invariant base.device.leds[..] == Block(base.device.maxLEDs, 0, fPixels, base.device.foreground, base.device.background)
      {
        if nCycles > 0 {
          CycleBound(m, i, nCycles);
        }
        shifts := ForwardSweep(raisedAt, shifts);
        if base.exitRun {
          ForwardExit(m, nCycles, stale, raisedAt, 2 * m * i, shifts);
          if m > 0 {
            PositionInCycle(m, i, shifts - 2 * m * i);
          }
          return;
        }
        shifts := BackwardSweep(raisedAt, shifts);
        if base.exitRun {
          BackwardExit(m, nCycles, raisedAt, 2 * m * i, shifts);
          PositionInCycle(m, i, shifts - 2 * m * i);
          return;
        }
        CycleStep(m, i);
        i := i + 1;
      }
      if m > 0 {
        SweepPositionCycles(m, nCycles, 0);
      }
    }

    /** `infiniteCycles`: forward and backward sweeps, each followed by
        `CHECK_EXIT`, until `exitRun` is set. */
    method InfiniteCycles(raisedAt: nat) returns (shifts: nat)
      requires Valid() && 0 <= fPixels <= base.device.maxLEDs
      requires nCycles <= 0 && 0 < raisedAt
      requires fPixels < base.device.maxLEDs || base.exitRun
      requires base.device.leds[..] == Block(base.device.maxLEDs, 0, fPixels, base.device.foreground, base.device.background)
      modifies base, base.device.leds
      ensures shifts == SweepLength(base.device.maxLEDs - fPixels, nCycles, old(base.exitRun), raisedAt)
      ensures base.exitRun == (old(base.exitRun) || raisedAt <= shifts)
      ensures base.device.maxLEDs - fPixels > 0 || shifts == 0
      ensures base.device.leds[..] == Block(base.device.maxLEDs, SweepPosition(base.device.maxLEDs - fPixels, shifts), fPixels, base.device.foreground, base.device.background)
    {
      ghost var m := base.device.maxLEDs - fPixels;
      ghost var stale := base.exitRun;
      ghost var c: nat := 0;
      shifts := 0;
      while true
        invariant shifts == 2 * m * c && shifts < raisedAt
        invariant base.exitRun == stale && (c > 0 ==> !stale)
        invariant base.device.leds[..] == Block(base.device.maxLEDs, 0, fPixels, base.device.foreground, base.device.background)
        decreases raisedAt - shifts
      {
        shifts := ForwardSweep(raisedAt, shifts);
        if base.exitRun {
          ForwardExit(m, nCycles, stale, raisedAt, 2 * m * c, shifts);
          if m > 0 {
            PositionInCycle(m, c, shifts - 2 * m * c);
          }
          return;
        }
        shifts := BackwardSweep(raisedAt, shifts);
        if base.exitRun {
          BackwardExit(m, nCycles, raisedAt, 2 * m * c, shifts);
          PositionInCycle(m, c, shifts - 2 * m * c);
          return;
        }
        CycleStep(m, c);
        c := c + 1;
      }
    }

    /** `display`: lays out the block at the start, checks for the
        interrupt (check point 0), then cycles. `exitRun` is not cleared, so
        a flag left set by an earlier run ends the show after its first
        forward sweep. The result is the number of shifts performed. */
    method Display(raisedAt: nat) returns (shifts: nat)
      requires Valid() && 0 <= fPixels <= base.device.maxLEDs
      requires nCycles > 0 || fPixels < base.device.maxLEDs || base.exitRun
      modifies base, base.device.leds
      ensures shifts == SweepLength(base.device.maxLEDs - fPixels, nCycles, old(base.exitRun), raisedAt)
      ensures base.exitRun == (old(base.exitRun) || raisedAt <= shifts)
      ensures base.device.maxLEDs - fPixels > 0 || shifts == 0
      ensures base.device.leds[..] == Block(base.device.maxLEDs, SweepPosition(base.device.maxLEDs - fPixels, shifts), fPixels, base.device.foreground, base.device.background)
    {
      var maxLEDs := base.device.NumberOfLEDs();
      var i := 0;
      while i < fPixels
        invariant 0 <= i <= fPixels
        invariant base.exitRun == old(base.exitRun)
        invariant forall k :: 0 <= k < i ==> base.device.leds[k] == base.device.foreground
      {
        base.device.SetLED(i, base.device.GetForeground());
        i := i + 1;
      }
      i := fPixels;
      while i < maxLEDs
        invariant fPixels <= i <= maxLEDs
        invariant base.exitRun == old(base.exitRun)
        invariant forall k :: 0 <= k < fPixels ==> base.device.leds[k] == base.device.foreground
        invariant forall k :: fPixels <= k < i ==> base.device.leds[k] == base.device.background
      {
        base.device.SetLED(i, base.device.GetBackground());
        i := i + 1;
      }
      assert base.device.leds[..] == Block(maxLEDs, 0, fPixels, base.device.foreground, base.device.background);
      base.device.Show();
      var leave := base.CheckIntr(ModeChangeAt(raisedAt, 0));
      if leave {
        shifts := 0;
        return;
      }
      if nCycles > 0 {
        shifts := LimitedCycles(raisedAt);
      } else {
        shifts := InfiniteCycles(raisedAt);
      }
    }

    /** `run(clear)`: with `clear`, first every cell becomes the device
        background; then the show runs (and lays out its own block). */
    method Run(clear: bool, raisedAt: nat) returns (shifts: nat)
      requires Valid() && 0 <= fPixels <= base.device.maxLEDs
      requires nCycles > 0 || fPixels < base.device.maxLEDs || base.exitRun
      modifies base, base.device.leds
      ensures shifts == SweepLength(base.device.maxLEDs - fPixels, nCycles, old(base.exitRun), raisedAt)
      ensures base.exitRun == (old(base.exitRun) || raisedAt <= shifts)
      ensures base.device.maxLEDs - fPixels > 0 || shifts == 0
      ensures base.device.leds[..] == Block(base.device.maxLEDs, SweepPosition(base.device.maxLEDs - fPixels, shifts), fPixels, base.device.foreground, base.device.background)
    {
      if clear {
        base.device.ShowBackground();
      }
      shifts := Display(raisedAt);
    }

    /** `run()`: the same as `run(true)`. */
    method RunDefault(raisedAt: nat) returns (shifts: nat)
      requires Valid() && 0 <= fPixels <= base.device.maxLEDs
      requires nCycles > 0 || fPixels < base.device.maxLEDs || base.exitRun
      modifies base, base.device.leds
      ensures shifts == SweepLength(base.device.maxLEDs - fPixels, nCycles, old(base.exitRun), raisedAt)
      ensures base.exitRun == (old(base.exitRun) || raisedAt <= shifts)
      ensures base.device.maxLEDs - fPixels > 0 || shifts == 0
      ensures base.device.leds[..] == Block(base.device.maxLEDs, SweepPosition(base.device.maxLEDs - fPixels, shifts), fPixels, base.device.foreground, base.device.background)
    {
      shifts := Run(true, raisedAt);
    }
  }

  /** On a new 12-unit device, a sweeper asked for 20 units and 2 cycles
      lays out 6 foreground then 6 background units, performs two full
      cycles (24 shifts) without an interrupt, and returns with that layout
      restored. */
  method SweepTwelveTwice(lights: array<Color>, raisedAt: nat) returns (shifts: nat)
    requires lights.Length == 12 && raisedAt > 24
    modifies lights
    ensures shifts == 24
    ensures lights[..] == Uniform(6, Yellow) + Uniform(6, Cyan)
  {
    var ring := new LedDevice(12, 5, lights);
    var sweep := new Sweeper(ring);
    sweep.SetNumLEDs(20);
    sweep.SetCycles(2);
    shifts := sweep.RunDefault(raisedAt);
    SweepLengthCases(6, 2, raisedAt);
    InitialLayout(12, 6, Yellow, Cyan);
  }
}
