// The sparkle show (SparkleLEDs.h / SparkleLEDs.cpp): from an all-background
// device, each round gives every unit, with a given percentage chance, a
// random colour of the six just-colours, until the mode-change interrupt is
// seen. The random draws are inputs: `rolls[i]` is the draw `random(0, 101)`
// for unit `i`, `picks[i]` the draw `random(6)` that picks its colour when
// the unit is selected.

module Sparkle {
  import opened Palette
  import opened Leds
  import opened Shows

  /** The percentage `display` passes to `setColors`. */
  const SparklePercent := 80

  /** Draws for one round over `n` units: rolls in [0, 100], picks in [0, 6). */
  predicate ValidDraws(rolls: seq<int>, picks: seq<int>, n: nat)
  {
    |rolls| == n && |picks| == n &&
    (forall i :: 0 <= i < n ==> 0 <= rolls[i] <= 100) &&
    (forall i :: 0 <= i < n ==> 0 <= picks[i] < MaxJustColors)
  }

  /** The cells after `setColors(percent)` from `s`: unit `i` is selected when
      `percent >= rolls[i]` and then takes the just-colour `picks[i]` chooses.
      A unit that is not selected keeps its colour; a selected one is never
      Black or White. */
  function Sparkled(s: seq<Color>, percent: int, rolls: seq<int>, picks: seq<int>): (r: seq<Color>)
    requires ValidDraws(rolls, picks, |s|)
    ensures |r| == |s|
    ensures forall i :: 0 <= i < |s| && percent < rolls[i] ==> r[i] == s[i]
    ensures forall i :: 0 <= i < |s| && percent >= rolls[i] ==>
              r[i] == RandomJustColor(picks[i]) && r[i] in JustColors && r[i] != Black && r[i] != White
  {
    seq(|s|, i requires 0 <= i < |s| => if percent >= rolls[i] then RandomJustColor(picks[i]) else s[i])
  }

  /** A cell changes only if it was selected, and a cell that ends in a
      colour outside the just-colours was not selected. */
  lemma SparkledChanges(s: seq<Color>, percent: int, rolls: seq<int>, picks: seq<int>, i: int)
    requires ValidDraws(rolls, picks, |s|) && 0 <= i < |s|
    ensures Sparkled(s, percent, rolls, picks)[i] != s[i] ==> percent >= rolls[i]
    ensures Sparkled(s, percent, rolls, picks)[i] !in JustColors ==> percent < rolls[i] && Sparkled(s, percent, rolls, picks)[i] == s[i]
  {
  }

  /** With percent 100 or more every unit is recoloured with a just-colour;
      with a negative percent none is. */
  lemma SparkledExtremes(s: seq<Color>, percent: int, rolls: seq<int>, picks: seq<int>)
    requires ValidDraws(rolls, picks, |s|)
    ensures percent >= 100 ==> forall i :: 0 <= i < |s| ==> Sparkled(s, percent, rolls, picks)[i] in JustColors
    ensures percent < 0 ==> Sparkled(s, percent, rolls, picks) == s
  {
  }

  /** Every round's draws are valid. */
  predicate ValidRounds(rolls: seq<seq<int>>, picks: seq<seq<int>>, n: nat, k: nat)
  {
    k <= |rolls| && k <= |picks| && forall j :: 0 <= j < k ==> ValidDraws(rolls[j], picks[j], n)
  }

  /** The cells after `k` rounds of `setColors(percent)` from `s`. */
  function SparkleRounds(s: seq<Color>, percent: int, rolls: seq<seq<int>>, picks: seq<seq<int>>, k: nat): (r: seq<Color>)
    requires ValidRounds(rolls, picks, |s|, k)
    ensures |r| == |s|
    decreases k
  {
    if k == 0 then s
    else Sparkled(SparkleRounds(s, percent, rolls, picks, k - 1), percent, rolls[k - 1], picks[k - 1])
  }

  /** A unit that no round selects keeps its colour through all of them. */
  lemma {:induction false} KeptThroughRounds(s: seq<Color>, percent: int, rolls: seq<seq<int>>, picks: seq<seq<int>>, k: nat, i: int)
    requires ValidRounds(rolls, picks, |s|, k) && 0 <= i < |s|
    requires forall j :: 0 <= j < k ==> percent < rolls[j][i]
    ensures SparkleRounds(s, percent, rolls, picks, k)[i] == s[i]
    decreases k
  {
    if k > 0 {
      KeptThroughRounds(s, percent, rolls, picks, k - 1, i);
    }
  }

  /** A unit that some round selects ends in a just-colour: later rounds
      either keep it or recolour it with another just-colour. */
  lemma {:induction false} SelectedStaysColoured(s: seq<Color>, percent: int, rolls: seq<seq<int>>, picks: seq<seq<int>>, k: nat, i: int, j: nat)
    requires ValidRounds(rolls, picks, |s|, k) && 0 <= i < |s|
    requires j < k && percent >= rolls[j][i]
    ensures SparkleRounds(s, percent, rolls, picks, k)[i] in JustColors
    decreases k
  {
    if j < k - 1 {
      SelectedStaysColoured(s, percent, rolls, picks, k - 1, i, j);
    }
  }

  /** From an all-background device, every unit after any number of rounds
      is either still the background or one of the just-colours. */
  lemma {:induction false} SparkleFromBackground(n: nat, bg: Color, percent: int, rolls: seq<seq<int>>, picks: seq<seq<int>>, k: nat, i: int)
    requires ValidRounds(rolls, picks, n, k) && 0 <= i < n
    ensures var c := SparkleRounds(Uniform(n, bg), percent, rolls, picks, k)[i]; c == bg || c in JustColors
    decreases k
  {
    if k > 0 {
      SparkleFromBackground(n, bg, percent, rolls, picks, k - 1, i);
    }
  }

  /** The number of `setColors` rounds `display` completes when the flag is
      first seen at check point `raisedAt`: check point 0 follows the
      initial `showBackground`, and round `j` is preceded by check point
      `2j+1` and followed by check point `2j+2`. */
  function SparkleLength(raisedAt: nat): (rounds: nat)
    ensures 2 * rounds <= raisedAt <= 2 * rounds + 1
  {
    raisedAt / 2
  }

  /**
   * A `SparkleLEDs` show: only its `LightShow` part.
   */
  class SparkleLEDs {
    const base: LightShow

    ghost predicate Valid()
    {
      base.device.Valid()
    }

    constructor (dLEDs: LedDevice)
      ensures fresh(base) && base.device == dLEDs && !base.exitRun
    {
      base := new LightShow(dLEDs);
    }

    /** `setColors(percent)`: one pass over the units, recolouring the
        selected ones in place. */
    method SetColors(percent: int, rolls: seq<int>, picks: seq<int>)
      requires Valid() && ValidDraws(rolls, picks, base.device.maxLEDs)
      modifies base.device.leds
      ensures base.device.leds[..] == Sparkled(old(base.device.leds[..]), percent, rolls, picks)
    {
      var maxLEDs := base.device.NumberOfLEDs();
      var i := 0;
      while i < maxLEDs
        invariant 0 <= i <= maxLEDs
        invariant forall k :: 0 <= k < i ==> base.device.leds[k] == Sparkled(old(base.device.leds[..]), percent, rolls, picks)[k]
        invariant forall k :: i <= k < maxLEDs ==> base.device.leds[k] == old(base.device.leds[k])
      {
        var rNum := rolls[i];
        if percent >= rNum {
          base.device.SetLED(i, RandomJustColor(picks[i]));
        }
        i := i + 1;
      }
    }

    /** `display`: shows the background, then runs `setColors(80)` rounds
        until the flag is seen. The flag is only tested, never recorded in
        `exitRun`. Returns the number of rounds completed. */
    method Display(raisedAt: nat, rolls: seq<seq<int>>, picks: seq<seq<int>>) returns (rounds: nat)
      requires Valid() && ValidRounds(rolls, picks, base.device.maxLEDs, SparkleLength(raisedAt))
      modifies base.device.leds
      ensures rounds == SparkleLength(raisedAt)
      ensures base.device.leds[..] == SparkleRounds(Uniform(base.device.maxLEDs, base.device.background), SparklePercent, rolls, picks, rounds)
    {
      base.device.ShowBackground();
      ghost var start := base.device.leds[..];
      rounds := 0;
      if ModeChangeAt(raisedAt, 0) {
        return;
      }
      while true
        invariant 2 * rounds < raisedAt
        invariant base.device.leds[..] == SparkleRounds(start, SparklePercent, rolls, picks, rounds)
        decreases raisedAt - 2 * rounds
      {
        if ModeChangeAt(raisedAt, 2 * rounds + 1) {
          return;
        }
        SetColors(SparklePercent, rolls[rounds], picks[rounds]);
        base.device.Show();
        rounds := rounds + 1;
        if ModeChangeAt(raisedAt, 2 * rounds) {
          return;
        }
      }
    }

    /** `run(clear)`: `display` starts from the background anyway, so
        `clear` makes no difference to the outcome. */
    method Run(clear: bool, raisedAt: nat, rolls: seq<seq<int>>, picks: seq<seq<int>>) returns (rounds: nat)
      requires Valid() && ValidRounds(rolls, picks, base.device.maxLEDs, SparkleLength(raisedAt))
      modifies base.device.leds
      ensures rounds == SparkleLength(raisedAt)
      ensures base.device.leds[..] == SparkleRounds(Uniform(base.device.maxLEDs, base.device.background), SparklePercent, rolls, picks, rounds)
    {
      if clear {
        base.device.ShowBackground();
      }
      rounds := Display(raisedAt, rolls, picks);
    }

    /** `run()`: the same as `run(true)`. */
    method RunDefault(raisedAt: nat, rolls: seq<seq<int>>, picks: seq<seq<int>>) returns (rounds: nat)
      requires Valid() && ValidRounds(rolls, picks, base.device.maxLEDs, SparkleLength(raisedAt))
      modifies base.device.leds
      ensures rounds == SparkleLength(raisedAt)
      ensures base.device.leds[..] == SparkleRounds(Uniform(base.device.maxLEDs, base.device.background), SparklePercent, rolls, picks, rounds)
    {
      rounds := Run(true, raisedAt, rolls, picks);
    }
  }
}
