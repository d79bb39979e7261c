// The colour palette of the light shows (Colors.h / Colors.cpp): a constant
// table of eight colours with Black and White reserved at the front, three
// random pickers over it, and a per-instance cursor that cycles through the
// "just colours" (the palette without Black and White).

module Palette {

  /** One 8-bit channel of a colour. */
  type Channel = x: int | 0 <= x < 256

  /** A CRGB value: colours are compared by value. */
  datatype Color = Rgb(red: Channel, green: Channel, blue: Channel)

  // FastLED's named colours used by the palette and the device defaults
  // (their HTML colour codes).
  const Black: Color := Rgb(0x00, 0x00, 0x00)
  const White: Color := Rgb(0xFF, 0xFF, 0xFF)
  const Red: Color := Rgb(0xFF, 0x00, 0x00)
  const Yellow: Color := Rgb(0xFF, 0xFF, 0x00)
  const Green: Color := Rgb(0x00, 0x80, 0x00)
  const Cyan: Color := Rgb(0x00, 0xFF, 0xFF)
  const Blue: Color := Rgb(0x00, 0x00, 0xFF)
  const Purple: Color := Rgb(0x80, 0x00, 0x80)

  /** `allColors`: Black first and White second, then the just colours. */
  const AllColors: seq<Color> := [Black, White, Red, Yellow, Green, Cyan, Blue, Purple]

  const MaxAllColors: int := |AllColors|
  const MaxNoBlack: int := MaxAllColors - 1
  const MaxJustColors: int := MaxAllColors - 2

  /** `noBlack`: the palette seen from offset 1 (White onwards). */
  const NoBlack: seq<Color> := AllColors[1..]

  /** `justColors`: the palette seen from offset 2 (neither Black nor White). */
  const JustColors: seq<Color> := AllColors[2..]

  /** The palette's layout: Black and White reserved at offsets 0 and 1,
      and the sizes derived from the table. */
  lemma PaletteLayout()
    ensures AllColors[0] == Black && AllColors[1] == White
    ensures MaxAllColors == 8 && MaxNoBlack == 7 && MaxJustColors == 6
    ensures |NoBlack| == MaxNoBlack && |JustColors| == MaxJustColors
    ensures Black !in JustColors && White !in JustColors && Black !in NoBlack
  {
  }

  /** No colour appears twice in the palette, so an offset names one colour. */
  lemma PaletteDistinct(i: int, j: int)
    requires 0 <= i < |AllColors| && 0 <= j < |AllColors|
    ensures AllColors[i] == AllColors[j] <==> i == j
  {
  }

  /** `randomJustColor` given the draw `random(MAX_JUST_COLORS)`. */
  function RandomJustColor(draw: int): (c: Color)
    requires 0 <= draw < MaxJustColors
    ensures c in JustColors && c != Black && c != White
  {
    AllColors[draw + 2]
  }

  /** `randomAllColor` given the draw `random(MAX_ALL_COLORS)`. */
  function RandomAllColor(draw: int): (c: Color)
    requires 0 <= draw < MaxAllColors
    ensures c in AllColors
  {
    AllColors[draw]
  }

  /** `randomNoBlack` given the draw `random(MAX_NO_BLACK)`: an index into `noBlack`. */
  function RandomNoBlack(draw: int): (c: Color)
    requires 0 <= draw < MaxNoBlack
    ensures c in NoBlack && c != Black
  {
    NoBlack[draw]
  }

  /** `randomJustColor` is a bijection from its draw range onto the just
      colours: every just colour has exactly one draw. */
  lemma RandomJustColorBijective(c: Color)
    ensures c in JustColors <==> exists d :: 0 <= d < MaxJustColors && RandomJustColor(d) == c
    ensures forall d, e :: 0 <= d < MaxJustColors && 0 <= e < MaxJustColors && RandomJustColor(d) == RandomJustColor(e) ==> d == e
  {
    if c in JustColors {
      var d :| 0 <= d < |JustColors| && JustColors[d] == c;
      assert RandomJustColor(d) == c;
    }
    forall d, e | 0 <= d < MaxJustColors && 0 <= e < MaxJustColors && RandomJustColor(d) == RandomJustColor(e)
      ensures d == e
    {
      PaletteDistinct(d + 2, e + 2);
    }
  }

  /** `randomNoBlack` is a bijection from its draw range onto the palette
      without Black. */
  lemma RandomNoBlackBijective(c: Color)
    ensures c in NoBlack <==> exists d :: 0 <= d < MaxNoBlack && RandomNoBlack(d) == c
    ensures forall d, e :: 0 <= d < MaxNoBlack && 0 <= e < MaxNoBlack && RandomNoBlack(d) == RandomNoBlack(e) ==> d == e
  {
    if c in NoBlack {
      var d :| 0 <= d < |NoBlack| && NoBlack[d] == c;
      assert RandomNoBlack(d) == c;
    }
    forall d, e | 0 <= d < MaxNoBlack && 0 <= e < MaxNoBlack && RandomNoBlack(d) == RandomNoBlack(e)
      ensures d == e
    {
      PaletteDistinct(d + 1, e + 1);
    }
  }

  /** `randomAllColor` is a bijection from its draw range onto the palette. */
  lemma RandomAllColorBijective(c: Color)
    ensures c in AllColors <==> exists d :: 0 <= d < MaxAllColors && RandomAllColor(d) == c
    ensures forall d, e :: 0 <= d < MaxAllColors && 0 <= e < MaxAllColors && RandomAllColor(d) == RandomAllColor(e) ==> d == e
  {
    if c in AllColors {
      var d :| 0 <= d < |AllColors| && AllColors[d] == c;
      assert RandomAllColor(d) == c;
    }
    forall d, e | 0 <= d < MaxAllColors && 0 <= e < MaxAllColors && RandomAllColor(d) == RandomAllColor(e)
      ensures d == e
    {
      PaletteDistinct(d, e);
    }
  }

  /** `getMaxJustColors`: the number of just colours. */
  function GetMaxJustColors(): (n: int)
    ensures n == |JustColors| && n == |AllColors| - 2
  {
    MaxJustColors
  }

  /** `getJustColor(offset)`: the offset-th colour after Black and White. */
  function GetJustColor(offset: int): (c: Color)
    requires 0 <= offset < MaxJustColors
    ensures c == JustColors[offset] && c != Black && c != White
  {
    AllColors[offset + 2]
  }

  /** The update of `cnt` in `nextColor`: increment, and wrap to 0 on
      reaching MAX_JUST_COLORS. */
  function Advance(cnt: int): (next: int)
    requires 0 <= cnt < MaxJustColors
    ensures 0 <= next < MaxJustColors
    ensures next == (cnt + 1) % MaxJustColors
  {
    var n := cnt + 1;
    if n >= MaxJustColors then 0 else n
  }

  /** `cnt` after `k` calls of `nextColor` starting from `cnt`. */
  function AdvanceTimes(cnt: int, k: nat): int
    requires 0 <= cnt < MaxJustColors
  {
    if k == 0 then cnt else Advance(AdvanceTimes(cnt, k - 1))
  }

  /** The cursor moves `k` places round the six just colours after `k` calls. */
  lemma {:induction false} AdvanceTimesWraps(cnt: int, k: nat)
    requires 0 <= cnt < MaxJustColors
    ensures 0 <= AdvanceTimes(cnt, k) < MaxJustColors
    ensures AdvanceTimes(cnt, k) == (cnt + k) % MaxJustColors
  {
    if k > 0 {
      AdvanceTimesWraps(cnt, k - 1);
      var p := AdvanceTimes(cnt, k - 1);
      assert (p + 1) % MaxJustColors == (cnt + k) % MaxJustColors by {
        ModSucc(cnt + k - 1);
      }
    }
  }

  lemma ModSucc(x: nat)
    ensures (x % MaxJustColors + 1) % MaxJustColors == (x + 1) % MaxJustColors
  {
  }

  /** The cursor has period MAX_JUST_COLORS: six calls bring `cnt` back. */
  lemma CursorPeriod(cnt: int)
    requires 0 <= cnt < MaxJustColors
    ensures AdvanceTimes(cnt, MaxJustColors) == cnt
    ensures forall k: nat :: 0 < k < MaxJustColors ==> AdvanceTimes(cnt, k) != cnt
  {
    AdvanceTimesWraps(cnt, MaxJustColors);
    forall k: nat | 0 < k < MaxJustColors
      ensures AdvanceTimes(cnt, k) != cnt
    {
      AdvanceTimesWraps(cnt, k);
    }
  }

  /** The colour returned by call number `k` (0-based) of a fresh cursor. */
  function CycleColor(k: nat): (c: Color)
  {
    JustColors[k % MaxJustColors]
  }

  /** A fresh cursor returns the just colours in palette order, the first one
      first, and returns the first again right after the last. */
  lemma CycleOrder(k: nat)
    ensures CycleColor(k) == AllColors[2 + k % MaxJustColors]
    ensures k < MaxJustColors ==> CycleColor(k) == JustColors[k]
    ensures CycleColor(k + MaxJustColors) == CycleColor(k)
    ensures CycleColor(k) == JustColors[MaxJustColors - 1] ==> CycleColor(k + 1) == JustColors[0]
  {
    if CycleColor(k) == JustColors[MaxJustColors - 1] {
      PaletteDistinct(2 + k % MaxJustColors, 2 + MaxJustColors - 1);
      assert k % MaxJustColors == MaxJustColors - 1;
      ModSucc(k);
    }
  }

  /**
   * An instance of `Colors`: the static palette plus the instance's own
   * cursor `cnt`. The ghost `calls` counts the calls of `NextColor` so far.
   */
  class Colors {
    var cnt: int
    ghost var calls: nat

    ghost predicate Valid()
      reads this
    {
      0 <= cnt < MaxJustColors && cnt == (calls + MaxJustColors - 1) % MaxJustColors
    }

    /** A new instance starts one before the first just colour. */
    constructor ()
      ensures Valid() && calls == 0
      ensures cnt == MaxJustColors - 1
    {
      cnt := MaxJustColors - 1;
      calls := 0;
    }

    /** `nextColor`: advance the cursor, wrapping, and return the colour there. */
    method NextColor() returns (c: Color)
      requires Valid()
      modifies this
      ensures Valid() && calls == old(calls) + 1
      ensures cnt == Advance(old(cnt))
      ensures c == GetJustColor(cnt)
      ensures c == CycleColor(old(calls))
    {
      cnt := cnt + 1;
      if cnt >= MaxJustColors {
        cnt := 0;
      }
      calls := calls + 1;
      ModSucc(old(calls) + MaxJustColors - 1);
      assert cnt == (calls + MaxJustColors - 1) % MaxJustColors;
      assert cnt == old(calls) % MaxJustColors;
      c := GetJustColor(cnt);
    }
  }

  /** Two instances keep their own cursors: advancing one leaves the other's
      sequence where it was. */
  method IndependentCursors() returns (first: Color, second: Color, other: Color)
    ensures first == Red && second == Yellow && other == Red
  {
    var a := new Colors();
    var b := new Colors();
    first := a.NextColor();
    second := a.NextColor();
    other := b.NextColor();
  }
}
