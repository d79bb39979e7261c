# StripTease light shows in Dafny

StripTease is an Arduino sketch that drives an addressable LED strip (60
units) and an LED ring (12 units) through a sequence of light shows. A push
button, handled by an interrupt, moves the sketch to the next mode. This
project models the part of the sketch that decides which colour each LED unit
holds, and proves properties of it.

- **Palette** (`palette.dfy`, Colors.h / Colors.cpp): the eight-colour table
  with Black and White reserved at offsets 0 and 1. It has the three random
  pickers, each taking its random draw as an argument, and the per-instance
  `nextColor` cursor that cycles through the six "just colours".
- **Leds** (`led_device.dfy`, LedDevice.h / LedDevice.cpp): the device as a
  class over a fixed `array<Color>`. It covers single-cell and fill-all
  writes, the default foreground and background colours, and the two one-step
  shifts `advanceLEDs` / `retreatLEDs`. Each method is proved against a
  function on sequences.
- **Shows** (`light_show.dfy`, LightShow.h): the `exitRun` flag and
  `CHECK_INTR` / `stopNow`. It also defines how a show reads the global
  `mode_change` flag. The flag is an input: `raisedAt` is the first check
  point, counted in execution order within one `display`, at which the flag
  reads true. Only the interrupt sets the flag and only `loop` clears it, so
  within one run it is false before `raisedAt` and true from there on.
- **Fill** and **Solid** (`fill_and_clear.dfy`, `fill_solid.dfy`): the 2N-step
  fill-and-clear skeleton. Its virtual `nextColor` hook is passed to `Display`
  as a function. FillSolid instantiates the hook with its own two colours.
- **Sweep** (`sweeper.dfy`, Sweeper.h / Sweeper.cpp): a block of `fPixels`
  foreground units sweeps forward and back. It runs for `nCycles` cycles, or
  until interrupted when `nCycles <= 0`. `CHECK_EXIT` follows every half
  sweep.
- **Sparkle** (`sparkle_leds.dfy`, SparkleLEDs.h / SparkleLEDs.cpp): rounds of
  per-unit random recolouring with an 80 percent chance. The random draws are
  inputs.
- **Modes** (`strip_tease.dfy`, StripTease.cpp): the debounced
  `ModeInterrupt` handler that advances `mode` through 0..9 and raises
  `mode_change`, and the flag reset at the top of `loop`.

C++ inheritance is modelled by composition. Every show holds its
`LightShow` part as `base`, and `FillSolid` holds its `FillAndClear` part as
`fill`. `run()` and `run(clear)` are written out for each concrete show.

Where the header comments and the code disagree, the model follows the code:

- `showBackground` / `showForeground` overwrite every cell of the colour
  array, although LedDevice.h:179-193 says they leave the array unchanged.
- `setNumLEDs` keeps any request below N unchanged and maps every other
  request to N/2. It does not clamp to at most N/2.

## Model

| member | source | states |
|---|---|---|
| Palette.PaletteLayout | Colors.cpp:12-26 | Black is at offset 0 and White at offset 1; the table has 8, 7 and 6 entries in its three views; neither Black nor White is a just colour |
| Palette.PaletteDistinct | Colors.cpp:12-22 | no colour appears twice, so two offsets name the same colour only when they are equal |
| Palette.RandomJustColor | Colors.cpp:40-47 | for any draw in [0, 6), the colour is a just colour and never Black or White |
| Palette.RandomAllColor | Colors.cpp:49-54 | for any draw in [0, 8), the colour is in the palette |
| Palette.RandomNoBlack | Colors.cpp:56-61 | for any draw in [0, 7), the colour is in `noBlack` and is not Black |
| Palette.RandomJustColorBijective | Colors.cpp:40-47 | each just colour is produced by exactly one draw, and no other colour is produced |
| Palette.RandomNoBlackBijective | Colors.cpp:56-61 | each colour except Black is produced by exactly one draw |
| Palette.RandomAllColorBijective | Colors.cpp:49-54 | each palette colour is produced by exactly one draw |
| Palette.GetMaxJustColors | Colors.h:132-138 | the count equals the number of just colours, which is the table size minus 2 |
| Palette.GetJustColor | Colors.h:140-152 | offset k in [0, 6) gives the k-th just colour, never Black or White |
| Palette.Advance | Colors.cpp:63-72 | the cursor update stays in [0, 6) and equals (cnt + 1) mod 6 |
| Palette.AdvanceTimesWraps | Colors.cpp:63-72 | after k calls the cursor has moved k places modulo 6 |
| Palette.CursorPeriod | Colors.h:154-164 | six calls bring the cursor back, and no smaller positive number of calls does |
| Palette.CycleOrder | Colors.h:79-91 | a fresh cursor returns the just colours in table order, first colour first, with period 6, and the first colour again right after the last |
| Palette.Colors.constructor | Colors.h:79-91 | a new instance's cursor starts at the last just colour |
| Palette.Colors.NextColor | Colors.cpp:63-72 | the n-th call on an instance returns just colour n mod 6, and the cursor keeps its invariant |
| Palette.IndependentCursors | Colors.h:17-20 | two instances have independent cursors: after two calls on one instance, the first call on the other still returns the first colour |
| Leds.ShiftForward | LedDevice.h:165-170 | unit 0 becomes the fill colour and unit i becomes old unit i-1 |
| Leds.ShiftBackward | LedDevice.h:172-177 | unit N-1 becomes the fill colour and unit i becomes old unit i+1 |
| Leds.AdvanceThenRetreat | LedDevice.cpp:19-42 | advance then retreat restores every unit except the last, which becomes the fill colour; the buffer is restored exactly when the last unit already held that colour |
| Leds.RetreatThenAdvance | LedDevice.cpp:19-42 | retreat then advance restores every unit except the first, which becomes the fill colour; the buffer is restored exactly when the first unit already held that colour |
| Leds.LedDevice.constructor | LedDevice.cpp:10-13 | stores the count, the pin and the array; foreground is Yellow and background is Cyan |
| Leds.LedDevice.NumberOfLEDs | LedDevice.h:123-126 | the count equals the length of the colour array |
| Leds.LedDevice.GetBackground | LedDevice.h:195-200 | returns the stored background colour |
| Leds.LedDevice.GetForeground | LedDevice.h:202-207 | returns the stored foreground colour |
| Leds.LedDevice.SetLED | LedDevice.h:139-151 | unit `offset` gets the colour and no other unit changes |
| Leds.LedDevice.AdvanceLEDs | LedDevice.cpp:19-30 | the array becomes the forward shift of its old contents, with the background entering at unit 0 |
| Leds.LedDevice.RetreatLEDs | LedDevice.cpp:32-42 | the array becomes the backward shift of its old contents, with the background entering at unit N-1 |
| Leds.LedDevice.SetLEDs | LedDevice.cpp:76-84 | every unit becomes the colour |
| Leds.LedDevice.SetLEDsBackground | LedDevice.cpp:66-69 | every unit becomes the background colour |
| Leds.LedDevice.SetLEDsForeground | LedDevice.cpp:71-74 | every unit becomes the foreground colour |
| Leds.LedDevice.ShowBackground | LedDevice.cpp:44-48 | every unit becomes the background colour |
| Leds.LedDevice.ShowForeground | LedDevice.cpp:50-54 | every unit becomes the foreground colour |
| Leds.LedDevice.SetBackground | LedDevice.h:210-217 | the new default background is stored and no unit changes |
| Leds.LedDevice.SetForeground | LedDevice.h:219-226 | the new default foreground is stored and no unit changes |
| Shows.LightShow.constructor | LightShow.h:43 | `exitRun` starts false |
| Shows.LightShow.StopNow | LightShow.h:83 | returns true exactly when `exitRun` is set |
| Shows.LightShow.CheckIntr | LightShow.h:22 | tells the caller to return exactly when the flag is set; `exitRun` becomes set when the flag is set and is otherwise unchanged |
| Fill.FillStepsAt | FillAndClear.cpp:30-40 | after k steps, unit j holds the hook's colour for step k-1-j when j < k, and otherwise old unit j-k; the background shifted in is always overwritten |
| Fill.FillStepsUsesEarlierSteps | FillAndClear.h:50-65 | the first k steps call the hook only with step numbers below k |
| Fill.FillAndClear.constructor | FillAndClear.cpp:10-14 | caches the device's LED count |
| Fill.FillAndClear.Display | FillAndClear.cpp:20-41 | clears `exitRun`, then runs 2N steps, or stops after step `raisedAt` with `exitRun` set; the units are the step function of the old units |
| Solid.SolidColor | FillSolid.cpp:19-24 | steps [0, N) get the foreground and steps [N, 2N) get the background |
| Solid.SolidFilling | FillSolid.h:15-23 | after k <= N steps, the first k units are the foreground and the old contents have moved k places along |
| Solid.SolidClearing | FillSolid.h:15-23 | after N + k steps, the first k units are the background and the rest are the foreground |
| Solid.SolidStages | FillSolid.h:15-23 | after N steps every unit is the foreground; after 2N every unit is the background, whatever the starting contents |
| Solid.FillSolid.constructor | FillSolid.cpp:10-13 | stores the show's own two colours on top of a new FillAndClear part |
| Solid.FillSolid.NextColor | FillSolid.h:56-67 | returns the show's foreground for [0, N) and its background for [N, 2N) |
| Solid.FillSolid.SetForeground | FillSolid.h:69-81 | changes the show's foreground only; no unit changes |
| Solid.FillSolid.SetBackground | FillSolid.h:83-95 | changes the show's background only; no unit changes |
| Solid.FillSolid.Display | FillSolid.cpp:19-24 | the inherited display with this hook, stated cell by cell as the solid frame after the number of steps performed |
| Solid.FillSolid.Run | LightShow.h:103-113 | with `clear`, the show starts from an all-background device; without it, from the current contents |
| Solid.FillSolid.RunDefault | LightShow.h:90-93 | behaves as `run(true)` |
| Solid.SolidRunClears | FillSolid.h:15-23 | an uninterrupted run performs 2N steps and leaves every unit in the show's own background colour |
| Sweep.ClampPixels | Sweeper.cpp:23-27 | a request below N is kept; for N >= 1 and a non-negative request the block size is in [0, N) |
| Sweep.ClampOnTwelve | Sweeper.h:94-102 | on a 12-unit ring, a request of 20 or 12 becomes 6, while 8 and -3 are kept |
| Sweep.InitialLayout | Sweeper.cpp:34-43 | the initial layout is fPixels foreground units followed by background units |
| Sweep.BlockAdvance | Sweeper.cpp:62-75 | an advance moves the block one unit along while it has not reached the end |
| Sweep.BlockRetreat | Sweeper.cpp:77-90 | a retreat moves the block one unit back while it has not reached the start |
| Sweep.SweepPosition | Sweeper.cpp:92-116 | the block's offset after t shifts never exceeds N - fPixels |
| Sweep.SweepPositionCycles | Sweeper.cpp:92-116 | every full cycle of 2(N - fPixels) shifts returns the block to where it was |
| Sweep.SweepLengthCases | Sweeper.h:68-80 | with nCycles > 0 and no interrupt, display performs exactly nCycles cycles and ends with the block at the start; with nCycles <= 0 it stops only at the interrupt |
| Sweep.ForwardExit | Sweeper.cpp:92-116 | a show that ends during a forward sweep has performed the number of shifts `SweepLength` gives |
| Sweep.BackwardExit | Sweeper.cpp:92-116 | a show that ends during a backward sweep has performed the number of shifts `SweepLength` gives, and never because of a flag left over from an earlier run |
| Sweep.Sweeper.constructor | Sweeper.cpp:13-17 | a new sweeper has a block of 2 and an unlimited cycle count |
| Sweep.Sweeper.GetNumLEDs | Sweeper.h:82-92 | returns the block size |
| Sweep.Sweeper.SetNumLEDs | Sweeper.cpp:23-27 | stores the clamped block size |
| Sweep.Sweeper.SetCycles | Sweeper.h:104-111 | stores the cycle count unchanged |
| Sweep.Sweeper.ForwardSweep | Sweeper.cpp:62-75 | up to N - fPixels advances, stopping at the first set flag; the block ends that many units along |
| Sweep.Sweeper.BackwardSweep | Sweeper.cpp:77-90 | up to N - fPixels retreats, stopping at the first set flag; the block ends that many units back |
| Sweep.Sweeper.LimitedCycles | Sweeper.cpp:92-104 | nCycles cycles, or fewer when the flag is raised or `exitRun` was already set; the block ends at `SweepPosition` of the shifts performed |
| Sweep.Sweeper.InfiniteCycles | Sweeper.cpp:106-116 | cycles until the flag is raised, or for one forward sweep when `exitRun` was already set |
| Sweep.Sweeper.Display | Sweeper.cpp:29-60 | lays out the block, then checks the flag, then cycles; the number of shifts is `SweepLength` and the block ends at `SweepPosition` of that number |
| Sweep.Sweeper.Run | LightShow.h:103-113 | `run(clear)` gives the same outcome as `display`, because display lays out every unit itself |
| Sweep.Sweeper.RunDefault | LightShow.h:90-93 | behaves as `run(true)` |
| Sweep.SweepTwelveTwice | Sweeper.h:68-80 | on a new 12-unit device, a request of 20 units with 2 cycles performs 24 shifts and ends with 6 Yellow units followed by 6 Cyan units |
| Sparkle.Sparkled | SparkleLEDs.cpp:50-74 | an unselected unit keeps its colour; a selected unit gets the just colour its draw picks, never Black or White |
| Sparkle.SparkledChanges | SparkleLEDs.h:62-74 | a unit changes only if it was selected; a unit that ends outside the just colours was not selected and kept its colour |
| Sparkle.SparkledExtremes | SparkleLEDs.cpp:53-69 | a percent of 100 or more recolours every unit with a just colour; a negative percent changes nothing |
| Sparkle.KeptThroughRounds | SparkleLEDs.cpp:62-70 | a unit that no round selects keeps its colour through all the rounds |
| Sparkle.SelectedStaysColoured | SparkleLEDs.cpp:62-70 | once a unit is selected, it holds a just colour in every later round |
| Sparkle.SparkleFromBackground | SparkleLEDs.cpp:28-48 | starting from the background, every unit is always either the background or a just colour |
| Sparkle.SparkleLength | SparkleLEDs.cpp:28-48 | the rounds completed are half the first raised check point, rounded down |
| Sparkle.SparkleLEDs.constructor | SparkleLEDs.cpp:17-21 | a new show on the device with `exitRun` clear |
| Sparkle.SparkleLEDs.SetColors | SparkleLEDs.cpp:50-74 | one pass over the units in place gives the `Sparkled` cells |
| Sparkle.SparkleLEDs.Display | SparkleLEDs.cpp:28-48 | starts from the background and runs `setColors(80)` rounds until the flag is seen; `exitRun` is not touched |
| Sparkle.SparkleLEDs.Run | LightShow.h:103-113 | `clear` makes no difference, because display starts from the background itself |
| Sparkle.SparkleLEDs.RunDefault | LightShow.h:90-93 | behaves as `run(true)` |
| Modes.NextMode | StripTease.cpp:74-83 | modes 0..8 go up by one and mode 9 goes to 0, so the mode stays in [0, 9] |
| Modes.NextModeTimesWraps | StripTease.cpp:74-83 | k accepted edges advance the mode by k modulo 10 |
| Modes.TenEdgesRestoreMode | StripTease.cpp:74-83 | ten accepted edges bring the mode back, and no smaller positive number does |
| Modes.OnEdge | StripTease.cpp:60-88 | an edge earlier than lastTime + 500 changes nothing; an accepted edge records the time, advances the mode and raises the flag; a raised flag stays raised |
| Modes.TwoEdges | StripTease.cpp:63-83 | two edges less than 500 ms apart, the first accepted, advance the mode once; two edges at least 500 ms apart advance it twice |
| Modes.EdgesAdvanceMode | StripTease.cpp:60-88 | after a train of edges, the mode has advanced once per accepted edge and the flag is raised exactly when some edge was accepted or it was raised already |
| Modes.ModeController.State | StripTease.cpp:27-46 | the handler's view of the three globals |
| Modes.ModeController.constructor | StripTease.cpp:27-46 | mode 0, no pending change, and lastTime set to the start-up time |
| Modes.ModeController.ModeInterrupt | StripTease.cpp:60-88 | the globals change as one `OnEdge` at the given time, and the mode stays in [0, 9] |
| Modes.ModeController.LoopStart | StripTease.cpp:220 | clears the flag and changes nothing else |

## Left out

- FastLED is not part of this model. `show()` transmits the array and has no effect on the cells, so it is an empty method. `CRGB` is an RGB triple compared by value.
- The Arduino runtime (`delay`, `millis`, `random`, `Serial`, `attachInterrupt`) is not modelled. The time and every random draw are parameters with range preconditions, and the delays are dropped.
- Sparkle.SparkleLEDs.Display: the roll and the colour pick come from two separate draw sequences. The model does not capture the sketch's single interleaved `random` stream.
- The interrupt's concurrency and `volatile` semantics are not modelled. The handler is a method on the globals, and a show sees the flag through `raisedAt`. A run that is never interrupted is modelled only up to an arbitrary finite `raisedAt`, so it is not modelled as an endless run.
- The `CHECK_MODE_CHANGE` macro in Interrupts.h is the test of the flag at a check point, written as `ModeChangeAt` in the sparkle show.
- Sweep.Sweeper.Display: requires 0 <= fPixels <= N. A negative block size, which `setNumLEDs` keeps, would make display write outside the array (the legal range of `setLED` is [0, N)).
- Sweep.Sweeper.Display: requires a finite cycle count, a block smaller than N, or `exitRun` already set. With fPixels == N and nCycles <= 0, `infiniteCycles` never reaches a check and loops forever.
- The unsigned wrap-around of `millis()` and of `lastTime + deltaTime` is not modelled; time is an unbounded natural number.
- LedRing and LedStrip are not part of this model. They only fix N = 12 and N = 60 and the data pins. `dataPin` is stored but never read.
- The rest of StripTease.cpp is not part of this model: `setup`, `clear_all`, the `loop` mode switch and the `mode_*` functions.
- Dead code: the unused local `Colors colors` in FillAndClear.cpp:22 and `CRGB leds` in SparkleLEDs.cpp:59.
- `deltaTime` is a mutable global in the sketch that is never reassigned, so it is the constant `DeltaTime`.
