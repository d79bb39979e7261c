// The mode-change interrupt of the sketch (StripTease.cpp): a debounced push
// button that advances the global `mode` through 0 .. 9 and raises the global
// `mode_change` flag, which `loop` clears at the start of every pass. The
// clock `millis()` is an input, as a time in milliseconds.

module Modes {

  /** The last mode; the one after it is 0 again. */
  const MaxModes := 9

  /** Edges closer than this (in milliseconds) to the last accepted one are
      treated as button bounce. */
  const DeltaTime := 500

  /** The mode after an accepted edge: below `MaxModes` it goes up by one,
      otherwise it restarts at 0. */
  function NextMode(m: int): (r: int)
    ensures 0 <= m ==> 0 <= r <= MaxModes
    ensures 0 <= m <= MaxModes ==> r == (m + 1) % (MaxModes + 1)
  {
    if m < MaxModes then m + 1 else 0
  }

  /** The mode after `k` accepted edges. */
  function NextModeTimes(m: int, k: nat): int
    decreases k
  {
    if k == 0 then m else NextModeTimes(NextMode(m), k - 1)
  }

  lemma ModTenSucc(x: nat, k: nat)
    ensures ((x + 1) % 10 + k) % 10 == (x + 1 + k) % 10
  {
  }

  /** `k` accepted edges from a mode in range advance it by `k` modulo 10. */
  lemma {:induction false} NextModeTimesWraps(m: int, k: nat)
    requires 0 <= m <= MaxModes
    ensures NextModeTimes(m, k) == (m + k) % (MaxModes + 1)
    decreases k
  {
    if k > 0 {
      NextModeTimesWraps(NextMode(m), k - 1);
      ModTenSucc(m, k - 1);
    }
  }

  /** Ten accepted edges bring the mode back to where it started, and fewer
      than ten never do. */
  lemma TenEdgesRestoreMode(m: int, k: nat)
    requires 0 <= m <= MaxModes
    ensures NextModeTimes(m, MaxModes + 1) == m
    ensures 0 < k < MaxModes + 1 ==> NextModeTimes(m, k) != m
  {
    NextModeTimesWraps(m, MaxModes + 1);
    NextModeTimesWraps(m, k);
  }

  /** The globals the interrupt handler shares with `loop`. */
  datatype ModeState = ModeState(mode: int, lastTime: nat, modeChange: bool)

  /** The effect of one rising edge at time `now`: a bounce (earlier than
      `lastTime + DeltaTime`) changes nothing; an accepted edge records the
      time, advances the mode and raises the flag. */
  function OnEdge(s: ModeState, now: nat): (r: ModeState)
    ensures now < s.lastTime + DeltaTime ==> r == s
    ensures now >= s.lastTime + DeltaTime ==>
              r.lastTime == now && r.modeChange && r.mode == NextMode(s.mode)
    ensures s.modeChange ==> r.modeChange
  {
    if now < s.lastTime + DeltaTime then s
    else ModeState(NextMode(s.mode), now, true)
  }

  /** Two edges, the first accepted: closer than `DeltaTime` they advance
      the mode once, at least `DeltaTime` apart they advance it twice. */
  lemma TwoEdges(s: ModeState, t1: nat, t2: nat)
    requires s.lastTime + DeltaTime <= t1 <= t2
    ensures t2 < t1 + DeltaTime ==> OnEdge(OnEdge(s, t1), t2).mode == NextMode(s.mode)
    ensures t2 >= t1 + DeltaTime ==> OnEdge(OnEdge(s, t1), t2).mode == NextMode(NextMode(s.mode))
  {
  }

  /** The number of edges at `times` that the debounce accepts, the last
      accepted one being at `last`. */
  function Accepted(last: nat, times: seq<nat>): nat
    decreases |times|
  {
    if |times| == 0 then 0
    else if times[0] < last + DeltaTime then Accepted(last, times[1..])
    else 1 + Accepted(times[0], times[1..])
  }

  /** The globals after edges at `times`, in order. */
  function OnEdges(s: ModeState, times: seq<nat>): ModeState
    decreases |times|
  {
    if |times| == 0 then s else OnEdges(OnEdge(s, times[0]), times[1..])
  }

  /** After a train of edges the mode has advanced once per accepted edge,
      and the flag is raised exactly when it was already or some edge was
      accepted. */
  lemma {:induction false} EdgesAdvanceMode(s: ModeState, times: seq<nat>)
    ensures OnEdges(s, times).mode == NextModeTimes(s.mode, Accepted(s.lastTime, times))
    ensures OnEdges(s, times).modeChange == (s.modeChange || Accepted(s.lastTime, times) > 0)
    decreases |times|
  {
    if |times| > 0 {
      EdgesAdvanceMode(OnEdge(s, times[0]), times[1..]);
    }
  }

  /**
   * The globals `mode`, `lastTime` and `mode_change`, with the interrupt
   * handler and the flag reset at the top of `loop`.
   */
  class ModeController {
    var mode: int
    var lastTime: nat
    var modeChange: bool

    function State(): (s: ModeState)
      reads this
      ensures s.mode == mode && s.lastTime == lastTime && s.modeChange == modeChange
    {
      ModeState(mode, lastTime, modeChange)
    }

    ghost predicate Valid()
      reads this
    {
      0 <= mode <= MaxModes
    }

    /** The initial globals: mode 0 (off), no pending change, and the last
        edge time set to the clock at start-up. */
    constructor (startTime: nat)
      ensures Valid() && State() == ModeState(0, startTime, false)
    {
      mode := 0;
      lastTime := startTime;
      modeChange := false;
    }

    /** `ModeInterrupt`: one rising edge of the button at time `nowTime`. */
    method ModeInterrupt(nowTime: nat)
      requires Valid()
      modifies this
      ensures Valid()
      ensures State() == OnEdge(old(State()), nowTime)
    {
      if nowTime < lastTime + DeltaTime {
        return;
      }
      lastTime := nowTime;
      if mode < MaxModes {
        mode := mode + 1;
      } else {
        mode := 0;
      }
      modeChange := true;
    }

    /** The top of `loop`: the flag is cleared, nothing else changes. */
    method LoopStart()
      modifies this`modeChange
      ensures !modeChange
    {
      modeChange := false;
    }
  }
}
