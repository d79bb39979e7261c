// The light-show base (LightShow.h): the `exitRun` flag, the `CHECK_INTR`
// and `CHECK_EXIT` protocol, and how the shows observe the global
// `mode_change` flag that the mode-change interrupt sets.

module Shows {
  import opened Palette
  import opened Leds

  /**
   * The value of `mode_change` read at check point `k` of one `display`,
   * counting the check points in execution order from 0. Only the interrupt
   * handler sets the flag and only `loop` clears it, never while a show
   * runs, so within one run the flag reads false up to some check point and
   * true from then on; `raisedAt` is that first check point. A run that is
   * never interrupted is one whose `raisedAt` lies beyond its last check.
   */
  predicate ModeChangeAt(raisedAt: nat, k: nat)
  {
    raisedAt <= k
  }

  /**
   * The state every light show inherits from `LightShow`: the device it
   * runs on and the `exitRun` flag that carries a detected interrupt out of
   * nested calls.
   */
  class LightShow {
    var exitRun: bool
    const device: LedDevice

    /** `exitRun` starts false. */
    constructor (dLEDs: LedDevice)
      ensures device == dLEDs && !exitRun
    {
      device := dLEDs;
      exitRun := false;
    }

    /** `stopNow`: whether the show must terminate. */
    function StopNow(): (stop: bool)
      reads this
      ensures stop <==> exitRun
    {
      exitRun
    }

    /** `CHECK_INTR`: when the flag is set, record it in `exitRun` and tell
        the caller to return; otherwise change nothing. */
    method CheckIntr(modeChange: bool) returns (leave: bool)
      modifies this
      ensures leave == modeChange
      ensures exitRun == (old(exitRun) || modeChange)
    {
      leave := false;
      if modeChange {
        exitRun := true;
        leave := true;
      }
    }
  }
}
