/** A stand-in for the engine's `Timer`, in whole milliseconds.
    The engine's own source is not part of this model; `Tick` follows the
    behaviour the game relies on: a `Once` timer finishes a single time and
    then stays finished, a `Repeating` timer finishes each time its elapsed
    time reaches the duration and carries the remainder over. */
module Timers {

  datatype TimerMode = Once | Repeating

  datatype Timer = Timer(duration: nat, elapsed: nat, mode: TimerMode, finished: bool)

  /** `Timer::from_seconds`, with the duration already in milliseconds. */
  function NewTimer(duration: nat, mode: TimerMode): (t: Timer)
    ensures t.duration == duration && t.mode == mode
    ensures t.elapsed == 0 && !t.finished
  {
    Timer(duration, 0, mode, false)
  }

  datatype Ticked = Ticked(timer: Timer, justFinished: bool)

  /** Advance `t` by `delta` milliseconds; `justFinished` is the
      `just_finished()` the game reads after `tick`. */
  function Tick(t: Timer, delta: nat): (r: Ticked)
    ensures r.timer.duration == t.duration && r.timer.mode == t.mode
    ensures t.mode == Once ==>
      (r.justFinished <==> !t.finished && t.duration <= t.elapsed + delta)
    ensures t.mode == Once && t.finished ==> r.timer == t
    ensures t.mode == Once && r.justFinished ==> r.timer.finished && r.timer.elapsed == t.duration
    ensures t.mode == Repeating ==> (r.justFinished <==> t.duration <= t.elapsed + delta)
    ensures t.mode == Repeating && 0 < t.duration ==> r.timer.elapsed < t.duration
  {
    match t.mode
    case Once =>
      if t.finished then Ticked(t, false)
      else if t.duration <= t.elapsed + delta then
        Ticked(t.(elapsed := t.duration, finished := true), true)
      else
        Ticked(t.(elapsed := t.elapsed + delta, finished := false), false)
    case Repeating =>
      var e := t.elapsed + delta;
      if t.duration <= e then
        Ticked(t.(elapsed := if t.duration == 0 then 0 else e % t.duration, finished := true), true)
      else
        Ticked(t.(elapsed := e, finished := false), false)
  }
}
