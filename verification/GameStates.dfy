/** `src/game_states.rs`: the top-level game state, the Escape key that
    toggles between playing and paused, and the game clock that ends the
    game. A system only requests a next state; the request takes effect when
    the engine applies it. */
module GameStates {
  import opened Basics
  import opened Timers

  datatype GameState = Menu | PlaySetup | Playing | Paused | GameOver | Tutorial | Options

  /** The state the game starts in: the menu, which Escape does not leave. */
  function DefaultState(): (s: GameState)
    ensures s == Menu
    ensures s != Playing && s != Paused && s != GameOver
    ensures CheckGamePause(true, s) == None
  {
    Menu
  }

  /** `check_game_pause`: the requested next state, if any. */
  function CheckGamePause(escapePressed: bool, current: GameState): (r: Option<GameState>)
    ensures !escapePressed ==> r == None
    ensures escapePressed && current == Paused ==> r == Some(Playing)
    ensures escapePressed && current == Playing ==> r == Some(Paused)
    ensures current != Paused && current != Playing ==> r == None
    ensures r.Some? ==> r.value != current
  {
    if !escapePressed then None
    else if current == Paused then Some(Playing)
    else if current == Playing then Some(Paused)
    else None
  }

  /** The state after the engine applies a request. */
  function Apply(current: GameState, next: Option<GameState>): GameState
  {
    match next
    case Some(s) => s
    case None => current
  }

  /** One frame of the pause check followed by the state transition. */
  function PauseFrame(escapePressed: bool, current: GameState): GameState
  {
    Apply(current, CheckGamePause(escapePressed, current))
  }

  /** Escape toggles exactly the two states of a running game: the state
      changes iff Escape was pressed in Playing or Paused, and it stays within
      those two. */
  lemma PauseToggles(escapePressed: bool, current: GameState)
    ensures PauseFrame(escapePressed, current) != current <==>
      escapePressed && (current == Playing || current == Paused)
    ensures current == Playing || current == Paused ==>
      PauseFrame(escapePressed, current) == Playing || PauseFrame(escapePressed, current) == Paused
  {
  }

  /** Pressing Escape twice from Playing or Paused returns to where it began. */
  lemma PauseTwiceRoundTrips(current: GameState)
    requires current == Playing || current == Paused
    ensures PauseFrame(true, PauseFrame(true, current)) == current
    ensures PauseFrame(true, current) != current
  {
  }

  /** Escape pressed on the frames where `keys[i]` is true. */
  function RunPause(current: GameState, keys: seq<bool>): GameState
    decreases |keys|
  {
    if keys == [] then current else RunPause(PauseFrame(keys[0], current), keys[1..])
  }

  function Presses(keys: seq<bool>): nat
    decreases |keys|
  {
    if keys == [] then 0 else (if keys[0] then 1 else 0) + Presses(keys[1..])
  }

  /** From Playing, any run of frames ends paused iff Escape was pressed an
      odd number of times. */
  lemma {:induction false} PauseParity(current: GameState, keys: seq<bool>)
    requires current == Playing || current == Paused
    ensures RunPause(current, keys) == Playing || RunPause(current, keys) == Paused
    ensures RunPause(current, keys) == current <==> Presses(keys) % 2 == 0
    decreases |keys|
  {
    if keys != [] {
      PauseParity(PauseFrame(keys[0], current), keys[1..]);
    }
  }

  datatype GameOverCheck = GameOverCheck(timeRemaining: Timer, request: Option<GameState>)

  /** `check_game_over`: tick the remaining game time; when it has just run
      out, request GameOver, otherwise request nothing. */
  function CheckGameOver(timeRemaining: Timer, delta: nat): (r: GameOverCheck)
    ensures r.timeRemaining == Tick(timeRemaining, delta).timer
    ensures r.request == Some(GameOver) <==> Tick(timeRemaining, delta).justFinished
    ensures r.request == None || r.request == Some(GameOver)
  {
    var ticked := Tick(timeRemaining, delta);
    GameOverCheck(ticked.timer, if ticked.justFinished then Some(GameOver) else None)
  }

  /** The GameOver requests over several frames. */
  function RunClock(t: Timer, deltas: seq<nat>): (requests: nat)
    decreases |deltas|
  {
    if deltas == [] then 0
    else
      var c := CheckGameOver(t, deltas[0]);
      (if c.request.Some? then 1 else 0) + RunClock(c.timeRemaining, deltas[1..])
  }

  /** With a one-shot clock the game is ended exactly once: GameOver is
      requested once if the frames cover the remaining time, never if they
      do not, and never again once the clock has run out. A running clock
      has time left on it. */
  lemma {:induction false} GameOverOnce(t: Timer, deltas: seq<nat>)
    requires t.mode == Once && t.elapsed <= t.duration && (!t.finished ==> t.elapsed < t.duration)
    ensures t.finished ==> RunClock(t, deltas) == 0
    ensures !t.finished ==>
      (RunClock(t, deltas) == 1 <==> t.duration <= t.elapsed + Sum(deltas))
    ensures RunClock(t, deltas) <= 1
    decreases |deltas|
  {
    if deltas != [] {
      var c := CheckGameOver(t, deltas[0]);
      GameOverOnce(c.timeRemaining, deltas[1..]);
    }
  }
}
