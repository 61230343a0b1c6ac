/** `src/movement.rs`: translation by velocity, the arena edges, sprite
    flipping, depth sorting and the Moving/Idle wander state machine, against
    the arena of `src/config.rs` (600 by 350 half-extents). */
module Movement {
  import opened Basics
  import opened Timers
  import Config

  datatype EdgeBehavior = Wraparound | Destroy

  datatype Sprite = Sprite(flipX: bool)

  /** One row of the movement query. */
  datatype Mover = Mover(
    id: EntityId,
    translation: Vec3,
    velocity: Vec2,
    edge: Option<EdgeBehavior>,
    sprite: Option<Sprite>)

  /** Inside the arena [-width, width] x [-height, height]. */
  predicate InArena(p: Vec2, width: int, height: int)
  {
    -width <= p.x <= width && -height <= p.y <= height
  }

  /** The two wraparound tests on one axis, applied one after the other. */
  function WrapAxis(c: int, bound: int): (r: int)
    requires 0 <= bound
    ensures r == c || r == c - 2 * bound || r == c + 2 * bound
    ensures -3 * bound <= c <= 3 * bound ==> -bound <= r <= bound
    ensures -bound <= c <= bound ==> r == c
    ensures c > bound ==> r == c - 2 * bound
    ensures c < -bound ==> r == c + 2 * bound
  {
    var shifted := if c > bound then c - 2 * bound else c;
    if shifted < -bound then shifted + 2 * bound else shifted
  }

  /** `pos.x += velocity.x; pos.y += velocity.y`, z untouched. */
  function Translate(p: Vec3, v: Vec2): Vec3
  {
    Vec3(p.x + v.x, p.y + v.y, p.z)
  }

  /** The edge handling of one entity after it moved; `despawn` is the
      despawn command, applied when the pass ends. */
  datatype Moved = Moved(mover: Mover, despawn: bool)

  function ApplyEdge(m: Mover, width: nat, height: nat): Moved
  {
    var p := m.translation;
    match m.edge
    case Some(Wraparound) =>
      Moved(m.(translation := Vec3(WrapAxis(p.x, width), WrapAxis(p.y, height), p.z)), false)
    case Some(Destroy) =>
      Moved(m, !InArena(p.Xy(), width, height))
    case None => Moved(m, false)
  }

  /** `move_entities` for one entity of the newer snapshot: translate, flip
      the sprite to face the velocity, then apply the edge behaviour. */
  function MoveEntity(m: Mover): (r: Moved)
    ensures r.mover.id == m.id && r.mover.velocity == m.velocity && r.mover.edge == m.edge
    ensures r.mover.translation.z == m.translation.z
    ensures m.sprite.None? ==> r.mover.sprite.None?
    ensures m.sprite.Some? ==> r.mover.sprite == Some(Sprite(m.velocity.x < 0))
    ensures m.edge != Some(Wraparound) ==>
      r.mover.translation == Translate(m.translation, m.velocity)
    ensures m.edge == Some(Destroy) ==>
      (r.despawn <==> !InArena(m.translation.Xy().Plus(m.velocity), Config.WIDTH, Config.HEIGHT))
    ensures m.edge != Some(Destroy) ==> !r.despawn
    ensures m.edge == Some(Wraparound) ==>
      var moved := m.translation.Xy().Plus(m.velocity);
      r.mover.translation ==
           Vec3(WrapAxis(moved.x, Config.WIDTH), WrapAxis(moved.y, Config.HEIGHT), m.translation.z)
  {
    var translated := m.(translation := Translate(m.translation, m.velocity));
    var flipped :=
      match translated.sprite
      case Some(_) => translated.(sprite := Some(Sprite(m.velocity.x < 0)))
      case None => translated;
    ApplyEdge(flipped, Config.WIDTH, Config.HEIGHT)
  }

  /** A wrapping entity that starts inside the arena and moves less than a
      full arena width (height) per step stays inside it. */
  lemma WraparoundStaysInArena(m: Mover)
    requires m.edge == Some(Wraparound)
    requires InArena(m.translation.Xy(), Config.WIDTH, Config.HEIGHT)
    requires -2 * Config.WIDTH <= m.velocity.x <= 2 * Config.WIDTH
    requires -2 * Config.HEIGHT <= m.velocity.y <= 2 * Config.HEIGHT
    ensures InArena(MoveEntity(m).mover.translation.Xy(), Config.WIDTH, Config.HEIGHT)
    ensures !MoveEntity(m).despawn
  {
  }

  datatype MoveOutcome = MoveOutcome(movers: seq<Mover>, despawned: set<EntityId>)

  /** `move_entities` over the whole query: every entity moves on its own;
      the despawn commands take effect when the pass ends. */
  function MoveEntities(ms: seq<Mover>): (r: MoveOutcome)
    ensures |r.movers| == |ms|
    ensures forall i :: 0 <= i < |ms| ==> r.movers[i] == MoveEntity(ms[i]).mover
    ensures forall e :: e in r.despawned <==>
      (exists i :: 0 <= i < |ms| && ms[i].id == e && MoveEntity(ms[i]).despawn)
  {
    if ms == [] then MoveOutcome([], {})
    else
      var head := MoveEntity(ms[0]);
      var rest := MoveEntities(ms[1..]);
      assert forall i :: 1 <= i < |ms| ==> ms[i] == ms[1..][i - 1];
      MoveOutcome([head.mover] + rest.movers,
        (if head.despawn then {ms[0].id} else {}) + rest.despawned)
  }

  /** `y_sort`: every entity with a sprite is drawn at depth -y. */
  function YSort(ms: seq<Mover>): (r: seq<Mover>)
    ensures |r| == |ms|
    ensures forall i :: 0 <= i < |ms| ==>
      r[i].translation.Xy() == ms[i].translation.Xy() &&
      r[i].translation.z == (if ms[i].sprite.Some? then -ms[i].translation.y else ms[i].translation.z)
    ensures forall i :: 0 <= i < |ms| ==>
      r[i] == ms[i].(translation := r[i].translation)
  {
    seq(|ms|, i requires 0 <= i < |ms| =>
      var m := ms[i];
      if m.sprite.Some? then m.(translation := m.translation.(z := -m.translation.y)) else m)
  }

  /** `RandomMovement`: wandering or resting, each for the time of its timer. */
  datatype RandomMovement = Moving(timer: Timer) | Idle(timer: Timer)

  datatype Wander = Wander(movement: RandomMovement, velocity: Vec2)

  /** `handle_random_movement` for one entity. `idleTime` and `movementTime`
      (milliseconds) are the game's IDLE_TIME and MOVEMENT_TIME;
      `randomVelocity` is the velocity the random source picks this tick. */
  function HandleRandomMovement(w: Wander, delta: nat, idleTime: nat, movementTime: nat,
                                randomVelocity: Vec2): (r: Wander)
    ensures w.movement.Moving? && Tick(w.movement.timer, delta).justFinished ==>
      r.movement == Idle(NewTimer(idleTime, Once)) && r.velocity == ZERO2
    ensures w.movement.Idle? && Tick(w.movement.timer, delta).justFinished ==>
      r.movement == Moving(NewTimer(movementTime, Once)) && r.velocity == randomVelocity
    ensures !Tick(w.movement.timer, delta).justFinished ==>
      r.movement.Moving? == w.movement.Moving? &&
      r.movement.timer == Tick(w.movement.timer, delta).timer &&
      r.velocity == w.velocity
  {
    var ticked := Tick(w.movement.timer, delta);
    match w.movement
    case Moving(_) =>
      if ticked.justFinished then Wander(Idle(NewTimer(idleTime, Once)), ZERO2)
      else Wander(Moving(ticked.timer), w.velocity)
    case Idle(_) =>
      if ticked.justFinished then Wander(Moving(NewTimer(movementTime, Once)), randomVelocity)
      else Wander(Idle(ticked.timer), w.velocity)
  }

  /** An idle entity stands still ... */
  predicate IdleStandsStill(w: Wander)
  {
    w.movement.Idle? ==> w.velocity == ZERO2
  }

  /** ... and the wander step keeps it so: a Moving entity stops when it
      turns Idle, and an Idle entity only moves again once it turns Moving. */
  lemma IdleStaysStill(w: Wander, delta: nat, idleTime: nat, movementTime: nat, v: Vec2)
    requires IdleStandsStill(w)
    ensures IdleStandsStill(HandleRandomMovement(w, delta, idleTime, movementTime, v))
  {
  }
}
