/** `src/shooting.rs`: rumors, spawn requests, the player's taco magazine,
    timed shooters, the uniform bullet pattern and projectile spawning. */
module Shooting {
  import opened Basics
  import opened Ints
  import opened Timers
  import Config
  import Movement

  datatype Rumor = Tariff | Taco

  /** The `SpawnProjectile` event. */
  datatype SpawnProjectile = SpawnProjectile(
    projectileType: Rumor,
    position: Vec2,
    direction: Vec2,
    owner: Option<EntityId>)

  // ----- the player's taco magazine -----

  /** `PlayerShootingLogic`: a recharge timer and the taco count. */
  datatype PlayerShootingLogic = PlayerShootingLogic(timer: Timer, tacosLeft: U32, maxTacos: U32)

  /** The magazine never holds more than it can. */
  predicate AmmoInBounds(q: PlayerShootingLogic)
  {
    q.tacosLeft <= q.maxTacos
  }

  /** `PlayerShootingLogic::default()`; `maxTacos` is MAX_TACOS and
      `chargeTime` is TACO_CHARGE_TIME in milliseconds. */
  function DefaultShootingLogic(maxTacos: U32, chargeTime: nat): (q: PlayerShootingLogic)
    ensures q.tacosLeft == maxTacos && q.maxTacos == maxTacos
    ensures q.timer == NewTimer(chargeTime, Repeating)
    ensures AmmoInBounds(q)
  {
    PlayerShootingLogic(NewTimer(chargeTime, Repeating), maxTacos, maxTacos)
  }

  /** `charge_player_tacos`: a full magazine is left alone (its timer does not
      even tick); otherwise a finished recharge adds one taco, clamped to the
      magazine size. */
  function ChargePlayerTacos(q: PlayerShootingLogic, delta: nat): (r: PlayerShootingLogic)
    ensures q.tacosLeft >= q.maxTacos ==> r == q
    ensures r.maxTacos == q.maxTacos
    ensures r.tacosLeft == q.tacosLeft || r.tacosLeft == q.tacosLeft + 1
    ensures r.tacosLeft == q.tacosLeft + 1 <==>
      q.tacosLeft < q.maxTacos && Tick(q.timer, delta).justFinished
    ensures q.tacosLeft < q.maxTacos ==> r.timer == Tick(q.timer, delta).timer
    ensures AmmoInBounds(q) ==> AmmoInBounds(r)
  {
    if q.tacosLeft >= q.maxTacos then q
    else
      var ticked := Tick(q.timer, delta);
      if ticked.justFinished then
        q.(timer := ticked.timer, tacosLeft := Clamp(q.tacosLeft + 1, 0, q.maxTacos))
      else q.(timer := ticked.timer)
  }

  /** `x.clamp(lo, hi)` */
  function Clamp(x: int, lo: int, hi: int): (r: int)
    requires lo <= hi
    ensures lo <= r <= hi
    ensures lo <= x <= hi ==> r == x
  {
    if x < lo then lo else if x > hi then hi else x
  }

  /** Where the player aims: the player's position and the launch velocity
      (the normalised direction to the cursor times PROJECTILE_SPEED, computed
      by the caller in floating point). */
  datatype Aim = Aim(start: Vec2, velocity: Vec2)

  datatype ShotOutcome = ShotOutcome(logic: PlayerShootingLogic, spawns: seq<SpawnProjectile>)

  /** The firing part of `player_shooting`. `aim` is None when there is no
      touch and no cursor (the system returns early); `fire` is a left click
      or a released touch this frame. */
  function PlayerShooting(q: PlayerShootingLogic, aim: Option<Aim>, fire: bool): (r: ShotOutcome)
    ensures aim.None? || q.tacosLeft == 0 || !fire ==> r == ShotOutcome(q, [])
    ensures aim.Some? && q.tacosLeft > 0 && fire ==>
      && r.logic == q.(tacosLeft := q.tacosLeft - 1)
      && r.spawns == [SpawnProjectile(Taco, aim.value.start, aim.value.velocity, None)]
    ensures AmmoInBounds(q) ==> AmmoInBounds(r.logic)
    ensures forall s :: s in r.spawns ==> s.owner.None?
  {
    match aim
    case None => ShotOutcome(q, [])
    case Some(a) =>
      if q.tacosLeft == 0 then ShotOutcome(q, [])
      else if fire then
        ShotOutcome(q.(tacosLeft := q.tacosLeft - 1), [SpawnProjectile(Taco, a.start, a.velocity, None)])
      else ShotOutcome(q, [])
  }

  /** One frame's input to the magazine. */
  datatype Frame = Frame(delta: nat, aim: Option<Aim>, fire: bool)

  /** Shooting, then recharging, frame after frame. */
  function RunMagazine(q: PlayerShootingLogic, frames: seq<Frame>): PlayerShootingLogic
    decreases |frames|
  {
    if frames == [] then q
    else
      var f := frames[0];
      RunMagazine(ChargePlayerTacos(PlayerShooting(q, f.aim, f.fire).logic, f.delta), frames[1..])
  }

  /** Whatever the player does, the magazine stays within 0..maxTacos, and
      shots fired never exceed the tacos available. */
  lemma {:induction false} MagazineStaysInBounds(q: PlayerShootingLogic, frames: seq<Frame>)
    requires AmmoInBounds(q)
    ensures AmmoInBounds(RunMagazine(q, frames))
    ensures RunMagazine(q, frames).maxTacos == q.maxTacos
    decreases |frames|
  {
    if frames != [] {
      var f := frames[0];
      MagazineStaysInBounds(ChargePlayerTacos(PlayerShooting(q, f.aim, f.fire).logic, f.delta), frames[1..]);
    }
  }

  // ----- the uniform bullet pattern -----

  /** A direction of a pattern: `reference` turned by `step` of `steps` equal
      turns of the full circle (the angle itself is floating point). */
  datatype PatternDirection = Turned(reference: Vec2, step: nat, steps: nat)

  /** `UniformPattern::direction_iter`: one direction per bullet, the i-th
      turned i steps of 2π / bullet_count from the reference. */
  function UniformDirections(bulletCount: U32, reference: Vec2): (r: seq<PatternDirection>)
    ensures |r| == bulletCount
    ensures forall i :: 0 <= i < |r| ==> r[i].reference == reference && r[i].step == i && r[i].steps == bulletCount
  {
    seq(bulletCount, i requires 0 <= i < bulletCount => Turned(reference, i, bulletCount))
  }

  // ----- timed shooters -----

  /** `TimedShooter`: a repeating shooting timer and the rumor it fires. */
  datatype TimedShooter = TimedShooter(shootingTimer: Timer, shotType: Rumor)

  /** `TimedShooter::default()`: a Tariff every 2 s. */
  function DefaultTimedShooter(): (s: TimedShooter)
    ensures s.shotType == Tariff
    ensures s.shootingTimer == NewTimer(2000, Repeating)
  {
    TimedShooter(NewTimer(2000, Repeating), Tariff)
  }

  /** `add_player_auto_shooting`: the default shooter, firing Tacos. */
  function PlayerAutoShooter(): (s: TimedShooter)
    ensures s.shotType == Taco && s.shootingTimer == DefaultTimedShooter().shootingTimer
  {
    DefaultTimedShooter().(shotType := Taco)
  }

  datatype ShooterSlot = ShooterSlot(id: EntityId, position: Vec2, shooter: TimedShooter)

  datatype TimedOutcome = TimedOutcome(shooters: seq<ShooterSlot>, spawns: seq<SpawnProjectile>)

  /** The launch velocity of a timed shot: toward the randomly chosen
      trader (normalised and scaled by the caller), or straight down at
      PROJECTILE_SPEED when there is no trader. */
  function ShotVelocity(aim: Option<Vec2>): Vec2
  {
    match aim
    case Some(v) => v
    case None => Vec2(0, -(Config.PROJECTILE_SPEED as int))
  }

  /** The shot shooter `s` fires this frame: one projectile of its kind
      from its position, owned by it, when its timer finishes; none otherwise. */
  function TimedShot(s: ShooterSlot, delta: nat, aim: Option<Vec2>): seq<SpawnProjectile>
  {
    if Tick(s.shooter.shootingTimer, delta).justFinished
    then [SpawnProjectile(s.shooter.shotType, s.position, ShotVelocity(aim), Some(s.id))]
    else []
  }

  /** The shots of a run of shooters, each shooter's in query order. */
  function TimedShots(ss: seq<ShooterSlot>, delta: nat, aims: seq<Option<Vec2>>): seq<SpawnProjectile>
    requires |aims| == |ss|
    decreases |ss|
  {
    if ss == [] then [] else TimedShot(ss[0], delta, aims[0]) + TimedShots(ss[1..], delta, aims[1..])
  }

  /** How many shooters' timers finish this frame. */
  function FinishingShooters(ss: seq<ShooterSlot>, delta: nat): nat
    decreases |ss|
  {
    if ss == [] then 0
    else (if Tick(ss[0].shooter.shootingTimer, delta).justFinished then 1 else 0) + FinishingShooters(ss[1..], delta)
  }

  /** `handle_timed_shooting`: each shooter whose timer finishes fires one
      projectile of its kind from its position, owned by the shooter.
      `aims[i]` is the direction the random choice gives shooter i. */
  function HandleTimedShooting(ss: seq<ShooterSlot>, delta: nat, aims: seq<Option<Vec2>>): (r: TimedOutcome)
    requires |aims| == |ss|
    ensures |r.shooters| == |ss|
    ensures forall i :: 0 <= i < |ss| ==>
      r.shooters[i] == ss[i].(shooter := ss[i].shooter.(shootingTimer := Tick(ss[i].shooter.shootingTimer, delta).timer))
    ensures forall p :: p in r.spawns ==>
      exists i :: 0 <= i < |ss| && Tick(ss[i].shooter.shootingTimer, delta).justFinished &&
        p == SpawnProjectile(ss[i].shooter.shotType, ss[i].position, ShotVelocity(aims[i]), Some(ss[i].id))
    ensures forall i :: 0 <= i < |ss| && Tick(ss[i].shooter.shootingTimer, delta).justFinished ==>
      SpawnProjectile(ss[i].shooter.shotType, ss[i].position, ShotVelocity(aims[i]), Some(ss[i].id)) in r.spawns
    ensures |r.spawns| == FinishingShooters(ss, delta) <= |ss|
    ensures r.spawns == TimedShots(ss, delta, aims)
  {
    if ss == [] then TimedOutcome([], [])
    else
      var s := ss[0];
      var ticked := Tick(s.shooter.shootingTimer, delta);
      var rest := HandleTimedShooting(ss[1..], delta, aims[1..]);
      assert forall i :: 1 <= i < |ss| ==> ss[i] == ss[1..][i - 1] && aims[i] == aims[1..][i - 1];
      TimedOutcome(
        [s.(shooter := s.shooter.(shootingTimer := ticked.timer))] + rest.shooters,
        TimedShot(s, delta, aims[0]) + rest.spawns)
  }

  /** Query order: the shots of a run of shooters followed by another run are
      the first run's shots followed by the second's. */
  lemma {:induction false} TimedShotsSplit(a: seq<ShooterSlot>, b: seq<ShooterSlot>, delta: nat,
                                           aimsA: seq<Option<Vec2>>, aimsB: seq<Option<Vec2>>)
    requires |aimsA| == |a| && |aimsB| == |b|
    ensures TimedShots(a + b, delta, aimsA + aimsB) == TimedShots(a, delta, aimsA) + TimedShots(b, delta, aimsB)
    decreases |a|
  {
    if a == [] {
      assert a + b == b && aimsA + aimsB == aimsB;
    } else {
      var ab, aimsAB := a + b, aimsA + aimsB;
      assert ab[0] == a[0] && aimsAB[0] == aimsA[0];
      assert ab[1..] == a[1..] + b && aimsAB[1..] == aimsA[1..] + aimsB;
      TimedShotsSplit(a[1..], b, delta, aimsA[1..], aimsB);
      var shot := TimedShot(a[0], delta, aimsA[0]);
      assert shot + (TimedShots(a[1..], delta, aimsA[1..]) + TimedShots(b, delta, aimsB)) ==
        (shot + TimedShots(a[1..], delta, aimsA[1..])) + TimedShots(b, delta, aimsB);
    }
  }

  /** Each shooter fires exactly its own shot, once, in query order: the
      frame's shots are those of the shooters before it, then its own, then
      those of the shooters after it. */
  lemma EachShooterFiresOnce(ss: seq<ShooterSlot>, delta: nat, aims: seq<Option<Vec2>>, i: nat)
    requires |aims| == |ss| && i < |ss|
    ensures HandleTimedShooting(ss, delta, aims).spawns ==
      HandleTimedShooting(ss[..i], delta, aims[..i]).spawns + TimedShot(ss[i], delta, aims[i]) +
      HandleTimedShooting(ss[i + 1..], delta, aims[i + 1..]).spawns
  {
    assert ss == ss[..i] + ([ss[i]] + ss[i + 1..]);
    assert aims == aims[..i] + ([aims[i]] + aims[i + 1..]);
    TimedShotsSplit([ss[i]], ss[i + 1..], delta, [aims[i]], aims[i + 1..]);
    TimedShotsSplit(ss[..i], [ss[i]] + ss[i + 1..], delta, aims[..i], [aims[i]] + aims[i + 1..]);
    assert TimedShots([ss[i]], delta, [aims[i]]) == TimedShot(ss[i], delta, aims[i]) + TimedShots([], delta, []);
  }

  /** Timed shots always carry their shooter as owner. */
  lemma TimedShotsAreOwned(ss: seq<ShooterSlot>, delta: nat, aims: seq<Option<Vec2>>)
    requires |aims| == |ss|
    ensures forall p :: p in HandleTimedShooting(ss, delta, aims).spawns ==>
      p.owner.Some? && exists i :: 0 <= i < |ss| && p.owner == Some(ss[i].id)
  {
  }

  // ----- spawning -----

  const PROJECTILE_RADIUS: nat := 20

  /** What `spawn_projectiles` puts on a new projectile entity. */
  datatype ProjectileBundle = ProjectileBundle(
    rumor: Rumor,
    translation: Vec3,
    radius: nat,
    velocity: Vec2,
    edge: Movement.EdgeBehavior,
    owner: Option<EntityId>)

  function BundleFor(e: SpawnProjectile, radius: nat): (b: ProjectileBundle)
    ensures b.rumor == e.projectileType && b.translation == OnPlane(e.position)
    ensures b.velocity == e.direction && b.owner == e.owner
    ensures b.radius == radius && b.edge == Movement.Destroy
  {
    ProjectileBundle(e.projectileType, OnPlane(e.position), radius, e.direction, Movement.Destroy, e.owner)
  }

  datatype SpawnOutcome = SpawnOutcome(spawned: seq<ProjectileBundle>, totalLaunched: nat)

  /** `spawn_projectiles`: one projectile per event, in event order, each
      counted in `total_projectiles_launched`. */
  function SpawnProjectiles(events: seq<SpawnProjectile>, totalLaunched: nat): (r: SpawnOutcome)
    ensures |r.spawned| == |events|
    ensures forall i :: 0 <= i < |events| ==> r.spawned[i] == BundleFor(events[i], PROJECTILE_RADIUS)
    ensures r.totalLaunched == totalLaunched + |events|
  {
    SpawnOutcome(seq(|events|, i requires 0 <= i < |events| => BundleFor(events[i], PROJECTILE_RADIUS)),
                 totalLaunched + |events|)
  }
}
