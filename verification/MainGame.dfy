/** `src/main.rs` apart from `handle_collisions` (module Collisions): the
    older single-file snapshot of the game. Its arena is [-300, 300]²
    (WIDTH and HEIGHT 300 are half-extents), its price weights are written
    out as 5, 3 and 7, its ledger has no history and no phase, and its shots
    carry no owner. */
module MainGame {
  import opened Basics
  import opened Ints
  import opened Timers
  import opened Traders
  import Shooting
  import Movement

  const WIDTH: nat := 300
  const HEIGHT: nat := 300

  /** The radius of every projectile this snapshot spawns. */
  const PROJECTILE_RADIUS: nat := 25

  // ----- price and ledger -----

  /** `StonksTrading` of this snapshot. */
  datatype StonksTrading = StonksTrading(
    priceCurrent: U32,
    owned: U32,
    spent: U32,
    returnsTotal: I64)

  /** The literal weights 5 (Neutral), 7 (Bullish) and 3 (Bearish). */
  const PRICE_WEIGHTS: Weights := Weights(5, 7, 3)

  /** `update_stonks_price`: only the current price changes; it is five per
      Neutral, three per Bearish and seven per Bullish trader. */
  function UpdateStonksPrice(s: StonksTrading, ss: seq<TraderStatus>): (r: StonksTrading)
    ensures r == s.(priceCurrent := r.priceCurrent)
    ensures r.priceCurrent == WrapU32(5 * Count(ss, Neutral) + 3 * Count(ss, Bearish) + 7 * Count(ss, Bullish))
    ensures 7 * |ss| < U32_MOD ==> 3 * |ss| <= r.priceCurrent <= 7 * |ss|
  {
    PriceFormula(ss);
    s.(priceCurrent := WrapU32(Weighted(Tally(ss), PRICE_WEIGHTS)))
  }

  lemma PriceFormula(ss: seq<TraderStatus>)
    ensures Weighted(Tally(ss), PRICE_WEIGHTS) == 5 * Count(ss, Neutral) + 3 * Count(ss, Bearish) + 7 * Count(ss, Bullish)
    ensures 3 * |ss| <= Weighted(Tally(ss), PRICE_WEIGHTS) <= 7 * |ss|
  {
    var c := Tally(ss);
    TallyCounts(ss);
    assert Weighted(c, PRICE_WEIGHTS) == 5 * c.neutral + 7 * c.bullish + 3 * c.bearish;
    PriceBounds(ss);
  }

  lemma PriceBounds(ss: seq<TraderStatus>)
    ensures 3 * |ss| <= Weighted(Tally(ss), PRICE_WEIGHTS) <= 7 * |ss|
  {
    WeightSumBounds(ss, PRICE_WEIGHTS, 3, 7);
    TallyWeighsEveryTrader(ss, PRICE_WEIGHTS);
  }

  /** The average buy price shown by `ui_update`: 0 when nothing is held,
      otherwise the spend per stonk rounded down. */
  function UiAvgBuyPrice(s: StonksTrading): (r: U32)
    ensures s.owned == 0 ==> r == 0
    ensures s.owned != 0 ==> r * s.owned <= s.spent < (r + 1) * s.owned
  {
    if s.owned != 0 then s.spent / s.owned else 0
  }

  /** What selling everything held earns now. */
  function Profit(s: StonksTrading): int
  {
    WrapU32(s.owned * s.priceCurrent) - s.spent
  }

  /** `player_investing`: B held buys one stonk at the current price; S
      pressed sells everything and books the profit. With both, the buy comes
      first. */
  function PlayerInvesting(s: StonksTrading, bHeld: bool, sPressed: bool): (r: StonksTrading)
    ensures !bHeld && !sPressed ==> r == s
    ensures r.priceCurrent == s.priceCurrent
    ensures bHeld && !sPressed ==>
      r == s.(owned := WrapU32(s.owned + 1), spent := WrapU32(s.spent + s.priceCurrent))
    ensures bHeld && !sPressed && s.owned + 1 < U32_MOD && s.spent + s.priceCurrent < U32_MOD ==>
      r == s.(owned := s.owned + 1, spent := s.spent + s.priceCurrent)
    ensures sPressed ==> r.owned == 0 && r.spent == 0
    ensures !bHeld && sPressed ==> r.returnsTotal == WrapI64(s.returnsTotal + Profit(s))
    ensures bHeld && sPressed ==>
      r.returnsTotal == WrapI64(s.returnsTotal +
        Profit(s.(owned := WrapU32(s.owned + 1), spent := WrapU32(s.spent + s.priceCurrent))))
  {
    var bought :=
      if bHeld then s.(owned := WrapU32(s.owned + 1), spent := WrapU32(s.spent + s.priceCurrent))
      else s;
    if sPressed then
      bought.(returnsTotal := WrapI64(bought.returnsTotal + Profit(bought)), owned := 0, spent := 0)
    else bought
  }

  /** Selling leaves nothing to sell: a second S press books no profit and
      changes nothing. */
  lemma SellTwiceSellsOnce(s: StonksTrading)
    ensures var once := PlayerInvesting(s, false, true);
      PlayerInvesting(once, false, true) == once
  {
    var once := PlayerInvesting(s, false, true);
    assert Profit(once) == 0;
  }

  /** Holding B for `n` ticks from an empty ledger owns `n` stonks for
      `n` times the price, both wrapped to `u32`. */
  lemma {:induction false} HoldBuyAccumulates(s: StonksTrading, n: nat)
    requires s.owned == 0 && s.spent == 0
    ensures HoldBuy(s, n) == s.(owned := WrapU32(n), spent := WrapU32(n * s.priceCurrent))
  {
    if n > 0 {
      var p := s.priceCurrent;
      HoldBuyAccumulates(s, n - 1);
      var prev := HoldBuy(s, n - 1);
      assert HoldBuy(s, n) == PlayerInvesting(prev, true, false);
      WrapU32Succ(n, p);
    }
  }

  /** When nothing wraps, holding B for `n` ticks from an empty ledger owns
      exactly `n` stonks for exactly `n` times the price. */
  lemma {:induction false} HoldBuyExact(s: StonksTrading, n: nat)
    requires s.owned == 0 && s.spent == 0
    ensures n < U32_MOD && n * s.priceCurrent < U32_MOD ==>
      HoldBuy(s, n) == s.(owned := n, spent := n * s.priceCurrent)
  {
    HoldBuyAccumulates(s, n);
    var p := s.priceCurrent;
    if n < U32_MOD && n * p < U32_MOD {
      MulNonNegative(n, p);
      assert WrapU32(n) == n && WrapU32(n * p) == n * p;
    }
  }

  /** Holding B for `n` ticks at one price and then pressing S books
      nothing and restores the starting ledger, even when the counters wrap. */
  lemma HoldBuyThenSell(s: StonksTrading, n: nat)
    requires s.owned == 0 && s.spent == 0
    ensures PlayerInvesting(HoldBuy(s, n), false, true) == s
  {
    HoldBuyAccumulates(s, n);
    WrapU32Product(n, s.priceCurrent);
  }

  /** `n` ticks with B held and S not pressed. */
  function HoldBuy(s: StonksTrading, n: nat): StonksTrading
  {
    if n == 0 then s else PlayerInvesting(HoldBuy(s, n - 1), true, false)
  }

  // ----- movement -----

  /** `move_entities` of this snapshot for one entity: translate, then apply
      the edge behaviour against the arena [-300, 300]². No sprite is flipped. */
  function MoveEntity(m: Movement.Mover): (r: Movement.Moved)
    ensures r.mover.id == m.id && r.mover.velocity == m.velocity && r.mover.edge == m.edge
    ensures r.mover.sprite == m.sprite && r.mover.translation.z == m.translation.z
    ensures m.edge != Some(Movement.Wraparound) ==>
      r.mover.translation == Movement.Translate(m.translation, m.velocity)
    ensures m.edge == Some(Movement.Destroy) ==>
      (r.despawn <==> !Movement.InArena(m.translation.Xy().Plus(m.velocity), WIDTH, HEIGHT))
    ensures m.edge != Some(Movement.Destroy) ==> !r.despawn
    ensures m.edge == Some(Movement.Wraparound) ==>
      var moved := m.translation.Xy().Plus(m.velocity);
      r.mover.translation ==
           Vec3(Movement.WrapAxis(moved.x, WIDTH), Movement.WrapAxis(moved.y, HEIGHT), m.translation.z)
  {
    Movement.ApplyEdge(m.(translation := Movement.Translate(m.translation, m.velocity)), WIDTH, HEIGHT)
  }

  /** A wrapping entity inside the arena [-300, 300]² that moves at most 600
      per axis per step stays inside it. */
  lemma WraparoundStaysInArena(m: Movement.Mover)
    requires m.edge == Some(Movement.Wraparound)
    requires Movement.InArena(m.translation.Xy(), WIDTH, HEIGHT)
    requires -2 * WIDTH <= m.velocity.x <= 2 * WIDTH
    requires -2 * HEIGHT <= m.velocity.y <= 2 * HEIGHT
    ensures Movement.InArena(MoveEntity(m).mover.translation.Xy(), WIDTH, HEIGHT)
  {
  }

  /** The newer movement rule differs from this one only in the sprite flip
      and the arena size: on an entity without a sprite, inside both arenas,
      the two agree. */
  lemma SameMoveWithoutSpriteInsideBothArenas(m: Movement.Mover)
    requires m.sprite.None? && m.edge != Some(Movement.Wraparound)
    requires Movement.InArena(m.translation.Xy().Plus(m.velocity), WIDTH, HEIGHT)
    ensures MoveEntity(m) == Movement.MoveEntity(m)
  {
  }

  // ----- shooting -----

  /** `player_shooting`: a just-pressed Space spawns one ownerless Taco at
      the bottom edge, flying up. */
  function PlayerShooting(spacePressed: bool): (r: seq<Shooting.SpawnProjectile>)
    ensures !spacePressed ==> r == []
    ensures spacePressed ==> |r| == 1 && r[0].projectileType == Shooting.Taco
    ensures forall e :: e in r ==>
      e.owner.None? && e.position == Vec2(0, -(HEIGHT as int)) && e.direction == Vec2(0, 5)
  {
    if spacePressed then [Shooting.SpawnProjectile(Shooting.Taco, Vec2(0, -(HEIGHT as int)), Vec2(0, 5), None)]
    else []
  }

  /** `DonnieShootingLogic`: Donnie's shooting timer. */
  datatype DonnieShootingLogic = DonnieShootingLogic(shootingTimer: Timer)

  /** The default: a repeating three-second timer. */
  function DefaultDonnieShootingLogic(): (d: DonnieShootingLogic)
    ensures d.shootingTimer.duration == 3000 && d.shootingTimer.mode == Repeating
    ensures !Tick(d.shootingTimer, 2999).justFinished && Tick(d.shootingTimer, 3000).justFinished
  {
    DonnieShootingLogic(NewTimer(3000, Repeating))
  }

  datatype DonnieOutcome = DonnieOutcome(logic: DonnieShootingLogic, spawns: seq<Shooting.SpawnProjectile>)

  /** `donnie_shooting`: each time the timer finishes, one ownerless Tariff
      starts at the top edge, flying down. */
  function DonnieShooting(d: DonnieShootingLogic, delta: nat): (r: DonnieOutcome)
    ensures r.logic.shootingTimer == Tick(d.shootingTimer, delta).timer
    ensures |r.spawns| <= 1
    ensures |r.spawns| == 1 <==> Tick(d.shootingTimer, delta).justFinished
    ensures forall e :: e in r.spawns ==>
      e == Shooting.SpawnProjectile(Shooting.Tariff, Vec2(0, HEIGHT), Vec2(0, -5), None)
  {
    var ticked := Tick(d.shootingTimer, delta);
    var spawns :=
      if ticked.justFinished then [Shooting.SpawnProjectile(Shooting.Tariff, Vec2(0, HEIGHT), Vec2(0, -5), None)]
      else [];
    DonnieOutcome(DonnieShootingLogic(ticked.timer), spawns)
  }

  /** Donnie's shots over several ticks. */
  function RunDonnie(d: DonnieShootingLogic, deltas: seq<nat>): (r: DonnieOutcome)
    decreases |deltas|
  {
    if deltas == [] then DonnieOutcome(d, [])
    else
      var first := DonnieShooting(d, deltas[0]);
      var rest := RunDonnie(first.logic, deltas[1..]);
      DonnieOutcome(rest.logic, first.spawns + rest.spawns)
  }

  /** Donnie never shoots more often than his timer allows: over ticks
      totalling `Sum(deltas)` milliseconds, three seconds per shot plus the
      time left on the timer never exceed the time that passed, counting the
      time already on the timer. */
  lemma {:induction false} DonnieRateLimit(d: DonnieShootingLogic, deltas: seq<nat>)
    requires d.shootingTimer.duration == 3000 && d.shootingTimer.mode == Repeating
    ensures var r := RunDonnie(d, deltas);
      && r.logic.shootingTimer.duration == 3000
      && r.logic.shootingTimer.mode == Repeating
      && 3000 * |r.spawns| + r.logic.shootingTimer.elapsed <= d.shootingTimer.elapsed + Sum(deltas)
    decreases |deltas|
  {
    if deltas != [] {
      var first := DonnieShooting(d, deltas[0]);
      var e := d.shootingTimer.elapsed + deltas[0];
      if 3000 <= e {
        assert first.logic.shootingTimer.elapsed == e % 3000;
        CarryOver(e);
      }
      DonnieRateLimit(first.logic, deltas[1..]);
    }
  }

  /** A finished three-second period leaves at most the excess as carry. */
  lemma CarryOver(e: nat)
    requires 3000 <= e
    ensures e % 3000 <= e - 3000
  {
  }

  /** `spawn_projectiles` of this snapshot: one projectile of radius 25 per
      event, in event order, each removed once it leaves the arena. */
  function SpawnProjectiles(events: seq<Shooting.SpawnProjectile>): (r: seq<Shooting.ProjectileBundle>)
    ensures |r| == |events|
    ensures forall i :: 0 <= i < |events| ==>
      r[i].rumor == events[i].projectileType && r[i].owner == events[i].owner &&
      r[i].translation == OnPlane(events[i].position) && r[i].velocity == events[i].direction &&
      r[i].radius == PROJECTILE_RADIUS && r[i].edge == Movement.Destroy
  {
    seq(|events|, i requires 0 <= i < |events| => Shooting.BundleFor(events[i], PROJECTILE_RADIUS))
  }
}
