/** `handle_collisions` of `src/main.rs`: a rumor hitting a trader.
    The pass reads the collision events in order. Each rumor-trader hit is
    checked against three reasons to ignore it (the trader owns the rumor,
    already has the rumor's sentiment, or is resting); an accepted hit sets
    the trader's sentiment at once, and queues commands that arm a 5 s status
    timer and a 0.5 s rest timer and despawn the rumor. Those commands take
    effect only when the pass ends, so the rest timer does not shield a trader
    from a second hit in the same pass. */
module Collisions {
  import opened Basics
  import opened Timers
  import opened Traders
  import opened Shooting
  import Physics

  /** What the pass sees of an entity: a trader with its position, a rumor
      projectile with its owner, or anything else. */
  datatype Entity =
    | TraderEntity(trader: Trader, position: Vec2)
    | RumorEntity(rumor: Rumor, owner: Option<EntityId>)
    | OtherEntity

  type World = map<EntityId, Entity>

  const STATUS_TIME: nat := 5000
  const REST_TIME: nat := 500

  /** A command queued during the pass and applied when it ends. */
  datatype Command = InsertTraderTimers(trader: EntityId) | Despawn(entity: EntityId)

  /** The state threaded through the pass. */
  datatype Pass = Pass(world: World, changes: seq<TraderChange>, spawns: seq<SpawnProjectile>, commands: seq<Command>)

  predicate IsTrader(w: World, e: EntityId)
  {
    e in w && w[e].TraderEntity?
  }

  predicate IsRumor(w: World, e: EntityId)
  {
    e in w && w[e].RumorEntity?
  }

  /** The sentiment a rumor spreads. */
  function SentimentOf(rumor: Rumor): (s: TraderStatus)
    ensures s != Neutral
    ensures s == Bearish <==> rumor == Tariff
    ensures s == Bullish <==> rumor == Taco
  {
    match rumor
    case Tariff => Bearish
    case Taco => Bullish
  }

  /** The three chain-reaction projectiles fired from the hit trader. */
  function ChainReaction(rumor: Rumor, at: Vec2, trader: EntityId): (r: seq<SpawnProjectile>)
    ensures |r| == 3
    ensures forall p :: p in r ==> p.projectileType == rumor && p.position == at && p.owner == Some(trader)
    ensures r[0].direction == Vec2(5, 0) && r[1].direction == Vec2(-5, 0) && r[2].direction == Vec2(0, 5)
  {
    [SpawnProjectile(rumor, at, Vec2(5, 0), Some(trader)),
     SpawnProjectile(rumor, at, Vec2(-5, 0), Some(trader)),
     SpawnProjectile(rumor, at, Vec2(0, 5), Some(trader))]
  }

  predicate OwnRumor(w: World, rumorId: EntityId, traderId: EntityId)
    requires IsRumor(w, rumorId)
  {
    w[rumorId].owner == Some(traderId)
  }

  predicate AlreadyHasSentiment(w: World, rumorId: EntityId, traderId: EntityId)
    requires IsRumor(w, rumorId) && IsTrader(w, traderId)
  {
    var rumor, status := w[rumorId].rumor, w[traderId].trader.status;
    (rumor == Taco && status == Bullish) || (rumor == Tariff && status == Bearish)
  }

  predicate Resting(w: World, traderId: EntityId)
    requires IsTrader(w, traderId)
  {
    w[traderId].trader.restTimer.Some?
  }

  predicate Rejected(w: World, rumorId: EntityId, traderId: EntityId)
    requires IsRumor(w, rumorId) && IsTrader(w, traderId)
  {
    OwnRumor(w, rumorId, traderId) || AlreadyHasSentiment(w, rumorId, traderId) || Resting(w, traderId)
  }

  /** Same entity, sentiment aside. */
  predicate SameButStatus(a: Entity, b: Entity)
  {
    match a
    case TraderEntity(t, p) =>
      b.TraderEntity? && b.position == p &&
      b.trader.statusTimer == t.statusTimer && b.trader.restTimer == t.restTimer
    case _ => b == a
  }

  /** The `check_rumor_vs_trader` closure. */
  function CheckRumorVsTrader(p: Pass, rumorId: EntityId, traderId: EntityId): (r: Pass)
    requires IsRumor(p.world, rumorId) && IsTrader(p.world, traderId)
    ensures OwnRumor(p.world, rumorId, traderId) ==> r == p
    ensures p.world[traderId].trader.status == SentimentOf(p.world[rumorId].rumor) ==> r == p
    ensures Resting(p.world, traderId) ==> r == p
    ensures !Rejected(p.world, rumorId, traderId) ==>
      && r.world.Keys == p.world.Keys
      && SameButStatus(p.world[traderId], r.world[traderId])
      && r.world[traderId].trader.status == SentimentOf(p.world[rumorId].rumor)
      && (forall e :: e in p.world && e != traderId ==> r.world[e] == p.world[e])
      && r.changes == p.changes + [TraderChange(traderId)]
      && r.commands == p.commands + [InsertTraderTimers(traderId), Despawn(rumorId)]
      && r.spawns == p.spawns + ChainReaction(p.world[rumorId].rumor, p.world[traderId].position, traderId)
  {
    var rumor := p.world[rumorId];
    var target := p.world[traderId];
    if OwnRumor(p.world, rumorId, traderId) || AlreadyHasSentiment(p.world, rumorId, traderId) then p
    else if Resting(p.world, traderId) then p
    else
      var flipped := target.(trader := target.trader.(status := SentimentOf(rumor.rumor)));
      Pass(p.world[traderId := flipped],
           p.changes + [TraderChange(traderId)],
           p.spawns + ChainReaction(rumor.rumor, target.position, traderId),
           p.commands + [InsertTraderTimers(traderId), Despawn(rumorId)])
  }

  /** One collision event: checked as rumor-trader, then as trader-rumor. */
  function HandleEvent(p: Pass, ev: Physics.CollisionEvent): Pass
  {
    var isRumorTrader := IsRumor(p.world, ev.entity1) && IsTrader(p.world, ev.entity2);
    var isTraderRumor := IsTrader(p.world, ev.entity1) && IsRumor(p.world, ev.entity2);
    var afterFirst := if isRumorTrader then CheckRumorVsTrader(p, ev.entity1, ev.entity2) else p;
    if isTraderRumor then CheckRumorVsTrader(afterFirst, ev.entity2, ev.entity1) else afterFirst
  }

  function HandleEvents(p: Pass, events: seq<Physics.CollisionEvent>): Pass
    decreases |events|
  {
    if events == [] then p else HandleEvents(HandleEvent(p, events[0]), events[1..])
  }

  function FreshTimers(t: Trader): Trader
  {
    t.(statusTimer := Some(NewTimer(STATUS_TIME, Once)), restTimer := Some(NewTimer(REST_TIME, Once)))
  }

  function ApplyCommand(w: World, c: Command): World
  {
    match c
    case InsertTraderTimers(t) =>
      if IsTrader(w, t) then w[t := w[t].(trader := FreshTimers(w[t].trader))] else w
    case Despawn(e) => w - {e}
  }

  function ApplyCommands(w: World, cs: seq<Command>): World
    decreases |cs|
  {
    if cs == [] then w else ApplyCommands(ApplyCommand(w, cs[0]), cs[1..])
  }

  datatype Outcome = Outcome(world: World, changes: seq<TraderChange>, spawns: seq<SpawnProjectile>)

  /** `handle_collisions`: the whole pass, then its queued commands. */
  function HandleCollisions(w: World, events: seq<Physics.CollisionEvent>): Outcome
  {
    var p := HandleEvents(Pass(w, [], [], []), events);
    Outcome(ApplyCommands(p.world, p.commands), p.changes, p.spawns)
  }

  // ----- what a pass does, event after event -----

  /** What the pass has done so far to the world `w0` it started from. */
  predicate PassInvariant(w0: World, p: Pass)
  {
    && p.world.Keys == w0.Keys
    && (forall e :: e in w0 ==> SameButStatus(w0[e], p.world[e]))
    && |p.spawns| == 3 * |p.changes|
    && |p.commands| == 2 * |p.changes|
    && (forall c :: c in p.changes ==>
          IsTrader(w0, c.entity) && !Resting(w0, c.entity) &&
          IsTrader(p.world, c.entity) && p.world[c.entity].trader.status != Neutral)
    && (forall e :: e in w0 && p.world[e] != w0[e] ==> TraderChange(e) in p.changes)
    && (forall s :: s in p.spawns ==> s.owner.Some? && TraderChange(s.owner.value) in p.changes)
    && (forall c :: c in p.commands && c.InsertTraderTimers? ==> TraderChange(c.trader) in p.changes)
    && (forall c :: c in p.commands && c.Despawn? ==> IsRumor(w0, c.entity))
    && (forall c :: c in p.changes ==> InsertTraderTimers(c.entity) in p.commands)
  }

  lemma CheckKeepsInvariant(w0: World, p: Pass, rumorId: EntityId, traderId: EntityId)
    requires PassInvariant(w0, p)
    requires IsRumor(p.world, rumorId) && IsTrader(p.world, traderId)
    ensures PassInvariant(w0, CheckRumorVsTrader(p, rumorId, traderId))
  {
    var r := CheckRumorVsTrader(p, rumorId, traderId);
    if !Rejected(p.world, rumorId, traderId) {
      assert SameButStatus(w0[traderId], p.world[traderId]);
      assert SameButStatus(w0[rumorId], p.world[rumorId]);
      forall e | e in w0
        ensures SameButStatus(w0[e], r.world[e])
      {
        if e != traderId {
          assert r.world[e] == p.world[e];
        }
      }
      forall c | c in r.changes
        ensures IsTrader(w0, c.entity) && !Resting(w0, c.entity) &&
          IsTrader(r.world, c.entity) && r.world[c.entity].trader.status != Neutral
      {
        if c.entity != traderId {
          assert c in p.changes;
        }
      }
      forall s | s in r.spawns
        ensures s.owner.Some? && TraderChange(s.owner.value) in r.changes
      {
        if s !in p.spawns {
          assert s in ChainReaction(p.world[rumorId].rumor, p.world[traderId].position, traderId);
        }
      }
      forall c | c in r.commands && c.Despawn?
        ensures IsRumor(w0, c.entity)
      {
        if c !in p.commands {
          assert c == Despawn(rumorId);
        }
      }
    }
  }

  lemma HandleEventKeepsInvariant(w0: World, p: Pass, ev: Physics.CollisionEvent)
    requires PassInvariant(w0, p)
    ensures PassInvariant(w0, HandleEvent(p, ev))
  {
    var isRumorTrader := IsRumor(p.world, ev.entity1) && IsTrader(p.world, ev.entity2);
    if isRumorTrader {
      CheckKeepsInvariant(w0, p, ev.entity1, ev.entity2);
    }
    var afterFirst := if isRumorTrader then CheckRumorVsTrader(p, ev.entity1, ev.entity2) else p;
    if IsTrader(p.world, ev.entity1) && IsRumor(p.world, ev.entity2) {
      assert afterFirst == p;
      CheckKeepsInvariant(w0, afterFirst, ev.entity2, ev.entity1);
    }
  }

  lemma {:induction false} HandleEventsKeepsInvariant(w0: World, p: Pass, events: seq<Physics.CollisionEvent>)
    requires PassInvariant(w0, p)
    ensures PassInvariant(w0, HandleEvents(p, events))
    decreases |events|
  {
    if events != [] {
      HandleEventKeepsInvariant(w0, p, events[0]);
      HandleEventsKeepsInvariant(w0, HandleEvent(p, events[0]), events[1..]);
    }
  }

  /** Some event names `e`. */
  predicate Mentioned(e: EntityId, events: seq<Physics.CollisionEvent>)
  {
    exists k :: 0 <= k < |events| && (events[k].entity1 == e || events[k].entity2 == e)
  }

  /** An entity no event names is not touched, and nothing is queued or
      reported for it. */
  lemma {:induction false} UnmentionedUntouched(p: Pass, events: seq<Physics.CollisionEvent>, e: EntityId)
    requires e in p.world && !Mentioned(e, events)
    ensures var r := HandleEvents(p, events);
      && e in r.world && r.world[e] == p.world[e]
      && (TraderChange(e) in r.changes ==> TraderChange(e) in p.changes)
      && (Despawn(e) in r.commands ==> Despawn(e) in p.commands)
      && (InsertTraderTimers(e) in r.commands ==> InsertTraderTimers(e) in p.commands)
    decreases |events|
  {
    if events != [] {
      var ev := events[0];
      assert ev.entity1 != e && ev.entity2 != e by {
        assert 0 < |events|;
      }
      var q := HandleEvent(p, ev);
      UnmentionedUntouched(q, events[1..], e);
    }
  }

  // ----- applying the queued commands -----

  function DespawnedBy(cs: seq<Command>): set<EntityId>
  {
    set c | c in cs && c.Despawn? :: c.entity
  }

  function AfterCommands(w: World, cs: seq<Command>, e: EntityId): Entity
    requires e in w
  {
    if IsTrader(w, e) && InsertTraderTimers(e) in cs then w[e].(trader := FreshTimers(w[e].trader)) else w[e]
  }

  /** The commands despawn exactly the entities they name, and arm fresh
      timers on the traders they name; nothing else changes. */
  lemma {:induction false} ApplyCommandsEffect(w: World, cs: seq<Command>)
    ensures ApplyCommands(w, cs).Keys == w.Keys - DespawnedBy(cs)
    ensures forall e :: e in ApplyCommands(w, cs) ==> ApplyCommands(w, cs)[e] == AfterCommands(w, cs, e)
    decreases |cs|
  {
    if cs != [] {
      var c, rest := cs[0], cs[1..];
      var w' := ApplyCommand(w, c);
      ApplyCommandsEffect(w', rest);
      assert forall d :: d in cs <==> d == c || d in rest;
      assert DespawnedBy(cs) == (if c.Despawn? then {c.entity} else {}) + DespawnedBy(rest);
      var r := ApplyCommands(w, cs);
      forall e | e in r
        ensures r[e] == AfterCommands(w, cs, e)
      {
        assert e in w';
      }
    }
  }

  /** The effect of `handle_collisions` on the world and the events it sends. */
  lemma HandleCollisionsEffect(w: World, events: seq<Physics.CollisionEvent>)
    ensures var r := HandleCollisions(w, events);
      && r.world.Keys <= w.Keys
      && |r.spawns| == 3 * |r.changes|
      && (forall s :: s in r.spawns ==> s.owner.Some? && TraderChange(s.owner.value) in r.changes)
      && (forall e :: e in w && e !in r.world ==> IsRumor(w, e) && Mentioned(e, events))
      && (forall c :: c in r.changes ==>
            && IsTrader(w, c.entity) && Mentioned(c.entity, events) && IsTrader(r.world, c.entity)
            && r.world[c.entity].trader.status != Neutral
            && r.world[c.entity].trader.statusTimer == Some(NewTimer(STATUS_TIME, Once))
            && r.world[c.entity].trader.restTimer == Some(NewTimer(REST_TIME, Once)))
      && (forall e :: e in w && !Mentioned(e, events) ==> e in r.world && r.world[e] == w[e])
      && (forall e :: IsTrader(w, e) && Resting(w, e) ==>
            e in r.world && r.world[e] == w[e] && TraderChange(e) !in r.changes)
  {
    var p0 := Pass(w, [], [], []);
    var p := HandleEvents(p0, events);
    var r := HandleCollisions(w, events);
    HandleEventsKeepsInvariant(w, p0, events);
    ApplyCommandsEffect(p.world, p.commands);
    forall e | e in w && e !in r.world
      ensures IsRumor(w, e) && Mentioned(e, events)
    {
      var c :| c in p.commands && c.Despawn? && c.entity == e;
      if !Mentioned(e, events) {
        UnmentionedUntouched(p0, events, e);
      }
    }
    forall c | c in r.changes
      ensures && IsTrader(w, c.entity) && Mentioned(c.entity, events) && IsTrader(r.world, c.entity)
              && r.world[c.entity].trader.status != Neutral
              && r.world[c.entity].trader.statusTimer == Some(NewTimer(STATUS_TIME, Once))
              && r.world[c.entity].trader.restTimer == Some(NewTimer(REST_TIME, Once))
    {
      if !Mentioned(c.entity, events) {
        UnmentionedUntouched(p0, events, c.entity);
      }
      assert c.entity !in DespawnedBy(p.commands);
    }
    forall e | e in w && !Mentioned(e, events)
      ensures e in r.world && r.world[e] == w[e]
    {
      UnmentionedUntouched(p0, events, e);
      assert e !in DespawnedBy(p.commands);
    }
    forall e | IsTrader(w, e) && Resting(w, e)
      ensures e in r.world && r.world[e] == w[e] && TraderChange(e) !in r.changes
    {
      assert TraderChange(e) !in p.changes;
      assert e !in DespawnedBy(p.commands);
    }
  }

  // ----- consequences of deferring the commands -----

  /** A Tariff and then a Taco reaching one calm trader in the same pass both
      take effect: the rest timer armed by the first hit is only inserted
      when the pass ends. The trader ends Bullish, reported twice, and fires
      six projectiles. */
  lemma TwoHitsInOnePass()
    ensures var w := map[0 := TraderEntity(NewTrader(), Vec2(0, 0)),
                         1 := RumorEntity(Tariff, None),
                         2 := RumorEntity(Taco, None)];
      var r := HandleCollisions(w, [Physics.CollisionEvent(1, 0), Physics.CollisionEvent(0, 2)]);
      && r.changes == [TraderChange(0), TraderChange(0)]
      && |r.spawns| == 6
      && 0 in r.world && r.world[0].TraderEntity?
      && r.world[0].trader.status == Bullish
      && 1 !in r.world && 2 !in r.world
  {
    var w := map[0 := TraderEntity(NewTrader(), Vec2(0, 0)),
                 1 := RumorEntity(Tariff, None),
                 2 := RumorEntity(Taco, None)];
    var p0 := Pass(w, [], [], []);
    var p1 := HandleEvent(p0, Physics.CollisionEvent(1, 0));
    assert p1.world[0].trader.status == Bearish;
    var p2 := HandleEvent(p1, Physics.CollisionEvent(0, 2));
    assert p2.world[0].trader.status == Bullish;
    assert HandleEvents(p0, [Physics.CollisionEvent(1, 0), Physics.CollisionEvent(0, 2)]) == p2 by {
      assert [Physics.CollisionEvent(1, 0), Physics.CollisionEvent(0, 2)][1..] == [Physics.CollisionEvent(0, 2)];
    }
    assert p2.commands == [InsertTraderTimers(0), Despawn(1), InsertTraderTimers(0), Despawn(2)];
  }

  /** A rumor touching two calm traders in the same pass flips both: it is
      despawned only when the pass ends. */
  lemma OneRumorTwoTraders()
    ensures var w := map[0 := TraderEntity(NewTrader(), Vec2(0, 0)),
                         1 := TraderEntity(NewTrader(), Vec2(10, 0)),
                         2 := RumorEntity(Tariff, None)];
      var r := HandleCollisions(w, [Physics.CollisionEvent(0, 2), Physics.CollisionEvent(1, 2)]);
      && r.changes == [TraderChange(0), TraderChange(1)]
      && |r.spawns| == 6
      && 0 in r.world && 1 in r.world && r.world[0].TraderEntity? && r.world[1].TraderEntity?
      && r.world[0].trader.status == Bearish && r.world[1].trader.status == Bearish
  {
    var w := map[0 := TraderEntity(NewTrader(), Vec2(0, 0)),
                 1 := TraderEntity(NewTrader(), Vec2(10, 0)),
                 2 := RumorEntity(Tariff, None)];
    var p0 := Pass(w, [], [], []);
    var p1 := HandleEvent(p0, Physics.CollisionEvent(0, 2));
    var p2 := HandleEvent(p1, Physics.CollisionEvent(1, 2));
    assert HandleEvents(p0, [Physics.CollisionEvent(0, 2), Physics.CollisionEvent(1, 2)]) == p2 by {
      assert [Physics.CollisionEvent(0, 2), Physics.CollisionEvent(1, 2)][1..] == [Physics.CollisionEvent(1, 2)];
    }
    assert p2.commands == [InsertTraderTimers(0), Despawn(2), InsertTraderTimers(1), Despawn(2)];
  }
}
