# Stonks arcade game: the gameplay core in Dafny

This project models the rules of a small arcade game built on the Bevy engine.

In the game, traders wander an arena, each one Neutral, Bullish or Bearish. Rumors flying across the arena change a trader's sentiment when they hit: Donnie throws Tariffs and the player throws Tacos. A hit trader fires a chain reaction of three more rumors. The stonk price is a weighted count of the traders' sentiments, and the player buys stonks and sells them back.

Every rule is written as a pure step function over integers:

- Entity ids are naturals.
- Positions and velocities are integer vectors, not `f32`.
- The engine's `Timer` is a small millisecond timer (module `Timers`) with `Once` and `Repeating` modes and a `just_finished` flag.
- Engine commands that act at the end of a system, such as inserting components or despawning, are a list of effects applied when the pass ends.
- `u32`/`i64` ledger arithmetic wraps explicitly, as a release build does (module `Ints`).
- Query iteration order is sequence order.

The repository holds two snapshots of the same code. They are modelled side by side and never merged:

- `src/main.rs` is the older single-file game. It has the arena [−300, 300]² (half-width and half-height 300), literal price weights 5/3/7, a ledger with no history, and ownerless player and Donnie shots.
  - `handle_collisions` is modelled in module `Collisions`.
  - The rest is modelled in module `MainGame`.
- The newer modules are:
  - `src/physics.rs` → `Physics`
  - `src/traders.rs` → `Traders`
  - `src/stonks.rs` → `Stonks`
  - `src/investing.rs` → `Investing`, an earlier version of the ledger. Its price fold and its history trimming are the same code as in `src/stonks.rs`, so it uses `Stonks.Price` and the history definitions of `Stonks`.
  - `src/shooting.rs` → `Shooting`
  - `src/movement.rs` → `Movement`
  - `src/game_states.rs` → `GameStates`

  They use the constants of `src/config.rs` (module `Config`).

`main.rs` declares its own `TraderStatus`, `Rumor` and `SpawnProjectile`. These have the same variants and fields as the ones in `traders.rs` and `shooting.rs`, so `Collisions` and `MainGame` reuse `Traders.TraderStatus`, `Shooting.Rumor` and `Shooting.SpawnProjectile`.

## Model

| member | source | states |
|---|---|---|
| Physics.OverlapsIffLengthBelowReach | src/physics.rs:33-34 | for the true length of the axis between two 3-D translations, the squared test `Overlaps` holds exactly when that length is strictly below the sum of the radii; circles that only touch do not collide |
| Physics.OverlapsSymmetric | src/physics.rs:33-39 | the overlap test does not depend on which entity is `entity1` |
| Physics.CheckCollisions | src/physics.rs:27-42 | the nested loops emit exactly the reference event list (overlapping index pairs in combination order); an event for (a, b) is emitted iff a comes before b in the query and they overlap; at most n·(n−1)/2 events for n colliders |
| Physics.CollisionEventsMembership | src/physics.rs:31-40 | every event of the reference list comes from an overlapping pair i < j, and every such pair is reported; the list has at most n·(n−1)/2 entries |
| Physics.EachPairReportedOnce | src/physics.rs:31-32 | with distinct ids no entity is paired with itself and no unordered pair of entities is reported twice |
| Traders.NewTrader | src/traders.rs:3-14 | a fresh trader is Neutral and carries neither a status nor a rest timer |
| Traders.TickTrader | src/traders.rs:79-90 | a finished status timer makes the trader Neutral and removes that timer; a finished rest timer is removed and the status is unaffected; unfinished timers keep the status and only advance; a trader without timers is unchanged |
| Traders.TickTraderTimers | src/traders.rs:72-92 | every trader is ticked in query order, and a `TraderChange` is emitted for an entity iff its status timer finished this tick; no more changes than traders |
| Traders.OneChangePerReversion | src/traders.rs:79-84 | with distinct ids, a reverting trader appears exactly once among the emitted changes and a non-reverting one not at all |
| Traders.TallyCounts | src/stonks.rs:46-52 | the status fold counts, for each status, exactly the traders that have it |
| Traders.TallyWeighsEveryTrader | src/stonks.rs:46-55 | the weighted sum of the tallied counts equals the sum over traders of each trader's own weight |
| Traders.WeightSumBounds | src/stonks.rs:53-55 | with weights between lo and hi the weighted sum of T traders lies in [lo·T, hi·T] |
| Collisions.SentimentOf | src/main.rs:226-229 | a Tariff makes a trader Bearish and a Taco makes it Bullish; neither is Neutral |
| Collisions.ChainReaction | src/main.rs:239-242 | exactly three projectiles of the hit rumor's type at the trader's position, owned by the trader, with directions (5,0), (−5,0), (0,5) |
| Collisions.CheckRumorVsTrader | src/main.rs:212-244 | a rumor owned by the trader, a trader that already has the rumor's sentiment, or a resting trader leaves the pass unchanged. Otherwise only that trader's status changes, to the rumor's sentiment. One `TraderChange` is emitted. Timer insertion and the rumor's despawn are queued. The chain reaction is appended |
| Collisions.CheckKeepsInvariant | src/main.rs:212-244 | an accepted or rejected hit preserves the pass invariant: keys kept, only statuses change, 3 spawns and 2 commands per change, every change for a non-resting trader now non-Neutral, spawns owned by changed traders, despawns only of rumors |
| Collisions.HandleEventKeepsInvariant | src/main.rs:207-251 | checking one event both ways (rumor–trader, then trader–rumor) preserves the pass invariant |
| Collisions.HandleEventsKeepsInvariant | src/main.rs:207-252 | reading the whole event stream preserves the pass invariant |
| Collisions.UnmentionedUntouched | src/main.rs:207-252 | an entity that no collision event names is not changed, reported, despawned or given timers |
| Collisions.ApplyCommandsEffect | src/main.rs:231-238 | the queued commands remove exactly the despawned entities and arm a fresh 5 s status and 0.5 s rest timer on the named traders; nothing else changes |
| Collisions.HandleCollisionsEffect | src/main.rs:197-253 | after the pass and its commands: three spawns per change, each owned by a changed trader; only rumors named in some event disappear; every changed trader was named, is non-Neutral and carries fresh 5 s and 0.5 s timers; unnamed entities are untouched; resting traders are unchanged and never reported |
| Collisions.TwoHitsInOnePass | src/main.rs:207-244 | because the rest timer is inserted only at the end of the pass, a Tariff and then a Taco hitting one calm trader in one pass both take effect: two changes, six spawns, final status Bullish |
| Collisions.OneRumorTwoTraders | src/main.rs:207-244 | because the despawn is deferred, one rumor touching two calm traders in one pass flips both |
| MainGame.UpdateStonksPrice | src/main.rs:386-397 | only the price changes; it is 5·#Neutral + 3·#Bearish + 7·#Bullish (u32), hence within [3T, 7T] for T traders |
| MainGame.UiAvgBuyPrice | src/main.rs:404 | 0 when nothing is held, otherwise the largest a with a·owned ≤ spent |
| MainGame.PlayerInvesting | src/main.rs:255-268 | no key changes nothing. B buys one stonk at the current price: owned + 1 and spent + price, each wrapped to u32, and exactly those when nothing wraps. S books owned·price − spent into the returns and zeroes owned and spent. With both keys the buy comes first. The price never changes |
| MainGame.SellTwiceSellsOnce | src/main.rs:263-267 | a second sell right after a sell changes nothing |
| MainGame.HoldBuyAccumulates | src/main.rs:259-262 | holding B for n ticks from an empty ledger owns n stonks for n·price, both wrapped to u32 |
| MainGame.HoldBuyExact | src/main.rs:259-262 | when nothing wraps, holding B for n ticks from an empty ledger owns exactly n stonks for exactly n·price |
| MainGame.HoldBuyThenSell | src/main.rs:259-267 | holding B for any n ticks from an empty ledger and then selling at the same price books nothing and restores the starting ledger, even when the counters wrap |
| MainGame.MoveEntity | src/main.rs:158-194 | translate by the velocity; Wraparound wraps each translated coordinate by `WrapAxis` with bound 300; Destroy despawns iff the new position leaves [−300,300]²; no edge behaviour only translates; sprite untouched |
| MainGame.WraparoundStaysInArena | src/main.rs:164-177 | a wrapping entity inside [−300, 300]² moving at most 600 per axis stays inside |
| MainGame.SameMoveWithoutSpriteInsideBothArenas | src/main.rs:154-195 | for a non-wrapping entity with no sprite that lands inside [−300, 300]², the older and newer movement rules agree |
| MainGame.PlayerShooting | src/main.rs:270-278 | a just-pressed Space spawns exactly one ownerless Taco at (0, −300) with direction (0, 5); otherwise nothing |
| MainGame.DefaultDonnieShootingLogic | src/main.rs:73-77 | Donnie's timer repeats every 3 s: a 2999 ms tick does not finish it, a 3000 ms tick does |
| MainGame.DonnieShooting | src/main.rs:280-289 | the timer is ticked; one ownerless Tariff at (0, 300) flying (0, −5) is spawned iff the timer just finished |
| MainGame.DonnieRateLimit | src/main.rs:280-289 | over any sequence of ticks, 3000 ms per shot plus the time left on the timer never exceed the time that passed |
| MainGame.SpawnProjectiles | src/main.rs:328-384 | one projectile per event in event order, of the event's rumor type, at its position on z = 0, with its direction, its owner, radius 25 and Destroy at the edges |
| Stonks.DefaultTrading | src/stonks.rs:3-12 | a new game has price 0, holds nothing, has spent and earned nothing, has an empty history and is in the Buy phase |
| Stonks.AvgBuyPrice | src/stonks.rs:15-21 | None iff nothing is held; otherwise the largest a with a·owned ≤ spent |
| Stonks.Price | src/stonks.rs:46-56 | the price is the u32 sum of each trader's weight, and lies in [3T, 7T] for T traders |
| Stonks.PriceCounts | src/stonks.rs:53-55 | the price is STONKS_PER_NEUTRAL·#Neutral + STONKS_PER_BEARISH·#Bearish + STONKS_PER_BULLISH·#Bullish |
| Stonks.PriceWithinChart | src/ui.rs:30-31 | with TRADER_COUNT traders every price lies between TRADER_COUNT·STONKS_PER_BEARISH and TRADER_COUNT·STONKS_PER_BULLISH |
| Stonks.UpdateStonksPrice | src/stonks.rs:40-72 | Only price and history change. The history gains the new price at its end and loses its oldest entry exactly when it already held more than STONKS_DATA_POINTS prices. LOW fires iff prev > low ≥ price, and HIGH fires iff prev < high ≤ price. There is no notification when the price is unchanged, no LOW on the first update, and never more than one notification |
| Stonks.HistoryFromNewGame | src/stonks.rs:58-63 | from a new game, after any number of updates the history is exactly the last STONKS_DATA_POINTS + 1 prices, and never longer |
| Stonks.PushedKeepsRecentPrices | src/stonks.rs:58-63 | pushing prices one by one, with the oldest entry dropped once STONKS_DATA_POINTS + 1 are held, turns a history of the most recent prices into the most recent prices of the longer run |
| Stonks.HistoryKeepsRecentPrices | src/stonks.rs:58-63 | a history that holds the most recent prices keeps holding the most recent prices across any run of updates |
| Stonks.BuyLot | src/stonks.rs:96-99 | a buy adds STONKS_PER_BUY_ACTION to owned and price·STONKS_PER_BUY_ACTION to spent (u32), exactly when nothing wraps, and moves to Dump |
| Stonks.DumpAll | src/stonks.rs:106-111 | a dump books owned·price − spent into the returns, zeroes owned and spent, and moves to Buy |
| Stonks.TouchBuy | src/stonks.rs:90-91 | no released touch never trades; two touches released in one frame trade; a released touch with exactly one still down trades; otherwise no trade |
| Stonks.TouchTradesLikeSpace | src/stonks.rs:90-94 | lifting one of two fingers, or two at once, trades exactly as Space does, and a trade always changes the ledger; lifting a lone finger does nothing |
| Stonks.PlayerInvesting | src/stonks.rs:84-118 | from the touches released and still down, without Space or the touch gesture nothing changes; otherwise Buy buys a lot and shows BOUGHT, Dump sells all and shows the profit; "nothing held during Buy" is preserved |
| Stonks.BuyThenDumpSamePrice | src/stonks.rs:96-111 | buying a lot and dumping it at the same price shows profit 0 and restores the ledger exactly |
| Stonks.RoundTripProfit | src/stonks.rs:96-111 | buying at one price and dumping at another books the lot size times the price difference, when nothing wraps |
| Stonks.UpdateKeepsLedger | src/stonks.rs:40-72 | price updates keep the ledger invariant |
| Investing.AvgBuyPrice | src/investing.rs:12-19 | 0 when nothing is held, otherwise the largest a with a·owned ≤ spent |
| Investing.DefaultTrading | src/investing.rs:3-10 | a new game has price, holdings, spend and returns 0 and an empty history |
| Investing.UpdateStonksPrice | src/investing.rs:25-42 | only price and history change; the price is the `src/stonks.rs` price; the history is the old one plus the new price when it held at most STONKS_DATA_POINTS prices, and loses its oldest entry exactly when it held more; it stays within STONKS_DATA_POINTS + 1 entries |
| Investing.RunUpdatesPushes | src/investing.rs:37-41 | a run of updates pushes the run's prices one by one under the same trimming rule as `src/stonks.rs` |
| Investing.HistoryKeepsRecentPrices | src/investing.rs:37-41 | a history that holds the most recent prices keeps holding the most recent prices across any run of updates |
| Investing.HistoryFromNewGame | src/investing.rs:37-41 | from a new game, after any number of updates the history is exactly the last STONKS_DATA_POINTS + 1 prices, and never longer |
| Investing.BuyOne | src/investing.rs:45-48 | holding B adds 1 to owned and the price to spent, each wrapped to u32, exactly when nothing wraps; nothing else changes |
| Investing.SellAll | src/investing.rs:49-53 | pressing S books owned·price − spent into the returns and zeroes owned and spent |
| Investing.PlayerInvesting | src/investing.rs:44-54 | with both keys the buy is applied before the sell; with one key only that action happens; price and history never change |
| Investing.BuyAndSellSameTick | src/investing.rs:44-54 | buying and selling in the same tick books the same returns as selling alone (no overflow) |
| Investing.HoldBuyAccumulates | src/investing.rs:45-48 | holding B for n ticks from an empty ledger owns n stonks for n·price, both wrapped to u32 |
| Investing.HoldBuyExact | src/investing.rs:45-48 | when nothing wraps, holding B for n ticks from an empty ledger owns exactly n stonks for exactly n·price |
| Investing.HoldThenSellSamePrice | src/investing.rs:44-54 | holding B for any n ticks from an empty ledger and then pressing S at an unchanged price restores the starting ledger exactly, returns included, even when the counters wrap |
| Shooting.DefaultShootingLogic | src/shooting.rs:47-55 | the magazine starts full: tacos_left = max_tacos = MAX_TACOS, with a repeating TACO_CHARGE_TIME timer |
| Shooting.ChargePlayerTacos | src/shooting.rs:146-153 | a full magazine is left alone, its timer included; otherwise the recharge timer is ticked (keeping its carry-over) and a taco is added iff it just finished, never above max_tacos |
| Shooting.Clamp | src/shooting.rs:151 | the clamped value lies in [lo, hi] and is the input when already there |
| Shooting.PlayerShooting | src/shooting.rs:130-143 | with no aim, no taco left or no fire input nothing happens; otherwise exactly one ownerless Taco is spawned and exactly one taco spent, so the count never underflows and stays within the magazine |
| Shooting.MagazineStaysInBounds | src/shooting.rs:130-153 | over any sequence of shoot-then-recharge frames the count stays within [0, max_tacos] |
| Shooting.UniformDirections | src/shooting.rs:65-72 | exactly bullet_count directions, the i-th recorded as the reference turned i steps of a full circle / bullet_count |
| Shooting.DefaultTimedShooter | src/shooting.rs:23-30 | the default timed shooter fires Tariffs every 2 s |
| Shooting.PlayerAutoShooter | src/shooting.rs:245-249 | the player's auto shooter is the default one firing Tacos |
| Shooting.HandleTimedShooting | src/shooting.rs:155-182 | every shooter's timer is ticked; a shooter's shot (its type, its position, owned by it) is spawned iff its timer just finished; there are exactly as many shots as shooters whose timer finished |
| Shooting.TimedShotsSplit | src/shooting.rs:162-181 | shots follow query order: the shots of one run of shooters followed by another are the first run's shots followed by the second's |
| Shooting.EachShooterFiresOnce | src/shooting.rs:162-181 | the frame's shots are those of the shooters before shooter i, then shooter i's own single shot if its timer finished, then those of the shooters after it |
| Shooting.TimedShotsAreOwned | src/shooting.rs:174-179 | every timed shot carries the id of one of the shooters as owner |
| Shooting.SpawnProjectiles | src/shooting.rs:199-239 | one projectile per event, with the event's type, position, direction and owner, radius 20 and Destroy; the launched counter grows by the number of events |
| Movement.WrapAxis | src/movement.rs:53-64 | a coordinate above the bound is moved down by 2·bound, one below −bound is moved up by 2·bound, and one in [−bound, bound] is kept; one within three arena extents lands back in the arena |
| Movement.MoveEntity | src/movement.rs:43-82 | translate by the velocity; a sprite faces left iff velocity.x < 0; Wraparound wraps each translated coordinate by `WrapAxis` with bound W (H); Destroy despawns iff the new position leaves [−W,W]×[−H,H]; no edge behaviour only translates |
| Movement.WraparoundStaysInArena | src/movement.rs:52-65 | a wrapping entity starting in the arena with |vx| ≤ 2W and |vy| ≤ 2H stays in the arena and is never despawned |
| Movement.MoveEntities | src/movement.rs:33-83 | every entity moves on its own, in query order; the despawned set is exactly the Destroy entities that left the arena |
| Movement.YSort | src/movement.rs:94-98 | every entity with a sprite gets depth z = −y; nothing else changes |
| Movement.HandleRandomMovement | src/movement.rs:100-122 | A finished Moving timer turns the entity Idle with zero velocity. A finished Idle timer turns it Moving with the randomly drawn velocity. An unfinished timer only advances, keeping the state and the velocity |
| Movement.IdleStaysStill | src/movement.rs:106-119 | an Idle entity that stands still keeps standing still after any wander step |
| GameStates.DefaultState | src/game_states.rs:5-7 | the game starts in the menu, which Escape does not leave |
| GameStates.CheckGamePause | src/game_states.rs:26-41 | without Escape nothing is requested; Escape requests Playing from Paused and Paused from Playing and nothing elsewhere; a request always differs from the current state |
| GameStates.PauseToggles | src/game_states.rs:31-40 | the state changes iff Escape is pressed in Playing or Paused, and a running game stays within those two states |
| GameStates.PauseTwiceRoundTrips | src/game_states.rs:35-40 | two Escapes from Playing or Paused return to the starting state |
| GameStates.PauseParity | src/game_states.rs:31-40 | over any frames, a running game ends where it began iff Escape was pressed an even number of times |
| GameStates.CheckGameOver | src/game_states.rs:16-24 | the clock is ticked and GameOver is requested iff it just ran out; nothing else is ever requested |
| GameStates.GameOverOnce | src/game_states.rs:16-24 | with a one-shot clock, GameOver is requested exactly once if the frames cover the remaining time, never otherwise, and never after the clock has run out |

## Left out

- Rendering, UI, audio and dialogue: sprite and texture swaps, `update_trader_status`, text effects and their formatting, overhead text, gizmos, menus and asset loading. They have no effect on the game state modelled here.
- `src/animations.rs` and the `animations` system: floating-point tweening through function pointers.
- `src/game.rs`: an enum superseded by `src/game_states.rs`.
- Floating point. Coordinates, radii and velocities are integers. Three things are left to the caller:
  - the normalised aim direction times PROJECTILE_SPEED (`Shooting.Aim`, `Shooting.ShotVelocity`);
  - the angles of the uniform pattern (`Shooting.PatternDirection` records the step instead of the rotated vector);
  - the viewport-to-world conversion.
- `notif_thresholds` (src/stonks.rs:74-82) is float arithmetic over a `Config` resource that is not part of this model. `Stonks.UpdateStonksPrice` takes `low` and `high` as parameters.
- Randomness is passed in as parameters: trader placement and velocities in `setup`, the trader a timed shooter aims at, the velocity drawn when a wanderer starts moving, and the random choice in `RandomMovement::default`, which is not modelled. STONKS_PER_BUY_ACTION, MAX_TACOS, TACO_CHARGE_TIME, IDLE_TIME and MOVEMENT_TIME are not defined in the files modelled here, so they are parameters too.
- The engine: system scheduling, queries, events and commands are not modelled as such. The engine's `Timer` is replaced by the millisecond stand-in in `Timers`. The game-over clock's duration and mode live in `GameStats`, which is not part of this model, so `GameStates.CheckGameOver` takes the timer as a parameter.
- `tick_trader_timers` in `src/main.rs` (lines 306-326) is the same as in `src/traders.rs`, so `Traders.TickTraderTimers` covers both. The same holds for the status fold in every price update (`Traders.Tally`).
- That collision detection changes no position, velocity or collider holds by construction: `Physics.CheckCollisions` only reads its input.
- The per-status counters in the price fold are `u32` in the source. Their own wrap-around (more than 2³² traders) is not modelled; the weighted sum's wrap is.
- A debug build panics on `u32`/`i64` overflow. The model follows the release build and wraps.
- Stonks.BuyLot: its exact increment is stated only when no `u32` sum wraps. The wrapped result is stated through `Ints.WrapU32`.
- Investing.BuyAndSellSameTick: holds only when no `u32` counter wraps. With wrap-around, an extra stonk bought in the selling tick can change the booked profit, since `owned·price` and `spent` then wrap differently.
- Shooting.UniformDirections: the directions are symbolic (reference and step). The `f32` rotation itself is not modelled, so nothing is said about the rotated vectors, which coincide when the reference direction is zero.
- Stonks.RoundTripProfit: stated only when neither the buy cost nor the sale value wraps.
- GameStates.GameOverOnce: requires that a running clock still has time left on it (elapsed below duration). A zero-length clock is not covered.
- MainGame.SameMoveWithoutSpriteInsideBothArenas: compares the two snapshots only where both arenas agree. Wrapping entities are excluded, because the arenas differ in size.
