/** The constants of `src/config.rs` (the newer snapshot). */
module Config {

  const WIDTH: nat := 600
  const HEIGHT: nat := 350

  const TRADER_COUNT: nat := 15
  const STONKS_PER_BEARISH: nat := 3
  const STONKS_PER_NEUTRAL: nat := 5
  const STONKS_PER_BULLISH: nat := 7
  const STONKS_DATA_POINTS: nat := 300

  const PROJECTILE_SPEED: nat := 5
}
