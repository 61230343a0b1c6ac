/** `src/investing.rs`: the earlier ledger. Holding B buys one stonk per
    tick at the current price; pressing S sells everything held. There is no
    phase, and the price feed keeps a history but sends no notification. */
module Investing {
  import opened Ints
  import opened Traders
  import Config
  import Stonks

  /** `StonksTrading` of this version. */
  datatype StonksTrading = StonksTrading(
    priceCurrent: U32,
    owned: U32,
    spent: U32,
    returnsTotal: I64,
    priceHistory: seq<U32>)

  /** `avg_buy_price`: 0 when nothing is held, otherwise the spend per stonk,
      rounded down. */
  function AvgBuyPrice(s: StonksTrading): (r: U32)
    ensures s.owned == 0 ==> r == 0
    ensures s.owned != 0 ==> r * s.owned <= s.spent < (r + 1) * s.owned
  {
    if s.owned != 0 then s.spent / s.owned else 0
  }

  /** `StonksTrading::default()` of this version. */
  function DefaultTrading(): (s: StonksTrading)
    ensures s.priceCurrent == 0 && s.owned == 0 && s.spent == 0 && s.returnsTotal == 0
    ensures s.priceHistory == []
  {
    StonksTrading(0, 0, 0, 0, [])
  }

  /** `update_stonks_price` of this version. The price is computed exactly
      as in `src/stonks.rs` (`Stonks.Price`); the oldest entry is dropped only
      when the history already holds more than STONKS_DATA_POINTS prices. */
  function UpdateStonksPrice(s: StonksTrading, ss: seq<TraderStatus>): (r: StonksTrading)
    ensures r == s.(priceCurrent := Stonks.Price(ss), priceHistory := r.priceHistory)
    ensures |s.priceHistory| <= Config.STONKS_DATA_POINTS ==>
      r.priceHistory == s.priceHistory + [Stonks.Price(ss)]
    ensures |s.priceHistory| > Config.STONKS_DATA_POINTS ==>
      r.priceHistory == s.priceHistory[1..] + [Stonks.Price(ss)]
  {
    s.(priceCurrent := Stonks.Price(ss), priceHistory := Stonks.Trimmed(s.priceHistory) + [Stonks.Price(ss)])
  }

  /** Running the price update over several ticks, one trader census per tick. */
  function RunUpdates(s: StonksTrading, ticks: seq<seq<TraderStatus>>): StonksTrading
    decreases |ticks|
  {
    if ticks == [] then s else RunUpdates(UpdateStonksPrice(s, ticks[0]), ticks[1..])
  }

  /** The history after a run of updates is the old one with the run's
      prices pushed, under the same trimming rule as `src/stonks.rs`. */
  lemma {:induction false} RunUpdatesPushes(s: StonksTrading, ticks: seq<seq<TraderStatus>>)
    ensures RunUpdates(s, ticks).priceHistory == Stonks.Pushed(s.priceHistory, Stonks.Prices(ticks))
    decreases |ticks|
  {
    if ticks != [] {
      var next := UpdateStonksPrice(s, ticks[0]);
      assert next.priceHistory == Stonks.Trimmed(s.priceHistory) + [Stonks.Price(ticks[0])];
      RunUpdatesPushes(next, ticks[1..]);
      Stonks.PricesCons(ticks);
    }
  }

  /** Over any run of updates, a history that holds the most recent
      STONKS_DATA_POINTS + 1 prices keeps holding the most recent ones. */
  lemma HistoryKeepsRecentPrices(s: StonksTrading, ticks: seq<seq<TraderStatus>>, all: seq<U32>)
    requires Stonks.RecentPrices(s.priceHistory, all)
    ensures Stonks.RecentPrices(RunUpdates(s, ticks).priceHistory, all + Stonks.Prices(ticks))
  {
    RunUpdatesPushes(s, ticks);
    Stonks.PushedKeepsRecentPrices(s.priceHistory, Stonks.Prices(ticks), all);
  }

  /** From the empty history of a new game, the history after any number of
      ticks is the last STONKS_DATA_POINTS + 1 prices. */
  lemma HistoryFromNewGame(ticks: seq<seq<TraderStatus>>)
    ensures Stonks.RecentPrices(RunUpdates(DefaultTrading(), ticks).priceHistory, Stonks.Prices(ticks))
    ensures |RunUpdates(DefaultTrading(), ticks).priceHistory| <= Config.STONKS_DATA_POINTS + 1
  {
    RunUpdatesPushes(DefaultTrading(), ticks);
    Stonks.PushedKeepsRecentPrices([], Stonks.Prices(ticks), []);
    assert [] + Stonks.Prices(ticks) == Stonks.Prices(ticks);
  }

  /** One stonk bought at the current price. */
  function BuyOne(s: StonksTrading): (r: StonksTrading)
    ensures r.owned == WrapU32(s.owned + 1) && r.spent == WrapU32(s.spent + s.priceCurrent)
    ensures s.owned + 1 < U32_MOD ==> r.owned == s.owned + 1
    ensures s.spent + s.priceCurrent < U32_MOD ==> r.spent == s.spent + s.priceCurrent
    ensures r == s.(owned := r.owned, spent := r.spent)
  {
    s.(owned := WrapU32(s.owned + 1), spent := WrapU32(s.spent + s.priceCurrent))
  }

  /** What selling everything held earns now. */
  function Profit(s: StonksTrading): int
  {
    WrapU32(s.owned * s.priceCurrent) - s.spent
  }

  /** Everything sold and the profit booked. */
  function SellAll(s: StonksTrading): (r: StonksTrading)
    ensures r.owned == 0 && r.spent == 0
    ensures r.returnsTotal == WrapI64(s.returnsTotal + Profit(s))
    ensures r == s.(owned := 0, spent := 0, returnsTotal := r.returnsTotal)
  {
    s.(returnsTotal := WrapI64(s.returnsTotal + (WrapU32(s.owned * s.priceCurrent) - s.spent)), owned := 0, spent := 0)
  }

  /** `player_investing`: B held buys one, S pressed sells all; both in one
      tick buy first, then sell. */
  function PlayerInvesting(s: StonksTrading, buyHeld: bool, sellPressed: bool): (r: StonksTrading)
    ensures !buyHeld && !sellPressed ==> r == s
    ensures buyHeld && !sellPressed ==> r == BuyOne(s)
    ensures !buyHeld && sellPressed ==> r == SellAll(s)
    ensures buyHeld && sellPressed ==> r == SellAll(BuyOne(s))
    ensures r.priceCurrent == s.priceCurrent && r.priceHistory == s.priceHistory
  {
    var afterBuy := if buyHeld then BuyOne(s) else s;
    if sellPressed then SellAll(afterBuy) else afterBuy
  }

  /** A stonk bought and sold in the same tick gains nothing: selling with B
      held books the same returns as selling alone (absent overflow). */
  lemma BuyAndSellSameTick(s: StonksTrading)
    requires s.owned + 1 < U32_MOD && (s.owned + 1) * s.priceCurrent < U32_MOD
    requires s.spent + s.priceCurrent < U32_MOD
    ensures PlayerInvesting(s, true, true) == PlayerInvesting(s, false, true)
  {
    var b := BuyOne(s);
    var o, p := s.owned, s.priceCurrent;
    assert b.owned == o + 1 && b.spent == s.spent + p && b.priceCurrent == p;
    SameProfitAfterBuy(o, p, s.spent);
    assert Profit(b) == WrapU32((o + 1) * p) - (s.spent + p);
    assert Profit(s) == WrapU32(o * p) - s.spent;
    assert Profit(b) == Profit(s);
    assert SellAll(b) == SellAll(s);
  }

  /** The profit arithmetic of one extra stonk bought at price `p`. */
  lemma SameProfitAfterBuy(o: nat, p: nat, spent: nat)
    requires (o + 1) * p < U32_MOD
    ensures WrapU32((o + 1) * p) - (spent + p) == WrapU32(o * p) - spent
  {
    var op := o * p;
    assert (o + 1) * p == op + p;
    assert op < U32_MOD;
  }

  /** B held for `n` ticks at an unchanged price. */
  function HoldBuy(s: StonksTrading, n: nat): StonksTrading
  {
    if n == 0 then s else PlayerInvesting(HoldBuy(s, n - 1), true, false)
  }

  /** Holding B for `n` ticks from an empty ledger owns `n` stonks for
      `n` times the price, both wrapped to `u32`. */
  lemma {:induction false} HoldBuyAccumulates(s: StonksTrading, n: nat)
    requires s.owned == 0 && s.spent == 0
    ensures HoldBuy(s, n) == s.(owned := WrapU32(n), spent := WrapU32(n * s.priceCurrent))
  {
    if n > 0 {
      var p := s.priceCurrent;
      HoldBuyAccumulates(s, n - 1);
      var prev := HoldBuy(s, n - 1);
      assert HoldBuy(s, n) == BuyOne(prev);
      WrapU32Succ(n, p);
    }
  }

  /** When nothing wraps, holding B for `n` ticks from an empty ledger owns
      exactly `n` stonks for exactly `n` times the price. */
  lemma {:induction false} HoldBuyExact(s: StonksTrading, n: nat)
    requires s.owned == 0 && s.spent == 0
    ensures n < U32_MOD && n * s.priceCurrent < U32_MOD ==>
      HoldBuy(s, n) == s.(owned := n, spent := n * s.priceCurrent)
  {
    HoldBuyAccumulates(s, n);
    var p := s.priceCurrent;
    if n < U32_MOD && n * p < U32_MOD {
      MulNonNegative(n, p);
      assert WrapU32(n) == n && WrapU32(n * p) == n * p;
    }
  }

  /** Holding B for any number of ticks and then selling at the same price
      gains nothing and restores the ledger, even when the counters wrap. */
  lemma HoldThenSellSamePrice(s: StonksTrading, n: nat)
    requires s.owned == 0 && s.spent == 0
    ensures PlayerInvesting(HoldBuy(s, n), false, true) == s
  {
    HoldBuyAccumulates(s, n);
    WrapU32Product(n, s.priceCurrent);
  }
}
