/** `src/stonks.rs`: the price feed and the two-phase trading ledger.
    The price is a weighted count of trader sentiments; the last prices are
    kept in a bounded FIFO; LOW and HIGH notifications fire when the price
    crosses a threshold. The player alternates between buying a fixed lot and
    dumping everything held. */
module Stonks {
  import opened Basics
  import opened Ints
  import opened Traders
  import Config

  datatype TradePhase = Buy | Dump

  /** `StonksTrading` */
  datatype StonksTrading = StonksTrading(
    priceCurrent: U32,
    owned: U32,
    spent: U32,
    returnsTotal: I64,
    priceHistory: seq<U32>,
    phase: TradePhase)

  /** `StonksTrading::default()` */
  function DefaultTrading(): (s: StonksTrading)
    ensures s.priceCurrent == 0
    ensures s.owned == 0 && s.spent == 0 && s.returnsTotal == 0
    ensures s.priceHistory == [] && s.phase == Buy
  {
    StonksTrading(0, 0, 0, 0, [], Buy)
  }

  /** `avg_buy_price`: nothing when nothing is held, otherwise the spend
      per stonk, rounded down. */
  function AvgBuyPrice(s: StonksTrading): (r: Option<U32>)
    ensures r.None? <==> s.owned == 0
    ensures r.Some? ==> r.value * s.owned <= s.spent < (r.value + 1) * s.owned
  {
    if s.owned != 0 then Some(s.spent / s.owned) else None
  }

  const PRICE_WEIGHTS: Weights :=
    Weights(Config.STONKS_PER_NEUTRAL, Config.STONKS_PER_BULLISH, Config.STONKS_PER_BEARISH)

  /** The price of a market whose traders have sentiments `ss` (u32 arithmetic). */
  function Price(ss: seq<TraderStatus>): (r: U32)
    ensures r == WrapU32(WeightSum(ss, PRICE_WEIGHTS))
    ensures 7 * |ss| < U32_MOD ==> 3 * |ss| <= r <= 7 * |ss|
  {
    WeightSumBounds(ss, PRICE_WEIGHTS, 3, 7);
    TallyWeighsEveryTrader(ss, PRICE_WEIGHTS);
    WrapU32(Weighted(Tally(ss), PRICE_WEIGHTS))
  }

  /** The price is STONKS_PER_NEUTRAL, STONKS_PER_BEARISH and
      STONKS_PER_BULLISH per Neutral, Bearish and Bullish trader. */
  lemma PriceCounts(ss: seq<TraderStatus>)
    ensures Price(ss) == WrapU32(Config.STONKS_PER_NEUTRAL * Count(ss, Neutral) +
                                 Config.STONKS_PER_BEARISH * Count(ss, Bearish) +
                                 Config.STONKS_PER_BULLISH * Count(ss, Bullish))
  {
    TallyWeighsEveryTrader(ss, PRICE_WEIGHTS);
    WeightedByStatus(ss);
  }

  lemma WeightedByStatus(ss: seq<TraderStatus>)
    ensures Weighted(Tally(ss), PRICE_WEIGHTS) ==
      Config.STONKS_PER_NEUTRAL * Count(ss, Neutral) +
      Config.STONKS_PER_BEARISH * Count(ss, Bearish) +
      Config.STONKS_PER_BULLISH * Count(ss, Bullish)
  {
    TallyCounts(ss);
  }

  /** With the configured TRADER_COUNT traders every price lies in the range
      the price chart is drawn over, TRADER_COUNT·STONKS_PER_BEARISH to
      TRADER_COUNT·STONKS_PER_BULLISH. */
  lemma PriceWithinChart(ss: seq<TraderStatus>)
    requires |ss| == Config.TRADER_COUNT
    ensures Config.TRADER_COUNT * Config.STONKS_PER_BEARISH <= Price(ss)
    ensures Price(ss) <= Config.TRADER_COUNT * Config.STONKS_PER_BULLISH
  {
  }

  datatype Notification = HIGH | LOW

  datatype PriceUpdate = PriceUpdate(trading: StonksTrading, notifications: seq<Notification>)

  /** `*price_history.back().unwrap_or(&0)` */
  function LastPrice(h: seq<U32>): U32
  {
    if h == [] then 0 else h[|h| - 1]
  }

  /** The history after `pop_front` when it is longer than STONKS_DATA_POINTS. */
  function Trimmed(h: seq<U32>): seq<U32>
  {
    if |h| > Config.STONKS_DATA_POINTS then h[1..] else h
  }

  /** `update_stonks_price`. `low` and `high` are the notification thresholds
      the game derives from its configuration. */
  function UpdateStonksPrice(s: StonksTrading, ss: seq<TraderStatus>, low: U32, high: U32): (r: PriceUpdate)
    ensures r.trading == s.(priceCurrent := Price(ss), priceHistory := r.trading.priceHistory)
    ensures var h := r.trading.priceHistory;
      && |h| > 0 && h[|h| - 1] == Price(ss)
      && (h == s.priceHistory + [Price(ss)] || h == (s.priceHistory + [Price(ss)])[1..])
      && (|s.priceHistory| <= Config.STONKS_DATA_POINTS ==> h == s.priceHistory + [Price(ss)])
      && (|s.priceHistory| > Config.STONKS_DATA_POINTS ==> h == s.priceHistory[1..] + [Price(ss)])
    ensures var prev, price := LastPrice(s.priceHistory), Price(ss);
      && (LOW in r.notifications <==> prev > low >= price)
      && (HIGH in r.notifications <==> prev < high <= price)
      && (price == prev ==> r.notifications == [])
      && (s.priceHistory == [] ==> LOW !in r.notifications)
      && |r.notifications| <= 1
  {
    var price := Price(ss);
    var trimmed := Trimmed(s.priceHistory);
    var prev := LastPrice(trimmed);
    assert prev == LastPrice(s.priceHistory);
    var history := trimmed + [price];
    assert history == s.priceHistory + [price] || history == (s.priceHistory + [price])[1..];
    var notifications :=
      (if price <= low && prev > low then [LOW] else []) +
      (if price >= high && prev < high then [HIGH] else []);
    PriceUpdate(s.(priceCurrent := price, priceHistory := history), notifications)
  }

  /** The ledger fields say nothing is held during the Buy phase. */
  predicate LedgerInvariant(s: StonksTrading)
  {
    s.phase == Buy ==> s.owned == 0 && s.spent == 0
  }

  /** The touch gesture that counts as a trade, from the number of touches
      released this frame and the number still down: one finger lifted while
      one stays down, or two lifted in the same frame. Lifting a lone finger
      is no trade. */
  function TouchBuy(justReleased: nat, stillDown: nat): (r: bool)
    ensures justReleased == 0 ==> !r
    ensures justReleased == 2 ==> r
    ensures justReleased > 0 && stillDown == 1 ==> r
    ensures justReleased != 2 && stillDown != 1 ==> !r
  {
    (justReleased > 0 && stillDown == 1) || justReleased == 2
  }

  /** The pop-up text a trade shows. */
  datatype TextEffect = Bought | ProfitText(profit: int)

  datatype InvestOutcome = InvestOutcome(trading: StonksTrading, effects: seq<TextEffect>)

  /** The touch gesture trades exactly as Space does, and lifting a lone
      finger does not trade. */
  lemma TouchTradesLikeSpace(s: StonksTrading, buyAction: U32)
    ensures PlayerInvesting(s, false, 1, 1, buyAction) == PlayerInvesting(s, true, 0, 0, buyAction)
    ensures PlayerInvesting(s, false, 2, 0, buyAction) == PlayerInvesting(s, true, 0, 0, buyAction)
    ensures PlayerInvesting(s, false, 1, 0, buyAction) == InvestOutcome(s, [])
    ensures PlayerInvesting(s, true, 0, 0, buyAction).trading != s
  {
  }

  /** What dumping every stonk held earns now. */
  function Profit(s: StonksTrading): int
  {
    WrapU32(s.owned * s.priceCurrent) - s.spent
  }

  /** A Buy-phase trade: `buyAction` more stonks at the current price. */
  function BuyLot(s: StonksTrading, buyAction: U32): (r: StonksTrading)
    ensures r.owned == WrapU32(s.owned + buyAction)
    ensures r.spent == WrapU32(s.spent + s.priceCurrent * buyAction)
    ensures s.owned + buyAction < U32_MOD ==> r.owned == s.owned + buyAction
    ensures s.spent + s.priceCurrent * buyAction < U32_MOD ==> r.spent == s.spent + s.priceCurrent * buyAction
    ensures r == s.(owned := r.owned, spent := r.spent, phase := Dump)
  {
    var cost := s.priceCurrent * buyAction;
    WrapU32Sum(s.spent, cost);
    s.(owned := WrapU32(s.owned + buyAction), spent := WrapU32(s.spent + WrapU32(cost)), phase := Dump)
  }

  /** A Dump-phase trade: sell everything and book the profit. */
  function DumpAll(s: StonksTrading): (r: StonksTrading)
    ensures r.owned == 0 && r.spent == 0 && r.phase == Buy
    ensures r.returnsTotal == WrapI64(s.returnsTotal + Profit(s))
    ensures r == s.(owned := 0, spent := 0, phase := Buy, returnsTotal := r.returnsTotal)
  {
    var profit := WrapU32(s.owned * s.priceCurrent) - s.spent;
    s.(returnsTotal := WrapI64(s.returnsTotal + profit), owned := 0, spent := 0, phase := Buy)
  }

  /** `player_investing`: Space or the touch gesture trades. In the Buy phase
      it buys `buyAction` stonks (STONKS_PER_BUY_ACTION) at the current
      price; in the Dump phase it sells everything and books the profit.
      `released` and `down` are the touches released this frame and the
      touches still down. */
  function PlayerInvesting(s: StonksTrading, spacePressed: bool, released: nat, down: nat, buyAction: U32): (r: InvestOutcome)
    ensures !spacePressed && !TouchBuy(released, down) ==> r == InvestOutcome(s, [])
    ensures (spacePressed || TouchBuy(released, down)) && s.phase == Buy ==>
      r == InvestOutcome(BuyLot(s, buyAction), [Bought])
    ensures (spacePressed || TouchBuy(released, down)) && s.phase == Dump ==>
      r == InvestOutcome(DumpAll(s), [ProfitText(Profit(s))])
    ensures LedgerInvariant(s) ==> LedgerInvariant(r.trading)
  {
    if !spacePressed && !TouchBuy(released, down) then InvestOutcome(s, [])
    else
      match s.phase
      case Buy => InvestOutcome(BuyLot(s, buyAction), [Bought])
      case Dump => InvestOutcome(DumpAll(s), [ProfitText(Profit(s))])
  }

  /** Buying a lot and dumping it at the same price gains nothing and leaves
      the ledger as it was. */
  lemma BuyThenDumpSamePrice(s: StonksTrading, buyAction: U32)
    requires LedgerInvariant(s) && s.phase == Buy
    ensures var bought := PlayerInvesting(s, true, 0, 0, buyAction).trading;
      var dumped := PlayerInvesting(bought, true, 0, 0, buyAction);
      && dumped.effects == [ProfitText(0)]
      && dumped.trading == s
  {
    var bought := PlayerInvesting(s, true, 0, 0, buyAction).trading;
    assert bought.owned == buyAction;
    assert bought.spent == WrapU32(s.priceCurrent * buyAction);
    assert buyAction * s.priceCurrent == s.priceCurrent * buyAction;
    assert Profit(bought) == 0;
  }

  /** Buying a lot at one price and dumping it at another gains the price
      difference on every stonk of the lot, when nothing overflows. */
  lemma RoundTripProfit(s: StonksTrading, buyAction: U32, later: U32)
    requires LedgerInvariant(s) && s.phase == Buy
    requires s.priceCurrent * buyAction < U32_MOD && later * buyAction < U32_MOD
    ensures var bought := PlayerInvesting(s, true, 0, 0, buyAction).trading;
      var dumped := PlayerInvesting(bought.(priceCurrent := later), true, 0, 0, buyAction);
      && dumped.effects == [ProfitText(buyAction * (later - s.priceCurrent))]
      && dumped.trading.returnsTotal == WrapI64(s.returnsTotal + buyAction * (later - s.priceCurrent))
  {
    var bought := PlayerInvesting(s, true, 0, 0, buyAction).trading;
    assert bought.owned == buyAction;
    assert bought.spent == s.priceCurrent * buyAction;
    assert buyAction * later == later * buyAction;
    assert buyAction * (later - s.priceCurrent) == later * buyAction - s.priceCurrent * buyAction;
  }

  /** Price updates leave the ledger alone, so they keep its invariant. */
  lemma UpdateKeepsLedger(s: StonksTrading, ss: seq<TraderStatus>, low: U32, high: U32)
    requires LedgerInvariant(s)
    ensures LedgerInvariant(UpdateStonksPrice(s, ss, low, high).trading)
  {
  }

  /** Running the price update over several ticks, one trader census per tick. */
  function RunUpdates(s: StonksTrading, ticks: seq<seq<TraderStatus>>, low: U32, high: U32): StonksTrading
    decreases |ticks|
  {
    if ticks == [] then s
    else RunUpdates(UpdateStonksPrice(s, ticks[0], low, high).trading, ticks[1..], low, high)
  }

  function Prices(ticks: seq<seq<TraderStatus>>): (r: seq<U32>)
    ensures |r| == |ticks|
  {
    seq(|ticks|, i requires 0 <= i < |ticks| => Price(ticks[i]))
  }

  /** The history after the prices `ps` were pushed one after the other. */
  function Pushed(h: seq<U32>, ps: seq<U32>): seq<U32>
    decreases |ps|
  {
    if ps == [] then h else Pushed(Trimmed(h) + [ps[0]], ps[1..])
  }

  /** The history is the most recent STONKS_DATA_POINTS + 1 prices. */
  predicate RecentPrices(h: seq<U32>, all: seq<U32>)
  {
    var keep := if |all| <= Config.STONKS_DATA_POINTS + 1 then |all| else Config.STONKS_DATA_POINTS + 1;
    h == all[|all| - keep..]
  }

  lemma RecentPricesStep(h: seq<U32>, all: seq<U32>, p: U32)
    requires RecentPrices(h, all)
    ensures RecentPrices(Trimmed(h) + [p], all + [p])
  {
    var D := Config.STONKS_DATA_POINTS + 1;
    if |all| >= D {
      assert |h| == D;
      assert Trimmed(h) == all[|all| - D + 1..];
      assert Trimmed(h) + [p] == (all + [p])[|all + [p]| - D..];
    } else {
      assert h == all;
    }
  }

  /** Pushing prices onto a history of the most recent prices keeps it the
      most recent prices. */
  lemma {:induction false} PushedKeepsRecentPrices(h: seq<U32>, ps: seq<U32>, all: seq<U32>)
    requires RecentPrices(h, all)
    ensures RecentPrices(Pushed(h, ps), all + ps)
    decreases |ps|
  {
    if ps == [] {
      assert all + ps == all;
    } else {
      RecentPricesStep(h, all, ps[0]);
      PushedKeepsRecentPrices(Trimmed(h) + [ps[0]], ps[1..], all + [ps[0]]);
      assert all + ps == (all + [ps[0]]) + ps[1..];
    }
  }

  lemma UpdatedHistory(s: StonksTrading, ss: seq<TraderStatus>, low: U32, high: U32)
    ensures UpdateStonksPrice(s, ss, low, high).trading.priceHistory == Trimmed(s.priceHistory) + [Price(ss)]
  {
  }

  lemma PricesCons(ticks: seq<seq<TraderStatus>>)
    requires ticks != []
    ensures Prices(ticks) == [Price(ticks[0])] + Prices(ticks[1..])
  {
    var ps := Prices(ticks);
    assert forall i :: 1 <= i < |ticks| ==> ps[i] == Prices(ticks[1..])[i - 1];
  }

  /** The history after a run of updates is the old one with the run's
      prices pushed. */
  lemma {:induction false} RunUpdatesPushes(s: StonksTrading, ticks: seq<seq<TraderStatus>>, low: U32, high: U32)
    ensures RunUpdates(s, ticks, low, high).priceHistory == Pushed(s.priceHistory, Prices(ticks))
    decreases |ticks|
  {
    if ticks != [] {
      var next := UpdateStonksPrice(s, ticks[0], low, high).trading;
      UpdatedHistory(s, ticks[0], low, high);
      RunUpdatesPushes(next, ticks[1..], low, high);
      PricesCons(ticks);
    }
  }

  /** Over any run of updates, a history that holds the most recent prices
      keeps holding the most recent prices. */
  lemma HistoryKeepsRecentPrices(s: StonksTrading, ticks: seq<seq<TraderStatus>>,
                                 low: U32, high: U32, all: seq<U32>)
    requires RecentPrices(s.priceHistory, all)
    ensures RecentPrices(RunUpdates(s, ticks, low, high).priceHistory, all + Prices(ticks))
  {
    RunUpdatesPushes(s, ticks, low, high);
    PushedKeepsRecentPrices(s.priceHistory, Prices(ticks), all);
  }

  /** From the empty history of a new game, the history after any number of
      ticks is the last STONKS_DATA_POINTS + 1 prices. */
  lemma HistoryFromNewGame(ticks: seq<seq<TraderStatus>>, low: U32, high: U32)
    ensures RecentPrices(RunUpdates(DefaultTrading(), ticks, low, high).priceHistory, Prices(ticks))
    ensures |RunUpdates(DefaultTrading(), ticks, low, high).priceHistory| <= Config.STONKS_DATA_POINTS + 1
  {
    var h := RunUpdates(DefaultTrading(), ticks, low, high).priceHistory;
    RunUpdatesPushes(DefaultTrading(), ticks, low, high);
    PushedKeepsRecentPrices([], Prices(ticks), []);
    assert [] + Prices(ticks) == Prices(ticks);
  }
}
