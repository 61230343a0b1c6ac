/** `src/traders.rs`: trader sentiment and its timers.
    A trader is Neutral, Bullish or Bearish. A status timer reverts the
    trader to Neutral when it finishes; a rest timer, while present, makes the
    trader ignore rumors, and is simply removed when it finishes. */
module Traders {
  import opened Basics
  import opened Timers
  import opened Ints

  datatype TraderStatus = Neutral | Bullish | Bearish

  /** The `Trader` component together with the optional timer components
      `TraderStatusTimer` and `TraderRestTimer` the entity may carry. */
  datatype Trader = Trader(status: TraderStatus, statusTimer: Option<Timer>, restTimer: Option<Timer>)

  datatype TraderChange = TraderChange(entity: EntityId)

  /** `Trader::default()`: a fresh trader is Neutral and carries no timer. */
  function NewTrader(): (t: Trader)
    ensures t.status == Neutral
    ensures t.statusTimer == None && t.restTimer == None
  {
    Trader(Neutral, None, None)
  }

  /** True when ticking the status timer by `delta` finishes it. */
  predicate StatusTimerFinishes(t: Trader, delta: nat)
  {
    t.statusTimer.Some? && Tick(t.statusTimer.value, delta).justFinished
  }

  predicate RestTimerFinishes(t: Trader, delta: nat)
  {
    t.restTimer.Some? && Tick(t.restTimer.value, delta).justFinished
  }

  /** One trader's part of `tick_trader_timers`: the first loop ticks the
      status timer, the second the rest timer; a finished timer's component is
      removed. */
  function TickTrader(t: Trader, delta: nat): (r: Trader)
    ensures StatusTimerFinishes(t, delta) ==> r.status == Neutral && r.statusTimer == None
    ensures t.statusTimer.Some? && !StatusTimerFinishes(t, delta) ==>
      r.status == t.status && r.statusTimer == Some(Tick(t.statusTimer.value, delta).timer)
    ensures t.statusTimer == None ==> r.status == t.status && r.statusTimer == None
    ensures RestTimerFinishes(t, delta) ==> r.restTimer == None
    ensures t.restTimer.Some? && !RestTimerFinishes(t, delta) ==>
      r.restTimer == Some(Tick(t.restTimer.value, delta).timer)
    ensures t.restTimer == None ==> r.restTimer == None
    ensures t.statusTimer == None && t.restTimer == None ==> r == t
  {
    var afterStatus :=
      match t.statusTimer
      case None => t
      case Some(timer) =>
        var ticked := Tick(timer, delta);
        if ticked.justFinished then t.(status := Neutral, statusTimer := None)
        else t.(statusTimer := Some(ticked.timer));
    match afterStatus.restTimer
    case None => afterStatus
    case Some(timer) =>
      var ticked := Tick(timer, delta);
      if ticked.justFinished then afterStatus.(restTimer := None)
      else afterStatus.(restTimer := Some(ticked.timer))
  }

  /** A trader as one row of the trader queries, in query order. */
  datatype TraderSlot = TraderSlot(id: EntityId, trader: Trader)

  datatype TickOutcome = TickOutcome(traders: seq<TraderSlot>, changes: seq<TraderChange>)

  /** `tick_trader_timers`: every trader is ticked, and each trader whose
      status timer finishes emits one `TraderChange`, in query order. */
  function TickTraderTimers(ts: seq<TraderSlot>, delta: nat): (r: TickOutcome)
    ensures |r.traders| == |ts|
    ensures forall i :: 0 <= i < |ts| ==>
      r.traders[i].id == ts[i].id && r.traders[i].trader == TickTrader(ts[i].trader, delta)
    ensures forall c :: c in r.changes <==>
      (exists i :: 0 <= i < |ts| && c.entity == ts[i].id && StatusTimerFinishes(ts[i].trader, delta))
    ensures |r.changes| <= |ts|
  {
    if ts == [] then TickOutcome([], [])
    else
      var rest := TickTraderTimers(ts[1..], delta);
      var head := ts[0];
      assert forall i :: 1 <= i < |ts| ==> ts[i] == ts[1..][i - 1];
      TickOutcome(
        [TraderSlot(head.id, TickTrader(head.trader, delta))] + rest.traders,
        (if StatusTimerFinishes(head.trader, delta) then [TraderChange(head.id)] else []) + rest.changes)
  }

  predicate DistinctIds(ts: seq<TraderSlot>)
  {
    forall a, b :: 0 <= a < |ts| && 0 <= b < |ts| && a != b ==> ts[a].id != ts[b].id
  }

  /** With distinct ids, a reverting trader emits exactly one `TraderChange`
      and every other trader none. */
  lemma {:induction false} OneChangePerReversion(ts: seq<TraderSlot>, delta: nat)
    requires DistinctIds(ts)
    ensures forall i :: 0 <= i < |ts| ==>
      multiset(TickTraderTimers(ts, delta).changes)[TraderChange(ts[i].id)] ==
        (if StatusTimerFinishes(ts[i].trader, delta) then 1 else 0)
  {
    if ts != [] {
      var tail := ts[1..];
      assert DistinctIds(tail);
      OneChangePerReversion(tail, delta);
      var rest := TickTraderTimers(tail, delta);
      forall i | 0 <= i < |ts|
        ensures multiset(TickTraderTimers(ts, delta).changes)[TraderChange(ts[i].id)] ==
          (if StatusTimerFinishes(ts[i].trader, delta) then 1 else 0)
      {
        if i > 0 {
          assert tail[i - 1] == ts[i];
        }
      }
    }
  }

  // ----- counting statuses, shared by every version of the price update -----

  datatype StatusCounts = StatusCounts(neutral: nat, bullish: nat, bearish: nat)

  /** The `fold([0, 0, 0], ...)` over the trader query: one bump per trader. */
  function Tally(ss: seq<TraderStatus>): (c: StatusCounts)
    ensures c.neutral + c.bullish + c.bearish == |ss|
  {
    if ss == [] then StatusCounts(0, 0, 0)
    else
      Bump(Tally(ss[..|ss| - 1]), ss[|ss| - 1])
  }

  /** `c[status as usize] += 1` */
  function Bump(c: StatusCounts, s: TraderStatus): StatusCounts
  {
    match s
    case Neutral => c.(neutral := c.neutral + 1)
    case Bullish => c.(bullish := c.bullish + 1)
    case Bearish => c.(bearish := c.bearish + 1)
  }

  /** A weight for each status. */
  datatype Weights = Weights(neutral: nat, bullish: nat, bearish: nat)
  {
    function Of(s: TraderStatus): nat
    {
      match s
      case Neutral => neutral
      case Bullish => bullish
      case Bearish => bearish
    }
  }

  /** The sum of every trader's weight, trader by trader. */
  function WeightSum(ss: seq<TraderStatus>, w: Weights): nat
  {
    if ss == [] then 0 else w.Of(ss[0]) + WeightSum(ss[1..], w)
  }

  function Weighted(c: StatusCounts, w: Weights): nat
  {
    w.neutral * c.neutral + w.bullish * c.bullish + w.bearish * c.bearish
  }

  lemma {:induction false} WeightSumAppend(ss: seq<TraderStatus>, s: TraderStatus, w: Weights)
    ensures WeightSum(ss + [s], w) == WeightSum(ss, w) + w.Of(s)
  {
    if ss != [] {
      assert (ss + [s])[1..] == ss[1..] + [s];
      WeightSumAppend(ss[1..], s, w);
    }
  }

  /** Weighting the three counts is the same as summing every trader's weight. */
  lemma WeightedBump(c: StatusCounts, s: TraderStatus, w: Weights)
    ensures Weighted(Bump(c, s), w) == Weighted(c, w) + w.Of(s)
  {
    match s
    case Neutral =>
      assert w.neutral * (c.neutral + 1) == w.neutral * c.neutral + w.neutral;
    case Bullish =>
      assert w.bullish * (c.bullish + 1) == w.bullish * c.bullish + w.bullish;
    case Bearish =>
      assert w.bearish * (c.bearish + 1) == w.bearish * c.bearish + w.bearish;
  }

  lemma {:induction false} TallyWeighsEveryTrader(ss: seq<TraderStatus>, w: Weights)
    ensures Weighted(Tally(ss), w) == WeightSum(ss, w)
  {
    if ss != [] {
      var init, last := ss[..|ss| - 1], ss[|ss| - 1];
      TallyWeighsEveryTrader(init, w);
      assert ss == init + [last];
      WeightSumAppend(init, last, w);
      WeightedBump(Tally(init), last, w);
    }
  }

  /** Each trader contributes between the smallest and the largest weight. */
  lemma {:induction false} WeightSumBounds(ss: seq<TraderStatus>, w: Weights, lo: nat, hi: nat)
    requires forall s: TraderStatus :: lo <= w.Of(s) <= hi
    ensures lo * |ss| <= WeightSum(ss, w) <= hi * |ss|
  {
    if ss != [] {
      var rest := ss[1..];
      WeightSumBounds(rest, w, lo, hi);
      assert WeightSum(ss, w) == w.Of(ss[0]) + WeightSum(rest, w);
      assert lo <= w.Of(ss[0]) <= hi;
      var n := |rest|;
      assert |ss| == n + 1;
      MulDistributes(n, 1, lo);
      MulDistributes(n, 1, hi);
      assert lo * (n + 1) == (n + 1) * lo == n * lo + lo;
      assert hi * (n + 1) == (n + 1) * hi == n * hi + hi;
    }
  }

  /** How many traders have status `s`. */
  function Count(ss: seq<TraderStatus>, s: TraderStatus): nat
  {
    if ss == [] then 0 else (if ss[0] == s then 1 else 0) + Count(ss[1..], s)
  }

  lemma {:induction false} CountAppend(ss: seq<TraderStatus>, t: TraderStatus, s: TraderStatus)
    ensures Count(ss + [t], s) == Count(ss, s) + (if t == s then 1 else 0)
  {
    if ss != [] {
      assert (ss + [t])[1..] == ss[1..] + [t];
      CountAppend(ss[1..], t, s);
    }
  }

  /** The fold counts every status exactly. */
  lemma {:induction false} TallyCounts(ss: seq<TraderStatus>)
    ensures Tally(ss) == StatusCounts(Count(ss, Neutral), Count(ss, Bullish), Count(ss, Bearish))
  {
    if ss != [] {
      var init, last := ss[..|ss| - 1], ss[|ss| - 1];
      TallyCounts(init);
      assert ss == init + [last];
      CountAppend(init, last, Neutral);
      CountAppend(init, last, Bullish);
      CountAppend(init, last, Bearish);
    }
  }
}
