/** The paper trader and the replay loop of the backtest. */
module Backtest {
  import opened Models
  import opened RealArithmetic

  const TAKER_FEE_RATE: real := 0.001

  /** One row of the tape, with the orders that the strategy answers it with. */
  datatype Record = Record(bid: real, ask: real, orders: seq<Order>)

  function Mid(bid: real, ask: real): real {
    (bid + ask) / 2.0
  }

  /** Buys pay the ask, sells get the bid. */
  function ExecutionPrice(side: Side, bid: real, ask: real): real {
    if side == Buy then ask else bid
  }

  function Net(order: Order): real {
    if order.side == Buy then order.quantity else -order.quantity
  }

  function Traded(order: Order, bid: real, ask: real): real {
    ExecutionPrice(order.side, bid, ask) * order.quantity
  }

  /** What an order takes out of the cash before fees; a sale takes a negative amount. */
  function Outlay(order: Order, bid: real, ask: real): real {
    if order.side == Buy then Traded(order, bid, ask) else -Traded(order, bid, ask)
  }

  class PaperTrader {
    var cash: real
    var position: real
    const takerFeeRate: real := TAKER_FEE_RATE

    constructor (initialCash: real)
      ensures cash == initialCash && position == 0.0
    {
      cash, position := initialCash, 0.0;
    }

    /** Cash and position move by the order's own amounts, and the fee is due on the notional.
        OneOrder says what that costs against the mid of the quote. */
    method Execute(order: Order, bid: real, ask: real)
      modifies this
      ensures position == old(position) + Net(order)
      ensures cash == old(cash) - Outlay(order, bid, ask) - takerFeeRate * Traded(order, bid, ask)
      ensures order.side == Buy ==>
        && position == old(position) + order.quantity
        && cash == old(cash) - (ask * order.quantity) - 0.001 * (ask * order.quantity)
      ensures order.side == Sell ==>
        && position == old(position) - order.quantity
        && cash == old(cash) + (bid * order.quantity) - 0.001 * (bid * order.quantity)
    {
      var price := match order.side { case Buy => ask case Sell => bid };
      var notional := price * order.quantity;
      var fee := notional * takerFeeRate;
      match order.side
      case Buy =>
        cash := cash - (notional + fee);
        position := position + order.quantity;
      case Sell =>
        cash := cash + (notional - fee);
        position := position - order.quantity;
    }

    function CalculateMtm(mid: real): real
      reads this
    {
      cash + position * mid
    }
  }

  // The sums that explain the result.

  function Sum(xs: seq<real>, n: nat): real
    requires n <= |xs|
  {
    if n == 0 then 0.0 else Sum(xs, n - 1) + xs[n - 1]
  }

  function Nets(r: Record): (xs: seq<real>)
    ensures |xs| == |r.orders|
  {
    seq(|r.orders|, k requires 0 <= k < |r.orders| => Net(r.orders[k]))
  }

  function Outlays(r: Record): (xs: seq<real>)
    ensures |xs| == |r.orders|
  {
    seq(|r.orders|, k requires 0 <= k < |r.orders| => Outlay(r.orders[k], r.bid, r.ask))
  }

  function Amounts(r: Record): (xs: seq<real>)
    ensures |xs| == |r.orders|
  {
    seq(|r.orders|, k requires 0 <= k < |r.orders| => Traded(r.orders[k], r.bid, r.ask))
  }

  function Quantities(r: Record): (xs: seq<real>)
    ensures |xs| == |r.orders|
  {
    seq(|r.orders|, k requires 0 <= k < |r.orders| => r.orders[k].quantity)
  }

  /** What one record contributes: its mid and half its spread, and of its orders the net and the
      gross quantity, the outlay and the notional traded. */
  datatype Leg = Leg(mid: real, half: real, net: real, gross: real, outlay: real, traded: real)

  function LegOf(r: Record): Leg {
    var n := |r.orders|;
    Leg(Mid(r.bid, r.ask), (r.ask - r.bid) / 2.0, Sum(Nets(r), n), Sum(Quantities(r), n), Sum(Outlays(r), n),
        Sum(Amounts(r), n))
  }

  function Legs(rs: seq<Record>): (ls: seq<Leg>)
    ensures |ls| == |rs|
  {
    seq(|rs|, k requires 0 <= k < |rs| => LegOf(rs[k]))
  }

  /** The position after the first `n` legs. */
  function Position(ls: seq<Leg>, n: nat): real
    requires n <= |ls|
  {
    if n == 0 then 0.0 else Position(ls, n - 1) + ls[n - 1].net
  }

  function TotalOutlay(ls: seq<Leg>, n: nat): real
    requires n <= |ls|
  {
    if n == 0 then 0.0 else TotalOutlay(ls, n - 1) + ls[n - 1].outlay
  }

  /** The total notional traded. */
  function Turnover(ls: seq<Leg>, n: nat): real
    requires n <= |ls|
  {
    if n == 0 then 0.0 else Turnover(ls, n - 1) + ls[n - 1].traded
  }

  /** Half the spread of its record on every unit traded. */
  function SpreadCost(ls: seq<Leg>, n: nat): real
    requires n <= |ls|
  {
    if n == 0 then 0.0 else SpreadCost(ls, n - 1) + ls[n - 1].gross * ls[n - 1].half
  }

  function LastMid(ls: seq<Leg>, n: nat): real
    requires n <= |ls|
  {
    if n == 0 then 0.0 else ls[n - 1].mid
  }

  /** What the position carried from one record to the next earns when the mid moves. */
  function InventoryGain(ls: seq<Leg>, n: nat): real
    requires n <= |ls|
  {
    if n == 0 then 0.0
    else InventoryGain(ls, n - 1) + Position(ls, n - 1) * (LastMid(ls, n) - LastMid(ls, n - 1))
  }

  lemma OneOrder(o: Order, bid: real, ask: real)
    ensures Outlay(o, bid, ask) == Net(o) * Mid(bid, ask) + o.quantity * ((ask - bid) / 2.0)
  {
  }

  lemma OneMoreOrder(
    mid: real, half: real, net0: real, net1: real, quantity0: real, quantity1: real, outlay0: real, outlay1: real)
    requires outlay0 == net0 * mid + quantity0 * half && outlay1 == net1 * mid + quantity1 * half
    ensures outlay0 + outlay1 == (net0 + net1) * mid + (quantity0 + quantity1) * half
  {
    Distribute(net0, net1, mid);
    Distribute(quantity0, quantity1, half);
  }

  ghost predicate EachExplained(outlays: seq<real>, nets: seq<real>, quantities: seq<real>, mid: real, half: real) {
    && |outlays| == |nets| == |quantities|
    && forall k :: 0 <= k < |outlays| ==> outlays[k] == nets[k] * mid + quantities[k] * half
  }

  lemma {:induction false} SumsExplained(
    outlays: seq<real>, nets: seq<real>, quantities: seq<real>, mid: real, half: real, n: nat)
    requires n <= |outlays| && EachExplained(outlays, nets, quantities, mid, half)
    ensures Sum(outlays, n) == Sum(nets, n) * mid + Sum(quantities, n) * half
  {
    if n > 0 {
      SumsExplained(outlays, nets, quantities, mid, half, n - 1);
      OneMoreOrder(mid, half, Sum(nets, n - 1), nets[n - 1], Sum(quantities, n - 1), quantities[n - 1],
                   Sum(outlays, n - 1), outlays[n - 1]);
    }
  }

  lemma OrdersExplained(r: Record, mid: real, half: real)
    requires mid == Mid(r.bid, r.ask) && half == (r.ask - r.bid) / 2.0
    ensures EachExplained(Outlays(r), Nets(r), Quantities(r), mid, half)
  {
    forall k | 0 <= k < |r.orders| ensures Outlays(r)[k] == Nets(r)[k] * mid + Quantities(r)[k] * half {
      OneOrder(r.orders[k], r.bid, r.ask);
    }
  }

  /** Against the mid of its own record, a batch of orders loses half the spread on every unit. */
  lemma OneRecord(r: Record)
    ensures Explained(LegOf(r))
  {
    OrdersExplained(r, LegOf(r).mid, LegOf(r).half);
    LegFromSums(LegOf(r), Outlays(r), Nets(r), Quantities(r));
  }

  lemma LegFromSums(l: Leg, outlays: seq<real>, nets: seq<real>, quantities: seq<real>)
    requires EachExplained(outlays, nets, quantities, l.mid, l.half)
    requires l.outlay == Sum(outlays, |outlays|)
    requires l.net == Sum(nets, |nets|) && l.gross == Sum(quantities, |quantities|)
    ensures Explained(l)
  {
    SumsExplained(outlays, nets, quantities, l.mid, l.half, |outlays|);
  }

  ghost predicate Explained(l: Leg) {
    l.outlay == l.net * l.mid + l.gross * l.half
  }

  lemma LegsExplained(rs: seq<Record>)
    ensures forall k :: 0 <= k < |rs| ==> Explained(Legs(rs)[k])
  {
    forall k | 0 <= k < |rs| ensures Explained(Legs(rs)[k]) {
      OneRecord(rs[k]);
    }
  }

  /** One more leg, as plain arithmetic: the old position is marked at the new mid. */
  lemma Remarked(p: real, net: real, before: real, mid: real)
    ensures (p + net) * mid == p * before + p * (mid - before) + net * mid
  {
    Distribute(p, net, mid);
    Distribute(mid - before, before, p);
  }

  /** Marking to the mid: what was laid out comes back as position value, less the spread, plus what
      the position earned on the way. */
  lemma {:induction false} OutlayExplained(ls: seq<Leg>, n: nat)
    requires n <= |ls| && forall k :: 0 <= k < |ls| ==> Explained(ls[k])
    ensures Position(ls, n) * LastMid(ls, n) - TotalOutlay(ls, n) == InventoryGain(ls, n) - SpreadCost(ls, n)
  {
    if n > 0 {
      OutlayExplained(ls, n - 1);
      assert Explained(ls[n - 1]);
      Remarked(Position(ls, n - 1), ls[n - 1].net, LastMid(ls, n - 1), ls[n - 1].mid);
    }
  }

  /** The inner loop: the strategy's orders on one record, each at the record's own quote. */
  method ExecuteAll(trader: PaperTrader, r: Record, ghost leg: Leg)
    requires leg == LegOf(r)
    modifies trader
    ensures trader.position == old(trader.position) + leg.net
    ensures trader.cash == old(trader.cash) - leg.outlay - TAKER_FEE_RATE * leg.traded
  {
    for k := 0 to |r.orders|
      invariant trader.position == old(trader.position) + Sum(Nets(r), k)
      invariant trader.cash == old(trader.cash) - Sum(Outlays(r), k) - TAKER_FEE_RATE * Sum(Amounts(r), k)
    {
      trader.Execute(r.orders[k], r.bid, r.ask);
    }
  }

  /** The P&L decomposition of a run: the initial cash, plus what the position earned as the mid
      moved, less half the spread on every unit traded, less the fee on the turnover. */
  function ExplainedResult(rs: seq<Record>, initialCash: real): real {
    var ls, n := Legs(rs), |rs|;
    initialCash + InventoryGain(ls, n) - SpreadCost(ls, n) - TAKER_FEE_RATE * Turnover(ls, n)
  }

  /** The loop over the tape. It keeps the last quote for the final mark. */
  method Replay(rs: seq<Record>, trader: PaperTrader) returns (lastBid: real, lastAsk: real)
    modifies trader
    ensures trader.position == old(trader.position) + Position(Legs(rs), |rs|)
    ensures trader.cash ==
      old(trader.cash) - TotalOutlay(Legs(rs), |rs|) - TAKER_FEE_RATE * Turnover(Legs(rs), |rs|)
    ensures Mid(lastBid, lastAsk) == LastMid(Legs(rs), |rs|)
  {
    ghost var ls := Legs(rs);
    lastBid, lastAsk := 0.0, 0.0;
    for n := 0 to |rs|
      invariant trader.position == old(trader.position) + Position(ls, n)
      invariant trader.cash == old(trader.cash) - TotalOutlay(ls, n) - TAKER_FEE_RATE * Turnover(ls, n)
      invariant Mid(lastBid, lastAsk) == LastMid(ls, n)
    {
      var r := rs[n];
      lastBid, lastAsk := r.bid, r.ask;
      ExecuteAll(trader, r, ls[n]);
    }
  }

  /** The backtest: replay the tape, then mark the position to the last mid. */
  method Run(rs: seq<Record>, initialCash: real) returns (trader: PaperTrader, mtm: real)
    ensures fresh(trader)
    ensures trader.position == Position(Legs(rs), |rs|)
    ensures mtm == ExplainedResult(rs, initialCash)
  {
    trader := new PaperTrader(initialCash);
    var lastBid, lastAsk := Replay(rs, trader);
    var mid := (lastBid + lastAsk) / 2.0;
    mtm := trader.CalculateMtm(mid);
    ResultExplained(rs, initialCash, trader.cash, trader.position, mid);
  }

  lemma ResultExplained(rs: seq<Record>, initialCash: real, cash: real, position: real, mid: real)
    requires position == Position(Legs(rs), |rs|) && mid == LastMid(Legs(rs), |rs|)
    requires cash == initialCash - TotalOutlay(Legs(rs), |rs|) - TAKER_FEE_RATE * Turnover(Legs(rs), |rs|)
    ensures cash + position * mid == ExplainedResult(rs, initialCash)
  {
    LegsExplained(rs);
    OutlayExplained(Legs(rs), |rs|);
  }

  lemma SumOfOne(xs: seq<real>)
    requires |xs| == 1
    ensures Sum(xs, 1) == xs[0]
  {
    assert Sum(xs, 0) == 0.0;
  }

  lemma LegOfOneOrder(r: Record, o: Order)
    requires r.orders == [o]
    ensures LegOf(r).net == Net(o)
    ensures LegOf(r).outlay == Outlay(o, r.bid, r.ask) && LegOf(r).traded == Traded(o, r.bid, r.ask)
  {
    SumOfOne(Nets(r));
    SumOfOne(Outlays(r));
    SumOfOne(Amounts(r));
  }

  /** Nothing is traded after the first record: the sums stay those of its only order. */
  lemma {:induction false} OneTradeSums(rs: seq<Record>, o: Order, n: nat)
    requires 1 <= n <= |rs| && rs[0].orders == [o] && forall i :: 0 < i < |rs| ==> rs[i].orders == []
    ensures Position(Legs(rs), n) == Net(o)
    ensures TotalOutlay(Legs(rs), n) == Outlay(o, rs[0].bid, rs[0].ask)
    ensures Turnover(Legs(rs), n) == Traded(o, rs[0].bid, rs[0].ask)
  {
    if n > 1 {
      OneTradeSums(rs, o, n - 1);
      assert Legs(rs)[n - 1] == LegOf(rs[n - 1]);
    } else {
      LegOfOneOrder(rs[0], o);
      assert Position(Legs(rs), 0) == TotalOutlay(Legs(rs), 0) == Turnover(Legs(rs), 0) == 0.0;
    }
  }

  /** One order on the first record, held to the end: bought at the first ask, or sold at the first bid,
      with a tenth of a percent on the notional, and marked to the last mid. */
  lemma BuyAndHold(rs: seq<Record>, o: Order, initialCash: real)
    requires rs != [] && rs[0].orders == [o] && forall i :: 0 < i < |rs| ==> rs[i].orders == []
    ensures var result, first, last := ExplainedResult(rs, initialCash), rs[0], rs[|rs| - 1];
      var mark := o.quantity * ((last.bid + last.ask) / 2.0);
      if o.side == Buy
      then result == initialCash - first.ask * o.quantity - 0.001 * (first.ask * o.quantity) + mark
      else result == initialCash + first.bid * o.quantity - 0.001 * (first.bid * o.quantity) - mark
  {
    var ls, n := Legs(rs), |rs|;
    OneTradeSums(rs, o, n);
    var cash := initialCash - TotalOutlay(ls, n) - TAKER_FEE_RATE * Turnover(ls, n);
    ResultExplained(rs, initialCash, cash, Position(ls, n), LastMid(ls, n));
  }

  ghost predicate Sane(rs: seq<Record>) {
    forall i :: 0 <= i < |rs| ==>
      && 0.0 <= rs[i].bid <= rs[i].ask
      && forall k :: 0 <= k < |rs[i].orders| ==> rs[i].orders[k].quantity >= 0.0
  }

  lemma {:induction false} RecordCostsNothingBack(r: Record, n: nat)
    requires n <= |r.orders| && 0.0 <= r.bid <= r.ask
    requires forall k :: 0 <= k < |r.orders| ==> r.orders[k].quantity >= 0.0
    ensures Sum(Amounts(r), n) >= 0.0 && Sum(Quantities(r), n) >= 0.0
  {
    if n > 0 {
      RecordCostsNothingBack(r, n - 1);
      NonNegative(ExecutionPrice(r.orders[n - 1].side, r.bid, r.ask), r.orders[n - 1].quantity);
    }
  }

  lemma RecordCosts(r: Record)
    requires 0.0 <= r.bid <= r.ask
    requires forall k :: 0 <= k < |r.orders| ==> r.orders[k].quantity >= 0.0
    ensures Costs(LegOf(r))
  {
    RecordCostsNothingBack(r, |r.orders|);
  }

  ghost predicate Costs(l: Leg) {
    l.gross >= 0.0 && l.half >= 0.0 && l.traded >= 0.0
  }

  lemma {:induction false} CostsAddUp(ls: seq<Leg>, n: nat)
    requires n <= |ls| && forall k :: 0 <= k < |ls| ==> Costs(ls[k])
    ensures SpreadCost(ls, n) >= 0.0 && Turnover(ls, n) >= 0.0
  {
    if n > 0 {
      CostsAddUp(ls, n - 1);
      assert Costs(ls[n - 1]);
      NonNegative(ls[n - 1].gross, ls[n - 1].half);
    }
  }

  /** On sane quotes, spread and fees only ever cost. */
  lemma TradingCosts(rs: seq<Record>)
    requires Sane(rs)
    ensures SpreadCost(Legs(rs), |rs|) >= 0.0 && Turnover(Legs(rs), |rs|) >= 0.0
  {
    forall k | 0 <= k < |rs| ensures Costs(Legs(rs)[k]) {
      RecordCosts(rs[k]);
    }
    CostsAddUp(Legs(rs), |rs|);
  }

  lemma {:induction false} NoMoveNoGain(ls: seq<Leg>, n: nat)
    requires n <= |ls| && forall i :: 0 <= i < |ls| ==> ls[i].mid == ls[0].mid
    ensures InventoryGain(ls, n) == 0.0
  {
    if n == 1 {
      Nothing(LastMid(ls, 1) - LastMid(ls, 0), Position(ls, 0));
    } else if n > 1 {
      NoMoveNoGain(ls, n - 1);
      Nothing(Position(ls, n - 1), LastMid(ls, n) - LastMid(ls, n - 1));
    }
  }

  /** No strategy gains while the mid stands still: whatever it trades, and however the spread
      moves, the result is at best the initial cash. */
  lemma StandingMarketNeverPays(rs: seq<Record>, initialCash: real)
    requires Sane(rs) && forall i :: 0 <= i < |rs| ==> Mid(rs[i].bid, rs[i].ask) == Mid(rs[0].bid, rs[0].ask)
    ensures ExplainedResult(rs, initialCash) <= initialCash
  {
    NoMoveNoGain(Legs(rs), |rs|);
    TradingCosts(rs);
  }
}
