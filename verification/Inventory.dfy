/** Net exposure per symbol. */
module Inventory {
  import opened Models

  type Positions = map<U32, real>

  function PositionOf(p: Positions, symbol: U32): real {
    if symbol in p then p[symbol] else 0.0
  }

  function Signed(side: Side, quantity: real): real {
    if side == Buy then quantity else -quantity
  }

  /** The positions once a report has been booked; an empty report does not even create an entry. */
  function BookReport(p: Positions, r: ExecutionReport): Positions {
    if r.executedQuantity == 0.0 then p
    else p[r.symbolId := PositionOf(p, r.symbolId) + Signed(r.side, r.executedQuantity)]
  }

  /** The position of `symbol` once the report has been booked. */
  function Moved(p: Positions, report: ExecutionReport, symbol: U32): real {
    PositionOf(p, symbol) + if symbol == report.symbolId then Signed(report.side, report.executedQuantity) else 0.0
  }

  /** Buys add, sales subtract, and only on the symbol of the report. */
  lemma BuysAddSalesSubtract(p: Positions, r: ExecutionReport, symbol: U32)
    ensures var before, after := PositionOf(p, symbol), PositionOf(BookReport(p, r), symbol);
      && (symbol != r.symbolId ==> after == before)
      && (symbol == r.symbolId && r.side == Buy ==> after == before + r.executedQuantity)
      && (symbol == r.symbolId && r.side == Sell ==> after == before - r.executedQuantity)
      && (symbol in BookReport(p, r) <==> symbol in p || (symbol == r.symbolId && r.executedQuantity != 0.0))
  {
  }

  class PositionTracker {
    var positions: Positions

    constructor ()
      ensures positions == map[]
    {
      positions := map[];
    }

    /** Moves the position of the report's symbol by the signed quantity, and no other one. */
    method ApplyExecution(report: ExecutionReport)
      modifies this
      ensures forall s: U32 :: PositionOf(positions, s) == Moved(old(positions), report, s)
      ensures positions == BookReport(old(positions), report)
      ensures report.side == Buy ==>
        GetPosition(report.symbolId) == old(GetPosition(report.symbolId)) + report.executedQuantity
      ensures report.side == Sell ==>
        GetPosition(report.symbolId) == old(GetPosition(report.symbolId)) - report.executedQuantity
      ensures forall s: U32 :: s != report.symbolId ==> GetPosition(s) == old(GetPosition(s))
    {
      if report.executedQuantity == 0.0 {
        return;
      }
      if report.symbolId !in positions {
        positions := positions[report.symbolId := 0.0];
      }
      match report.side
      case Buy =>
        positions := positions[report.symbolId := positions[report.symbolId] + report.executedQuantity];
      case Sell =>
        positions := positions[report.symbolId := positions[report.symbolId] - report.executedQuantity];
    }

    /** Boot reconciliation: overwrite one position. */
    method SetPosition(symbol: U32, quantity: real)
      modifies this
      ensures positions == old(positions)[symbol := quantity]
      ensures GetPosition(symbol) == quantity
    {
      positions := positions[symbol := quantity];
    }

    function GetPosition(symbol: U32): (p: real)
      reads this
      ensures symbol in positions ==> positions[symbol] == p
      ensures symbol !in positions ==> p == 0.0
    {
      PositionOf(positions, symbol)
    }
  }
}
