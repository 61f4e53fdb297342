/** Orders in flight: how much of each has been filled, and which entries can be forgotten. */
module InFlight {
  import opened Models

  datatype OrderState = OrderState(order: Order, timestamp: real, cumulativeFilled: real)

  type PendingOrders = map<nat, OrderState>

  const REAPER_TIMEOUT: real := 30.0

  predicate IsGhost(s: OrderState, now: real) {
    now - s.timestamp > REAPER_TIMEOUT
  }

  /** The statuses on which an entry is dropped; a rejected order is not among them. */
  predicate Drops(status: OrderStatus) {
    status == Filled || status == Cancelled
  }

  /** What processing a report leaves behind, and the delta it returns. */
  datatype Processed = Processed(pending: PendingOrders, delta: Option<real>)

  function Process(pending: PendingOrders, report: ExecutionReport): Processed {
    if report.clientId !in pending then Processed(pending, None)
    else
      var state := pending[report.clientId];
      Processed(
        if Drops(report.status) then pending - {report.clientId}
        else pending[report.clientId := state.(cumulativeFilled := report.executedQuantity)],
        Some(report.executedQuantity - state.cumulativeFilled))
  }

  class InFlightTracker {
    var pendingOrders: PendingOrders

    constructor ()
      ensures pendingOrders == map[]
    {
      pendingOrders := map[];
    }

    method RegisterOrder(order: Order, now: real)
      modifies this
      ensures pendingOrders == old(pendingOrders)[order.clientId := OrderState(order, now, 0.0)]
    {
      pendingOrders := pendingOrders[order.clientId := OrderState(order, now, 0.0)];
    }

    /** The fill that is new in this report. A report on an unknown order changes nothing; any other
        one leaves the reported total behind, or no entry at all. */
    method ProcessExecution(report: ExecutionReport) returns (delta: Option<real>)
      modifies this
      ensures Processed(pendingOrders, delta) == Process(old(pendingOrders), report)
      ensures report.clientId in old(pendingOrders) ==>
        (report.clientId in pendingOrders <==>
          report.status in {OrderPending, Open, PartiallyFilled, Rejected})
      ensures report.clientId !in old(pendingOrders) ==> delta == None && pendingOrders == old(pendingOrders)
      ensures report.clientId in old(pendingOrders) ==>
        && delta.Some?
        && old(pendingOrders)[report.clientId].cumulativeFilled + delta.value == report.executedQuantity
        && pendingOrders - {report.clientId} == old(pendingOrders) - {report.clientId}
        && (report.clientId in pendingOrders <==> !Drops(report.status))
        && (!Drops(report.status) ==>
            var before := old(pendingOrders)[report.clientId];
            pendingOrders[report.clientId] == before.(cumulativeFilled := report.executedQuantity))
    {
      if report.clientId !in pendingOrders {
        return None;
      }
      var state := pendingOrders[report.clientId];
      delta := Some(report.executedQuantity - state.cumulativeFilled);
      pendingOrders := pendingOrders[report.clientId := state.(cumulativeFilled := report.executedQuantity)];
      if report.status == Filled || report.status == Cancelled {
        pendingOrders := pendingOrders - {report.clientId};
      }
    }

    /** One tick of the reaper: first collect the ghosts, then remove them. `clock` is what the clock
        shows when the scan comes to an entry. Exactly the entries that are older than the timeout at
        their own instant go, and the others stay as they are. */
    method ReaperTick(clock: nat -> real)
      modifies this
      ensures pendingOrders ==
        map id | id in old(pendingOrders) && clock(id) - old(pendingOrders)[id].timestamp <= 30.0
          :: old(pendingOrders)[id]
    {
      var ghosts: seq<nat> := [];
      var unseen := pendingOrders.Keys;
      while unseen != {}
        invariant pendingOrders == old(pendingOrders) && unseen <= pendingOrders.Keys
        invariant forall id :: id in ghosts <==>
          id in pendingOrders && id !in unseen && IsGhost(pendingOrders[id], clock(id))
        decreases unseen
      {
        var id :| id in unseen;
        if IsGhost(pendingOrders[id], clock(id)) {
          ghosts := ghosts + [id];
        }
        unseen := unseen - {id};
      }
      for k := 0 to |ghosts|
        invariant pendingOrders == old(pendingOrders) - (set id | id in ghosts[..k])
      {
        assert ghosts[..k + 1] == ghosts[..k] + [ghosts[k]];
        pendingOrders := pendingOrders - {ghosts[k]};
      }
      assert ghosts[..|ghosts|] == ghosts;
    }
  }
}
