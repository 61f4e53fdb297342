/** The pre-flight risk gate. */
module Risk {
  import opened Models
  import opened Inventory

  /** `maxPositionUsd` is None when the configured float has no decimal value. */
  datatype RiskConfig = RiskConfig(maxPositionUsd: Option<real>, maxOpenOrders: nat)

  datatype RiskError = TooManyOpenOrders | NotionalTooHigh

  const DECIMAL_MAX: real := 79228162514264337593543950335.0

  predicate CheckOpenOrderCount(current: nat, max: nat) {
    current < max
  }

  predicate CheckNotional(price: real, quantity: real, maxUsd: real) {
    price * quantity <= maxUsd
  }

  function NotionalCap(config: RiskConfig): real {
    match config.maxPositionUsd
    case Some(usd) => usd
    case None => DECIMAL_MAX
  }

  /** None when the order may proceed. The count is checked first; a market order has no notional. */
  function Validate(config: RiskConfig, openOrders: nat, order: Order): Option<RiskError> {
    if !CheckOpenOrderCount(openOrders, config.maxOpenOrders) then Some(TooManyOpenOrders)
    else if order.price.Some? && !CheckNotional(order.price.value, order.quantity, NotionalCap(config)) then
      Some(NotionalTooHigh)
    else None
  }

  /** The verdict in terms of the configured numbers: the count first, and for a priced order the
      notional against the configured amount, or the largest decimal if there is none. */
  lemma ApprovedIff(config: RiskConfig, openOrders: nat, order: Order)
    ensures Validate(config, openOrders, order) == Some(TooManyOpenOrders) <==> openOrders >= config.maxOpenOrders
    ensures order.price == None ==> Validate(config, openOrders, order) != Some(NotionalTooHigh)
    ensures order.price.Some? ==>
      (Validate(config, openOrders, order) == None <==>
        openOrders < config.maxOpenOrders && order.price.value * order.quantity <=
          if config.maxPositionUsd.Some? then config.maxPositionUsd.value else 79228162514264337593543950335.0)
  {
  }

  class RiskManager {
    const config: RiskConfig
    const positionTracker: PositionTracker
    var openOrderCount: U32

    constructor (config: RiskConfig)
      ensures this.config == config && openOrderCount == 0
      ensures fresh(positionTracker) && positionTracker.positions == map[]
    {
      this.config := config;
      positionTracker := new PositionTracker();
      openOrderCount := 0;
    }

    method ValidateOrder(order: Order) returns (r: Option<RiskError>)
      ensures r == Validate(config, openOrderCount, order)
      ensures r == None <==>
        && openOrderCount < config.maxOpenOrders
        && (order.price.Some? ==> order.price.value * order.quantity <= NotionalCap(config))
      ensures r == Some(TooManyOpenOrders) <==> openOrderCount >= config.maxOpenOrders
      ensures order.price.Some? && config.maxPositionUsd.Some? ==>
        (r == Some(NotionalTooHigh) <==>
          && openOrderCount < config.maxOpenOrders
          && order.price.value * order.quantity > config.maxPositionUsd.value)
    {
      if openOrderCount >= config.maxOpenOrders {
        return Some(TooManyOpenOrders);
      }
      if order.price.Some? {
        var notional := order.price.value * order.quantity;
        if notional > NotionalCap(config) {
          return Some(NotionalTooHigh);
        }
      }
      r := None;
    }

    /** The counter is 32 bits wide and wraps both ways. */
    method OnOrderOpened()
      modifies this
      ensures openOrderCount == (old(openOrderCount) + 1) % TWO_POW_32
    {
      openOrderCount := (openOrderCount + 1) % TWO_POW_32;
    }

    method OnOrderClosed()
      modifies this
      ensures openOrderCount == (old(openOrderCount) - 1) % TWO_POW_32
    {
      openOrderCount := (openOrderCount - 1) % TWO_POW_32;
    }

    method OnExecutionReport(report: ExecutionReport)
      modifies positionTracker
      ensures positionTracker.positions == BookReport(old(positionTracker.positions), report)
    {
      positionTracker.ApplyExecution(report);
    }
  }
}
