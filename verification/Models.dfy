/** The vocabulary shared by every component: market data, orders, feed states.
    Decimals are modelled as exact reals; the machine integers keep their width. */
module Models {

  const TWO_POW_32: int := 0x1_0000_0000
  const TWO_POW_64: int := 0x1_0000_0000_0000_0000

  type U32 = x: int | 0 <= x < 0x1_0000_0000
  type U64 = x: int | 0 <= x < 0x1_0000_0000_0000_0000

  datatype Option<+T> = None | Some(value: T)

  datatype Side = Buy | Sell

  datatype PriceLevel = PriceLevel(price: real, quantity: real)

  /** A snapshot or an incremental delta: the same record serves for both. */
  datatype OrderBookUpdate = OrderBookUpdate(bids: seq<PriceLevel>, asks: seq<PriceLevel>, sequence: U64)

  datatype OrderStatus = OrderPending | Open | PartiallyFilled | Filled | Cancelled | Rejected

  /** The fields of an order that the gate and the trackers look at. */
  datatype Order = Order(clientId: nat, side: Side, price: Option<real>, quantity: real)

  datatype ExecutionReport = ExecutionReport(
    clientId: nat, symbolId: U32, status: OrderStatus, executedQuantity: real, side: Side)

  datatype FeedState = Pending | Buffering | Syncing(snapshotSeq: U64) | Live

  function Min(a: real, b: real): real {
    if a <= b then a else b
  }

  function Max(a: int, b: int): int {
    if a >= b then a else b
  }
}
