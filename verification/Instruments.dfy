/** Rounding to the market's tick and lot sizes, and what it does to the risk check. */
module Instruments {
  import opened Models
  import opened Risk
  import opened RealArithmetic

  /** Truncation toward zero. */
  function Trunc(x: real): int {
    if x >= 0.0 then x.Floor else -((-x).Floor)
  }

  /** A step of zero means no rounding. */
  function RoundDown(x: real, step: real): real {
    if step == 0.0 then x else Trunc(x / step) as real * step
  }

  datatype Instrument = Instrument(tickSize: real, lotSize: real)

  function Formatted(i: Instrument, order: Order): Order {
    order.(quantity := RoundDown(order.quantity, i.lotSize),
           price := match order.price
                    case Some(p) => Some(RoundDown(p, i.tickSize))
                    case None => None)
  }

  /** An order that its holder lets others change. */
  class OrderSlot {
    var order: Order

    constructor (order: Order)
      ensures this.order == order
    {
      this.order := order;
    }
  }

  method FormatOrder(i: Instrument, slot: OrderSlot)
    modifies slot
    ensures slot.order == Formatted(i, old(slot.order))
  {
    slot.order := slot.order.(quantity := RoundDown(slot.order.quantity, i.lotSize));
    if slot.order.price.Some? {
      slot.order := slot.order.(price := Some(RoundDown(slot.order.price.value, i.tickSize)));
    }
  }

  // Rounding.

  /** `r` lies between zero and `x`. */
  predicate Toward0(r: real, x: real) {
    (0.0 <= r <= x) || (x <= r <= 0.0)
  }

  function Abs(x: real): real {
    if x >= 0.0 then x else -x
  }

  lemma Negate(x: real, s: real)
    requires s != 0.0
    ensures (-x) / s == -(x / s) && x / (-s) == -(x / s)
  {
    Quotient(x, s);
    Quotient(-x, s);
    Quotient(x, -s);
  }

  lemma NegateProduct(a: real, b: real)
    ensures (-a) * b == -(a * b) && (-a) * (-b) == a * b
  {
  }

  /** Rounding is odd, and the sign of the step plays no part. */
  lemma RoundDownOdd(x: real, step: real)
    ensures RoundDown(-x, step) == -RoundDown(x, step)
    ensures RoundDown(x, -step) == RoundDown(x, step)
  {
    if step != 0.0 {
      Negate(x, step);
      NegateProduct(Trunc(x / step) as real, step);
    }
  }

  lemma Successor(f: real, g: real, step: real)
    requires g == f + 1.0
    ensures g * step == f * step + step
  {
  }

  lemma Below(x: real, z: real, g: real, f: real, step: real)
    requires x == z * step && z * step < g * step && g * step == f * step + step
    ensures x < f * step + step
  {
  }

  lemma FloorScaled(z: real, step: real, x: real)
    requires z >= 0.0 && step > 0.0 && z * step == x
    ensures var r := z.Floor as real * step; 0.0 <= r <= x < r + step
  {
    var f := z.Floor as real;
    var g := f + 1.0;
    Scale(f, z, step);
    Scale(z, g, step);
    Scale(0.0, f, step);
    Successor(f, g, step);
    Nothing(0.0, step);
    Below(x, z, g, f, step);
  }

  lemma RoundDownPositive(x: real, step: real)
    requires x >= 0.0 && step > 0.0
    ensures 0.0 <= RoundDown(x, step) <= x < RoundDown(x, step) + step
    ensures RoundDown(x, step) == (x / step).Floor as real * step
  {
    Quotient(x, step);
    QuotientSign(x, step);
    FloorScaled(x / step, step, x);
  }

  lemma LargestScaled(z: real, step: real, x: real, k: int)
    requires step > 0.0 && z * step == x && k as real * step <= x
    ensures k as real * step <= z.Floor as real * step
  {
    Scale(k as real, z, step);
    assert k <= z.Floor;
    Scale(k as real, z.Floor as real, step);
  }

  /** For an amount and a step of the usual signs: no larger multiple fits under the amount. */
  lemma LargestMultiple(x: real, step: real, k: int)
    requires x >= 0.0 && step > 0.0 && k as real * step <= x
    ensures k as real * step <= RoundDown(x, step)
  {
    Quotient(x, step);
    RoundDownPositive(x, step);
    LargestScaled(x / step, step, x, k);
  }

  predicate IsMultiple(r: real, step: real, k: int) {
    r == k as real * step
  }

  /** For every amount and every step: an exact multiple, between zero and the amount, and less than
      one step away from it. */
  lemma RoundDownIsClose(x: real, step: real)
    requires step != 0.0
    ensures exists k: int :: IsMultiple(RoundDown(x, step), step, k)
    ensures Toward0(RoundDown(x, step), x) && Abs(x - RoundDown(x, step)) < Abs(step)
  {
    assert IsMultiple(RoundDown(x, step), step, Trunc(x / step));
    RoundDownOdd(x, step);
    RoundDownOdd(Abs(x), step);
    RoundDownOdd(Abs(x), Abs(step));
    RoundDownPositive(Abs(x), Abs(step));
  }

  lemma FloorOfInt(k: int)
    ensures (k as real).Floor == k && Trunc(k as real) == k
  {
    assert (-(k as real)) == (-k) as real;
  }

  /** What is a whole number of steps already stays as it is. */
  lemma MultipleStays(step: real, k: int)
    requires step != 0.0
    ensures RoundDown(k as real * step, step) == k as real * step
  {
    var z := (k as real * step) / step;
    assert z == k as real by {
      Cancel(k as real, step);
    }
    FloorOfInt(k);
    assert Trunc(z) == k;
  }

  /** Rounding twice is rounding once. */
  lemma RoundDownIdempotent(x: real, step: real)
    ensures RoundDown(RoundDown(x, step), step) == RoundDown(x, step)
  {
    if step != 0.0 {
      var k := Trunc(x / step);
      assert RoundDown(x, step) == k as real * step;
      MultipleStays(step, k);
    }
  }

  /** Rounding keeps the order of amounts. */
  lemma RoundDownMonotone(x: real, y: real, step: real)
    requires x <= y
    ensures RoundDown(x, step) <= RoundDown(y, step)
  {
    if step > 0.0 {
      MonotonePositive(x, y, step);
    } else if step < 0.0 {
      RoundDownOdd(x, step);
      RoundDownOdd(y, step);
      MonotonePositive(x, y, -step);
    }
  }

  lemma TruncMonotone(a: real, b: real)
    requires a <= b
    ensures Trunc(a) <= Trunc(b)
  {
  }

  lemma MonotonePositive(x: real, y: real, step: real)
    requires x <= y && step > 0.0
    ensures RoundDown(x, step) <= RoundDown(y, step)
  {
    Quotient(x, step);
    Quotient(y, step);
    Scale(x / step, y / step, step);
    TruncMonotone(x / step, y / step);
    Scale(Trunc(x / step) as real, Trunc(y / step) as real, step);
  }

  lemma RoundedToward0(x: real, step: real)
    ensures Toward0(RoundDown(x, step), x)
  {
    if step != 0.0 {
      RoundDownIsClose(x, step);
    }
  }

  /** Despite its name it rounds up below zero: it goes down exactly on amounts that are not
      negative, and where there is nothing to round. */
  lemma RoundsDownIff(x: real, step: real)
    ensures RoundDown(x, step) <= x <==> step == 0.0 || x >= 0.0 || exists k: int :: IsMultiple(x, step, k)
  {
    RoundedToward0(x, step);
    if step != 0.0 && RoundDown(x, step) == x {
      assert IsMultiple(x, step, Trunc(x / step));
    } else if k: int :| step != 0.0 && IsMultiple(x, step, k) {
      MultipleStays(step, k);
    }
  }

  /** Minus one and a half, rounded "down" to whole numbers, is minus one. */
  lemma RoundsUpBelowZero()
    ensures RoundDown(-1.5, 1.0) == -1.0
  {
  }

  // Risk approval.

  /** `r` is a multiple of the step, less than one step from `x` on the side of zero; without a step it
      is `x`. */
  ghost predicate RoundedBy(r: real, x: real, step: real) {
    if step == 0.0 then r == x
    else (exists k: int :: IsMultiple(r, step, k)) && Toward0(r, x) && Abs(x - r) < Abs(step)
  }

  /** Formatting rounds the quantity by the lot and the price, if there is one, by the tick, and touches
      nothing else. */
  lemma FormattedByLotAndTick(i: Instrument, order: Order)
    ensures var f := Formatted(i, order);
      && RoundedBy(f.quantity, order.quantity, i.lotSize)
      && (order.price.Some? <==> f.price.Some?)
      && (order.price.Some? ==> RoundedBy(f.price.value, order.price.value, i.tickSize))
      && f.clientId == order.clientId && f.side == order.side
  {
    RoundDownMeets(order.quantity, i.lotSize);
    if order.price.Some? {
      RoundDownMeets(order.price.value, i.tickSize);
    }
  }

  lemma RoundDownMeets(x: real, step: real)
    ensures RoundedBy(RoundDown(x, step), x, step)
  {
    if step != 0.0 {
      RoundDownIsClose(x, step);
    }
  }

  lemma SmallerProduct(a: real, b: real, x: real, y: real)
    requires 0.0 <= a <= x && 0.0 <= b <= y
    ensures 0.0 <= a * b <= x * y
  {
    assert 0.0 <= a * b;
    assert a * b <= x * b;
    assert x * b <= x * y;
  }

  /** Moving both factors toward zero never lifts a product above a bound that is not negative. */
  lemma ProductToward0(a: real, b: real, x: real, y: real, cap: real)
    requires Toward0(a, x) && Toward0(b, y) && x * y <= cap && cap >= 0.0
    ensures a * b <= cap
  {
    if x >= 0.0 && y >= 0.0 {
      SmallerProduct(a, b, x, y);
    } else if x <= 0.0 && y <= 0.0 {
      SmallerProduct(-a, -b, -x, -y);
      NegateProduct(a, b);
      NegateProduct(x, y);
    } else {
      MixedSigns(a, b);
    }
  }

  lemma MixedSigns(a: real, b: real)
    requires (a >= 0.0 && b <= 0.0) || (a <= 0.0 && b >= 0.0)
    ensures a * b <= 0.0
  {
  }

  /** Formatting never costs an order its approval. */
  ghost predicate FormattingKeepsApproval(config: RiskConfig) {
    forall i: Instrument, order: Order, count: nat {:trigger Validate(config, count, Formatted(i, order))} ::
      Validate(config, count, order) == None ==> Validate(config, count, Formatted(i, order)) == None
  }

  lemma ApprovalKept(config: RiskConfig, i: Instrument, order: Order, count: nat)
    requires NotionalCap(config) >= 0.0 && Validate(config, count, order) == None
    ensures Validate(config, count, Formatted(i, order)) == None
  {
    if order.price.Some? {
      RoundedToward0(order.price.value, i.tickSize);
      RoundedToward0(order.quantity, i.lotSize);
      ProductToward0(RoundDown(order.price.value, i.tickSize), RoundDown(order.quantity, i.lotSize),
                     order.price.value, order.quantity, NotionalCap(config));
    }
  }

  /** Rounding a quantity of `cap` by twice its size leaves nothing, which is above a negative cap. */
  lemma ApprovalLost(config: RiskConfig)
    requires NotionalCap(config) < 0.0 && config.maxOpenOrders > 0
    ensures !FormattingKeepsApproval(config)
  {
    var cap := NotionalCap(config);
    var order := Order(0, Buy, Some(1.0), cap);
    var i := Instrument(0.0, -2.0 * cap);
    Quotient(cap, i.lotSize);
    RoundDownOdd(-cap, i.lotSize);
    RoundDownPositive(-cap, i.lotSize);
    LessThanOneStep(-cap, i.lotSize);
    assert Validate(config, 0, order) == None;
    assert Validate(config, 0, Formatted(i, order)) != None;
  }

  lemma LessThanOneStep(x: real, step: real)
    requires 0.0 <= x < step
    ensures RoundDown(x, step) == 0.0
  {
    var z := x / step;
    assert z * step == x by {
      Quotient(x, step);
    }
    QuotientSign(x, step);
    BelowOne(z, step);
    Nothing(Trunc(z) as real, step);
  }

  lemma BelowOne(z: real, step: real)
    requires step > 0.0 && z * step < step
    ensures z < 1.0
  {
    var one := 1.0;
    assert one * step == step;
    Scale(one, z, step);
  }

  /** An order that passed the risk check still passes it after formatting, for every instrument
      and every order, if and only if the notional cap is not negative (or nothing passes at all). */
  lemma FormattingKeepsApprovalIff(config: RiskConfig)
    ensures FormattingKeepsApproval(config) <==>
      config.maxOpenOrders == 0 || config.maxPositionUsd == None || config.maxPositionUsd.value >= 0.0
  {
    if NotionalCap(config) >= 0.0 {
      forall i: Instrument, order: Order, count: nat | Validate(config, count, order) == None
        ensures Validate(config, count, Formatted(i, order)) == None
      {
        ApprovalKept(config, i, order, count);
      }
    } else if config.maxOpenOrders > 0 {
      ApprovalLost(config);
    }
  }
}
