/** What the gate guarantees over every run, whatever the interleaving. */
module GateSafety {
  import opened Models
  import opened Risk
  import opened Gate
  import RateLimiter

  // Counting log entries and calls.

  function CountIf(log: seq<Entry>, p: Entry -> bool): nat {
    if log == [] then 0 else CountIf(log[..|log| - 1], p) + if p(log[|log| - 1]) then 1 else 0
  }

  predicate IsOpen(e: Entry) { e.Replied? && e.accepted }
  predicate IsReply(e: Entry) { e.Replied? }
  predicate IsClose(e: Entry) { e.OrderClosed? }
  predicate IsToken(e: Entry) { e.TokenTried? && e.verdict == RateLimiter.Admitted }
  predicate IsNonce(e: Entry) { e.NonceFixed? }
  predicate IsDispatch(e: Entry) { e.Dispatch? }

  function CallsIn(calls: map<nat, Stage>, p: Stage -> bool): set<nat> {
    set c | c in calls && p(calls[c])
  }

  predicate WithToken(s: Stage) { s.TokenSpent? }
  predicate WithNonce(s: Stage) { s.NonceDrawn? }
  predicate AwaitingReply(s: Stage) { s.Dispatched? }

  /** Past the risk check, and the exchange has not answered yet. */
  predicate Unresolved(s: Stage) { !s.FeedPassed? && !s.Finished? }

  function Size(calls: map<nat, Stage>, p: Stage -> bool): nat {
    |CallsIn(calls, p)|
  }

  function One(b: bool): nat {
    if b then 1 else 0
  }

  lemma CountSnoc(log: seq<Entry>, entry: Entry, p: Entry -> bool)
    ensures CountIf(log + [entry], p) == CountIf(log, p) + One(p(entry))
  {
  }

  /** Moving one call changes a count of calls by one at most. */
  lemma SizeAfterMove(calls: map<nat, Stage>, c: nat, stage: Stage, p: Stage -> bool)
    ensures Size(calls[c := stage], p) == Size(calls, p) + One(p(stage)) - One(c in calls && p(calls[c]))
  {
    var before, after := CallsIn(calls, p), CallsIn(calls[c := stage], p);
    assert after - {c} == before - {c};
    assert c in after <==> p(stage);
    assert c in before <==> c in calls && p(calls[c]);
    Without(before, c);
    Without(after, c);
  }

  lemma Without(s: set<nat>, c: nat)
    ensures |s| == |s - {c}| + One(c in s)
  {
  }

  /** How a step writes its entry and moves its call. */
  ghost predicate Writes(s: GateState, t: GateState, c: nat, entry: Entry, stage: Stage) {
    && t.log == s.log + [entry]
    && t.calls == s.calls[c := stage]
    && Concerns(entry, c) && Follows(c, StageOf(s, c), entry, stage)
  }

  lemma OwnStepWrites(s: GateState, e: Event, t: GateState)
    requires e.Advance? && t == Step(s, e) && t.log != s.log
    ensures |t.log| == |s.log| + 1 && e.call in t.calls
    ensures Writes(s, t, e.call, t.log[|s.log|], t.calls[e.call])
  {
  }

  lemma QuietStep(s: GateState, e: Event, t: GateState)
    requires e.Advance? && t == Step(s, e) && t.log == s.log
    ensures t.calls == s.calls && t.count == s.count && t.bucket == s.bucket
  {
  }

  // Conservation: every token, nonce and dispatch is accounted for.

  ghost predicate Balanced(s: GateState) {
    && CountIf(s.log, IsToken) == CountIf(s.log, IsNonce) + Size(s.calls, WithToken)
    && CountIf(s.log, IsNonce) == CountIf(s.log, IsDispatch) + Size(s.calls, WithNonce)
    && CountIf(s.log, IsDispatch) == CountIf(s.log, IsReply) + Size(s.calls, AwaitingReply)
  }

  lemma WriteKeepsBalance(s: GateState, t: GateState, c: nat, entry: Entry, stage: Stage)
    requires Balanced(s) && Writes(s, t, c, entry, stage)
    ensures Balanced(t)
  {
    CountSnoc(s.log, entry, IsToken);
    CountSnoc(s.log, entry, IsNonce);
    CountSnoc(s.log, entry, IsDispatch);
    CountSnoc(s.log, entry, IsReply);
    SizeAfterMove(s.calls, c, stage, WithToken);
    SizeAfterMove(s.calls, c, stage, WithNonce);
    SizeAfterMove(s.calls, c, stage, AwaitingReply);
  }

  lemma StepKeepsBalance(s: GateState, e: Event, t: GateState)
    requires Balanced(s) && t == Step(s, e)
    ensures Balanced(t)
  {
    if e.Advance? {
      if t.log == s.log {
        QuietStep(s, e, t);
      } else {
        OwnStepWrites(s, e, t);
        WriteKeepsBalance(s, t, e.call, t.log[|s.log|], t.calls[e.call]);
      }
    } else if e.Close? {
      CountSnoc(s.log, OrderClosed, IsToken);
      CountSnoc(s.log, OrderClosed, IsNonce);
      CountSnoc(s.log, OrderClosed, IsDispatch);
      CountSnoc(s.log, OrderClosed, IsReply);
    }
  }

  /** In every run, tokens spent are nonces drawn plus calls between the two; nonces drawn are
      dispatches plus calls between the two; dispatches are replies plus orders on the wire. A
      call stopped by the feed or by the risk check appears in none of these. */
  lemma {:induction false} TokensNoncesDispatchesBalance(events: seq<Event>, tr: seq<GateState>, n: nat)
    requires IsRun(events, tr) && tr[0].calls == map[] && tr[0].log == [] && n <= |events|
    ensures Balanced(tr[n])
  {
    if n > 0 {
      TokensNoncesDispatchesBalance(events, tr, n - 1);
      StepKeepsBalance(tr[n - 1], events[n - 1], tr[n]);
    }
  }

  // The open-order counter.

  function Opens(s: GateState): nat { CountIf(s.log, IsOpen) }
  function Closes(s: GateState): nat { CountIf(s.log, IsClose) }

  /** The orders that are open; negative while a close has been processed before its open. */
  function OpenOrders(s: GateState): int { Opens(s) - Closes(s) }

  /** The counter moves only when the exchange accepts, and a check passes only below the cap. */
  lemma CountOfStep(s: GateState, e: Event, t: GateState)
    requires e.Advance? && t == Step(s, e) && t.log != s.log
    ensures |t.log| == |s.log| + 1 && e.call in t.calls
    ensures t.count == (s.count + One(IsOpen(t.log[|s.log|]))) % TWO_POW_32
    ensures t.log[|s.log|].RiskChecked? && t.log[|s.log|].passed ==> s.count < s.config.maxOpenOrders
    ensures t.config == s.config
  {
  }

  lemma WrapAdds(a: int, d: int)
    ensures (a % TWO_POW_32 + d) % TWO_POW_32 == (a + d) % TWO_POW_32
  {
  }

  lemma CloseKeepsCounterLaw(s: GateState, t: GateState)
    requires t == Step(s, Close) && s.count == OpenOrders(s) % TWO_POW_32
    ensures t.count == OpenOrders(t) % TWO_POW_32
  {
    CountSnoc(s.log, OrderClosed, IsOpen);
    CountSnoc(s.log, OrderClosed, IsClose);
    WrapAdds(OpenOrders(s), -1);
  }

  lemma WriteKeepsCounterLaw(s: GateState, t: GateState, c: nat, entry: Entry, stage: Stage)
    requires Writes(s, t, c, entry, stage) && t.count == (s.count + One(IsOpen(entry))) % TWO_POW_32
    requires s.count == OpenOrders(s) % TWO_POW_32
    ensures t.count == OpenOrders(t) % TWO_POW_32
  {
    CountSnoc(s.log, entry, IsOpen);
    CountSnoc(s.log, entry, IsClose);
    WrapAdds(OpenOrders(s), One(IsOpen(entry)));
  }

  lemma StepKeepsCounterLaw(s: GateState, e: Event, t: GateState)
    requires t == Step(s, e) && s.count == OpenOrders(s) % TWO_POW_32
    ensures t.count == OpenOrders(t) % TWO_POW_32
    ensures t.config == s.config
  {
    if e.Close? {
      CloseKeepsCounterLaw(s, t);
    } else if e.Advance? {
      if t.log == s.log {
        QuietStep(s, e, t);
      } else {
        OwnStepWrites(s, e, t);
        CountOfStep(s, e, t);
        WriteKeepsCounterLaw(s, t, e.call, t.log[|s.log|], t.calls[e.call]);
      }
    }
  }

  /** The law of the counter, in every run and whatever closes arrive: opens minus closes, modulo
      its width. */
  lemma {:induction false} CounterLaw(events: seq<Event>, tr: seq<GateState>, n: nat)
    requires IsRun(events, tr) && FreshGate(tr[0]) && n <= |events|
    ensures tr[n].count == OpenOrders(tr[n]) % TWO_POW_32
    ensures tr[n].config == tr[0].config
  {
    if n > 0 {
      CounterLaw(events, tr, n - 1);
      StepKeepsCounterLaw(tr[n - 1], events[n - 1], tr[n]);
    }
  }

  /** So the counter is exact exactly when the true number fits it. */
  lemma CounterExactIff(events: seq<Event>, tr: seq<GateState>, n: nat)
    requires IsRun(events, tr) && FreshGate(tr[0]) && n <= |events|
    ensures tr[n].count == OpenOrders(tr[n]) <==> 0 <= OpenOrders(tr[n]) < TWO_POW_32
  {
    CounterLaw(events, tr, n);
  }

  /** Every close finds an order that has been counted as open. */
  ghost predicate ClosesMatched(events: seq<Event>, tr: seq<GateState>, n: nat)
    requires n <= |events| && |tr| == |events| + 1
  {
    forall k :: 0 <= k < n && events[k] == Close ==> Opens(tr[k]) > Closes(tr[k])
  }

  ghost predicate ExactThroughout(tr: seq<GateState>, n: nat)
    requires n < |tr|
  {
    forall k :: 0 <= k <= n ==> tr[k].count == OpenOrders(tr[k])
  }

  lemma OpenOrdersOfStep(s: GateState, e: Event, t: GateState)
    requires t == Step(s, e)
    ensures e.Close? ==> Opens(t) == Opens(s) && Closes(t) == Closes(s) + 1
    ensures !e.Close? ==> Opens(s) <= Opens(t) <= Opens(s) + 1 && Closes(t) == Closes(s)
  {
    if e.Close? {
      CountSnoc(s.log, OrderClosed, IsOpen);
      CountSnoc(s.log, OrderClosed, IsClose);
    } else if e.Advance? && t.log != s.log {
      OwnStepWrites(s, e, t);
      CountSnoc(s.log, t.log[|s.log|], IsOpen);
      CountSnoc(s.log, t.log[|s.log|], IsClose);
    }
  }

  lemma OpenOrdersInRun(events: seq<Event>, tr: seq<GateState>, k: nat)
    requires IsRun(events, tr) && k < |events|
    ensures events[k].Close? ==> Opens(tr[k + 1]) == Opens(tr[k]) && Closes(tr[k + 1]) == Closes(tr[k]) + 1
    ensures !events[k].Close? ==>
      Opens(tr[k]) <= Opens(tr[k + 1]) <= Opens(tr[k]) + 1 && Closes(tr[k + 1]) == Closes(tr[k])
  {
    OpenOrdersOfStep(tr[k], events[k], tr[k + 1]);
  }

  lemma {:induction false} MatchedClosesStayPositive(events: seq<Event>, tr: seq<GateState>, n: nat)
    requires IsRun(events, tr) && FreshGate(tr[0]) && n <= |events| && ClosesMatched(events, tr, n)
    ensures 0 <= OpenOrders(tr[n])
  {
    if n > 0 {
      MatchedClosesStayPositive(events, tr, n - 1);
      OpenOrdersInRun(events, tr, n - 1);
    }
  }

  /** The counter is right all along a run if and only if every close finds an order counted as open
      and the open orders never outgrow the counter. */
  lemma ExactThroughoutIffMatched(events: seq<Event>, tr: seq<GateState>, n: nat)
    requires IsRun(events, tr) && FreshGate(tr[0]) && n <= |events|
    ensures ExactThroughout(tr, n) <==>
      ClosesMatched(events, tr, n) && forall k :: 0 <= k <= n ==> OpenOrders(tr[k]) < TWO_POW_32
  {
    if ClosesMatched(events, tr, n) && forall k :: 0 <= k <= n ==> OpenOrders(tr[k]) < TWO_POW_32 {
      forall k | 0 <= k <= n ensures tr[k].count == OpenOrders(tr[k]) {
        MatchedClosesStayPositive(events, tr, k);
        CounterExactIff(events, tr, k);
      }
    }
    if ExactThroughout(tr, n) {
      forall k | 0 <= k < n && events[k] == Close ensures Opens(tr[k]) > Closes(tr[k]) {
        OpenOrdersInRun(events, tr, k);
        assert tr[k + 1].count == OpenOrders(tr[k + 1]);
      }
    }
  }

  /** Which orders are refused for the count, in every run: those of a cap up to opens minus closes
      modulo the counter's width. So a close ahead of its open jams the gate: as long as more orders
      have been closed than opened, the cap is compared with a number just below 2^32. */
  lemma RefusedForCountIff(events: seq<Event>, tr: seq<GateState>, n: nat, order: Order)
    requires IsRun(events, tr) && FreshGate(tr[0]) && n <= |events|
    ensures var open, max := OpenOrders(tr[n]), tr[0].config.maxOpenOrders;
      var refused := Validate(tr[n].config, tr[n].count, order) == Some(TooManyOpenOrders);
      && (refused <==> max <= open % TWO_POW_32)
      && (-TWO_POW_32 <= open < 0 ==> (refused <==> max <= open + TWO_POW_32))
  {
    CounterLaw(events, tr, n);
    WrapAdds(OpenOrders(tr[n]), TWO_POW_32);
  }

  /** One close without an open is enough: from then on a new gate refuses every order, whatever it
      asks for, if and only if its cap is below 2^32. */
  lemma OneCloseJamsGate(s: GateState) returns (events: seq<Event>, tr: seq<GateState>)
    requires FreshGate(s)
    ensures IsRun(events, tr) && tr[0] == s && events == [Close] && OpenOrders(tr[1]) == -1
    ensures (forall order :: Validate(tr[1].config, tr[1].count, order) == Some(TooManyOpenOrders))
      <==> s.config.maxOpenOrders < TWO_POW_32
  {
    events, tr := [Close], [s, Step(s, Close)];
    OpenOrdersOfStep(s, Close, tr[1]);
    forall order: Order
      ensures Validate(tr[1].config, tr[1].count, order) == Some(TooManyOpenOrders)
        <==> s.config.maxOpenOrders < TWO_POW_32
    {
      RefusedForCountIff(events, tr, 1, order);
    }
    var order := Order(0, Buy, None, 1.0);
    assert Validate(tr[1].config, tr[1].count, order) == Some(TooManyOpenOrders)
      <==> s.config.maxOpenOrders < TWO_POW_32;
  }

  // The cap on open orders.

  ghost predicate AtMostUnresolved(tr: seq<GateState>, n: nat, limit: nat)
    requires n < |tr|
  {
    forall k :: 0 <= k <= n ==> Size(tr[k].calls, Unresolved) <= limit
  }

  /** The open orders, with those that may still be opened, stay within `bound`. */
  ghost predicate Capped(s: GateState, bound: int) {
    OpenOrders(s) + Size(s.calls, Unresolved) <= bound
  }

  /** The most orders that can be open at once, as long as that number fits the counter. Without a cap
      to stay below, or without a call on its way, nothing opens at all. */
  function ConcurrentCap(max: nat, limit: nat): nat {
    if max == 0 || limit == 0 then 0 else max - 1 + limit
  }

  /** A check that passes below a wrapped counter passes below the true number too. */
  lemma PassMeansBelowCap(open: int, max: nat, bound: int)
    requires open % TWO_POW_32 < max && open <= bound < TWO_POW_32
    ensures open < max
  {
  }

  lemma WriteKeepsCapped(s: GateState, e: Event, t: GateState, limit: nat, bound: nat)
    requires e.Advance? && t == Step(s, e) && t.log != s.log && s.count == OpenOrders(s) % TWO_POW_32
    requires Capped(s, bound) && bound == ConcurrentCap(s.config.maxOpenOrders, limit) < TWO_POW_32
    requires Size(t.calls, Unresolved) <= limit
    ensures Capped(t, bound)
  {
    OwnStepWrites(s, e, t);
    CountOfStep(s, e, t);
    var entry, stage := t.log[|s.log|], t.calls[e.call];
    CountSnoc(s.log, entry, IsOpen);
    CountSnoc(s.log, entry, IsClose);
    SizeAfterMove(s.calls, e.call, stage, Unresolved);
    if entry.RiskChecked? && entry.passed {
      PassMeansBelowCap(OpenOrders(s), s.config.maxOpenOrders, bound);
    }
  }

  lemma CloseKeepsCapped(s: GateState, t: GateState, bound: int)
    requires t == Step(s, Close) && Capped(s, bound)
    ensures Capped(t, bound)
  {
    OpenOrdersOfStep(s, Close, t);
  }

  /** The cap under concurrency. If never more than `limit` calls are between the risk check and the
      answer of the exchange, the open orders and those calls together never exceed
      max_open_orders - 1 + limit, whenever and in whatever order closes are processed, as long as
      that number fits the counter; so one call at a time keeps the configured cap. */
  lemma {:induction false} OpenOrdersCapped(events: seq<Event>, tr: seq<GateState>, n: nat, limit: nat)
    requires IsRun(events, tr) && FreshGate(tr[0]) && n <= |events| && AtMostUnresolved(tr, n, limit)
    requires ConcurrentCap(tr[0].config.maxOpenOrders, limit) < TWO_POW_32
    ensures Capped(tr[n], ConcurrentCap(tr[0].config.maxOpenOrders, limit))
  {
    if n == 0 {
      assert CallsIn(tr[0].calls, Unresolved) == {};
    } else {
      var s, e, t := tr[n - 1], events[n - 1], tr[n];
      var bound := ConcurrentCap(tr[0].config.maxOpenOrders, limit);
      OpenOrdersCapped(events, tr, n - 1, limit);
      CounterLaw(events, tr, n - 1);
      assert t == Step(s, e);
      if e.Close? {
        CloseKeepsCapped(s, t, bound);
      } else if e.Advance? {
        if t.log == s.log {
          QuietStep(s, e, t);
        } else {
          WriteKeepsCapped(s, e, t, limit, bound);
        }
      }
    }
  }

  // The notional.

  /** A priced order within the configured amount, or within the largest decimal if none is configured. */
  predicate NotionalWithin(config: RiskConfig, order: Order) {
    order.price.Some? ==>
      order.price.value * order.quantity <=
        if config.maxPositionUsd.Some? then config.maxPositionUsd.value else 79228162514264337593543950335.0
  }

  ghost predicate CheckedOnly(s: GateState) {
    forall c :: c in s.calls && Unresolved(s.calls[c]) ==> NotionalWithin(s.config, s.calls[c].order)
  }

  lemma StepKeepsCheckedOnly(s: GateState, e: Event, t: GateState)
    requires CheckedOnly(s) && t == Step(s, e)
    ensures CheckedOnly(t) && t.config == s.config
  {
    if e.Advance? && e.call in s.calls && s.calls[e.call].FeedPassed? {
      var order := s.calls[e.call].order;
      ApprovedIff(s.config, s.count, order);
    }
  }

  /** Nothing over the cap reaches the wire: in every run, a call that is past the risk check carries an
      order whose notional is within the configured amount. */
  lemma {:induction false} SentOrdersWithinCap(events: seq<Event>, tr: seq<GateState>, n: nat, c: nat)
    requires IsRun(events, tr) && tr[0].calls == map[] && n <= |events|
    ensures c in tr[n].calls && Unresolved(tr[n].calls[c]) ==> NotionalWithin(tr[0].config, tr[n].calls[c].order)
    ensures CheckedOnly(tr[n]) && tr[n].config == tr[0].config
  {
    if n > 0 {
      SentOrdersWithinCap(events, tr, n - 1, c);
      StepKeepsCheckedOnly(tr[n - 1], events[n - 1], tr[n]);
    }
  }

  // The feed.

  function Dispatches(s: GateState): nat { CountIf(s.log, IsDispatch) }

  /** The feed was live for this call, and its order has not gone out yet. */
  predicate OnItsWay(s: Stage) { s.FeedPassed? || s.RiskPassed? || s.TokenSpent? || s.NonceDrawn? }

  /** Orders sent and orders that may still be sent without another look at the feed. */
  function Sendable(s: GateState): nat { Dispatches(s) + Size(s.calls, OnItsWay) }

  lemma SendableOfStep(s: GateState, e: Event, t: GateState)
    requires t == Step(s, e) && s.feed != Live
    ensures Sendable(t) <= Sendable(s)
  {
    if e.Close? {
      CountSnoc(s.log, OrderClosed, IsDispatch);
    } else if e.Advance? {
      if t.log == s.log {
        QuietStep(s, e, t);
      } else {
        OwnStepWrites(s, e, t);
        CountSnoc(s.log, t.log[|s.log|], IsDispatch);
        SizeAfterMove(s.calls, e.call, t.calls[e.call], OnItsWay);
        DarkStep(s, e, t);
      }
    }
  }

  /** While the feed is not live, no call gets on its way. */
  lemma DarkStep(s: GateState, e: Event, t: GateState)
    requires t == Step(s, e) && s.feed != Live && e.Advance? && t.log != s.log
    ensures |t.log| == |s.log| + 1 && e.call in t.calls
    ensures OnItsWay(t.calls[e.call]) ==> e.call in s.calls && OnItsWay(s.calls[e.call])
    ensures IsDispatch(t.log[|s.log|]) ==>
      e.call in s.calls && OnItsWay(s.calls[e.call]) && !OnItsWay(t.calls[e.call])
  {
  }

  /** What a feed that is not live lets through: as long as it stays so, the orders that go out are
      at most those of the calls that had read it while it was live. */
  lemma {:induction false} DarkFeedBound(events: seq<Event>, tr: seq<GateState>, m: nat, n: nat)
    requires IsRun(events, tr) && m <= n <= |events|
    requires forall k :: m <= k < n ==> tr[k].feed != Live
    ensures Sendable(tr[n]) <= Sendable(tr[m])
    ensures Dispatches(tr[n]) - Dispatches(tr[m]) <= Size(tr[m].calls, OnItsWay)
    decreases n
  {
    if m < n {
      DarkFeedBound(events, tr, m, n - 1);
      SendableOfStep(tr[n - 1], events[n - 1], tr[n]);
    }
  }
}
