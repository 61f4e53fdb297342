/** The concurrent cap on open orders is exact: it is reached, and past the counter there is none. */
module CapAttained {
  import opened Models
  import opened Gate
  import opened GateSafety
  import opened OrderManagement
  import opened Risk
  import RateLimiter
  import Nonce

  /** A market order submitted at the bucket's own instant, which the exchange will accept. */
  function Turn(s: GateState, call: nat): Event {
    Advance(call, Order(0, Buy, None, 1.0), s.bucket.lastUpdate, 0, true)
  }

  /** Calls base, ..., base + k - 1 each go as far as the wire before any is answered. */
  function Burst(s: GateState, base: nat, k: nat): GateState {
    if k == 0 then s else Repeat(Burst(s, base, k - 1), Turn(s, base + k - 1), 7)
  }

  /** Then the exchange answers them, one after the other. */
  function Answers(s: GateState, t: GateState, base: nat, k: nat): GateState {
    if k == 0 then t else Step(Answers(s, t, base, k - 1), Turn(s, base + k - 1))
  }

  ghost predicate Unused(s: GateState, base: nat) {
    forall c :: c >= base ==> c !in s.calls && Nonce.PcOf(s.nonce, c) == Nonce.Idle
  }

  ghost predicate OnTheWire(calls: map<nat, Stage>, base: nat, from: nat, to: nat) {
    forall c :: base + from <= c < base + to ==> c in calls && calls[c].Dispatched?
  }

  lemma NoTimePasses(b: RateLimiter.Bucket)
    requires 1.0 <= b.tokens <= b.capacity
    ensures RateLimiter.Consume(b, b.lastUpdate)
      == RateLimiter.Consumed(b.(tokens := b.tokens - 1.0), RateLimiter.Admitted)
  {
    assert RateLimiter.Elapsed(b.lastUpdate, b.lastUpdate) * b.rate == 0.0;
  }

  lemma OneMoreOnTheWire(u: GateState, e: Event, base: nat, k: nat)
    requires e.Advance? && e.call == base + k && e.order.price == None && e.now == u.bucket.lastUpdate
    requires u.feed == Live && u.count < u.config.maxOpenOrders && Unused(u, base + k)
    requires OnTheWire(u.calls, base, 0, k) && 1.0 <= u.bucket.tokens <= u.bucket.capacity
    ensures var t := Repeat(u, e, 7);
      && t == u.(bucket := u.bucket.(tokens := u.bucket.tokens - 1.0),
                 nonce := t.nonce, calls := t.calls, log := t.log)
      && Unused(t, base + k + 1) && OnTheWire(t.calls, base, 0, k + 1)
      && Size(t.calls, Unresolved) == Size(u.calls, Unresolved) + 1
  {
    var t := Repeat(u, e, 7);
    NoTimePasses(u.bucket);
    GoesThrough(u, e);
    SizeAfterMove(u.calls, e.call, t.calls[e.call], Unresolved);
    assert t.calls == u.calls[e.call := t.calls[e.call]];
  }

  /** The counter is opens minus closes modulo its width. */
  ghost predicate Counted(s: GateState) { s.count == OpenOrders(s) % TWO_POW_32 }

  lemma StepCounts(s: GateState, e: Event, t: GateState)
    requires Counted(s) && e.Advance? && t == Step(s, e)
    ensures Counted(t) && OpenOrders(s) <= OpenOrders(t) <= OpenOrders(s) + 1
  {
    StepKeepsCounterLaw(s, e, t);
    OpenOrdersOfStep(s, e, t);
  }

  lemma {:induction false} RepeatCounts(s: GateState, e: Event, k: nat)
    requires Counted(s) && e.Advance?
    ensures Counted(Repeat(s, e, k)) && OpenOrders(s) <= OpenOrders(Repeat(s, e, k)) <= OpenOrders(s) + k
  {
    if k > 0 {
      RepeatCounts(s, e, k - 1);
      StepCounts(Repeat(s, e, k - 1), e, Repeat(s, e, k));
    }
  }

  /** `t` is `s` with the calls base, ..., base + k - 1 on the wire, each of which paid a token. */
  ghost predicate BurstOut(s: GateState, t: GateState, base: nat, k: nat) {
    && t == s.(bucket := s.bucket.(tokens := s.bucket.tokens - k as real),
               nonce := t.nonce, calls := t.calls, log := t.log)
    && Unused(t, base + k) && OnTheWire(t.calls, base, 0, k)
    && Size(t.calls, Unresolved) == Size(s.calls, Unresolved) + k
    && OpenOrders(t) == OpenOrders(s)
  }

  lemma SameResidue(a: int, b: int)
    requires a <= b < a + TWO_POW_32 && a % TWO_POW_32 == b % TWO_POW_32
    ensures a == b
  {
  }

  /** Steps that leave the counter where it was have opened nothing. */
  lemma NoneOpened(u: GateState, e: Event, k: nat)
    requires e.Advance? && Counted(u) && Repeat(u, e, k).count == u.count && k < TWO_POW_32
    ensures OpenOrders(Repeat(u, e, k)) == OpenOrders(u)
  {
    RepeatCounts(u, e, k);
    SameResidue(OpenOrders(u), OpenOrders(Repeat(u, e, k)));
  }

  lemma BurstGrows(s: GateState, u: GateState, t: GateState, e: Event, base: nat, k: nat)
    requires s.feed == Live && s.count < s.config.maxOpenOrders && Counted(s) && BurstOut(s, u, base, k)
    requires (k + 1) as real <= s.bucket.tokens <= s.bucket.capacity
    requires e == Turn(s, base + k) && t == Repeat(u, e, 7)
    ensures BurstOut(s, t, base, k + 1)
  {
    OneMoreOnTheWire(u, e, base, k);
    NoneOpened(u, e, 7);
  }

  lemma {:induction false} BurstGoesThrough(s: GateState, base: nat, k: nat)
    requires s.feed == Live && s.count < s.config.maxOpenOrders && Unused(s, base) && Counted(s)
    requires k as real <= s.bucket.tokens <= s.bucket.capacity
    ensures BurstOut(s, Burst(s, base, k), base, k)
  {
    if k > 0 {
      BurstGoesThrough(s, base, k - 1);
      BurstGrows(s, Burst(s, base, k - 1), Burst(s, base, k), Turn(s, base + k - 1), base, k - 1);
    }
  }

  /** `r` is `t` with the first `k` of its calls base, ..., base + all - 1 answered: as many orders
      more are open. */
  ghost predicate AnsweredSoFar(t: GateState, r: GateState, base: nat, k: nat, all: nat) {
    && r == t.(count := r.count, calls := r.calls, log := r.log)
    && r.calls.Keys == t.calls.Keys && OnTheWire(r.calls, base, k, all)
    && Size(r.calls, Unresolved) == Size(t.calls, Unresolved) - k
    && OpenOrders(r) == OpenOrders(t) + k
  }

  lemma OneAnswer(t: GateState, e: Event)
    requires e.Advance? && e.accepted && e.call in t.calls && t.calls[e.call].Dispatched?
    ensures var r := Step(t, e);
      && r == t.(count := (t.count + 1) % TWO_POW_32, calls := t.calls[e.call := Finished], log := r.log)
      && Size(r.calls, Unresolved) == Size(t.calls, Unresolved) - 1 && OpenOrders(r) == OpenOrders(t) + 1
  {
    SizeAfterMove(t.calls, e.call, Finished, Unresolved);
    CountSnoc(t.log, Replied(e.call, true), IsOpen);
    CountSnoc(t.log, Replied(e.call, true), IsClose);
  }

  lemma OneMoreAnswered(t: GateState, u: GateState, e: Event, r: GateState, base: nat, k: nat, all: nat)
    requires AnsweredSoFar(t, u, base, k, all) && k < all && e.Advance? && e.accepted && e.call == base + k
    requires r == Step(u, e)
    ensures AnsweredSoFar(t, r, base, k + 1, all)
  {
    OneAnswer(u, e);
  }

  lemma {:induction false} AnswersOpen(s: GateState, t: GateState, base: nat, k: nat, all: nat)
    requires k <= all && OnTheWire(t.calls, base, 0, all)
    ensures AnsweredSoFar(t, Answers(s, t, base, k), base, k, all)
  {
    if k > 0 {
      AnswersOpen(s, t, base, k - 1, all);
      var u, e, r := Answers(s, t, base, k - 1), Turn(s, base + k - 1), Answers(s, t, base, k);
      assert r == Step(u, e);
      OneMoreAnswered(t, u, e, r, base, k - 1, all);
    }
  }

  lemma {:induction false} AnswersStayCounted(s: GateState, t: GateState, base: nat, k: nat)
    requires Counted(t)
    ensures Counted(Answers(s, t, base, k))
  {
    if k > 0 {
      var u, e := Answers(s, t, base, k - 1), Turn(s, base + k - 1);
      AnswersStayCounted(s, t, base, k - 1);
      StepKeepsCounterLaw(u, e, Step(u, e));
    }
  }

  // The runs that go there.

  /** A run from `s` to `t` without closes, with never more than `limit` calls unresolved. */
  ghost predicate Leads(events: seq<Event>, tr: seq<GateState>, s: GateState, t: GateState, limit: nat) {
    && IsRun(events, tr) && tr[0] == s && tr[|events|] == t
    && AtMostUnresolved(tr, |events|, limit)
    && forall k :: 0 <= k < |events| ==> events[k] != Close
  }

  ghost predicate Reaches(s: GateState, t: GateState, limit: nat) {
    exists events, tr :: Leads(events, tr, s, t, limit)
  }

  lemma ReachesItself(s: GateState, limit: nat)
    requires Size(s.calls, Unresolved) <= limit
    ensures Reaches(s, s, limit)
  {
    assert Leads([], [s], s, s, limit);
  }

  lemma OneStepFurther(s: GateState, t: GateState, e: Event, limit: nat)
    requires Reaches(s, t, limit) && e != Close && Size(Step(t, e).calls, Unresolved) <= limit
    ensures Reaches(s, Step(t, e), limit)
  {
    var events, tr :| Leads(events, tr, s, t, limit);
    assert Leads(events + [e], tr + [Step(t, e)], s, Step(t, e), limit);
  }

  lemma OthersStayPut(s: GateState, e: Event)
    requires e.Advance?
    ensures Step(s, e).calls - {e.call} == s.calls - {e.call}
  {
    var t := Step(s, e);
    assert t.calls == s.calls || (e.call in t.calls && t.calls == s.calls[e.call := t.calls[e.call]]);
  }

  lemma {:induction false} OthersStay(s: GateState, e: Event, k: nat)
    requires e.Advance?
    ensures Repeat(s, e, k).calls - {e.call} == s.calls - {e.call}
  {
    if k > 0 {
      OthersStay(s, e, k - 1);
      OthersStayPut(Repeat(s, e, k - 1), e);
    }
  }

  /** However far a call has come, it is one unresolved call at most. */
  lemma OneCallMore(s: GateState, e: Event, k: nat)
    requires e.Advance?
    ensures Size(Repeat(s, e, k).calls, Unresolved) <= Size(s.calls, Unresolved) + 1
  {
    var before, after := s.calls, Repeat(s, e, k).calls;
    OthersStay(s, e, k);
    assert CallsIn(after, Unresolved) - {e.call} == CallsIn(after - {e.call}, Unresolved);
    assert CallsIn(before, Unresolved) - {e.call} == CallsIn(before - {e.call}, Unresolved);
    Without(CallsIn(before, Unresolved), e.call);
    Without(CallsIn(after, Unresolved), e.call);
  }

  lemma {:induction false} RepeatIsReached(start: GateState, s: GateState, e: Event, k: nat, limit: nat)
    requires Reaches(start, s, limit) && e.Advance? && Size(s.calls, Unresolved) + 1 <= limit
    ensures Reaches(start, Repeat(s, e, k), limit)
  {
    if k > 0 {
      RepeatIsReached(start, s, e, k - 1, limit);
      OneCallMore(s, e, k);
      OneStepFurther(start, Repeat(s, e, k - 1), e, limit);
    }
  }

  lemma {:induction false} BurstIsReached(start: GateState, s: GateState, base: nat, k: nat, limit: nat)
    requires s.feed == Live && s.count < s.config.maxOpenOrders && Unused(s, base) && Counted(s)
    requires k as real <= s.bucket.tokens <= s.bucket.capacity
    requires Reaches(start, s, limit) && Size(s.calls, Unresolved) + k <= limit
    ensures Reaches(start, Burst(s, base, k), limit)
  {
    if k > 0 {
      BurstIsReached(start, s, base, k - 1, limit);
      BurstGoesThrough(s, base, k - 1);
      RepeatIsReached(start, Burst(s, base, k - 1), Turn(s, base + k - 1), 7, limit);
    }
  }

  lemma AnswerIsReached(start: GateState, t: GateState, e: Event, limit: nat)
    requires e.Advance? && e.accepted && e.call in t.calls && t.calls[e.call].Dispatched?
    requires Reaches(start, t, limit) && Size(t.calls, Unresolved) <= limit
    ensures Reaches(start, Step(t, e), limit)
  {
    OneAnswer(t, e);
    OneStepFurther(start, t, e, limit);
  }

  lemma {:induction false} AnswersAreReached(
    start: GateState, s: GateState, t: GateState, base: nat, k: nat, all: nat, limit: nat)
    requires k <= all && OnTheWire(t.calls, base, 0, all)
    requires Reaches(start, t, limit) && Size(t.calls, Unresolved) <= limit
    ensures Reaches(start, Answers(s, t, base, k), limit)
  {
    if k > 0 {
      AnswersAreReached(start, s, t, base, k - 1, all, limit);
      var u, e := Answers(s, t, base, k - 1), Turn(s, base + k - 1);
      AnswersOpen(s, t, base, k - 1, all);
      AnswerIsReached(start, u, e, limit);
    }
  }

  /** A live gate that `start` leads to, with nothing unresolved and tokens for `tokens` more calls. */
  ghost predicate Ready(start: GateState, s: GateState, base: nat, tokens: nat, limit: nat) {
    && s.feed == Live && s.config == start.config && Unused(s, base) && Counted(s)
    && tokens as real <= s.bucket.tokens <= s.bucket.capacity
    && Reaches(start, s, limit) && Size(s.calls, Unresolved) == 0
  }

  /** From any live gate below its cap, up to `limit` calls that all pass the risk check before the
      first of them is answered open an order each, even past the end of the counter. */
  lemma RoundOpens(start: GateState, s: GateState, base: nat, k: nat, tokens: nat, limit: nat)
    returns (t: GateState)
    requires Ready(start, s, base, tokens, limit) && s.count < s.config.maxOpenOrders
    requires k <= limit && k <= tokens
    ensures Ready(start, t, base + k, tokens - k, limit) && OpenOrders(t) == OpenOrders(s) + k
  {
    var u := Burst(s, base, k);
    t := Answers(s, u, base, k);
    BurstGoesThrough(s, base, k);
    BurstIsReached(start, s, base, k, limit);
    AnswersOpen(s, u, base, k, k);
    AnswersStayCounted(s, u, base, k);
    AnswersAreReached(start, s, u, base, k, k, limit);
  }

  /** One call at a time. */
  lemma {:induction false} SinglesOpen(start: GateState, s: GateState, k: nat, tokens: nat, limit: nat)
    returns (t: GateState)
    requires Ready(start, s, 0, tokens, limit) && OpenOrders(s) == 0 && limit >= 1
    requires k < s.config.maxOpenOrders && k <= tokens && k < TWO_POW_32
    ensures Ready(start, t, k, tokens - k, limit) && OpenOrders(t) == k
  {
    if k == 0 {
      t := s;
    } else {
      t := SinglesOpen(start, s, k - 1, tokens, limit);
      t := RoundOpens(start, t, k - 1, 1, tokens - (k - 1), limit);
    }
  }

  lemma FreshGateIsReady(start: GateState, tokens: nat, limit: nat)
    requires start == Opening(start.config, tokens as real, 0.0, 0.0, 0)
    ensures Ready(start, Step(start, FeedChanges(Live)), 0, tokens, limit)
  {
    assert CallsIn(start.calls, Unresolved) == {};
    ReachesItself(start, limit);
    OneStepFurther(start, start, FeedChanges(Live), limit);
  }

  /** Up to one below the cap one call at a time, and then `limit` calls together. */
  lemma FullGateIsReached(start: GateState, s: GateState, max: nat, limit: nat) returns (t: GateState)
    requires max >= 1 && limit >= 1 && max <= TWO_POW_32 && s.config.maxOpenOrders == max
    requires Ready(start, s, 0, max - 1 + limit, limit) && OpenOrders(s) == 0
    ensures Reaches(start, t, limit) && OpenOrders(t) == max - 1 + limit
  {
    t := SinglesOpen(start, s, max - 1, max - 1 + limit, limit);
    t := RoundOpens(start, t, max - 1, limit, limit, limit);
  }

  lemma LeadsFromOpening(events: seq<Event>, tr: seq<GateState>, start: GateState, t: GateState, limit: nat)
    requires Leads(events, tr, start, t, limit) && FreshGate(start)
    ensures CapCase(events, tr, |events|, start.config.maxOpenOrders, limit)
    ensures t.count == OpenOrders(t) % TWO_POW_32
  {
    CounterLaw(events, tr, |events|);
  }

  lemma CapIsReached(start: GateState, max: nat, limit: nat) returns (t: GateState)
    requires ConcurrentCap(max, limit) < TWO_POW_32 && start.config.maxOpenOrders == max
    requires start == Opening(start.config, ConcurrentCap(max, limit) as real, 0.0, 0.0, 0)
    ensures Reaches(start, t, limit) && OpenOrders(t) == ConcurrentCap(max, limit)
  {
    FreshGateIsReady(start, ConcurrentCap(max, limit), limit);
    t := Step(start, FeedChanges(Live));
    if max > 0 && limit > 0 {
      t := FullGateIsReached(start, t, max, limit);
    }
  }

  /** The cap is attained: for every configured cap and every `limit` for which it fits the counter,
      there is a run from a fresh gate, with never more than `limit` calls between the risk check and
      the answer of the exchange, that ends with that many open orders. */
  lemma CapIsAttained(max: nat, limit: nat) returns (events: seq<Event>, tr: seq<GateState>)
    requires ConcurrentCap(max, limit) < TWO_POW_32
    ensures CapCase(events, tr, |events|, max, limit)
    ensures OpenOrders(tr[|events|]) == tr[|events|].count == ConcurrentCap(max, limit)
  {
    var start := Opening(RiskConfig(None, max), ConcurrentCap(max, limit) as real, 0.0, 0.0, 0);
    var t := CapIsReached(start, max, limit);
    events, tr :| Leads(events, tr, start, t, limit);
    LeadsFromOpening(events, tr, start, t, limit);
  }

  // Past the counter.

  /** As many calls together as take the counter further or back to zero: one, unless the counter is
      one below the cap. */
  lemma OpensFurther(start: GateState, s: GateState, base: nat, tokens: nat, limit: nat)
    returns (t: GateState, k: nat)
    requires Ready(start, s, base, tokens, limit) && s.count < s.config.maxOpenOrders && tokens >= TWO_POW_32
    requires ConcurrentCap(s.config.maxOpenOrders, limit) >= TWO_POW_32
    ensures 1 <= k <= TWO_POW_32 && Ready(start, t, base + k, tokens - k, limit)
    ensures t.count < t.config.maxOpenOrders && OpenOrders(t) == OpenOrders(s) + k
  {
    var further := s.count + 1 < s.config.maxOpenOrders && s.count + 1 < TWO_POW_32;
    k := if further then 1 else TWO_POW_32 - s.count;
    t := RoundOpens(start, s, base, k, tokens, limit);
    WrapAdds(OpenOrders(s), k);
    assert t.count == if further then s.count + 1 else 0;
  }

  lemma {:induction false} OpensFarther(
    start: GateState, s: GateState, base: nat, tokens: nat, limit: nat, rounds: nat) returns (t: GateState)
    requires Ready(start, s, base, tokens, limit) && s.count < s.config.maxOpenOrders
    requires tokens >= rounds * TWO_POW_32
    requires ConcurrentCap(s.config.maxOpenOrders, limit) >= TWO_POW_32
    ensures Reaches(start, t, limit) && OpenOrders(t) >= OpenOrders(s) + rounds
    decreases rounds
  {
    if rounds == 0 {
      t := s;
    } else {
      var u, k := OpensFurther(start, s, base, tokens, limit);
      t := OpensFarther(start, u, base + k, tokens - k, limit, rounds - 1);
    }
  }

  /** Where max_open_orders - 1 + limit does not fit the counter there is no cap at all: the counter
      comes round to zero, and the open orders grow past every bound. */
  lemma NoBoundPastTheCounter(max: nat, limit: nat, bound: nat)
    returns (events: seq<Event>, tr: seq<GateState>)
    requires ConcurrentCap(max, limit) >= TWO_POW_32
    ensures CapCase(events, tr, |events|, max, limit) && OpenOrders(tr[|events|]) > bound
  {
    var rounds := bound + 1;
    var tokens: nat := rounds * TWO_POW_32;
    var start := Opening(RiskConfig(None, max), tokens as real, 0.0, 0.0, 0);
    FreshGateIsReady(start, tokens, limit);
    var t := OpensFarther(start, Step(start, FeedChanges(Live)), 0, tokens, limit, rounds);
    events, tr :| Leads(events, tr, start, t, limit);
    LeadsFromOpening(events, tr, start, t, limit);
  }

  /** A run from a fresh gate, with never more than `limit` calls unresolved. */
  ghost predicate CapCase(events: seq<Event>, tr: seq<GateState>, n: nat, max: nat, limit: nat) {
    && IsRun(events, tr) && n <= |events| && FreshGate(tr[0]) && tr[0].config.maxOpenOrders == max
    && AtMostUnresolved(tr, n, limit)
  }

  ghost predicate AlwaysWithin(max: nat, limit: nat, bound: int) {
    forall events: seq<Event>, tr: seq<GateState>, n: nat ::
      CapCase(events, tr, n, max, limit) ==> OpenOrders(tr[n]) <= bound
  }

  /** The cap on open orders, for every configured cap and every number of overlapping calls: a number
      bounds the open orders of all runs with at most `limit` calls between the risk check and the
      answer of the exchange if and only if max_open_orders - 1 + limit (or zero, if one of them is
      zero) fits the counter and does not exceed that number. */
  lemma CapIsExact(max: nat, limit: nat, bound: int)
    ensures AlwaysWithin(max, limit, bound)
      <==> ConcurrentCap(max, limit) < TWO_POW_32 && ConcurrentCap(max, limit) <= bound
  {
    var cap := ConcurrentCap(max, limit);
    if cap >= TWO_POW_32 {
      var events, tr := NoBoundPastTheCounter(max, limit, if bound >= 0 then bound else 0);
      assert CapCase(events, tr, |events|, max, limit);
    } else if cap > bound {
      var events, tr := CapIsAttained(max, limit);
      assert CapCase(events, tr, |events|, max, limit);
    } else {
      forall events: seq<Event>, tr: seq<GateState>, n: nat | CapCase(events, tr, n, max, limit)
        ensures OpenOrders(tr[n]) <= bound
      {
        OpenOrdersCapped(events, tr, n, limit);
      }
    }
  }
}
