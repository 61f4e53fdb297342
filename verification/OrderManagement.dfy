/** The order manager as its callers see it: one submission, start to end. */
module OrderManagement {
  import opened Models
  import opened Risk
  import opened Gate
  import RateLimiter
  import Nonce

  datatype SubmitResult =
    | NotLive
    | RiskRefused(error: RiskError)
    | RateRefused(verdict: RateLimiter.Verdict)
    | Placed(nonce: U64)
    | ExchangeRefused(nonce: U64)

  /** What a submission leaves behind, and its result. */
  datatype Submitted = Submitted(count: U32, bucket: RateLimiter.Bucket, counter: U64, result: SubmitResult)

  /** A call that nobody interrupts. A refusal by the feed or by the risk check touches nothing; one
      by the rate limit leaves the nonce alone. */
  function Submit(
    feed: FeedState, config: RiskConfig, count: U32, bucket: RateLimiter.Bucket, counter: U64,
    order: Order, now: real, wall: U64, accepted: bool): Submitted
  {
    if feed != Live then Submitted(count, bucket, counter, NotLive)
    else match Validate(config, count, order)
    case Some(error) => Submitted(count, bucket, counter, RiskRefused(error))
    case None =>
      var c := RateLimiter.Consume(bucket, now);
      var nonce := (Max(counter, wall) + 1) % TWO_POW_64;
      if c.verdict != RateLimiter.Admitted then Submitted(count, c.bucket, counter, RateRefused(c.verdict))
      else if accepted then Submitted((count + 1) % TWO_POW_32, c.bucket, nonce, Placed(nonce))
      else Submitted(count, c.bucket, nonce, ExchangeRefused(nonce))
  }

  class OrderManager {
    const riskManager: RiskManager
    const rateLimiter: RateLimiter.TokenBucket
    const nonceGen: Nonce.NonceGenerator

    constructor (riskManager: RiskManager, capacity: real, perSecond: real, now: real, wall: U64)
      ensures this.riskManager == riskManager && fresh(rateLimiter) && fresh(nonceGen) && fresh(nonceGen.counter)
      ensures rateLimiter.View() == RateLimiter.FullBucket(capacity, perSecond, now)
      ensures nonceGen.counter.value == wall
    {
      this.riskManager := riskManager;
      rateLimiter := new RateLimiter.TokenBucket(capacity, perSecond, now);
      nonceGen := new Nonce.NonceGenerator(wall);
    }

    /** `feed` is what the watch channel shows, `now` and `wall` what the clocks show, and
        `accepted` what the exchange answers if the order gets that far. */
    method SubmitOrder(order: Order, feed: FeedState, now: real, wall: U64, accepted: bool) returns (r: SubmitResult)
      modifies riskManager, rateLimiter, nonceGen.counter
      ensures Submitted(riskManager.openOrderCount, rateLimiter.View(), nonceGen.counter.value, r)
        == Submit(feed, riskManager.config, old(riskManager.openOrderCount), old(rateLimiter.View()),
                  old(nonceGen.counter.value), order, now, wall, accepted)
      ensures r == NotLive <==> feed != Live
      ensures r.NotLive? || r.RiskRefused? ==> rateLimiter.View() == old(rateLimiter.View())
      ensures r.NotLive? || r.RiskRefused? || r.RateRefused? ==>
        && nonceGen.counter.value == old(nonceGen.counter.value)
        && riskManager.openOrderCount == old(riskManager.openOrderCount)
      ensures r.Placed? || r.ExchangeRefused? ==>
        && (r.Placed? <==> accepted)
        && r.nonce == nonceGen.counter.value == (Max(old(nonceGen.counter.value), wall) + 1) % TWO_POW_64
        && riskManager.openOrderCount == (old(riskManager.openOrderCount) + if accepted then 1 else 0) % TWO_POW_32
    {
      if feed != Live {
        return NotLive;
      }
      var risk := riskManager.ValidateOrder(order);
      if risk.Some? {
        return RiskRefused(risk.value);
      }
      var verdict := rateLimiter.TryConsume(now);
      if verdict != RateLimiter.Admitted {
        return RateRefused(verdict);
      }
      var nonce := nonceGen.Next(wall);
      if accepted {
        riskManager.OnOrderOpened();
        r := Placed(nonce);
      } else {
        r := ExchangeRefused(nonce);
      }
    }
  }

  // A submission is a run of the gate in which one call takes all its steps in a row.

  function Repeat(s: GateState, e: Event, n: nat): GateState {
    if n == 0 then s else Step(Repeat(s, e, n - 1), e)
  }

  /** What the log says about the outcome of a call. */
  predicate Reports(log: seq<Entry>, call: nat, result: SubmitResult) {
    && log != []
    && var last := log[|log| - 1];
      match result
      case NotLive => last == FeedRead(call, false)
      case RiskRefused(_) => last == RiskChecked(call, false)
      case RateRefused(v) => last.TokenTried? && last.call == call && last.verdict == v
      case Placed(nonce) => last == Replied(call, true) && |log| > 1 && log[|log| - 2] == Dispatch(call, nonce)
      case ExchangeRefused(nonce) =>
        last == Replied(call, false) && |log| > 1 && log[|log| - 2] == Dispatch(call, nonce)
  }

  /** A call alone in the gate: its states one after the other. */
  ghost predicate Solo(e: Event, tr: seq<GateState>) {
    && |tr| == 9
    && forall k {:trigger Step(tr[k], e)} :: 0 <= k < 8 ==> tr[k + 1] == Step(tr[k], e)
  }

  function SoloRun(s: GateState, e: Event): (tr: seq<GateState>)
    ensures |tr| == 9 && forall k :: 0 <= k < 9 ==> tr[k] == Repeat(s, e, k)
  {
    seq(9, k requires 0 <= k < 9 => Repeat(s, e, k))
  }

  lemma SoloRunIsSolo(s: GateState, e: Event)
    ensures Solo(e, SoloRun(s, e))
  {
  }

  lemma {:induction false} FinishedStays(e: Event, tr: seq<GateState>, m: nat, n: nat)
    requires Solo(e, tr) && e.Advance? && m <= n <= 8
    requires e.call in tr[m].calls && tr[m].calls[e.call] == Finished
    ensures tr[n] == tr[m]
  {
    if m < n {
      FinishedStays(e, tr, m, n - 1);
      assert tr[n] == Step(tr[n - 1], e);
    }
  }

  lemma ThroughTheChecks(e: Event, tr: seq<GateState>)
    requires Solo(e, tr) && e.Advance? && e.call !in tr[0].calls
    requires tr[0].feed == Live && Validate(tr[0].config, tr[0].count, e.order) == None
    requires RateLimiter.Consume(tr[0].bucket, e.now).verdict == RateLimiter.Admitted
    ensures var s, t := tr[0], tr[3];
      t == s.(calls := s.calls[e.call := TokenSpent(e.order)],
              bucket := RateLimiter.Consume(s.bucket, e.now).bucket, log := t.log)
  {
    assert tr[1] == Step(tr[0], e) && tr[2] == Step(tr[1], e) && tr[3] == Step(tr[2], e);
    assert tr[1].calls == tr[0].calls[e.call := FeedPassed(e.order)];
    assert tr[2].calls == tr[0].calls[e.call := RiskPassed(e.order)];
  }

  /** The three turns of the nonce generator. */
  lemma DrawsTheNonce(e: Event, tr: seq<GateState>)
    requires Solo(e, tr) && e.Advance? && e.call in tr[3].calls && tr[3].calls[e.call].TokenSpent?
    requires Nonce.PcOf(tr[3].nonce, e.call) == Nonce.Idle
    ensures var s, t, nonce := tr[3], tr[6], (Max(tr[3].nonce.counter, e.wall) + 1) % TWO_POW_64;
      t == s.(nonce := t.nonce, calls := s.calls[e.call := NonceDrawn(s.calls[e.call].order, nonce)], log := t.log)
      && t.nonce.counter == nonce && t.nonce.threads == s.nonce.threads[e.call := Nonce.Idle]
  {
    var turn := Nonce.Turn(e.call, e.wall);
    assert tr[4] == Step(tr[3], e) && tr[5] == Step(tr[4], e) && tr[6] == Step(tr[5], e);
    Nonce.ThreeTurnsAreNext(tr[3].nonce, e.call, e.wall, e.wall, e.wall);
    var n1 := Nonce.NonceStep(tr[3].nonce, turn);
    assert tr[4] == tr[3].(nonce := n1);
    assert tr[5] == tr[3].(nonce := Nonce.NonceStep(n1, turn));
  }

  lemma OntoTheWire(e: Event, tr: seq<GateState>)
    requires Solo(e, tr) && e.Advance? && e.call in tr[6].calls && tr[6].calls[e.call].NonceDrawn?
    ensures var s, stage := tr[6], tr[6].calls[e.call];
      tr[7] == s.(calls := s.calls[e.call := Dispatched(stage.order, stage.nonce)],
                  log := s.log + [Dispatch(e.call, stage.nonce)])
  {
    assert tr[7] == Step(tr[6], e);
  }

  lemma Answered(e: Event, tr: seq<GateState>)
    requires Solo(e, tr) && e.Advance? && e.call in tr[7].calls && tr[7].calls[e.call].Dispatched?
    ensures var s := tr[7];
      tr[8] == s.(calls := s.calls[e.call := Finished], log := s.log + [Replied(e.call, e.accepted)],
                  count := if e.accepted then (s.count + 1) % TWO_POW_32 else s.count)
  {
    assert tr[8] == Step(tr[7], e);
  }

  /** `t` is `s` with the order of event `e` put on the wire, under the nonce that was next. */
  ghost predicate OnWire(s: GateState, e: Event, t: GateState)
    requires e.Advance?
  {
    var nonce := (Max(s.nonce.counter, e.wall) + 1) % TWO_POW_64;
    && t == s.(calls := s.calls[e.call := Dispatched(e.order, nonce)],
               bucket := RateLimiter.Consume(s.bucket, e.now).bucket, nonce := t.nonce, log := t.log)
    && t.nonce.counter == nonce && t.nonce.threads == s.nonce.threads[e.call := Nonce.Idle]
    && t.log != [] && t.log[|t.log| - 1] == Dispatch(e.call, nonce)
  }

  lemma SevenSteps(e: Event, tr: seq<GateState>)
    requires Solo(e, tr) && e.Advance? && e.call !in tr[0].calls && Nonce.PcOf(tr[0].nonce, e.call) == Nonce.Idle
    requires tr[0].feed == Live && Validate(tr[0].config, tr[0].count, e.order) == None
    requires RateLimiter.Consume(tr[0].bucket, e.now).verdict == RateLimiter.Admitted
    ensures OnWire(tr[0], e, tr[7])
  {
    ThroughTheChecks(e, tr);
    DrawsTheNonce(e, tr);
    OntoTheWire(e, tr);
  }

  /** A call that nothing stops puts its order on the wire with its seventh step. */
  lemma GoesThrough(s: GateState, e: Event)
    requires e.Advance? && e.call !in s.calls && Nonce.PcOf(s.nonce, e.call) == Nonce.Idle
    requires s.feed == Live && Validate(s.config, s.count, e.order) == None
    requires RateLimiter.Consume(s.bucket, e.now).verdict == RateLimiter.Admitted
    ensures OnWire(s, e, Repeat(s, e, 7))
  {
    SoloRunIsSolo(s, e);
    SevenSteps(e, SoloRun(s, e));
  }

  /** The state `t` after an uninterrupted call of event `e` from `s` is what Submit says. */
  ghost predicate SubmittedAs(s: GateState, e: Event, t: GateState)
    requires e.Advance?
  {
    var o := Submit(s.feed, s.config, s.count, s.bucket, s.nonce.counter, e.order, e.now, e.wall, e.accepted);
    && t.count == o.count && t.bucket == o.bucket && t.nonce.counter == o.counter
    && t.calls == s.calls[e.call := Finished] && Reports(t.log, e.call, o.result)
  }

  lemma RefusedBeforeTheBucket(e: Event, tr: seq<GateState>)
    requires Solo(e, tr) && e.Advance? && e.call !in tr[0].calls
    requires tr[0].feed != Live || Validate(tr[0].config, tr[0].count, e.order) != None
    ensures SubmittedAs(tr[0], e, tr[8])
  {
    assert tr[1] == Step(tr[0], e) && tr[2] == Step(tr[1], e);
    assert tr[2].calls == tr[0].calls[e.call := Finished];
    FinishedStays(e, tr, 2, 8);
  }

  lemma RefusedByTheBucket(e: Event, tr: seq<GateState>)
    requires Solo(e, tr) && e.Advance? && e.call !in tr[0].calls
    requires tr[0].feed == Live && Validate(tr[0].config, tr[0].count, e.order) == None
    requires RateLimiter.Consume(tr[0].bucket, e.now).verdict != RateLimiter.Admitted
    ensures SubmittedAs(tr[0], e, tr[8])
  {
    assert tr[1] == Step(tr[0], e) && tr[2] == Step(tr[1], e) && tr[3] == Step(tr[2], e);
    assert tr[1].calls == tr[0].calls[e.call := FeedPassed(e.order)];
    assert tr[2].calls == tr[0].calls[e.call := RiskPassed(e.order)];
    assert tr[3].calls == tr[0].calls[e.call := Finished];
    FinishedStays(e, tr, 3, 8);
  }

  lemma CarriedOut(e: Event, tr: seq<GateState>)
    requires Solo(e, tr) && e.Advance? && e.call !in tr[0].calls && Nonce.PcOf(tr[0].nonce, e.call) == Nonce.Idle
    requires tr[0].feed == Live && Validate(tr[0].config, tr[0].count, e.order) == None
    requires RateLimiter.Consume(tr[0].bucket, e.now).verdict == RateLimiter.Admitted
    ensures SubmittedAs(tr[0], e, tr[8])
  {
    SevenSteps(e, tr);
    Answered(e, tr);
  }

  /** The gate with a single call in it does what SubmitOrder does. */
  lemma SubmissionIsUninterruptedCall(s: GateState, e: Event)
    requires e.Advance? && e.call !in s.calls && Nonce.PcOf(s.nonce, e.call) == Nonce.Idle
    ensures SubmittedAs(s, e, Repeat(s, e, 8))
  {
    var tr := SoloRun(s, e);
    SoloRunIsSolo(s, e);
    if s.feed != Live || Validate(s.config, s.count, e.order) != None {
      RefusedBeforeTheBucket(e, tr);
    } else if RateLimiter.Consume(s.bucket, e.now).verdict != RateLimiter.Admitted {
      RefusedByTheBucket(e, tr);
    } else {
      CarriedOut(e, tr);
    }
  }

  // The feed is read once.

  lemma {:induction false} FeedPlaysNoPart(s: GateState, e: Event, feed: FeedState, k: nat)
    requires e.Advance? && e.call in s.calls
    ensures Repeat(s.(feed := feed), e, k) == Repeat(s, e, k).(feed := feed) && e.call in Repeat(s, e, k).calls
  {
    if k > 0 {
      FeedPlaysNoPart(s, e, feed, k - 1);
      StepIgnoresFeed(Repeat(s, e, k - 1), e, feed);
    }
  }

  lemma StepIgnoresFeed(s: GateState, e: Event, feed: FeedState)
    requires e.Advance? && e.call in s.calls
    ensures Step(s.(feed := feed), e) == Step(s, e).(feed := feed) && e.call in Step(s, e).calls
  {
  }

  lemma {:induction false} FirstStepFirst(s: GateState, e: Event, k: nat)
    ensures Repeat(Step(s, e), e, k) == Repeat(s, e, k + 1)
  {
    if k > 0 {
      FirstStepFirst(s, e, k - 1);
    }
  }

  /** Whatever becomes of the feed after a call has read it, the call goes on exactly as if the feed
      had stayed: an order that nothing else stops goes out although the feed is no longer live. */
  lemma OrderOutlivesFeed(s: GateState, e: Event, feed: FeedState)
    requires e.Advance? && e.call !in s.calls && Nonce.PcOf(s.nonce, e.call) == Nonce.Idle
    requires s.feed == Live && Validate(s.config, s.count, e.order) == None
    requires RateLimiter.Consume(s.bucket, e.now).verdict == RateLimiter.Admitted
    ensures var dark := Step(Step(s, e), FeedChanges(feed));
      && Repeat(dark, e, 6) == Repeat(s, e, 7).(feed := feed)
      && OnWire(s, e, Repeat(s, e, 7))
  {
    FeedPlaysNoPart(Step(s, e), e, feed, 6);
    FirstStepFirst(s, e, 6);
    GoesThrough(s, e);
  }
}
