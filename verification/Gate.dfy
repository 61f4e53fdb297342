/** Order submission under concurrency: every call is a sequence of atomic steps, and any number of
    calls interleave, with the feed changing and orders closing in between. */
module Gate {
  import opened Models
  import opened Risk
  import RateLimiter
  import Nonce

  /** How far a call has come. */
  datatype Stage =
    | FeedPassed(order: Order)
    | RiskPassed(order: Order)
    | TokenSpent(order: Order)
    | NonceDrawn(order: Order, nonce: U64)
    | Dispatched(order: Order, nonce: U64)
    | Finished

  /** What the calls did, in the order in which they did it. */
  datatype Entry =
    | FeedRead(call: nat, live: bool)
    | RiskChecked(call: nat, passed: bool)
    | TokenTried(call: nat, at: real, verdict: RateLimiter.Verdict)
    | NonceFixed(call: nat, nonce: U64)
    | Dispatch(call: nat, nonce: U64)
    | Replied(call: nat, accepted: bool)
    | OrderClosed

  datatype GateState = GateState(
    feed: FeedState, config: RiskConfig, count: U32, bucket: RateLimiter.Bucket, nonce: Nonce.NonceState,
    calls: map<nat, Stage>, log: seq<Entry>)

  /** The step of a call takes what it needs: the order at the start, the instant for the bucket,
      the wall clock for the nonce, the reply of the exchange at the end. */
  datatype Event =
    | FeedChanges(state: FeedState)
    | Advance(call: nat, order: Order, now: real, wall: U64, accepted: bool)
    | Close

  function At(s: GateState, call: nat, stage: Stage, entry: Entry): GateState {
    s.(calls := s.calls[call := stage], log := s.log + [entry])
  }

  function AdvanceCall(s: GateState, e: Event): GateState
    requires e.Advance?
  {
    if e.call !in s.calls then
      At(s, e.call, if s.feed == Live then FeedPassed(e.order) else Finished, FeedRead(e.call, s.feed == Live))
    else match s.calls[e.call]
    case FeedPassed(order) =>
      var ok := Validate(s.config, s.count, order) == None;
      At(s, e.call, if ok then RiskPassed(order) else Finished, RiskChecked(e.call, ok))
    case RiskPassed(order) =>
      var c := RateLimiter.Consume(s.bucket, e.now);
      At(s.(bucket := c.bucket), e.call,
         if c.verdict == RateLimiter.Admitted then TokenSpent(order) else Finished,
         TokenTried(e.call, e.now, c.verdict))
    case TokenSpent(order) =>
      var drawn := Nonce.NonceStep(s.nonce, Nonce.Turn(e.call, e.wall));
      if |drawn.issued| == |s.nonce.issued| then s.(nonce := drawn)
      else
        var nonce := drawn.issued[|drawn.issued| - 1].nonce;
        At(s.(nonce := drawn), e.call, NonceDrawn(order, nonce), NonceFixed(e.call, nonce))
    case NonceDrawn(order, nonce) =>
      At(s, e.call, Dispatched(order, nonce), Dispatch(e.call, nonce))
    case Dispatched(order, nonce) =>
      At(s.(count := if e.accepted then (s.count + 1) % TWO_POW_32 else s.count), e.call,
         Finished, Replied(e.call, e.accepted))
    case Finished => s
  }

  function Step(s: GateState, e: Event): GateState {
    match e
    case FeedChanges(state) => s.(feed := state)
    case Close => s.(count := (s.count - 1) % TWO_POW_32, log := s.log + [OrderClosed])
    case Advance(_, _, _, _, _) => AdvanceCall(s, e)
  }

  ghost predicate IsRun(events: seq<Event>, tr: seq<GateState>) {
    && |tr| == |events| + 1
    && forall k {:trigger Step(tr[k], events[k])} :: 0 <= k < |events| ==> tr[k + 1] == Step(tr[k], events[k])
  }

  function Opening(config: RiskConfig, capacity: real, rate: real, now: real, wall: U64): GateState {
    GateState(Pending, config, 0, RateLimiter.FullBucket(capacity, rate, now), Nonce.InitialNonce(wall), map[], [])
  }

  ghost predicate FreshGate(s: GateState) {
    exists config, capacity, rate, now, wall: U64 :: s == Opening(config, capacity, rate, now, wall)
  }

  // What each call did, and in which order.

  function StageOf(s: GateState, call: nat): Option<Stage> {
    if call in s.calls then Some(s.calls[call]) else None
  }

  predicate Concerns(entry: Entry, call: nat) {
    !entry.OrderClosed? && entry.call == call
  }

  function EntriesOf(log: seq<Entry>, call: nat): seq<Entry> {
    if log == [] then []
    else
      var last := log[|log| - 1];
      EntriesOf(log[..|log| - 1], call) + if Concerns(last, call) then [last] else []
  }

  /** The first `n` things a call that gets through has to do, and it does each of them once. */
  predicate Script(call: nat, es: seq<Entry>, n: nat)
  {
    && |es| == n <= 5
    && (n > 0 ==> es[0] == FeedRead(call, true))
    && (n > 1 ==> es[1] == RiskChecked(call, true))
    && (n > 2 ==> es[2].TokenTried? && es[2].call == call && es[2].verdict == RateLimiter.Admitted)
    && (n > 3 ==> es[3].NonceFixed? && es[3].call == call)
    && (n > 4 ==> es[4] == Dispatch(call, es[3].nonce))
  }

  predicate Refusal(call: nat, es: seq<Entry>) {
    && es != []
    && var last := es[|es| - 1];
      && Script(call, es[..|es| - 1], |es| - 1)
      && match |es| {
        case 1 => last == FeedRead(call, false)
        case 2 => last == RiskChecked(call, false)
        case 3 => last.TokenTried? && last.call == call && last.verdict != RateLimiter.Admitted
        case 6 => last.Replied? && last.call == call
        case _ => false
      }
  }

  /** What the log holds about a call, by the stage it has reached. */
  predicate Protocol(call: nat, stage: Option<Stage>, es: seq<Entry>) {
    match stage
    case None => es == []
    case Some(FeedPassed(_)) => Script(call, es, 1)
    case Some(RiskPassed(_)) => Script(call, es, 2)
    case Some(TokenSpent(_)) => Script(call, es, 3)
    case Some(NonceDrawn(_, nonce)) => Script(call, es, 4) && es[3].nonce == nonce
    case Some(Dispatched(_, nonce)) => Script(call, es, 5) && es[3].nonce == nonce
    case Some(Finished) => Refusal(call, es)
  }

  /** The edges of a call's automaton: entry `entry` takes it from `from` to `to`. */
  predicate Follows(call: nat, from: Option<Stage>, entry: Entry, to: Stage) {
    match from
    case None => entry.FeedRead? && if entry.live then to.FeedPassed? else to.Finished?
    case Some(FeedPassed(o)) => entry.RiskChecked? && to == if entry.passed then RiskPassed(o) else Finished
    case Some(RiskPassed(o)) =>
      entry.TokenTried? && to == if entry.verdict == RateLimiter.Admitted then TokenSpent(o) else Finished
    case Some(TokenSpent(o)) => entry.NonceFixed? && to == NonceDrawn(o, entry.nonce)
    case Some(NonceDrawn(o, nonce)) => entry == Dispatch(call, nonce) && to == Dispatched(o, nonce)
    case Some(Dispatched(_, _)) => entry.Replied? && to == Finished
    case Some(Finished) => false
  }

  /** The step from `s` to `t` does not concern `call`. */
  ghost predicate LeavesAlone(s: GateState, t: GateState, call: nat) {
    && StageOf(t, call) == StageOf(s, call)
    && (t.log == s.log || exists entry :: !Concerns(entry, call) && t.log == s.log + [entry])
  }

  /** The step from `s` to `t` takes `call` along one edge. */
  ghost predicate TakesAnEdge(s: GateState, t: GateState, call: nat) {
    && call in t.calls
    && |t.log| == |s.log| + 1 && t.log[..|s.log|] == s.log
    && Concerns(t.log[|s.log|], call) && Follows(call, StageOf(s, call), t.log[|s.log|], t.calls[call])
  }

  lemma OtherStepLeavesAlone(s: GateState, e: Event, call: nat)
    requires e.Advance? ==> e.call != call
    ensures LeavesAlone(s, Step(s, e), call)
  {
  }

  lemma OwnStepTakesAnEdge(s: GateState, e: Event)
    requires e.Advance?
    ensures var t := Step(s, e); TakesAnEdge(s, t, e.call) || LeavesAlone(s, t, e.call)
  {
  }

  lemma {:induction false} StepKeepsProtocol(s: GateState, e: Event, call: nat)
    requires Protocol(call, StageOf(s, call), EntriesOf(s.log, call))
    ensures var t := Step(s, e); Protocol(call, StageOf(t, call), EntriesOf(t.log, call))
  {
    var t := Step(s, e);
    if e.Advance? && e.call == call {
      OwnStepTakesAnEdge(s, e);
    } else {
      OtherStepLeavesAlone(s, e, call);
    }
    if TakesAnEdge(s, t, call) {
      EdgeKeeps(s, t, call);
    } else {
      AloneKeeps(s, t, call);
    }
  }

  lemma EdgeKeeps(s: GateState, t: GateState, call: nat)
    requires Protocol(call, StageOf(s, call), EntriesOf(s.log, call)) && TakesAnEdge(s, t, call)
    ensures Protocol(call, StageOf(t, call), EntriesOf(t.log, call))
  {
  }

  lemma AloneKeeps(s: GateState, t: GateState, call: nat)
    requires Protocol(call, StageOf(s, call), EntriesOf(s.log, call)) && LeavesAlone(s, t, call)
    ensures Protocol(call, StageOf(t, call), EntriesOf(t.log, call))
  {
  }

  /** The protocol of every call in every run: no step is skipped, none is done twice, and a call
      that was refused did nothing after the refusal. */
  lemma {:induction false} EveryCallFollowsProtocol(events: seq<Event>, tr: seq<GateState>, n: nat, call: nat)
    requires IsRun(events, tr) && tr[0].calls == map[] && tr[0].log == [] && n <= |events|
    ensures Protocol(call, StageOf(tr[n], call), EntriesOf(tr[n].log, call))
  {
    if n > 0 {
      EveryCallFollowsProtocol(events, tr, n - 1, call);
      StepKeepsProtocol(tr[n - 1], events[n - 1], call);
    }
  }
}
