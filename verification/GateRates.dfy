/** The gate uses the bucket and the nonce generator as they are: every run of the gate contains
    one run of each, so their theorems hold for what is dispatched. */
module GateRates {
  import opened Models
  import opened Gate
  import opened GateSafety
  import RateLimiter
  import Nonce

  // The bucket.

  /** The instants at which calls tried to spend a token, in order. */
  function Tries(log: seq<Entry>): seq<real> {
    if log == [] then []
    else Tries(log[..|log| - 1]) + if log[|log| - 1].TokenTried? then [log[|log| - 1].at] else []
  }

  function Verdicts(log: seq<Entry>): (vs: seq<RateLimiter.Verdict>)
    ensures |vs| == |Tries(log)|
  {
    if log == [] then []
    else Verdicts(log[..|log| - 1]) + if log[|log| - 1].TokenTried? then [log[|log| - 1].verdict] else []
  }

  lemma TriesSnoc(log: seq<Entry>, entry: Entry)
    ensures Tries(log + [entry]) == Tries(log) + if entry.TokenTried? then [entry.at] else []
    ensures Verdicts(log + [entry]) == Verdicts(log) + if entry.TokenTried? then [entry.verdict] else []
  {
  }

  /** A step touches the bucket only by one attempt, which it logs. */
  lemma BucketOfStep(s: GateState, e: Event, t: GateState)
    requires t == Step(s, e)
    ensures t.log != s.log ==> |t.log| == |s.log| + 1 && t.log[..|s.log|] == s.log
    ensures if t.log != s.log && t.log[|s.log|].TokenTried?
      then RateLimiter.Consumed(t.bucket, t.log[|s.log|].verdict) == RateLimiter.Consume(s.bucket, t.log[|s.log|].at)
      else t.bucket == s.bucket
  {
  }

  lemma ExtendBucketRun(
    ts: seq<real>, bt: seq<RateLimiter.Bucket>, vs: seq<RateLimiter.Verdict>,
    at: real, b: RateLimiter.Bucket, v: RateLimiter.Verdict)
    requires RateLimiter.IsRun(ts, bt, vs) && RateLimiter.Consumed(b, v) == RateLimiter.Consume(bt[|ts|], at)
    ensures RateLimiter.IsRun(ts + [at], bt + [b], vs + [v])
  {
  }

  lemma {:induction false} BucketRuns(events: seq<Event>, tr: seq<GateState>, n: nat)
    returns (bt: seq<RateLimiter.Bucket>)
    requires IsRun(events, tr) && tr[0].log == [] && n <= |events|
    ensures RateLimiter.IsRun(Tries(tr[n].log), bt, Verdicts(tr[n].log))
    ensures bt[0] == tr[0].bucket && bt[|bt| - 1] == tr[n].bucket
  {
    if n == 0 {
      bt := [tr[0].bucket];
    } else {
      bt := BucketRuns(events, tr, n - 1);
      bt := BucketRunStep(tr[n - 1], events[n - 1], tr[n], bt);
    }
  }

  lemma BucketRunStep(s: GateState, e: Event, t: GateState, bt: seq<RateLimiter.Bucket>)
    returns (bt': seq<RateLimiter.Bucket>)
    requires t == Step(s, e)
    requires RateLimiter.IsRun(Tries(s.log), bt, Verdicts(s.log)) && bt[|bt| - 1] == s.bucket
    ensures RateLimiter.IsRun(Tries(t.log), bt', Verdicts(t.log)) && bt'[0] == bt[0] && bt'[|bt'| - 1] == t.bucket
  {
    bt' := bt;
    BucketOfStep(s, e, t);
    if t.log != s.log {
      var entry := t.log[|s.log|];
      assert t.log == s.log + [entry];
      TriesSnoc(s.log, entry);
      if entry.TokenTried? {
        ExtendBucketRun(Tries(s.log), bt, Verdicts(s.log), entry.at, t.bucket, entry.verdict);
        bt' := bt + [t.bucket];
      } else {
        assert Tries(t.log) == Tries(s.log) && Verdicts(t.log) == Verdicts(s.log);
      }
    }
  }

  lemma {:induction false} TokensAreAdmissions(log: seq<Entry>)
    ensures CountIf(log, IsToken) == RateLimiter.Admissions(Verdicts(log), 0, |Verdicts(log)|)
    decreases |log|
  {
    if log != [] {
      var rest, last := log[..|log| - 1], log[|log| - 1];
      TokensAreAdmissions(rest);
      assert !last.TokenTried? ==> Verdicts(log) == Verdicts(rest);
      if last.TokenTried? {
        assert Verdicts(log) == Verdicts(rest) + [last.verdict];
        AdmissionsOfPrefix(Verdicts(rest), last.verdict, |Verdicts(rest)|);
      }
    }
  }

  lemma {:induction false} AdmissionsOfPrefix(vs: seq<RateLimiter.Verdict>, v: RateLimiter.Verdict, n: nat)
    requires n <= |vs|
    ensures RateLimiter.Admissions(vs + [v], 0, n) == RateLimiter.Admissions(vs, 0, n)
  {
    if n > 0 {
      AdmissionsOfPrefix(vs, v, n - 1);
    }
  }

  lemma {:induction false} AdmissionsSplit(vs: seq<RateLimiter.Verdict>, mid: nat, hi: nat)
    requires mid <= hi <= |vs|
    ensures RateLimiter.Admissions(vs, 0, hi) ==
      RateLimiter.Admissions(vs, 0, mid) + RateLimiter.Admissions(vs, mid, hi)
    decreases hi
  {
    if mid < hi {
      AdmissionsSplit(vs, mid, hi - 1);
    }
  }

  lemma {:induction false} AdmissionsOfPrefixes(us: seq<RateLimiter.Verdict>, vs: seq<RateLimiter.Verdict>, n: nat)
    requires us <= vs && n <= |us|
    ensures RateLimiter.Admissions(us, 0, n) == RateLimiter.Admissions(vs, 0, n)
  {
    if n > 0 {
      AdmissionsOfPrefixes(us, vs, n - 1);
    }
  }

  /** Verdicts are only ever appended. */
  lemma {:induction false} VerdictsGrow(events: seq<Event>, tr: seq<GateState>, m: nat, n: nat)
    requires IsRun(events, tr) && m <= n <= |events|
    ensures Verdicts(tr[m].log) <= Verdicts(tr[n].log)
    decreases n
  {
    if m < n {
      VerdictsGrow(events, tr, m, n - 1);
      VerdictsOfStep(tr[n - 1], events[n - 1], tr[n]);
    }
  }

  lemma VerdictsOfStep(s: GateState, e: Event, t: GateState)
    requires t == Step(s, e)
    ensures Verdicts(s.log) <= Verdicts(t.log)
  {
    BucketOfStep(s, e, t);
    if t.log != s.log {
      assert t.log == s.log + [t.log[|s.log|]];
      TriesSnoc(s.log, t.log[|s.log|]);
    }
  }

  /** The calls that have paid and not dispatched yet. */
  function Waiting(s: GateState): nat { Size(s.calls, WithToken) + Size(s.calls, WithNonce) }

  /** The dispatches between two states that cannot have been paid for before the first. */
  function PaidBetween(s: GateState, t: GateState): int { Dispatches(t) - Dispatches(s) - Waiting(s) }

  /** What goes out in a window was waiting at its start or was admitted in it. */
  lemma DispatchesInWindow(events: seq<Event>, tr: seq<GateState>, m: nat, n: nat)
    requires IsRun(events, tr) && tr[0].calls == map[] && tr[0].log == [] && m <= n <= |events|
    ensures var from, vs := |Tries(tr[m].log)|, Verdicts(tr[n].log);
      && from <= |vs|
      && PaidBetween(tr[m], tr[n]) <= RateLimiter.Admissions(vs, from, |vs|)
  {
    var us, vs := Verdicts(tr[m].log), Verdicts(tr[n].log);
    VerdictsGrow(events, tr, m, n);
    TokensAreAdmissions(tr[m].log);
    TokensAreAdmissions(tr[n].log);
    TokensNoncesDispatchesBalance(events, tr, m);
    TokensNoncesDispatchesBalance(events, tr, n);
    AdmissionsOfPrefixes(us, vs, |us|);
    AdmissionsSplit(vs, |us|, |vs|);
  }

  /** The rate limit reaches the wire. In any window of any run, however the calls interleave, the
      orders dispatched are at most the calls that had already paid, a full burst, and what flows in
      from the first attempt of the window to its last (InflowTelescopes gives that amount in closed
      form). A window without an attempt dispatches at most what had already been paid for. */
  lemma DispatchesRateLimited(events: seq<Event>, tr: seq<GateState>, m: nat, n: nat)
    requires IsRun(events, tr) && tr[0].calls == map[] && tr[0].log == [] && m <= n <= |events|
    requires RateLimiter.Sound(tr[0].bucket)
    requires RateLimiter.NonDecreasing(tr[0].bucket.lastUpdate, Tries(tr[n].log))
    ensures var ts, from := Tries(tr[n].log), |Tries(tr[m].log)|;
      && from <= |ts|
      && var inflow := if from < |ts| then RateLimiter.Inflow(ts, tr[0].bucket.rate, from, |ts| - 1) else 0.0;
      && (from == |ts| ==> PaidBetween(tr[m], tr[n]) <= 0)
      && (from < |ts| ==> PaidBetween(tr[m], tr[n]) as real <= tr[0].bucket.capacity + inflow)
  {
    var ts, vs, from := Tries(tr[n].log), Verdicts(tr[n].log), |Tries(tr[m].log)|;
    DispatchesInWindow(events, tr, m, n);
    if from < |ts| {
      var bt := BucketRuns(events, tr, n);
      var admitted := RateLimiter.Admissions(vs, from, |vs|);
      assert PaidBetween(tr[m], tr[n]) as real <= admitted as real;
      RateLimiter.AdmissionsBound(ts, bt, vs, from);
    }
  }

  // The nonces.

  /** A step leaves the generator alone or gives one thread its next turn. */
  lemma NonceOfStep(s: GateState, e: Event, t: GateState)
    requires t == Step(s, e)
    ensures t.nonce == s.nonce ||
      (e.Advance? && e.call in s.calls && s.calls[e.call].TokenSpent? &&
       t.nonce == Nonce.NonceStep(s.nonce, Nonce.Turn(e.call, e.wall)))
  {
  }

  /** The step makes a call's fetch_add, which finds the nonce counter at its last value. */
  predicate WrapsNonce(s: GateState, e: Event) {
    && e.Advance? && e.call in s.calls && s.calls[e.call].TokenSpent?
    && Nonce.Wraps(s.nonce, Nonce.Turn(e.call, e.wall))
  }

  ghost predicate NoNonceWrap(events: seq<Event>, tr: seq<GateState>, n: nat)
    requires n <= |events| && |tr| == |events| + 1
  {
    forall k :: 0 <= k < n ==> !WrapsNonce(tr[k], events[k])
  }

  lemma {:induction false} NonceRuns(events: seq<Event>, tr: seq<GateState>, n: nat)
    returns (turns: seq<Nonce.Turn>, nt: seq<Nonce.NonceState>)
    requires IsRun(events, tr) && n <= |events| && NoNonceWrap(events, tr, n)
    ensures Nonce.IsNonceRun(turns, nt) && nt[0] == tr[0].nonce && nt[|turns|] == tr[n].nonce
    ensures Nonce.NoWrap(turns, nt, |turns|)
  {
    if n == 0 {
      turns, nt := [], [tr[0].nonce];
    } else {
      turns, nt := NonceRuns(events, tr, n - 1);
      var s, e, t := tr[n - 1], events[n - 1], tr[n];
      NonceOfStep(s, e, t);
      if t.nonce != s.nonce {
        turns, nt := turns + [Nonce.Turn(e.call, e.wall)], nt + [t.nonce];
      }
    }
  }

  /** Call `c` drew `nonce`, and it was the `k`-th result of the generator. */
  ghost predicate Drew(s: GateState, c: nat, nonce: U64, k: nat) {
    k < |s.nonce.issued| && s.nonce.issued[k].thread == c && s.nonce.issued[k].nonce == nonce
  }

  predicate HasDrawn(stage: Stage) {
    stage.NonceDrawn? || stage.Dispatched? || stage.Finished?
  }

  ghost predicate OneNonceEach(s: GateState) {
    && (forall k :: 0 <= k < |s.nonce.issued| ==>
        s.nonce.issued[k].thread in s.calls && HasDrawn(s.calls[s.nonce.issued[k].thread]))
    && (forall j, k :: 0 <= j < k < |s.nonce.issued| ==> s.nonce.issued[j].thread != s.nonce.issued[k].thread)
    && (forall c :: c in s.calls && (s.calls[c].NonceDrawn? || s.calls[c].Dispatched?) ==>
        exists k: nat :: Drew(s, c, s.calls[c].nonce, k))
  }

  ghost predicate OneDispatchEach(s: GateState) {
    && (forall i :: 0 <= i < |s.log| && s.log[i].Dispatch? ==>
        && s.log[i].call in s.calls
        && Sent(s.calls[s.log[i].call])
        && exists k: nat :: Drew(s, s.log[i].call, s.log[i].nonce, k))
    && (forall i, j :: 0 <= i < j < |s.log| && s.log[i].Dispatch? && s.log[j].Dispatch? ==>
        s.log[i].call != s.log[j].call)
  }

  predicate Sent(stage: Stage) {
    stage.Dispatched? || stage.Finished?
  }

  /** Nothing was drawn: whoever holds a nonce held it before, whoever has drawn stays past it. */
  ghost predicate SameDraws(s: GateState, t: GateState) {
    && t.nonce.issued == s.nonce.issued
    && (forall c :: c in s.calls && HasDrawn(s.calls[c]) ==> c in t.calls && HasDrawn(t.calls[c]))
    && (forall c :: c in t.calls && (t.calls[c].NonceDrawn? || t.calls[c].Dispatched?) ==>
        c in s.calls && (s.calls[c].NonceDrawn? || s.calls[c].Dispatched?) && s.calls[c].nonce == t.calls[c].nonce)
  }

  /** Call `c`, which had not drawn before, drew the newest result. */
  ghost predicate NewDraw(s: GateState, t: GateState, c: nat) {
    && c in s.calls && s.calls[c].TokenSpent?
    && |t.nonce.issued| == |s.nonce.issued| + 1 && t.nonce.issued[..|s.nonce.issued|] == s.nonce.issued
    && t.nonce.issued[|s.nonce.issued|].thread == c
    && t.calls == s.calls[c := NonceDrawn(s.calls[c].order, t.nonce.issued[|s.nonce.issued|].nonce)]
  }

  lemma NonceStepIssues(s: Nonce.NonceState, t: Nonce.Turn)
    ensures var s' := Nonce.NonceStep(s, t);
      s'.issued == s.issued ||
      (|s'.issued| == |s.issued| + 1 && s'.issued[..|s.issued|] == s.issued && s'.issued[|s.issued|].thread == t.thread)
  {
  }

  lemma StepDraws(s: GateState, e: Event, t: GateState)
    requires t == Step(s, e)
    ensures SameDraws(s, t) || (e.Advance? && NewDraw(s, t, e.call))
  {
    if e.Advance? && e.call in s.calls && s.calls[e.call].TokenSpent? {
      DrawingStepDraws(s, e, t);
    }
  }

  lemma DrawingStepDraws(s: GateState, e: Event, t: GateState)
    requires t == Step(s, e) && e.Advance? && e.call in s.calls && s.calls[e.call].TokenSpent?
    ensures if |t.nonce.issued| == |s.nonce.issued| then SameDraws(s, t) else NewDraw(s, t, e.call)
  {
    assert t.nonce == Nonce.NonceStep(s.nonce, Nonce.Turn(e.call, e.wall));
    NonceStepIssues(s.nonce, Nonce.Turn(e.call, e.wall));
  }

  lemma DrawsKeepOneNonce(s: GateState, t: GateState, c: nat)
    requires OneNonceEach(s) && (SameDraws(s, t) || NewDraw(s, t, c))
    ensures OneNonceEach(t) && s.nonce.issued <= t.nonce.issued
  {
    forall d | d in t.calls && (t.calls[d].NonceDrawn? || t.calls[d].Dispatched?)
      ensures exists k: nat :: Drew(t, d, t.calls[d].nonce, k)
    {
      if NewDraw(s, t, c) && d == c {
        assert Drew(t, d, t.calls[d].nonce, |s.nonce.issued|);
      } else {
        var k: nat :| Drew(s, d, s.calls[d].nonce, k);
        assert Drew(t, d, t.calls[d].nonce, k);
      }
    }
  }

  /** At most one entry, not a dispatch; whoever has dispatched stays past it. */
  ghost predicate SameDispatches(s: GateState, t: GateState) {
    && (t.log == s.log || exists entry: Entry :: !entry.Dispatch? && t.log == s.log + [entry])
    && (forall c :: c in s.calls && Sent(s.calls[c]) ==> c in t.calls && Sent(t.calls[c]))
  }

  /** Call `c`, which had not dispatched before, dispatched under the nonce it held. */
  ghost predicate NewDispatch(s: GateState, t: GateState, c: nat) {
    && c in s.calls && s.calls[c].NonceDrawn?
    && t.log == s.log + [Dispatch(c, s.calls[c].nonce)]
    && t.calls == s.calls[c := Dispatched(s.calls[c].order, s.calls[c].nonce)]
  }

  lemma StepDispatches(s: GateState, e: Event, t: GateState)
    requires t == Step(s, e)
    ensures SameDispatches(s, t) || (e.Advance? && NewDispatch(s, t, e.call))
  {
  }

  lemma DrewLater(s: GateState, t: GateState, c: nat, nonce: U64)
    requires s.nonce.issued <= t.nonce.issued && exists k: nat :: Drew(s, c, nonce, k)
    ensures exists k: nat :: Drew(t, c, nonce, k)
  {
    var k: nat :| Drew(s, c, nonce, k);
    assert Drew(t, c, nonce, k);
  }

  lemma DispatchesKeepOne(s: GateState, t: GateState, c: nat)
    requires OneNonceEach(s) && OneDispatchEach(s) && s.nonce.issued <= t.nonce.issued
    requires SameDispatches(s, t) || NewDispatch(s, t, c)
    ensures OneDispatchEach(t)
  {
    forall i | 0 <= i < |t.log| && t.log[i].Dispatch?
      ensures t.log[i].call in t.calls && Sent(t.calls[t.log[i].call])
      ensures exists k: nat :: Drew(t, t.log[i].call, t.log[i].nonce, k)
    {
      if i < |s.log| {
        assert t.log[i] == s.log[i];
      }
      DrewLater(s, t, t.log[i].call, t.log[i].nonce);
    }
  }

  lemma {:induction false} DispatchInvariant(events: seq<Event>, tr: seq<GateState>, n: nat)
    requires IsRun(events, tr) && FreshGate(tr[0]) && n <= |events|
    ensures OneNonceEach(tr[n]) && OneDispatchEach(tr[n])
  {
    if n > 0 {
      DispatchInvariant(events, tr, n - 1);
      var s, e, t := tr[n - 1], events[n - 1], tr[n];
      var c := if e.Advance? then e.call else 0;
      StepDraws(s, e, t);
      DrawsKeepOneNonce(s, t, c);
      StepDispatches(s, e, t);
      DispatchesKeepOne(s, t, c);
    }
  }

  /** No call sends two orders, and as long as the nonce counter does not wrap no two orders go out
      under the same nonce. */
  lemma DispatchNoncesDistinct(events: seq<Event>, tr: seq<GateState>, n: nat, i: nat, j: nat)
    requires IsRun(events, tr) && FreshGate(tr[0]) && n <= |events|
    requires i < j < |tr[n].log| && tr[n].log[i].Dispatch? && tr[n].log[j].Dispatch?
    ensures tr[n].log[i].call != tr[n].log[j].call
    ensures NoNonceWrap(events, tr, n) ==> tr[n].log[i].nonce != tr[n].log[j].nonce
  {
    DispatchInvariant(events, tr, n);
    if NoNonceWrap(events, tr, n) {
      var turns, nt := NonceRuns(events, tr, n);
      Nonce.NoncesIncreaseIff(turns, nt, tr[0].nonce.counter, |turns|);
      var k: nat :| Drew(tr[n], tr[n].log[i].call, tr[n].log[i].nonce, k);
      var l: nat :| Drew(tr[n], tr[n].log[j].call, tr[n].log[j].nonce, l);
      assert tr[n].nonce.issued[k].thread != tr[n].nonce.issued[l].thread;
    }
  }
}
