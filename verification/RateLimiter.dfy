/** The token bucket that guards the exchange's rate limit. Instants and token amounts are reals. */
module RateLimiter {
  import opened Models
  import opened RealArithmetic

  datatype Bucket = Bucket(capacity: real, rate: real, tokens: real, lastUpdate: real)

  /** `Unrepresentable`: the wait is no duration at all (a rate of zero or less, or a wait past the
      largest duration), and building it panics. */
  datatype Verdict = Admitted | Limited(retryAfter: real) | Unrepresentable

  const MAX_DURATION_SECS: real := 18446744073709551616.0

  /** Time between two instants, saturating at zero. */
  function Elapsed(from: real, now: real): real {
    if now >= from then now - from else 0.0
  }

  function Refill(b: Bucket, now: real): Bucket {
    b.(tokens := Min(b.tokens + Elapsed(b.lastUpdate, now) * b.rate, b.capacity), lastUpdate := now)
  }

  function RetryVerdict(b: Bucket): Verdict {
    if b.rate > 0.0 && (1.0 - b.tokens) / b.rate < MAX_DURATION_SECS
    then Limited((1.0 - b.tokens) / b.rate)
    else Unrepresentable
  }

  datatype Consumed = Consumed(bucket: Bucket, verdict: Verdict)

  function Consume(b: Bucket, now: real): Consumed {
    var full := Refill(b, now);
    if full.tokens >= 1.0 then Consumed(full.(tokens := full.tokens - 1.0), Admitted)
    else Consumed(full, RetryVerdict(full))
  }

  function FullBucket(capacity: real, rate: real, now: real): Bucket {
    Bucket(capacity, rate, capacity, now)
  }

  class TokenBucket {
    const capacity: real
    const fillRatePerSec: real
    var tokens: real
    var lastUpdate: real

    ghost function View(): Bucket
      reads this
    {
      Bucket(capacity, fillRatePerSec, tokens, lastUpdate)
    }

    constructor (capacity: real, fillRatePerSec: real, now: real)
      ensures View() == FullBucket(capacity, fillRatePerSec, now)
      ensures tokens == this.capacity == capacity && this.fillRatePerSec == fillRatePerSec && lastUpdate == now
    {
      this.capacity, this.fillRatePerSec := capacity, fillRatePerSec;
      tokens, lastUpdate := capacity, now;
    }

    method TryConsume(now: real) returns (r: Verdict)
      modifies this
      ensures Consumed(View(), r) == Consume(old(View()), now)
    {
      var elapsed := if now >= lastUpdate then now - lastUpdate else 0.0;
      var newTokens := elapsed * fillRatePerSec;
      tokens := Min(tokens + newTokens, capacity);
      lastUpdate := now;
      if tokens >= 1.0 {
        tokens := tokens - 1.0;
        r := Admitted;
      } else {
        var deficit := 1.0 - tokens;
        if fillRatePerSec > 0.0 && deficit / fillRatePerSec < MAX_DURATION_SECS {
          r := Limited(deficit / fillRatePerSec);
        } else {
          r := Unrepresentable;
        }
      }
    }

    /** Reads without writing, and foretells what an attempt at the same instant would get. */
    method AvailableTokens(now: real) returns (available: real)
      ensures Consume(View(), now).verdict == Admitted <==> available >= 1.0
      ensures available == Consume(View(), now).bucket.tokens + if available >= 1.0 then 1.0 else 0.0
    {
      var elapsed := if now >= lastUpdate then now - lastUpdate else 0.0;
      var newTokens := elapsed * fillRatePerSec;
      available := Min(tokens + newTokens, capacity);
    }
  }

  // Runs: one attempt at each of the instants ts[0], ts[1], ...

  /** `tr[k]` is the bucket before attempt `k`, `vs[k]` the verdict on it. */
  ghost predicate IsRun(ts: seq<real>, tr: seq<Bucket>, vs: seq<Verdict>) {
    && |tr| == |ts| + 1 && |vs| == |ts|
    && forall k {:trigger Consume(tr[k], ts[k])} ::
      0 <= k < |ts| ==> Consumed(tr[k + 1], vs[k]) == Consume(tr[k], ts[k])
  }

  ghost predicate NonDecreasing(from: real, ts: seq<real>) {
    && (forall k :: 0 <= k < |ts| ==> from <= ts[k])
    && (forall i, j :: 0 <= i < j < |ts| ==> ts[i] <= ts[j])
  }

  /** How many of the attempts lo, ..., hi - 1 were admitted. */
  function Admissions(vs: seq<Verdict>, lo: nat, hi: nat): nat
    requires hi <= |vs|
  {
    if hi <= lo then 0 else Admissions(vs, lo, hi - 1) + if vs[hi - 1] == Admitted then 1 else 0
  }

  function Paid(v: Verdict): real {
    if v == Admitted then 1.0 else 0.0
  }

  ghost predicate Sound(b: Bucket) {
    0.0 <= b.rate && 0.0 <= b.tokens <= b.capacity
  }

  /** One attempt: what it takes and leaves was there before or flowed in since. */
  lemma AttemptIsPaid(b: Bucket, now: real, c: Bucket, v: Verdict)
    requires Sound(b) && b.lastUpdate <= now && Consumed(c, v) == Consume(b, now)
    ensures Sound(c) && c.capacity == b.capacity && c.rate == b.rate && c.lastUpdate == now
    ensures Paid(v) + c.tokens <= b.tokens + (now - b.lastUpdate) * b.rate
    ensures Paid(v) + c.tokens <= b.capacity
  {
    NonNegative(now - b.lastUpdate, b.rate);
  }

  /** Never a negative amount, never more than the capacity. */
  lemma {:induction false} TokensStayInRange(ts: seq<real>, tr: seq<Bucket>, vs: seq<Verdict>, n: nat)
    requires IsRun(ts, tr, vs) && Sound(tr[0]) && NonDecreasing(tr[0].lastUpdate, ts) && n <= |ts|
    ensures Sound(tr[n]) && tr[n].capacity == tr[0].capacity && tr[n].rate == tr[0].rate
    ensures tr[n].lastUpdate == if n == 0 then tr[0].lastUpdate else ts[n - 1]
  {
    if n > 0 {
      TokensStayInRange(ts, tr, vs, n - 1);
      AttemptIsPaid(tr[n - 1], ts[n - 1], tr[n], vs[n - 1]);
    }
  }

  lemma PaidInRun(ts: seq<real>, tr: seq<Bucket>, vs: seq<Verdict>, n: nat)
    requires IsRun(ts, tr, vs) && Sound(tr[0]) && NonDecreasing(tr[0].lastUpdate, ts) && n < |ts|
    ensures Paid(vs[n]) + tr[n + 1].tokens <= tr[0].capacity
    ensures n > 0 ==> Paid(vs[n]) + tr[n + 1].tokens <= tr[n].tokens + (ts[n] - ts[n - 1]) * tr[0].rate
  {
    TokensStayInRange(ts, tr, vs, n);
    AttemptIsPaid(tr[n], ts[n], tr[n + 1], vs[n]);
  }

  /** What flows in between attempt i and attempt j, interval by interval. */
  function Inflow(ts: seq<real>, rate: real, i: nat, j: nat): real
    requires j < |ts|
  {
    if j <= i then 0.0 else Inflow(ts, rate, i, j - 1) + (ts[j] - ts[j - 1]) * rate
  }

  lemma {:induction false} InflowTelescopes(ts: seq<real>, rate: real, i: nat, j: nat)
    requires i <= j < |ts|
    ensures Inflow(ts, rate, i, j) == (ts[j] - ts[i]) * rate
    decreases j
  {
    if i < j {
      InflowTelescopes(ts, rate, i, j - 1);
      InflowAdds(ts[i], ts[j - 1], ts[j], rate);
    }
  }

  lemma InflowAdds(a: real, b: real, c: real, r: real)
    ensures (b - a) * r + (c - b) * r == (c - a) * r
  {
  }

  /** The accounts of a window: what the attempts i, ..., j took and what is left was one full
      bucket at most, or flowed in since. */
  lemma {:induction false} WindowLedger(ts: seq<real>, tr: seq<Bucket>, vs: seq<Verdict>, i: nat, j: nat)
    requires IsRun(ts, tr, vs) && Sound(tr[0]) && NonDecreasing(tr[0].lastUpdate, ts) && i <= j < |ts|
    ensures Admissions(vs, i, j + 1) as real + tr[j + 1].tokens <= tr[0].capacity + Inflow(ts, tr[0].rate, i, j)
    decreases j
  {
    assert Admissions(vs, i, j + 1) as real == Admissions(vs, i, j) as real + Paid(vs[j]);
    PaidInRun(ts, tr, vs, j);
    if i < j {
      WindowLedger(ts, tr, vs, i, j - 1);
      assert Inflow(ts, tr[0].rate, i, j) == Inflow(ts, tr[0].rate, i, j - 1) + (ts[j] - ts[j - 1]) * tr[0].rate;
    } else {
      assert Admissions(vs, i, j) == 0;
    }
  }

  /** The rate bound: in any window of any run, at most a full burst plus the inflow, and the
      inflow is the length of the window times the rate. */
  lemma WindowBound(ts: seq<real>, tr: seq<Bucket>, vs: seq<Verdict>, i: nat, j: nat)
    requires IsRun(ts, tr, vs) && Sound(tr[0]) && NonDecreasing(tr[0].lastUpdate, ts) && i <= j < |ts|
    ensures Admissions(vs, i, j + 1) as real <= tr[0].capacity + Inflow(ts, tr[0].rate, i, j)
    ensures Inflow(ts, tr[0].rate, i, j) == (ts[j] - ts[i]) * tr[0].rate
  {
    assert Admissions(vs, i, j + 1) as real <= tr[0].capacity + Inflow(ts, tr[0].rate, i, j) by {
      WindowLedger(ts, tr, vs, i, j);
      TokensStayInRange(ts, tr, vs, j + 1);
    }
    InflowTelescopes(ts, tr[0].rate, i, j);
  }

  lemma AdmissionsBound(ts: seq<real>, tr: seq<Bucket>, vs: seq<Verdict>, i: nat)
    requires IsRun(ts, tr, vs) && Sound(tr[0]) && NonDecreasing(tr[0].lastUpdate, ts) && i < |ts|
    ensures Admissions(vs, i, |vs|) as real <= tr[0].capacity + Inflow(ts, tr[0].rate, i, |ts| - 1)
  {
    WindowLedger(ts, tr, vs, i, |ts| - 1);
    TokensStayInRange(ts, tr, vs, |ts|);
  }

  // The metrics read: the amount under one lock, then the instant under the other.

  /** What is shown when the amount was read in state `a` and the instant later, in state `b`. */
  function TornRead(a: Bucket, b: Bucket, now: real): real {
    Min(a.tokens + Elapsed(b.lastUpdate, now) * b.rate, b.capacity)
  }

  /** What flows in between states m and n of a run. */
  function InflowBetween(tr: seq<Bucket>, m: nat, n: nat): real
    requires m < |tr| && n < |tr|
  {
    (tr[n].lastUpdate - tr[m].lastUpdate) * tr[0].rate
  }

  /** An attempt takes at most the token it is admitted for, and leaves at most what flowed in. */
  lemma AttemptTakesOne(b: Bucket, now: real, c: Bucket, v: Verdict, inflow: real)
    requires Sound(b) && b.lastUpdate <= now && Consumed(c, v) == Consume(b, now)
    requires inflow == (now - b.lastUpdate) * b.rate
    ensures 0.0 <= inflow && b.tokens - Paid(v) <= c.tokens <= b.tokens + inflow
  {
    NonNegative(now - b.lastUpdate, b.rate);
    AttemptIsPaid(b, now, c, v);
    assert Elapsed(b.lastUpdate, now) * b.rate == inflow;
    assert Refill(b, now).tokens >= b.tokens;
  }

  lemma {:induction false} TokensBetween(ts: seq<real>, tr: seq<Bucket>, vs: seq<Verdict>, m: nat, n: nat)
    requires IsRun(ts, tr, vs) && Sound(tr[0]) && NonDecreasing(tr[0].lastUpdate, ts) && m <= n <= |ts|
    ensures tr[m].tokens - Admissions(vs, m, n) as real <= tr[n].tokens <= tr[m].tokens + InflowBetween(tr, m, n)
    ensures InflowBetween(tr, m, n) >= 0.0
    decreases n
  {
    if m == n {
      Nothing(tr[n].lastUpdate - tr[m].lastUpdate, tr[0].rate);
    } else {
      var k := n - 1;
      TokensBetween(ts, tr, vs, m, k);
      TokensStayInRange(ts, tr, vs, k);
      TokensStayInRange(ts, tr, vs, n);
      AttemptTakesOne(tr[k], ts[k], tr[n], vs[k], InflowBetween(tr, k, n));
      InflowAdds(tr[m].lastUpdate, tr[k].lastUpdate, tr[n].lastUpdate, tr[0].rate);
      assert Admissions(vs, m, n) as real == Admissions(vs, m, k) as real + Paid(vs[k]);
    }
  }

  /** One amount at most `d` below another stays so when both are refilled alike and capped. */
  lemma RefilledAlike(a: real, b: real, d: real, inflow: real, capacity: real)
    requires a - d <= b && d >= 0.0
    ensures Min(a + inflow, capacity) - d <= Min(b + inflow, capacity)
  {
  }

  /** However many attempts come between the two reads, what is shown is at most the true amount and
      one token for each admission between them, and at least the true amount less what flowed in
      between them; with no attempt in between it is the true amount. */
  lemma TornReadBounds(ts: seq<real>, tr: seq<Bucket>, vs: seq<Verdict>, m: nat, n: nat, now: real)
    requires IsRun(ts, tr, vs) && Sound(tr[0]) && NonDecreasing(tr[0].lastUpdate, ts) && m <= n <= |ts|
    ensures var there, shown := Refill(tr[n], now).tokens, TornRead(tr[m], tr[n], now);
      && shown <= there + Admissions(vs, m, n) as real
      && there - InflowBetween(tr, m, n) <= shown
      && (m == n ==> shown == there)
  {
    TokensBetween(ts, tr, vs, m, n);
    var inflow := Elapsed(tr[n].lastUpdate, now) * tr[n].rate;
    RefilledAlike(tr[m].tokens, tr[n].tokens, Admissions(vs, m, n) as real, inflow, tr[n].capacity);
    RefilledAlike(tr[n].tokens, tr[m].tokens, InflowBetween(tr, m, n), inflow, tr[n].capacity);
  }

  // Optimality: another limiter may turn away attempts that this one admits.

  function Choose(b: Bucket, now: real, take: bool): Bucket {
    var full := Refill(b, now);
    if take then full.(tokens := full.tokens - 1.0) else full
  }

  /** A limiter over the same bucket that takes a token at the attempts it likes, never one that
      is not there. */
  ghost predicate IsChoiceRun(ts: seq<real>, co: seq<Bucket>, takes: seq<bool>) {
    && |co| == |ts| + 1 && |takes| == |ts|
    && forall k {:trigger Choose(co[k], ts[k], takes[k])} :: 0 <= k < |ts| ==>
      && co[k + 1] == Choose(co[k], ts[k], takes[k])
      && (takes[k] ==> Refill(co[k], ts[k]).tokens >= 1.0)
  }

  function Taken(takes: seq<bool>, n: nat): nat
    requires n <= |takes|
  {
    if n == 0 then 0 else Taken(takes, n - 1) + if takes[n - 1] then 1 else 0
  }

  /** The greedy bucket `g` has admitted `ag`, the other one `o` has admitted `ao`. */
  ghost predicate Ahead(g: Bucket, ag: int, o: Bucket, ao: int) {
    && ag >= ao && g.tokens + ag as real >= o.tokens + ao as real
    && g.lastUpdate == o.lastUpdate && g.capacity == o.capacity && g.rate == o.rate
  }

  lemma RefillKeepsAhead(g: Bucket, ag: int, o: Bucket, ao: int, now: real)
    requires Ahead(g, ag, o, ao)
    ensures Ahead(Refill(g, now), ag, Refill(o, now), ao)
  {
    RefilledAlike(o.tokens, g.tokens, (ag - ao) as real, Elapsed(g.lastUpdate, now) * g.rate, g.capacity);
  }

  lemma OneStepAhead(g: Bucket, ag: int, o: Bucket, ao: int, now: real, take: bool, g': Bucket, v: Verdict, o': Bucket)
    requires Ahead(g, ag, o, ao)
    requires Consumed(g', v) == Consume(g, now)
    requires o' == Choose(o, now, take) && (take ==> Refill(o, now).tokens >= 1.0)
    ensures Ahead(g', ag + (if v == Admitted then 1 else 0), o', ao + if take then 1 else 0)
  {
    var fg, fo := Refill(g, now).tokens, Refill(o, now).tokens;
    RefillKeepsAhead(g, ag, o, ao, now);
    TakeOrLeave(fg, ag, fo, ao, take);
  }

  /** The step as plain arithmetic, on the amounts after refilling. */
  lemma TakeOrLeave(fg: real, ag: int, fo: real, ao: int, take: bool)
    requires ag >= ao && fg + ag as real >= fo + ao as real && (take ==> fo >= 1.0)
    ensures var paid, spent := if fg >= 1.0 then 1 else 0, if take then 1 else 0;
      && ag + paid >= ao + spent
      && fg - paid as real + (ag + paid) as real >= fo - spent as real + (ao + spent) as real
  {
  }

  lemma {:induction false} GreedyStaysAhead(
    ts: seq<real>, tr: seq<Bucket>, vs: seq<Verdict>, co: seq<Bucket>, takes: seq<bool>, n: nat)
    requires IsRun(ts, tr, vs) && IsChoiceRun(ts, co, takes) && tr[0] == co[0] && n <= |ts|
    ensures Ahead(tr[n], Admissions(vs, 0, n), co[n], Taken(takes, n))
  {
    if n > 0 {
      var m := n - 1;
      GreedyStaysAhead(ts, tr, vs, co, takes, m);
      OneStepAhead(tr[m], Admissions(vs, 0, m), co[m], Taken(takes, m), ts[m], takes[m], tr[n], vs[m], co[n]);
    }
  }

  /** Greedy admission is optimal at every moment: whatever the capacity, the rate and the
      instants, no way of choosing that the bucket can pay for has admitted more so far. */
  lemma GreedyIsOptimal(
    ts: seq<real>, tr: seq<Bucket>, vs: seq<Verdict>, co: seq<Bucket>, takes: seq<bool>, n: nat)
    requires IsRun(ts, tr, vs) && IsChoiceRun(ts, co, takes) && tr[0] == co[0] && n <= |ts|
    ensures Taken(takes, n) <= Admissions(vs, 0, n)
  {
    GreedyStaysAhead(ts, tr, vs, co, takes, n);
  }

  // Failed attempts leave no trace.

  /** Two buckets that look the same from instant `from` on. */
  ghost predicate SameFrom(a: Bucket, b: Bucket, from: real) {
    && a.capacity == b.capacity && a.rate == b.rate && a.rate >= 0.0
    && a.lastUpdate <= from && b.lastUpdate <= from
    && Refill(a, from) == Refill(b, from)
  }

  /** Refilling in two steps is refilling once: the cap may be applied at any time. */
  lemma RefillComposes(b: Bucket, mid: real, now: real)
    requires b.rate >= 0.0 && b.lastUpdate <= mid <= now
    ensures Refill(Refill(b, mid), now) == Refill(b, now)
  {
    InflowAdds(b.lastUpdate, mid, now, b.rate);
    NonNegative(now - mid, b.rate);
  }

  lemma SameLater(a: Bucket, b: Bucket, mid: real, now: real)
    requires SameFrom(a, b, mid) && mid <= now
    ensures SameFrom(a, b, now) && Consume(a, now) == Consume(b, now)
  {
    RefillComposes(a, mid, now);
    RefillComposes(b, mid, now);
  }

  /** The clock and the parameters of a run, whatever the amounts. */
  lemma {:induction false} ParametersStay(ts: seq<real>, tr: seq<Bucket>, vs: seq<Verdict>, n: nat)
    requires IsRun(ts, tr, vs) && n <= |ts|
    ensures tr[n].capacity == tr[0].capacity && tr[n].rate == tr[0].rate
    ensures tr[n].lastUpdate == if n == 0 then tr[0].lastUpdate else ts[n - 1]
  {
    if n > 0 {
      ParametersStay(ts, tr, vs, n - 1);
      assert Consumed(tr[n], vs[n - 1]) == Consume(tr[n - 1], ts[n - 1]);
    }
  }

  function KeptBefore(keep: seq<bool>, n: nat): nat
    requires n <= |keep|
  {
    if n == 0 then 0 else KeptBefore(keep, n - 1) + if keep[n - 1] then 1 else 0
  }

  /** `us` is what is left of `ts` when the attempts not kept, failures all of them, are struck out. */
  ghost predicate FailuresStruck(ts: seq<real>, vs: seq<Verdict>, keep: seq<bool>, us: seq<real>) {
    && |keep| == |vs| == |ts| && |us| == KeptBefore(keep, |ts|)
    && forall k :: 0 <= k < |ts| ==>
      if keep[k] then KeptBefore(keep, k) < |us| && us[KeptBefore(keep, k)] == ts[k] else vs[k] != Admitted
  }

  lemma OneMoreAttempt(
    a: Bucket, b: Bucket, from: real, now: real, a': Bucket, va: Verdict, kept: bool, b': Bucket, vb: Verdict)
    requires SameFrom(a, b, from) && from <= now && Consumed(a', va) == Consume(a, now)
    requires if kept then Consumed(b', vb) == Consume(b, now) else va != Admitted && b' == b
    ensures SameFrom(a', b', now) && (kept ==> va == vb)
  {
    SameLater(a, b, from, now);
  }

  /** Strike any set of failed attempts from a run: what is left goes exactly as before, with the
      same verdicts and the same waiting times. */
  lemma {:induction false} FailuresAreUnobservable(
    ts: seq<real>, tr: seq<Bucket>, vs: seq<Verdict>, keep: seq<bool>,
    us: seq<real>, pr: seq<Bucket>, ps: seq<Verdict>, n: nat)
    requires IsRun(ts, tr, vs) && NonDecreasing(tr[0].lastUpdate, ts) && tr[0].rate >= 0.0
    requires FailuresStruck(ts, vs, keep, us) && IsRun(us, pr, ps) && pr[0] == tr[0]
    requires n <= |ts|
    ensures KeptBefore(keep, n) <= |us|
    ensures SameFrom(tr[n], pr[KeptBefore(keep, n)], if n == 0 then tr[0].lastUpdate else ts[n - 1])
    ensures forall k :: 0 <= k < n && keep[k] ==> KeptBefore(keep, k) < |us| && ps[KeptBefore(keep, k)] == vs[k]
  {
    if n > 0 {
      var m := n - 1;
      FailuresAreUnobservable(ts, tr, vs, keep, us, pr, ps, m);
      var c := KeptBefore(keep, m);
      OneMoreAttempt(tr[m], pr[c], if m == 0 then tr[0].lastUpdate else ts[m - 1], ts[m],
                     tr[n], vs[m], keep[m], pr[if keep[m] then c + 1 else c], if keep[m] then ps[c] else Admitted);
    }
  }

  // A burst.

  /** A new bucket admits as many attempts at once as its capacity holds whole tokens, and then no more. */
  lemma {:induction false} BurstIsCapacity(
    ts: seq<real>, tr: seq<Bucket>, vs: seq<Verdict>, capacity: real, rate: real, now: real, n: nat)
    requires IsRun(ts, tr, vs) && tr[0] == FullBucket(capacity, rate, now) && n <= |ts|
    requires forall k :: 0 <= k < |ts| ==> ts[k] == now
    ensures tr[n].capacity == capacity && tr[n].lastUpdate == now
    ensures Admissions(vs, 0, n) <= n && tr[n].tokens == capacity - Admissions(vs, 0, n) as real
    ensures Admissions(vs, 0, n) < n ==> tr[n].tokens < 1.0
    ensures forall k :: 0 <= k < n ==> (vs[k] == Admitted <==> (k + 1) as real <= capacity)
  {
    if n > 0 {
      BurstIsCapacity(ts, tr, vs, capacity, rate, now, n - 1);
      assert Consumed(tr[n], vs[n - 1]) == Consume(tr[n - 1], ts[n - 1]);
      AttemptAtOnce(tr[n - 1], now, tr[n], vs[n - 1]);
    }
  }

  lemma AttemptAtOnce(b: Bucket, now: real, c: Bucket, v: Verdict)
    requires Consumed(c, v) == Consume(b, now) && b.lastUpdate == now && b.tokens <= b.capacity
    ensures c == b.(tokens := if b.tokens >= 1.0 then b.tokens - 1.0 else b.tokens)
    ensures v == Admitted <==> b.tokens >= 1.0
  {
    Nothing(Elapsed(now, now), b.rate);
  }

  // The waiting time.

  /** What one attempt comes to: the amount flows in and is capped, then a whole token is taken, or
      there is a wait for what is missing, as long as it is a duration. */
  lemma AttemptOutcome(b: Bucket, now: real, c: Bucket, v: Verdict, elapsed: real, t: real)
    requires Consumed(c, v) == Consume(b, now)
    requires elapsed == if now >= b.lastUpdate then now - b.lastUpdate else 0.0
    requires t == if b.tokens + elapsed * b.rate <= b.capacity then b.tokens + elapsed * b.rate else b.capacity
    ensures c == b.(tokens := if t >= 1.0 then t - 1.0 else t, lastUpdate := now)
    ensures v == Admitted <==> t >= 1.0
    ensures t < 1.0 && b.rate <= 0.0 ==> v == Unrepresentable
    ensures t < 1.0 && b.rate > 0.0 ==>
      v == if (1.0 - t) / b.rate < 18446744073709551616.0 then Limited((1.0 - t) / b.rate) else Unrepresentable
  {
  }

  lemma ReachesOneToken(tokens: real, rate: real, wait: real, dt: real, capacity: real)
    requires rate > 0.0 && capacity >= 1.0 && wait * rate == 1.0 - tokens
    ensures Min(tokens + dt * rate, capacity) >= 1.0 <==> wait <= dt
  {
    Scale(wait, dt, rate);
  }

  /** What a refused attempt would have to wait for a whole token. */
  function Wait(b: Bucket): real
    requires b.rate > 0.0
  {
    (1.0 - b.tokens) / b.rate
  }

  lemma RetryAfterIsExact(b: Bucket, t: real, c: Bucket, v: Verdict, now: real)
    requires b.capacity >= 1.0 && b.rate > 0.0 && t <= now
    requires Consumed(c, v) == Consume(b, t) && v != Admitted
    ensures Consume(c, now).verdict == Admitted <==> t + Wait(c) <= now
  {
    Quotient(1.0 - c.tokens, c.rate);
    ReachesOneToken(c.tokens, c.rate, Wait(c), now - t, c.capacity);
  }

  lemma NoRoomForOneToken(b: Bucket, now: real)
    requires b.capacity < 1.0
    ensures Consume(b, now).verdict != Admitted
  {
  }

  /** After a refused attempt, the wait for the missing part of a token is the exact one (at any later
      instant, the next attempt is admitted if and only if the wait is over) if and only if the bucket
      can hold a token. And that wait is the one promised whenever it is a duration at all. */
  lemma RetryAfterIsExactIff(b: Bucket, t: real, c: Bucket, v: Verdict)
    requires Consumed(c, v) == Consume(b, t) && v != Admitted && b.rate > 0.0
    ensures (forall now :: t <= now ==> (Consume(c, now).verdict == Admitted <==> t + Wait(c) <= now))
      <==> b.capacity >= 1.0
    ensures v == if Wait(c) < 18446744073709551616.0 then Limited(Wait(c)) else Unrepresentable
  {
    if b.capacity >= 1.0 {
      forall now | t <= now ensures Consume(c, now).verdict == Admitted <==> t + Wait(c) <= now {
        RetryAfterIsExact(b, t, c, v, now);
      }
    } else {
      var now := t + Wait(c);
      QuotientSign(1.0 - c.tokens, c.rate);
      NoRoomForOneToken(c, now);
    }
  }

  lemma {:induction false} FailedStretch(ts: seq<real>, tr: seq<Bucket>, vs: seq<Verdict>, n: nat)
    requires IsRun(ts, tr, vs) && NonDecreasing(tr[0].lastUpdate, ts) && tr[0].rate >= 0.0
    requires 0 < n <= |ts| && forall k :: 0 < k < n ==> vs[k] != Admitted
    ensures SameFrom(tr[n], tr[1], ts[n - 1])
  {
    ParametersStay(ts, tr, vs, n);
    if n > 1 {
      FailedStretch(ts, tr, vs, n - 1);
      OneMoreAttempt(tr[n - 1], tr[1], ts[n - 2], ts[n - 1], tr[n], vs[n - 1], false, tr[1], Admitted);
    }
  }

  /** Waiting pays off to the instant, whatever happens meanwhile: after a refusal at ts[0], and
      any number of further refusals, an attempt is admitted if and only if the wait that was
      missing at ts[0] is over, the one promised there if it is a duration. */
  lemma ImpatienceCostsNothing(ts: seq<real>, tr: seq<Bucket>, vs: seq<Verdict>, n: nat)
    requires IsRun(ts, tr, vs) && NonDecreasing(tr[0].lastUpdate, ts)
    requires tr[0].rate > 0.0 && tr[0].capacity >= 1.0
    requires 0 < n < |ts| && forall k :: 0 <= k < n ==> vs[k] != Admitted
    ensures tr[1].rate > 0.0 && (vs[n] == Admitted <==> ts[0] + Wait(tr[1]) <= ts[n])
    ensures vs[0] == if Wait(tr[1]) < 18446744073709551616.0 then Limited(Wait(tr[1])) else Unrepresentable
  {
    FailedStretch(ts, tr, vs, n);
    assert Consumed(tr[1], vs[0]) == Consume(tr[0], ts[0]);
    assert Consumed(tr[n + 1], vs[n]) == Consume(tr[n], ts[n]);
    RetryAfterIsExact(tr[0], ts[0], tr[1], vs[0], ts[n]);
    RetryAfterIsExactIff(tr[0], ts[0], tr[1], vs[0]);
    SameLater(tr[n], tr[1], ts[n - 1], ts[n]);
  }

  /** A bucket that cannot hold one token admits nothing, at any rate and after any wait. */
  lemma {:induction false} SmallBucketNeverAdmits(ts: seq<real>, tr: seq<Bucket>, vs: seq<Verdict>, n: nat)
    requires IsRun(ts, tr, vs) && tr[0].capacity < 1.0 && n <= |ts|
    ensures Admissions(vs, 0, n) == 0
  {
    if n > 0 {
      SmallBucketNeverAdmits(ts, tr, vs, n - 1);
      ParametersStay(ts, tr, vs, n - 1);
      assert Consumed(tr[n], vs[n - 1]) == Consume(tr[n - 1], ts[n - 1]);
    }
  }

  /** Every sequence of instants has a run from every bucket. */
  lemma {:induction false} EveryScheduleRuns(b: Bucket, ts: seq<real>) returns (tr: seq<Bucket>, vs: seq<Verdict>)
    ensures IsRun(ts, tr, vs) && tr[0] == b
    decreases |ts|
  {
    if ts == [] {
      tr, vs := [b], [];
    } else {
      var n := |ts| - 1;
      tr, vs := EveryScheduleRuns(b, ts[..n]);
      assert forall k :: 0 <= k < n ==> ts[k] == ts[..n][k];
      var c := Consume(tr[n], ts[n]);
      tr, vs := tr + [c.bucket], vs + [c.verdict];
    }
  }
}
