/** The nonce generator: one call alone, and any number of calls interleaved atom by atom. */
module Nonce {
  import opened Models

  /** An atomic counter; the atoms are sequentially consistent. */
  class AtomicU64 {
    var value: U64

    constructor (value: U64)
      ensures this.value == value
    {
      this.value := value;
    }

    method FetchMax(v: U64) returns (prev: U64)
      modifies this
      ensures prev == old(value) && value == Max(old(value), v)
    {
      prev := value;
      value := if value >= v then value else v;
    }

    method FetchAdd(d: U64) returns (prev: U64)
      modifies this
      ensures prev == old(value) && value == (old(value) + d) % TWO_POW_64
    {
      prev := value;
      value := (value + d) % TWO_POW_64;
    }
  }

  class NonceGenerator {
    const counter: AtomicU64

    constructor (wall: U64)
      ensures fresh(counter) && counter.value == wall
    {
      counter := new AtomicU64(wall);
    }

    /** A call that nobody interrupts: one past the counter and the clock, whichever is ahead. */
    method Next(wall: U64) returns (nonce: U64)
      modifies counter
      ensures nonce == (Max(old(counter.value), wall) + 1) % TWO_POW_64
      ensures counter.value == nonce
    {
      var prev := counter.FetchMax(wall);
      var added := counter.FetchAdd(1);
      nonce := (Max(added, prev) + 1) % TWO_POW_64;
    }
  }

  // Calls interleaved.

  /** Where a thread stands in its call. `start` is the number of the step that began it. */
  datatype Pc =
    | Idle
    | ClockRead(wall: U64, start: nat)
    | Anchored(wall: U64, prev: U64, start: nat)

  /** A finished call: it began at step `start`, and step `end` fixed its result. */
  datatype Issue = Issue(thread: nat, nonce: U64, wall: U64, start: nat, end: nat)

  /** The shared counter, the threads, and the history: the results in the order in which they
      were fixed, the highest clock value read so far, the number of steps. */
  datatype NonceState = NonceState(
    counter: U64, threads: map<nat, Pc>, issued: seq<Issue>, clockMax: int, steps: nat)

  function InitialNonce(wall: U64): NonceState {
    NonceState(wall, map[], [], wall, 0)
  }

  function PcOf(s: NonceState, thread: nat): Pc {
    if thread in s.threads then s.threads[thread] else Idle
  }

  /** `thread` takes its next atomic step; `wall` is what the clock shows, if it is the clock's turn. */
  datatype Turn = Turn(thread: nat, wall: U64)

  function NonceStep(s: NonceState, t: Turn): NonceState {
    match PcOf(s, t.thread)
    case Idle =>
      s.(threads := s.threads[t.thread := ClockRead(t.wall, s.steps)],
         clockMax := Max(s.clockMax, t.wall), steps := s.steps + 1)
    case ClockRead(wall, start) =>
      s.(counter := Max(s.counter, wall),
         threads := s.threads[t.thread := Anchored(wall, s.counter, start)], steps := s.steps + 1)
    case Anchored(wall, prev, start) =>
      s.(counter := (s.counter + 1) % TWO_POW_64,
         threads := s.threads[t.thread := Idle],
         issued := s.issued + [Issue(t.thread, (Max(s.counter, prev) + 1) % TWO_POW_64, wall, start, s.steps)],
         steps := s.steps + 1)
  }

  /** Any schedule whatever is a run: each turn lets one thread take one step. */
  ghost predicate IsNonceRun(turns: seq<Turn>, tr: seq<NonceState>) {
    && |tr| == |turns| + 1
    && forall k {:trigger NonceStep(tr[k], turns[k])} :: 0 <= k < |turns| ==> tr[k + 1] == NonceStep(tr[k], turns[k])
  }

  /** The turn is a fetch_add that finds the counter at its last value. */
  predicate Wraps(s: NonceState, t: Turn) {
    PcOf(s, t.thread).Anchored? && s.counter == TWO_POW_64 - 1
  }

  /** None of the first `n` turns wraps the counter around. */
  ghost predicate NoWrap(turns: seq<Turn>, tr: seq<NonceState>, n: nat)
    requires n <= |turns| && |tr| == |turns| + 1
  {
    forall k :: 0 <= k < n ==> !Wraps(tr[k], turns[k])
  }

  // Drift, in every run.

  /** Nothing in the generator runs ahead of the clocks by more than the number of results. */
  ghost predicate NoDrift(s: NonceState) {
    && s.counter <= s.clockMax + |s.issued|
    && (forall t :: t in s.threads && !s.threads[t].Idle? ==> s.threads[t].wall <= s.clockMax)
    && (forall t :: t in s.threads && s.threads[t].Anchored? ==> s.threads[t].prev <= s.clockMax + |s.issued|)
    && (forall i :: 0 <= i < |s.issued| ==> s.issued[i].nonce <= s.clockMax + |s.issued|)
  }

  lemma TurnKeepsNoDrift(s: NonceState, t: Turn)
    requires NoDrift(s)
    ensures NoDrift(NonceStep(s, t))
  {
  }

  lemma {:induction false} DriftInvariant(turns: seq<Turn>, tr: seq<NonceState>, init: U64, n: nat)
    requires IsNonceRun(turns, tr) && tr[0] == InitialNonce(init) && n <= |turns|
    ensures NoDrift(tr[n])
  {
    if n > 0 {
      DriftInvariant(turns, tr, init, n - 1);
      TurnKeepsNoDrift(tr[n - 1], turns[n - 1]);
    }
  }

  /** Drift: in every run, wrapped or not, the counter and the results are at most the highest clock
      value read plus the number of results. */
  lemma DriftBound(turns: seq<Turn>, tr: seq<NonceState>, init: U64, n: nat)
    requires IsNonceRun(turns, tr) && tr[0] == InitialNonce(init) && n <= |turns|
    ensures tr[n].counter <= tr[n].clockMax + |tr[n].issued|
    ensures forall i :: 0 <= i < |tr[n].issued| ==> tr[n].issued[i].nonce <= tr[n].clockMax + |tr[n].issued|
  {
    DriftInvariant(turns, tr, init, n);
  }

  // Order, as long as nothing wraps.

  /** What a call has anchored stays anchored. */
  ghost predicate NothingLost(s: NonceState) {
    forall t :: t in s.threads && s.threads[t].Anchored? ==>
      s.threads[t].prev <= s.counter && s.threads[t].wall <= s.counter
  }

  /** Calls are finished in the order of their last steps, and each took more than one step. */
  ghost predicate InStepOrder(s: NonceState) {
    && (forall i :: 0 <= i < |s.issued| ==> s.issued[i].start < s.issued[i].end < s.steps)
    && (forall i, j :: 0 <= i < j < |s.issued| ==> s.issued[i].end < s.issued[j].end)
    && (forall t :: t in s.threads && !s.threads[t].Idle? ==> s.threads[t].start < s.steps)
  }

  /** Results grow in the order in which they are fixed, each past its own clock reading. */
  ghost predicate Increasing(issued: seq<Issue>) {
    && (forall i, j :: 0 <= i < j < |issued| ==> issued[i].nonce < issued[j].nonce)
    && (forall i :: 0 <= i < |issued| ==> issued[i].wall < issued[i].nonce)
  }

  ghost predicate UpToCounter(s: NonceState) {
    forall i :: 0 <= i < |s.issued| ==> s.issued[i].nonce <= s.counter
  }

  lemma TurnKeepsStepOrder(s: NonceState, t: Turn)
    requires InStepOrder(s)
    ensures InStepOrder(NonceStep(s, t))
  {
  }

  lemma TurnKeepsOrder(s: NonceState, t: Turn)
    requires NothingLost(s) && Increasing(s.issued) && UpToCounter(s) && !Wraps(s, t)
    ensures var s' := NonceStep(s, t); NothingLost(s') && Increasing(s'.issued) && UpToCounter(s')
  {
    var pc, s' := PcOf(s, t.thread), NonceStep(s, t);
    if pc.Anchored? {
      assert Max(s.counter, pc.prev) == s.counter && s'.counter == s.counter + 1;
      var last := Issue(t.thread, s.counter + 1, pc.wall, pc.start, s.steps);
      assert s'.issued == s.issued + [last];
    }
  }

  lemma {:induction false} StepOrderHolds(turns: seq<Turn>, tr: seq<NonceState>, init: U64, n: nat)
    requires IsNonceRun(turns, tr) && tr[0] == InitialNonce(init) && n <= |turns|
    ensures InStepOrder(tr[n])
  {
    if n > 0 {
      StepOrderHolds(turns, tr, init, n - 1);
      TurnKeepsStepOrder(tr[n - 1], turns[n - 1]);
    }
  }

  lemma {:induction false} OrderHolds(turns: seq<Turn>, tr: seq<NonceState>, init: U64, n: nat)
    requires IsNonceRun(turns, tr) && tr[0] == InitialNonce(init) && n <= |turns| && NoWrap(turns, tr, n)
    ensures NothingLost(tr[n]) && Increasing(tr[n].issued) && UpToCounter(tr[n])
  {
    if n > 0 {
      OrderHolds(turns, tr, init, n - 1);
      TurnKeepsOrder(tr[n - 1], turns[n - 1]);
    }
  }

  lemma IssuedGrows(s: NonceState, t: Turn)
    ensures s.issued <= NonceStep(s, t).issued
    ensures s.clockMax <= NonceStep(s, t).clockMax
  {
  }

  lemma {:induction false} IssuedGrowsAlong(turns: seq<Turn>, tr: seq<NonceState>, m: nat, n: nat)
    requires IsNonceRun(turns, tr) && m <= n <= |turns|
    ensures tr[m].issued <= tr[n].issued && tr[m].clockMax <= tr[n].clockMax
    decreases n
  {
    if m < n {
      IssuedGrowsAlong(turns, tr, m, n - 1);
      IssuedGrows(tr[n - 1], turns[n - 1]);
    }
  }

  /** A wrapping turn hands out zero, which exceeds no clock reading. */
  lemma WrapHandsOutZero(s: NonceState, t: Turn, s': NonceState)
    requires Wraps(s, t) && s' == NonceStep(s, t)
    ensures |s'.issued| == |s.issued| + 1 && s'.issued[|s.issued|].nonce == 0
  {
  }

  /** The exact guarantee of the generator, for any number of threads, any interleaving and any
      clock, forwards or backwards: the results strictly increase in the order of the fetch_add steps
      (so none is repeated) and each exceeds its own clock reading, if and only if no fetch_add found
      the counter at its last value. */
  lemma NoncesIncreaseIff(turns: seq<Turn>, tr: seq<NonceState>, init: U64, n: nat)
    requires IsNonceRun(turns, tr) && tr[0] == InitialNonce(init) && n <= |turns|
    ensures Increasing(tr[n].issued) <==> NoWrap(turns, tr, n)
  {
    if NoWrap(turns, tr, n) {
      OrderHolds(turns, tr, init, n);
    } else {
      var k :| 0 <= k < n && Wraps(tr[k], turns[k]);
      WrapHandsOutZero(tr[k], turns[k], tr[k + 1]);
      IssuedGrowsAlong(turns, tr, k + 1, n);
      assert tr[n].issued[|tr[k].issued|].nonce == 0;
    }
  }

  /** It does happen: seeded at the last clock value, a generator wraps with its first result,
      whoever calls it and whatever the clock shows then. */
  lemma SeedAtTheEndWraps(thread: nat, wall: U64) returns (turns: seq<Turn>, tr: seq<NonceState>)
    ensures turns == [Turn(thread, wall), Turn(thread, wall), Turn(thread, wall)]
    ensures IsNonceRun(turns, tr) && tr[0] == InitialNonce(TWO_POW_64 - 1)
    ensures !NoWrap(turns, tr, 3) && !Increasing(tr[3].issued)
  {
    var t := Turn(thread, wall);
    turns := [t, t, t];
    tr := EveryScheduleRuns(InitialNonce(TWO_POW_64 - 1), turns);
    assert tr[1] == NonceStep(tr[0], turns[0]) && tr[2] == NonceStep(tr[1], turns[1]);
    assert Wraps(tr[2], turns[2]);
    NoncesIncreaseIff(turns, tr, TWO_POW_64 - 1, 3);
  }

  /** A wrap does worse than to start over: two threads that anchored before it both get zero. */
  lemma WrapRepeatsNonce(a: nat, b: nat, wall: U64) returns (turns: seq<Turn>, tr: seq<NonceState>)
    requires a != b
    ensures IsNonceRun(turns, tr) && tr[0] == InitialNonce(TWO_POW_64 - 1) && |turns| == 6
    ensures |tr[6].issued| == 2 && tr[6].issued[0].nonce == tr[6].issued[1].nonce == 0
    ensures tr[6].issued[0].thread == a && tr[6].issued[1].thread == b
  {
    var x, y := Turn(a, wall), Turn(b, wall);
    turns := [x, y, x, y, x, y];
    tr := EveryScheduleRuns(InitialNonce(TWO_POW_64 - 1), turns);
    assert tr[1] == NonceStep(tr[0], turns[0]) && tr[2] == NonceStep(tr[1], turns[1]);
    assert tr[3] == NonceStep(tr[2], turns[2]) && tr[4] == NonceStep(tr[3], turns[3]);
    assert PcOf(tr[4], a) == Anchored(wall, TWO_POW_64 - 1, 0) && PcOf(tr[4], b) == Anchored(wall, TWO_POW_64 - 1, 1);
    assert tr[5] == NonceStep(tr[4], turns[4]) && tr[6] == NonceStep(tr[5], turns[5]);
  }

  /** A condition on the clocks alone that rules a wrap out: the highest reading and the number of
      results together stay within the width. */
  lemma NarrowClocksDoNotWrap(turns: seq<Turn>, tr: seq<NonceState>, init: U64, n: nat)
    requires IsNonceRun(turns, tr) && tr[0] == InitialNonce(init) && n <= |turns|
    requires tr[n].clockMax + |tr[n].issued| < TWO_POW_64
    ensures NoWrap(turns, tr, n)
  {
    forall k | 0 <= k < n ensures !Wraps(tr[k], turns[k]) {
      DriftInvariant(turns, tr, init, k);
      IssuedGrowsAlong(turns, tr, k + 1, n);
      if Wraps(tr[k], turns[k]) {
        WrapHandsOutZero(tr[k], turns[k], tr[k + 1]);
        IssuedGrows(tr[k], turns[k]);
      }
    }
  }

  /** A call that ends before another one begins gets the smaller nonce. */
  lemma CallsInOrder(turns: seq<Turn>, tr: seq<NonceState>, init: U64, n: nat, a: nat, b: nat)
    requires IsNonceRun(turns, tr) && tr[0] == InitialNonce(init) && n <= |turns| && NoWrap(turns, tr, n)
    requires a < |tr[n].issued| && b < |tr[n].issued| && tr[n].issued[a].end < tr[n].issued[b].start
    ensures tr[n].issued[a].nonce < tr[n].issued[b].nonce
  {
    OrderHolds(turns, tr, init, n);
    StepOrderHolds(turns, tr, init, n);
    assert tr[n].issued[b].start < tr[n].issued[b].end;
  }

  /** Taking the maximum with the value that fetch_max saw never changes the result. */
  lemma MaxWithPrevIsIdle(turns: seq<Turn>, tr: seq<NonceState>, init: U64, n: nat, thread: nat)
    requires IsNonceRun(turns, tr) && tr[0] == InitialNonce(init) && n <= |turns| && NoWrap(turns, tr, n)
    requires PcOf(tr[n], thread).Anchored?
    ensures Max(tr[n].counter, PcOf(tr[n], thread).prev) == tr[n].counter
  {
    OrderHolds(turns, tr, init, n);
  }

  /** Three turns in a row of one thread are the uninterrupted call. */
  lemma ThreeTurnsAreNext(s: NonceState, t: nat, wall: U64, w1: U64, w2: U64)
    requires PcOf(s, t) == Idle
    ensures var s' := NonceStep(NonceStep(NonceStep(s, Turn(t, wall)), Turn(t, w1)), Turn(t, w2));
      && |s'.issued| == |s.issued| + 1 && s'.issued[..|s.issued|] == s.issued
      && s'.issued[|s.issued|].nonce == s'.counter == (Max(s.counter, wall) + 1) % TWO_POW_64
      && s'.threads == s.threads[t := Idle]
  {
  }

  lemma {:induction false} EveryScheduleRuns(s: NonceState, turns: seq<Turn>) returns (tr: seq<NonceState>)
    ensures IsNonceRun(turns, tr) && tr[0] == s
    decreases |turns|
  {
    if turns == [] {
      tr := [s];
    } else {
      var n := |turns| - 1;
      tr := EveryScheduleRuns(s, turns[..n]);
      assert forall k :: 0 <= k < n ==> turns[k] == turns[..n][k];
      tr := tr + [NonceStep(tr[n], turns[n])];
    }
  }
}
