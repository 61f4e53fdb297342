/** The generation token: which snapshots a run can still accept. */
module Generations {
  import opened Models
  import opened BookSync
  import opened SyncRuns

  /** The events that abort a session: a lost connection, a full buffer, a snapshot that is too old. */
  predicate Aborts(s: SyncState, e: Event) {
    match e
    case Disconnected => true
    case Delta(_) => s.state == Buffering && |s.buffer| >= MAX_BUFFER_CAPACITY
    case Snapshot(u, g) => s.state == Buffering && g == s.generation && HasGap(s, u)
    case _ => false
  }

  /** How many of the events lo, ..., hi - 1 abort a session. */
  function Aborted(events: seq<Event>, tr: seq<SyncState>, lo: nat, hi: nat): nat
    requires hi < |tr| == |events| + 1
  {
    if hi <= lo then 0
    else Aborted(events, tr, lo, hi - 1) + if Aborts(tr[hi - 1], events[hi - 1]) then 1 else 0
  }

  ghost predicate Unbroken(events: seq<Event>, tr: seq<SyncState>, lo: nat, hi: nat)
    requires hi < |tr| == |events| + 1
  {
    forall k :: lo <= k < hi ==> !Aborts(tr[k], events[k])
  }

  lemma {:induction false} UnbrokenMeansNoneAborted(events: seq<Event>, tr: seq<SyncState>, lo: nat, hi: nat)
    requires hi < |tr| == |events| + 1
    ensures Aborted(events, tr, lo, hi) == 0 <==> Unbroken(events, tr, lo, hi)
    decreases hi
  {
    if lo < hi {
      UnbrokenMeansNoneAborted(events, tr, lo, hi - 1);
    }
  }

  lemma OneStepOfTheGeneration(s: SyncState, e: Event, t: SyncState)
    requires SyncInvariant(s) && t == Step(s, e)
    ensures t.generation == (s.generation + if Aborts(s, e) then 1 else 0) % TWO_POW_64
  {
  }

  /** The counter counts the aborts, modulo its width. */
  lemma {:induction false} GenerationCountsAborts(events: seq<Event>, tr: seq<SyncState>, lo: nat, hi: nat)
    requires IsRun(events, tr) && lo <= hi <= |events|
    ensures tr[hi].generation == (tr[lo].generation + Aborted(events, tr, lo, hi)) % TWO_POW_64
    decreases hi
  {
    if lo < hi {
      GenerationCountsAborts(events, tr, lo, hi - 1);
      InvariantHolds(events, tr, hi - 1);
      OneStepOfTheGeneration(tr[hi - 1], events[hi - 1], tr[hi]);
      var before := Aborted(events, tr, lo, hi - 1);
      AddThenWrap(tr[lo].generation + before, Aborted(events, tr, lo, hi) - before);
    }
  }

  lemma AddThenWrap(a: nat, b: nat)
    requires b <= 1
    ensures (a % TWO_POW_64 + b) % TWO_POW_64 == (a + b) % TWO_POW_64
  {
  }

  lemma WrapDistance(g: U64, count: nat, h: U64)
    requires h == (g + count) % TWO_POW_64
    ensures h == g <==> count % TWO_POW_64 == 0
  {
  }

  /** A token captured after `lo` events is still current after `hi` events exactly when the
      number of aborts in between is a multiple of 2^64. */
  lemma TokenCurrentIff(events: seq<Event>, tr: seq<SyncState>, lo: nat, hi: nat)
    requires IsRun(events, tr) && lo <= hi <= |events|
    ensures tr[hi].generation == tr[lo].generation <==> Aborted(events, tr, lo, hi) % TWO_POW_64 == 0
  {
    GenerationCountsAborts(events, tr, lo, hi);
    WrapDistance(tr[lo].generation, Aborted(events, tr, lo, hi), tr[hi].generation);
  }

  /** Generation safety. A snapshot whose token was captured after `lo` events passes the token
      check exactly when no session was aborted since; otherwise it is reported stale and nothing
      changes. Counting below 2^64 aborts is what the width of the token allows. */
  lemma StaleSnapshotIffAborted(events: seq<Event>, tr: seq<SyncState>, lo: nat, hi: nat)
    requires IsRun(events, tr) && lo <= hi < |events|
    requires events[hi].Snapshot? && events[hi].generation == tr[lo].generation
    requires Aborted(events, tr, lo, hi) < TWO_POW_64
    ensures var o := OnSnapshot(tr[hi], events[hi].update, events[hi].generation);
      && (o.result.Err? && o.result.error.StaleSnapshot? <==> !Unbroken(events, tr, lo, hi))
      && (!Unbroken(events, tr, lo, hi) ==> tr[hi + 1] == tr[hi])
      && (tr[hi].state != Live && tr[hi + 1].state == Live ==> Unbroken(events, tr, lo, hi))
  {
    TokenCurrentIff(events, tr, lo, hi);
    UnbrokenMeansNoneAborted(events, tr, lo, hi);
    assert tr[hi + 1] == Step(tr[hi], events[hi]);
  }
}
