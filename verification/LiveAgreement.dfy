/** The synchroniser against the exchange, over every run. */
module LiveAgreement {
  import opened Models
  import opened OrderBooks
  import opened BookSync
  import opened SyncRuns
  import opened Exchange

  lemma BufferingSessionIsUnique(events: seq<Event>, tr: seq<SyncState>, n: nat, i: nat, i': nat)
    requires n < |tr| == |events| + 1
    requires BufferingSession(events, tr, i, n) && BufferingSession(events, tr, i', n)
    ensures i == i'
  {
  }

  /** A run has at most one live session at a time. */
  lemma LiveSessionIsUnique(events: seq<Event>, tr: seq<SyncState>, n: nat, i: nat, j: nat, i': nat, j': nat)
    requires n < |tr| == |events| + 1
    requires LiveSession(events, tr, i, j, n) && LiveSession(events, tr, i', j', n)
    ensures i == i' && j == j'
  {
    assert tr[i].state == Pending && tr[i'].state == Pending;
    assert tr[j].state == Buffering && tr[j'].state == Buffering;
  }

  lemma LiveBookOfSession(events: seq<Event>, tr: seq<SyncState>, n: nat, i: nat, j: nat)
    requires IsRun(events, tr) && n <= |events| && LiveSession(events, tr, i, j, n)
    ensures tr[n].book == Replay(EMPTY_BOOK, SessionUpdates(events, i, j, n))
  {
    LiveBookIsSnapshotThenDeltas(events, tr, n);
    var i': nat, j': nat :| LiveAndReplayed(events, tr, i', j', n);
    LiveSessionIsUnique(events, tr, n, i, j, i', j');
  }

  /** Two runs that accept the same snapshot and receive the same deltas hold the same book, however
      differently the snapshot fell among the deltas. */
  lemma SnapshotTimingIrrelevant(
    events: seq<Event>, tr: seq<SyncState>, n: nat, i: nat, j: nat,
    events': seq<Event>, tr': seq<SyncState>, n': nat, i': nat, j': nat)
    requires IsRun(events, tr) && n <= |events| && LiveSession(events, tr, i, j, n)
    requires IsRun(events', tr') && n' <= |events'| && LiveSession(events', tr', i', j', n')
    requires SessionUpdates(events, i, j, n) == SessionUpdates(events', i', j', n')
    ensures tr[n].book == tr'[n'].book
  {
    LiveBookOfSession(events, tr, n, i, j);
    LiveBookOfSession(events', tr', n', i', j');
  }

  lemma AcceptedMeansNoGap(events: seq<Event>, tr: seq<SyncState>, j: nat)
    requires IsRun(events, tr) && j < |events| && tr[j].state == Buffering && tr[j + 1].state == Live
    ensures events[j].Snapshot? && !HasGap(tr[j], events[j].update)
  {
    InvariantHolds(events, tr, j);
    IntoLive(tr[j], events[j], tr[j + 1]);
  }

  lemma BufferOfSession(events: seq<Event>, tr: seq<SyncState>, n: nat, i: nat)
    requires IsRun(events, tr) && n <= |events| && BufferingSession(events, tr, i, n)
    ensures tr[n].buffer == Deltas(events, i + 1, n)
  {
    BufferIsSession(events, tr, n);
    var i': nat :| BufferingSession(events, tr, i', n) && tr[n].buffer == Deltas(events, i' + 1, n);
    BufferingSessionIsUnique(events, tr, n, i, i');
  }

  /** Which snapshots bring a session live, over every run: with the current generation, one goes live
      if and only if the session has had no delta yet, or its first delta is not ahead of it. Any
      other one ends the session. */
  lemma SnapshotGoesLiveIff(events: seq<Event>, tr: seq<SyncState>, n: nat, i: nat)
    requires IsRun(events, tr) && n < |events| && BufferingSession(events, tr, i, n)
    requires events[n].Snapshot? && events[n].generation == tr[n].generation
    ensures var us := Deltas(events, i + 1, n);
      if us == [] || us[0].sequence <= events[n].update.sequence
      then LiveSession(events, tr, i, n, n + 1) && tr[n + 1].generation == tr[n].generation
      else StartsOver(tr[n], tr[n + 1])
  {
    var s, e, t := tr[n], events[n], tr[n + 1];
    BufferOfSession(events, tr, n, i);
    assert t == Step(s, e);
    SnapshotStep(s, e, t);
  }

  lemma SnapshotStep(s: SyncState, e: Event, t: SyncState)
    requires s.state == Buffering && e.Snapshot? && e.generation == s.generation && t == Step(s, e)
    ensures if s.buffer == [] || s.buffer[0].sequence <= e.update.sequence
      then t.state == Live && t.generation == s.generation else StartsOver(s, t)
  {
    SnapshotOutcome(s, e.update, e.generation);
  }

  /** How long a session can buffer: a delta joins it if and only if fewer than 2048 came before. */
  lemma SessionOverflowsIff(events: seq<Event>, tr: seq<SyncState>, n: nat, i: nat)
    requires IsRun(events, tr) && n < |events| && BufferingSession(events, tr, i, n) && events[n].Delta?
    ensures if |Deltas(events, i + 1, n)| < 2048
      then BufferingSession(events, tr, i, n + 1) else StartsOver(tr[n], tr[n + 1])
  {
    BufferOfSession(events, tr, n, i);
    DeltaOutcome(tr[n], events[n].update);
    assert tr[n + 1] == Step(tr[n], events[n]);
  }

  lemma FirstDeltaStays(events: seq<Event>, lo: nat, mid: nat, hi: nat, buffer: seq<OrderBookUpdate>)
    requires mid <= hi <= |events| && buffer == Deltas(events, lo, mid) && buffer != []
    ensures Deltas(events, lo, hi) != [] && Deltas(events, lo, hi)[0] == buffer[0]
  {
  }

  /** The gap guard: if the buffer held a delta when the snapshot was accepted, the snapshot is
      at least as recent as the first delta of the session. */
  lemma GuardCoversFirstDelta(events: seq<Event>, tr: seq<SyncState>, n: nat, i: nat, j: nat)
    requires IsRun(events, tr) && n <= |events| && LiveSession(events, tr, i, j, n)
    requires tr[j].buffer != []
    ensures var us := Deltas(events, i + 1, n); us != [] && us[0].sequence <= events[j].update.sequence
  {
    AcceptedMeansNoGap(events, tr, j);
    BufferOfSession(events, tr, j, i);
    FirstDeltaStays(events, i + 1, j, n, tr[j].buffer);
  }

  /** Exchange agreement. In every live state of every run, if the snapshot is faithful and the
      deltas of the session are the exchange's deltas numbered `q` without a gap, the book is the
      exchange's own book at the highest number seen. */
  lemma {:induction false} LiveBookIsExchangeBook(
    events: seq<Event>, tr: seq<SyncState>, n: nat, i: nat, j: nat,
    opening: OrderBookUpdate, feed: seq<OrderBookUpdate>, q: seq<U64>)
    requires IsRun(events, tr) && n <= |events| && LiveSession(events, tr, i, j, n)
    requires IsFeed(opening, feed) && Faithful(events[j].update, opening, feed)
    requires Numbers(q, |feed|) && Deltas(events, i + 1, n) == Pick(feed, q)
    requires NoGap(events[j].update.sequence, q) && SnapshotCounts(events[j].update.sequence, opening)
    ensures Top(events[j].update.sequence, q, |q|) <= |feed|
    ensures tr[n].book == ExchangeBook(opening, feed, Top(events[j].update.sequence, q, |q|))
  {
    LiveBookOfSession(events, tr, n, i, j);
    NoGapReplay(opening, feed, events[j].update, q);
  }

  ghost predicate Consecutive(q: seq<U64>, first: nat) {
    forall k :: 0 <= k < |q| ==> q[k] == first + k
  }

  /** For deltas in order from number `first` on, "no gap" is one comparison. */
  lemma {:induction false} ConsecutiveNoGapIff(s: U64, q: seq<U64>, first: nat)
    requires Consecutive(q, first)
    ensures NoGap(s, q) <==> q == [] || first <= s + 1
    ensures Top(s, q, |q|) == if q == [] then s else Max(s, first + |q| - 1)
  {
    if q != [] && first > s + 1 {
      assert !InReach(s, q, 0);
    }
    forall k | 0 <= k < |q| && first <= s + 1 ensures InReach(s, q, k) {
      ConsecutiveTop(s, q, first, k);
    }
    ConsecutiveTop(s, q, first, |q|);
  }

  lemma {:induction false} ConsecutiveTop(s: U64, q: seq<U64>, first: nat, n: nat)
    requires Consecutive(q, first) && n <= |q|
    ensures Top(s, q, n) == if n == 0 then s else Max(s, first + n - 1)
  {
    if n > 0 {
      ConsecutiveTop(s, q, first, n - 1);
    }
  }

  /** Deltas delivered in order and whole since the connection opened: the guard on the buffer is
      enough. Only when the snapshot met an empty buffer does the caller have to know that the
      first delta follows on from the snapshot. */
  lemma InOrderDeliveryAgrees(
    events: seq<Event>, tr: seq<SyncState>, n: nat, i: nat, j: nat,
    opening: OrderBookUpdate, feed: seq<OrderBookUpdate>, q: seq<U64>, first: nat)
    requires IsRun(events, tr) && n <= |events| && LiveSession(events, tr, i, j, n)
    requires IsFeed(opening, feed) && Faithful(events[j].update, opening, feed)
    requires Numbers(q, |feed|) && Deltas(events, i + 1, n) == Pick(feed, q) && Consecutive(q, first)
    requires SnapshotCounts(events[j].update.sequence, opening)
    requires tr[j].buffer == [] ==> q == [] || first <= events[j].update.sequence + 1
    ensures var last := if q == [] then events[j].update.sequence else Max(events[j].update.sequence, first + |q| - 1);
      last <= |feed| && tr[n].book == ExchangeBook(opening, feed, last)
  {
    if tr[j].buffer != [] {
      GuardCoversFirstDelta(events, tr, n, i, j);
      assert Pick(feed, q)[0].sequence == first;
    }
    ConsecutiveNoGapIff(events[j].update.sequence, q, first);
    LiveBookIsExchangeBook(events, tr, n, i, j, opening, feed, q);
  }

  lemma {:induction false} AdjacentSnapshotAgrees(
    snapshot: OrderBookUpdate, opening: OrderBookUpdate, feed: seq<OrderBookUpdate>, q: seq<U64>)
    requires IsFeed(opening, feed) && Faithful(snapshot, opening, feed) && q != []
    requires Numbers(q, |feed|) && Consecutive(q, snapshot.sequence + 1)
    requires SnapshotCounts(snapshot.sequence, opening)
    ensures snapshot.sequence + |q| <= |feed|
    ensures Replay(EMPTY_BOOK, [snapshot] + Pick(feed, q)) == ExchangeBook(opening, feed, snapshot.sequence + |q|)
  {
    ConsecutiveNoGapIff(snapshot.sequence, q, snapshot.sequence + 1);
    NoGapReplay(opening, feed, snapshot, q);
  }

  lemma OlderSnapshotRejected(s: SyncState, snapshot: OrderBookUpdate)
    requires s.state == Buffering && HasGap(s, snapshot)
    ensures OnSnapshot(s, snapshot, s.generation) ==
      Outcome(Reset(s), Err(SequenceGap(snapshot.sequence, s.buffer[0].sequence)))
  {
  }

  /** The guard asks for more than agreement needs: a faithful snapshot taken just before the
      first buffered delta is turned away although replaying it would give the exchange's book. */
  lemma GuardRejectsAdjacentSnapshot(
    s: SyncState, snapshot: OrderBookUpdate, opening: OrderBookUpdate, feed: seq<OrderBookUpdate>, q: seq<U64>)
    requires s.state == Buffering && s.book == EMPTY_BOOK && q != []
    requires IsFeed(opening, feed) && Faithful(snapshot, opening, feed)
    requires Numbers(q, |feed|) && s.buffer == Pick(feed, q) && Consecutive(q, snapshot.sequence + 1)
    requires SnapshotCounts(snapshot.sequence, opening)
    ensures OnSnapshot(s, snapshot, s.generation) ==
      Outcome(Reset(s), Err(SequenceGap(snapshot.sequence, snapshot.sequence + 1)))
    ensures snapshot.sequence + |q| <= |feed|
    ensures Replay(EMPTY_BOOK, [snapshot] + s.buffer) == ExchangeBook(opening, feed, snapshot.sequence + |q|)
  {
    assert s.buffer[0].sequence == snapshot.sequence + 1;
    OlderSnapshotRejected(s, snapshot);
    AdjacentSnapshotAgrees(snapshot, opening, feed, q);
  }

  /** When the guard goes too far: a snapshot behind the oldest buffered delta would still have given
      the exchange's book, whatever the deltas hold, if and only if it is just behind it and the
      deltas skip no number. */
  lemma NeedlessRejectionIff(opening: OrderBookUpdate, s: U64, q: seq<U64>, size: U64)
    requires opening.sequence == 0 && s <= size && Numbers(q, size) && q != []
    ensures s < q[0] && AlwaysAgrees(opening, s, q, size)
      <==> s + 1 == q[0] && NoGap(s, q) && SnapshotCounts(s, opening)
  {
    AgreementIffNoGap(opening, s, q, size);
    assert InReach(s, q, 0) <==> q[0] <= s + 1;
  }

  // What has to hold of the numbers for a live book to be right.

  /** In every live state of every run whose session got a faithful snapshot numbered `s` and the
      exchange's deltas numbered `q`, the book is the exchange's own, whatever the deltas hold. */
  ghost predicate LiveAlwaysAgrees(opening: OrderBookUpdate, s: U64, q: seq<U64>, size: nat)
    requires Numbers(q, size) && s <= size
  {
    TopInRange(s, q, |q|, size);
    forall events: seq<Event>, tr: seq<SyncState>, n: nat, i: nat, j: nat, feed: seq<OrderBookUpdate> ::
      LiveCase(events, tr, n, i, j, opening, feed, s, q, size)
      ==> tr[n].book == ExchangeBook(opening, feed, Top(s, q, |q|))
  }

  ghost predicate LiveCase(
    events: seq<Event>, tr: seq<SyncState>, n: nat, i: nat, j: nat,
    opening: OrderBookUpdate, feed: seq<OrderBookUpdate>, s: U64, q: seq<U64>, size: nat)
    requires Numbers(q, size)
  {
    && IsRun(events, tr) && n <= |events| && LiveSession(events, tr, i, j, n)
    && IsFeed(opening, feed) && |feed| == size
    && events[j].update.sequence == s && Faithful(events[j].update, opening, feed)
    && Deltas(events, i + 1, n) == Pick(feed, q)
  }

  /** Connect, take the snapshot at once, then receive the deltas. */
  function LiveFeed(snapshot: OrderBookUpdate, us: seq<OrderBookUpdate>): (events: seq<Event>)
    ensures |events| == |us| + 2
    ensures events[0] == Connected && events[1] == Snapshot(snapshot, 0)
    ensures forall k :: 0 <= k < |us| ==> events[k + 2] == Delta(us[k])
  {
    [Connected, Snapshot(snapshot, 0)] + seq(|us|, k requires 0 <= k < |us| => Delta(us[k]))
  }

  lemma {:induction false} LiveFeedStaysLive(
    snapshot: OrderBookUpdate, us: seq<OrderBookUpdate>, tr: seq<SyncState>, n: nat)
    requires IsRun(LiveFeed(snapshot, us), tr) && n <= |us|
    ensures LiveSession(LiveFeed(snapshot, us), tr, 0, 1, n + 2)
    ensures Deltas(LiveFeed(snapshot, us), 1, n + 2) == us[..n]
  {
    var events := LiveFeed(snapshot, us);
    if n == 0 {
      assert tr[1] == Step(tr[0], events[0]) && tr[2] == Step(tr[1], events[1]);
      assert Deltas(events, 1, 1) == [] && Deltas(events, 1, 2) == [];
    } else {
      LiveFeedStaysLive(snapshot, us, tr, n - 1);
      assert tr[n + 2] == Step(tr[n + 1], events[n + 1]);
      assert events[n + 1] == Delta(us[n - 1]);
      assert us[..n] == us[..n - 1] + [us[n - 1]];
    }
  }

  lemma LiveAgreesReplayAgrees(opening: OrderBookUpdate, s: U64, q: seq<U64>, size: U64)
    requires opening.sequence == 0 && s <= size && Numbers(q, size)
    requires LiveAlwaysAgrees(opening, s, q, size)
    ensures AlwaysAgrees(opening, s, q, size)
  {
    TopInRange(s, q, |q|, size);
    forall feed: seq<OrderBookUpdate>, snapshot: OrderBookUpdate |
      IsFeed(opening, feed) && |feed| == size && snapshot.sequence == s && Faithful(snapshot, opening, feed)
      ensures Replay(EMPTY_BOOK, [snapshot] + Pick(feed, q)) == ExchangeBook(opening, feed, Top(s, q, |q|))
    {
      var us := Pick(feed, q);
      var events, n := LiveFeed(snapshot, us), |us| + 2;
      var tr := EveryFeedRuns(events);
      LiveFeedStaysLive(snapshot, us, tr, |us|);
      assert us[..|us|] == us;
      assert LiveCase(events, tr, n, 0, 1, opening, feed, s, q, size);
      LiveBookOfSession(events, tr, n, 0, 1);
    }
  }

  /** The exact condition over runs: the live book is the exchange's in every such run, whatever the
      deltas hold, if and only if no number is skipped and the snapshot is not discarded. */
  lemma LiveAgreementIffNoGap(opening: OrderBookUpdate, s: U64, q: seq<U64>, size: U64)
    requires opening.sequence == 0 && s <= size && Numbers(q, size)
    ensures LiveAlwaysAgrees(opening, s, q, size) <==> NoGap(s, q) && SnapshotCounts(s, opening)
  {
    TopInRange(s, q, |q|, size);
    if NoGap(s, q) && SnapshotCounts(s, opening) {
      forall events: seq<Event>, tr: seq<SyncState>, n: nat, i: nat, j: nat, feed: seq<OrderBookUpdate> |
        LiveCase(events, tr, n, i, j, opening, feed, s, q, size)
        ensures tr[n].book == ExchangeBook(opening, feed, Top(s, q, |q|))
      {
        LiveBookIsExchangeBook(events, tr, n, i, j, opening, feed, q);
      }
    }
    if LiveAlwaysAgrees(opening, s, q, size) {
      LiveAgreesReplayAgrees(opening, s, q, size);
      AgreementIffNoGap(opening, s, q, size);
    }
  }
}
