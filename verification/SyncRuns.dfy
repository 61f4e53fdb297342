/** Every run of a synchroniser, from its creation on, over any sequence of feed events. */
module SyncRuns {
  import opened Models
  import opened OrderBooks
  import opened BookSync

  datatype Event =
    | Connected
    | Delta(update: OrderBookUpdate)
    | Snapshot(update: OrderBookUpdate, generation: U64)
    | Disconnected
    | ReceiversDropped

  function Step(s: SyncState, e: Event): SyncState {
    match e
    case Connected => OnConnected(s).next
    case Delta(u) => OnDelta(s, u).next
    case Snapshot(u, g) => OnSnapshot(s, u, g).next
    case Disconnected => Reset(s)
    case ReceiversDropped => s.(hasReceiver := false)
  }

  /** The states a run goes through: `tr[k]` is the state after the first `k` events. */
  ghost predicate IsRun(events: seq<Event>, tr: seq<SyncState>) {
    && |tr| == |events| + 1
    && tr[0] == INITIAL
    && forall k {:trigger Step(tr[k], events[k])} :: 0 <= k < |events| ==> tr[k + 1] == Step(tr[k], events[k])
  }

  /** Every event sequence has a run: nothing a feed can do is left out. */
  lemma {:induction false} EveryFeedRuns(events: seq<Event>) returns (tr: seq<SyncState>)
    ensures IsRun(events, tr)
    decreases |events|
  {
    if events == [] {
      tr := [INITIAL];
    } else {
      var n := |events| - 1;
      tr := EveryFeedRuns(events[..n]);
      assert forall k :: 0 <= k < n ==> events[k] == events[..n][k];
      tr := tr + [Step(tr[n], events[n])];
    }
  }

  /** What holds between calls, whatever happened before. */
  ghost predicate SyncInvariant(s: SyncState) {
    && !s.state.Syncing?
    && (s.state == Pending ==> s.book == EMPTY_BOOK && s.buffer == [])
    && (s.state == Buffering ==> s.book == EMPTY_BOOK && |s.buffer| <= 2048)
    && (s.state == Live ==> s.buffer == [])
    && (s.hasReceiver ==> s.watch == s.state)
  }

  lemma StepKeepsInvariant(s: SyncState, e: Event)
    requires SyncInvariant(s)
    ensures SyncInvariant(Step(s, e))
  {
  }

  lemma {:induction false} InvariantHolds(events: seq<Event>, tr: seq<SyncState>, n: nat)
    requires IsRun(events, tr) && n <= |events|
    ensures SyncInvariant(tr[n])
  {
    if n > 0 {
      InvariantHolds(events, tr, n - 1);
      StepKeepsInvariant(tr[n - 1], events[n - 1]);
    }
  }

  lemma ChannelOfStep(s: SyncState, e: Event, t: SyncState)
    requires t == Step(s, e)
    ensures !s.hasReceiver ==> !t.hasReceiver && t.watch == s.watch
    ensures t.hasReceiver <==> s.hasReceiver && e != ReceiversDropped
  {
  }

  /** Once its receivers are gone, the watch value stands still, whatever the feed does. */
  lemma {:induction false} WatchFreezes(events: seq<Event>, tr: seq<SyncState>, m: nat, n: nat)
    requires IsRun(events, tr) && m <= n <= |events| && !tr[m].hasReceiver
    ensures !tr[n].hasReceiver && tr[n].watch == tr[m].watch
    decreases n
  {
    if m < n {
      WatchFreezes(events, tr, m, n - 1);
      ChannelOfStep(tr[n - 1], events[n - 1], tr[n]);
    }
  }

  function DeltaOf(e: Event): seq<OrderBookUpdate> {
    if e.Delta? then [e.update] else []
  }

  /** The deltas among events lo, ..., hi - 1, in order. */
  function Deltas(events: seq<Event>, lo: nat, hi: nat): seq<OrderBookUpdate>
    requires hi <= |events|
  {
    if hi <= lo then [] else Deltas(events, lo, hi - 1) + DeltaOf(events[hi - 1])
  }

  /** Event `i` opened the connection, which is still open after `n` events, and no snapshot has
      been accepted since. */
  ghost predicate BufferingSession(events: seq<Event>, tr: seq<SyncState>, i: nat, n: nat)
    requires n < |tr| == |events| + 1
  {
    && i < n && events[i] == Connected && tr[i].state == Pending
    && forall k :: i < k <= n ==> tr[k].state == Buffering
  }

  /** Event `i` opened the connection and event `j` is the snapshot that made the book live:
      Buffering from the one to the other, Live ever since. */
  ghost predicate LiveSession(events: seq<Event>, tr: seq<SyncState>, i: nat, j: nat, n: nat)
    requires n < |tr| == |events| + 1
  {
    && i < j < n && events[j].Snapshot?
    && BufferingSession(events, tr, i, j)
    && forall k :: j < k <= n ==> tr[k].state == Live
  }

  /** The snapshot first, then every delta pushed since the connection opened. */
  function SessionUpdates(events: seq<Event>, i: nat, j: nat, n: nat): seq<OrderBookUpdate>
    requires j < n <= |events| && events[j].Snapshot?
  {
    [events[j].update] + Deltas(events, i + 1, n)
  }

  /** Only a connection opens a session, and while buffering every delta joins the buffer. */
  lemma IntoBuffering(s: SyncState, e: Event, t: SyncState)
    requires SyncInvariant(s) && t == Step(s, e) && t.state == Buffering
    ensures s.state == Pending ==> e == Connected && t.buffer == []
    ensures s.state != Pending ==> s.state == Buffering && t.buffer == s.buffer + DeltaOf(e)
  {
  }

  /** Only a snapshot makes the book live, and while live every delta goes to the book. */
  lemma IntoLive(s: SyncState, e: Event, t: SyncState)
    requires SyncInvariant(s) && t == Step(s, e) && t.state == Live
    ensures s.state == Buffering ==> e.Snapshot? && !HasGap(s, e.update)
    ensures s.state == Buffering ==> t.book == Replay(EMPTY_BOOK, [e.update] + s.buffer)
    ensures s.state != Buffering ==>
      s.state == Live && t.book == if e.Delta? then ApplyUpdate(s.book, e.update) else s.book
  {
  }

  /** While buffering, the buffer is exactly what the connection has delivered so far. */
  lemma {:induction false} BufferIsSession(events: seq<Event>, tr: seq<SyncState>, n: nat)
    requires IsRun(events, tr) && n <= |events| && tr[n].state == Buffering
    ensures exists i: nat :: BufferingSession(events, tr, i, n) && tr[n].buffer == Deltas(events, i + 1, n)
  {
    InvariantHolds(events, tr, n - 1);
    IntoBuffering(tr[n - 1], events[n - 1], tr[n]);
    if tr[n - 1].state == Pending {
      assert BufferingSession(events, tr, n - 1, n);
    } else {
      BufferIsSession(events, tr, n - 1);
      var i: nat :| BufferingSession(events, tr, i, n - 1) && tr[n - 1].buffer == Deltas(events, i + 1, n - 1);
      assert BufferingSession(events, tr, i, n);
    }
  }

  /** A live session whose book is the replay of the snapshot and of all the session's deltas. */
  ghost predicate LiveAndReplayed(events: seq<Event>, tr: seq<SyncState>, i: nat, j: nat, n: nat)
    requires n < |tr| == |events| + 1
  {
    && LiveSession(events, tr, i, j, n)
    && tr[n].book == Replay(EMPTY_BOOK, SessionUpdates(events, i, j, n))
  }

  lemma SessionStartsLive(events: seq<Event>, tr: seq<SyncState>, i: nat, n: nat)
    requires n + 1 < |tr| == |events| + 1 && BufferingSession(events, tr, i, n)
    requires events[n].Snapshot? && tr[n + 1].state == Live
    requires tr[n + 1].book == Replay(EMPTY_BOOK, [events[n].update] + Deltas(events, i + 1, n))
    ensures LiveAndReplayed(events, tr, i, n, n + 1)
  {
    assert SessionUpdates(events, i, n, n + 1) == [events[n].update] + Deltas(events, i + 1, n);
  }

  lemma SessionStaysLive(events: seq<Event>, tr: seq<SyncState>, i: nat, j: nat, n: nat)
    requires n + 1 < |tr| == |events| + 1 && LiveAndReplayed(events, tr, i, j, n)
    requires tr[n + 1].state == Live
    requires tr[n + 1].book == if events[n].Delta? then ApplyUpdate(tr[n].book, events[n].update) else tr[n].book
    ensures LiveAndReplayed(events, tr, i, j, n + 1)
  {
    var us := SessionUpdates(events, i, j, n);
    assert SessionUpdates(events, i, j, n + 1) == us + DeltaOf(events[n]);
    if events[n].Delta? {
      assert (us + [events[n].update])[..|us|] == us;
    } else {
      assert us + [] == us;
    }
  }

  /** Snapshot timing does not matter: in every Live state of every run, the book is the replay,
      from the empty book, of the snapshot followed by every delta pushed since the connection
      opened, on whichever side of the snapshot the delta came in. */
  lemma {:induction false} LiveBookIsSnapshotThenDeltas(events: seq<Event>, tr: seq<SyncState>, n: nat)
    requires IsRun(events, tr) && n <= |events| && tr[n].state == Live
    ensures exists i: nat, j: nat :: LiveAndReplayed(events, tr, i, j, n)
  {
    var m := n - 1;
    InvariantHolds(events, tr, m);
    IntoLive(tr[m], events[m], tr[n]);
    if tr[m].state == Buffering {
      BufferIsSession(events, tr, m);
      var i: nat :| BufferingSession(events, tr, i, m) && tr[m].buffer == Deltas(events, i + 1, m);
      SessionStartsLive(events, tr, i, m);
    } else {
      LiveBookIsSnapshotThenDeltas(events, tr, m);
      var i: nat, j: nat :| LiveAndReplayed(events, tr, i, j, m);
      SessionStaysLive(events, tr, i, j, m);
    }
  }
}
