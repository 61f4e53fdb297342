/** The synchroniser of one feed: it buffers deltas until a snapshot arrives, then keeps the book live. */
module BookSync {
  import opened Models
  import opened OrderBooks
  import Delivery

  const MAX_BUFFER_CAPACITY: nat := 2048

  datatype SyncError =
    | SequenceGap(snapshotSeq: U64, oldestDeltaSeq: U64)
    | BufferOverflow(capacity: nat)
    | StaleSnapshot(expected: U64, got: U64)
    | InvalidTransition(from: FeedState, to: string)

  datatype SyncResult = Ok | Err(error: SyncError)

  /** The whole state of a synchroniser. `watch` is the value last stored in the watch channel;
      sending to a channel that has lost its receivers stores nothing. */
  datatype SyncState = SyncState(
    book: Book, state: FeedState, buffer: seq<OrderBookUpdate>, generation: U64,
    watch: FeedState, hasReceiver: bool)

  const INITIAL := SyncState(EMPTY_BOOK, Pending, [], 0, Pending, true)

  datatype Outcome = Outcome(next: SyncState, result: SyncResult)

  function Enter(s: SyncState, state: FeedState): SyncState {
    s.(state := state, watch := if s.hasReceiver then state else s.watch)
  }

  function Reset(s: SyncState): SyncState {
    Enter(s.(book := EMPTY_BOOK, buffer := [], generation := (s.generation + 1) % TWO_POW_64), Pending)
  }

  function OnConnected(s: SyncState): Outcome {
    if s.state == Pending then Outcome(Enter(s, Buffering), Ok)
    else Outcome(s, Err(InvalidTransition(s.state, "Buffering")))
  }

  function OnDelta(s: SyncState, u: OrderBookUpdate): Outcome {
    match s.state
    case Pending => Outcome(s, Ok)
    case Live => Outcome(s.(book := ApplyUpdate(s.book, u)), Ok)
    case _ =>
      if |s.buffer| >= MAX_BUFFER_CAPACITY then Outcome(Reset(s), Err(BufferOverflow(MAX_BUFFER_CAPACITY)))
      else Outcome(s.(buffer := s.buffer + [u]), Ok)
  }

  predicate HasGap(s: SyncState, snapshot: OrderBookUpdate) {
    s.buffer != [] && snapshot.sequence < s.buffer[0].sequence
  }

  /** An accepted snapshot acts as if it had come first and every buffered delta after it: no
      filter on the buffer appears here. */
  function OnSnapshot(s: SyncState, snapshot: OrderBookUpdate, generation: U64): Outcome {
    if generation != s.generation then Outcome(s, Err(StaleSnapshot(s.generation, generation)))
    else if s.state != Buffering then Outcome(s, Err(InvalidTransition(s.state, "Syncing")))
    else if HasGap(s, snapshot) then
      Outcome(Reset(s), Err(SequenceGap(snapshot.sequence, s.buffer[0].sequence)))
    else
      Outcome(Enter(s.(book := Replay(s.book, [snapshot] + s.buffer), buffer := []), Live), Ok)
  }

  /** A session given up: everything is as for a new synchroniser, but for the generation. */
  predicate StartsOver(s: SyncState, t: SyncState) {
    && t.state == Pending && t.book == Book(map[], map[], 0) && t.buffer == []
    && t.generation == (s.generation + 1) % 0x1_0000_0000_0000_0000
  }

  /** Which snapshots are accepted: those that carry the current generation, meet a synchroniser that
      is buffering, and are at least as recent as the oldest buffered delta. What any other one leaves
      behind and reports. */
  lemma SnapshotOutcome(s: SyncState, snapshot: OrderBookUpdate, captured: U64)
    ensures var o := OnSnapshot(s, snapshot, captured);
      if captured != s.generation then o == Outcome(s, Err(StaleSnapshot(s.generation, captured)))
      else if s.state != Buffering then o == Outcome(s, Err(InvalidTransition(s.state, "Syncing")))
      else if s.buffer == [] || s.buffer[0].sequence <= snapshot.sequence then
        && o.result == Ok && o.next.state == Live && o.next.buffer == [] && o.next.generation == s.generation
        && o.next.book == Replay(s.book, [snapshot] + s.buffer)
      else o.result == Err(SequenceGap(snapshot.sequence, s.buffer[0].sequence)) && StartsOver(s, o.next)
  {
  }

  /** A delta is refused only by a full buffer, and then the session is given up. */
  lemma DeltaOutcome(s: SyncState, u: OrderBookUpdate)
    ensures var o, buffering := OnDelta(s, u), s.state == Buffering || s.state.Syncing?;
      if buffering && |s.buffer| >= 2048 then o.result == Err(BufferOverflow(2048)) && StartsOver(s, o.next)
      else
        && o.result == Ok
        && o.next == s.(buffer := o.next.buffer, book := o.next.book)
        && o.next.buffer == (if buffering then s.buffer + [u] else s.buffer)
        && o.next.book == if s.state == Live then ApplyUpdate(s.book, u) else s.book
  {
  }

  lemma ReplayFirst(b: Book, u: OrderBookUpdate, us: seq<OrderBookUpdate>)
    ensures Replay(b, [u] + us) == Replay(ApplyUpdate(b, u), us)
  {
    Delivery.ReplayConcat(b, [u], us);
    assert Replay(b, [u][..0]) == b;
    assert Replay(b, [u]) == ApplyUpdate(b, u);
  }

  class BookSynchronizer {
    const symbol: string
    var book: OrderBook
    var state: FeedState
    var buffer: seq<OrderBookUpdate>
    var generation: U64
    var watch: FeedState
    var hasReceiver: bool

    ghost predicate Valid()
      reads this, book
    {
      book.Valid()
    }

    ghost function View(): SyncState
      reads this, book
    {
      SyncState(book.View(), state, buffer, generation, watch, hasReceiver)
    }

    constructor (symbol: string)
      ensures Valid() && fresh(book)
      ensures View() == INITIAL
    {
      this.symbol := symbol;
      book := new OrderBook(symbol);
      state, buffer, generation := Pending, [], 0;
      watch, hasReceiver := Pending, true;
    }

    method SetState(newState: FeedState)
      requires Valid()
      modifies this`state, this`watch
      ensures Valid()
      ensures View() == Enter(old(View()), newState)
      ensures state == newState && watch == if hasReceiver then newState else old(watch)
    {
      state := newState;
      if hasReceiver {
        watch := newState;
      }
    }

    method ResetSync()
      requires Valid()
      modifies this
      ensures Valid() && fresh(book)
      ensures View() == Reset(old(View()))
    {
      buffer := [];
      book := new OrderBook(symbol);
      generation := (generation + 1) % TWO_POW_64;
      SetState(Pending);
    }

    method OnWsConnected() returns (r: SyncResult)
      requires Valid()
      modifies this`state, this`watch
      ensures Valid()
      ensures Outcome(View(), r) == OnConnected(old(View()))
      ensures r == Ok <==> old(state) == Pending
      ensures state == if old(state) == Pending then Buffering else old(state)
    {
      match state
      case Pending =>
        SetState(Buffering);
        r := Ok;
      case other =>
        r := Err(InvalidTransition(other, "Buffering"));
    }

    method PushDelta(update: OrderBookUpdate) returns (r: SyncResult)
      requires Valid()
      modifies this, book
      ensures Valid() && (book == old(book) || fresh(book))
      ensures Outcome(View(), r) == OnDelta(old(View()), update)
      ensures r == Ok <==> |old(buffer)| < 2048 || old(state) == Pending || old(state) == Live
    {
      match state
      case Pending =>
        r := Ok;
      case Live =>
        book.Apply(update);
        r := Ok;
      case _ =>
        if |buffer| >= MAX_BUFFER_CAPACITY {
          ResetSync();
          return Err(BufferOverflow(MAX_BUFFER_CAPACITY));
        }
        buffer := buffer + [update];
        r := Ok;
    }

    /** The guards in the order of the source, then the snapshot, then the drain. The postcondition
        says that this is the plain replay of the snapshot and of the whole buffer. */
    method OnSnapshotReceived(snapshot: OrderBookUpdate, captured: U64) returns (r: SyncResult)
      requires Valid()
      modifies this, book
      ensures Valid() && (book == old(book) || fresh(book))
      ensures Outcome(View(), r) == OnSnapshot(old(View()), snapshot, captured)
      ensures r == Ok <==>
        && captured == old(generation) && old(state) == Buffering
        && (old(buffer) == [] || old(buffer)[0].sequence <= snapshot.sequence)
      ensures r == Ok ==> state == Live && buffer == [] && generation == old(generation)
    {
      if captured != generation {
        return Err(StaleSnapshot(generation, captured));
      }
      if state != Buffering {
        return Err(InvalidTransition(state, "Syncing"));
      }
      var snapshotSeq := snapshot.sequence;
      if buffer != [] && snapshotSeq < buffer[0].sequence {
        var oldest := buffer[0].sequence;
        ResetSync();
        return Err(SequenceGap(snapshotSeq, oldest));
      }
      ReplayFirst(book.View(), snapshot, buffer);
      book.Apply(snapshot);
      SetState(Syncing(snapshotSeq));

      DrainBuffer(snapshotSeq);
      SetState(Live);
      r := Ok;
    }

    /** Drop the deltas that the snapshot covers, apply the others in order. */
    method DrainBuffer(snapshotSeq: U64)
      requires Valid() && snapshotSeq <= book.sequence
      modifies this`buffer, book
      ensures Valid()
      ensures View() == old(View()).(book := Replay(old(book.View()), old(buffer)), buffer := [])
    {
      while buffer != []
        invariant Valid() && snapshotSeq <= book.sequence
        invariant Replay(book.View(), buffer) == Replay(old(book.View()), old(buffer))
        decreases |buffer|
      {
        var delta := buffer[0];
        assert buffer == [delta] + buffer[1..];
        ReplayFirst(book.View(), delta, buffer[1..]);
        buffer := buffer[1..];
        if delta.sequence > snapshotSeq {
          book.Apply(delta);
        }
      }
    }

    method OnWsDisconnected()
      requires Valid()
      modifies this
      ensures Valid() && fresh(book)
      ensures View() == Reset(old(View()))
    {
      ResetSync();
    }
  }
}
