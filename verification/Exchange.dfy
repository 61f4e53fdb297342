/** Agreement with the exchange: when the book of a live feed is the exchange's own book. */
module Exchange {
  import opened Models
  import opened PriceLevels
  import opened OrderBooks
  import opened BookSync
  import opened SyncRuns

  /** The exchange numbers its deltas 1, 2, ... on top of an opening book. */
  ghost predicate IsFeed(opening: OrderBookUpdate, feed: seq<OrderBookUpdate>) {
    && opening.sequence == 0
    && |feed| < TWO_POW_64
    && forall k :: 0 <= k < |feed| ==> feed[k].sequence == k + 1
  }

  /** The exchange's own book after its first `n` deltas. */
  function ExchangeBook(opening: OrderBookUpdate, feed: seq<OrderBookUpdate>, n: nat): Book
    requires n <= |feed|
  {
    if n == 0 then Overwrite(EMPTY_BOOK, opening) else Overwrite(ExchangeBook(opening, feed, n - 1), feed[n - 1])
  }

  /** The snapshot shows the exchange's book as of its own sequence number. */
  ghost predicate Faithful(snapshot: OrderBookUpdate, opening: OrderBookUpdate, feed: seq<OrderBookUpdate>) {
    && snapshot.sequence <= |feed|
    && Overwrite(EMPTY_BOOK, snapshot) == ExchangeBook(opening, feed, snapshot.sequence)
  }

  /** A snapshot numbered 0 is discarded by the book, which does no harm to an empty opening. */
  predicate SnapshotCounts(s: U64, opening: OrderBookUpdate) {
    s > 0 || Overwrite(EMPTY_BOOK, opening) == EMPTY_BOOK
  }

  ghost predicate Numbers(q: seq<U64>, size: nat) {
    forall k :: 0 <= k < |q| ==> 1 <= q[k] <= size
  }

  /** The deltas with the given numbers. */
  function Pick(feed: seq<OrderBookUpdate>, q: seq<U64>): (us: seq<OrderBookUpdate>)
    requires Numbers(q, |feed|)
  {
    seq(|q|, k requires 0 <= k < |q| => feed[q[k] - 1])
  }

  /** The highest number among `s` and the first `n` of `q`. */
  function Top(s: U64, q: seq<U64>, n: nat): (t: U64)
    requires n <= |q|
    ensures s <= t
  {
    if n == 0 then s
    else
      var t := Top(s, q, n - 1);
      if q[n - 1] <= t then t else q[n - 1]
  }

  lemma {:induction false} BelowTop(s: U64, q: seq<U64>, n: nat, k: nat)
    requires k < n <= |q|
    ensures q[k] <= Top(s, q, n)
  {
    if k < n - 1 {
      BelowTop(s, q, n - 1, k);
    }
  }

  lemma {:induction false} TopInRange(s: U64, q: seq<U64>, n: nat, size: nat)
    requires n <= |q| && s <= size && Numbers(q, size)
    ensures Top(s, q, n) <= size
  {
    if n > 0 {
      TopInRange(s, q, n - 1, size);
    }
  }

  predicate InReach(s: U64, q: seq<U64>, k: nat)
    requires k < |q|
  {
    q[k] <= Top(s, q, k) + 1
  }

  /** Duplicates and late arrivals are fine; no number may be skipped when it first comes. */
  ghost predicate NoGap(s: U64, q: seq<U64>) {
    forall k :: 0 <= k < |q| ==> InReach(s, q, k)
  }

  /** The synchronised book once the snapshot and the first `n` deltas have been applied. */
  function Synced(snapshot: OrderBookUpdate, feed: seq<OrderBookUpdate>, q: seq<U64>, n: nat): Book
    requires n <= |q| && Numbers(q, |feed|)
  {
    if n == 0 then ApplyUpdate(EMPTY_BOOK, snapshot)
    else ApplyUpdate(Synced(snapshot, feed, q, n - 1), feed[q[n - 1] - 1])
  }

  lemma {:induction false} SyncedIsReplay(snapshot: OrderBookUpdate, feed: seq<OrderBookUpdate>, q: seq<U64>, n: nat)
    requires n <= |q| && Numbers(q, |feed|)
    ensures Synced(snapshot, feed, q, n) == Replay(EMPTY_BOOK, [snapshot] + Pick(feed, q)[..n])
  {
    var us := [snapshot] + Pick(feed, q)[..n];
    if n == 0 {
      assert us == [snapshot] && us[..0] == [];
      assert Replay(EMPTY_BOOK, us[..0]) == EMPTY_BOOK;
    } else {
      SyncedIsReplay(snapshot, feed, q, n - 1);
      assert us[..n] == [snapshot] + Pick(feed, q)[..n - 1];
    }
  }

  lemma {:induction false} SyncedAll(snapshot: OrderBookUpdate, feed: seq<OrderBookUpdate>, q: seq<U64>)
    requires Numbers(q, |feed|)
    ensures Synced(snapshot, feed, q, |q|) == Replay(EMPTY_BOOK, [snapshot] + Pick(feed, q))
  {
    SyncedIsReplay(snapshot, feed, q, |q|);
    assert Pick(feed, q)[..|q|] == Pick(feed, q);
  }

  /** Whatever the deltas hold, the book ends at the highest number seen. */
  lemma {:induction false} SyncedSequence(snapshot: OrderBookUpdate, feed: seq<OrderBookUpdate>, q: seq<U64>, n: nat)
    requires n <= |q| && Numbers(q, |feed|)
    requires forall k :: 0 <= k < |feed| ==> feed[k].sequence == k + 1
    ensures Synced(snapshot, feed, q, n).sequence == Top(snapshot.sequence, q, n)
  {
    if n > 0 {
      SyncedSequence(snapshot, feed, q, n - 1);
    }
  }

  /** A delta numbered at most one past the book's number keeps the book the exchange's. */
  lemma DeltaInReach(opening: OrderBookUpdate, feed: seq<OrderBookUpdate>, at: nat, number: U64)
    requires IsFeed(opening, feed) && at <= |feed| && 1 <= number <= |feed| && number <= at + 1
    ensures ApplyUpdate(ExchangeBook(opening, feed, at), feed[number - 1])
      == ExchangeBook(opening, feed, Max(at, number))
  {
  }

  /** Without a gap the synchronised book is the exchange's book at the highest number seen. */
  lemma {:induction false} NoGapAgrees(
    opening: OrderBookUpdate, feed: seq<OrderBookUpdate>, snapshot: OrderBookUpdate, q: seq<U64>, n: nat)
    requires n <= |q| && Numbers(q, |feed|)
    requires IsFeed(opening, feed) && Faithful(snapshot, opening, feed)
    requires SnapshotCounts(snapshot.sequence, opening) && NoGap(snapshot.sequence, q)
    ensures Top(snapshot.sequence, q, n) <= |feed|
    ensures Synced(snapshot, feed, q, n) == ExchangeBook(opening, feed, Top(snapshot.sequence, q, n))
  {
    if n > 0 {
      NoGapAgrees(opening, feed, snapshot, q, n - 1);
      assert InReach(snapshot.sequence, q, n - 1);
      DeltaInReach(opening, feed, Top(snapshot.sequence, q, n - 1), q[n - 1]);
    }
  }

  /** Replaying the snapshot and deltas without a gap gives the exchange's book. */
  lemma {:induction false} NoGapReplay(
    opening: OrderBookUpdate, feed: seq<OrderBookUpdate>, snapshot: OrderBookUpdate, q: seq<U64>)
    requires Numbers(q, |feed|)
    requires IsFeed(opening, feed) && Faithful(snapshot, opening, feed)
    requires SnapshotCounts(snapshot.sequence, opening) && NoGap(snapshot.sequence, q)
    ensures Top(snapshot.sequence, q, |q|) <= |feed|
    ensures Replay(EMPTY_BOOK, [snapshot] + Pick(feed, q))
      == ExchangeBook(opening, feed, Top(snapshot.sequence, q, |q|))
  {
    NoGapAgrees(opening, feed, snapshot, q, |q|);
    SyncedAll(snapshot, feed, q);
  }

  /** For this numbering, the synchronised book is right whatever the exchange's deltas hold. */
  ghost predicate AlwaysAgrees(opening: OrderBookUpdate, s: U64, q: seq<U64>, size: nat)
    requires Numbers(q, size) && s <= size
  {
    TopInRange(s, q, |q|, size);
    forall feed: seq<OrderBookUpdate>, snapshot: OrderBookUpdate ::
      IsFeed(opening, feed) && |feed| == size && snapshot.sequence == s && Faithful(snapshot, opening, feed)
      ==> Replay(EMPTY_BOOK, [snapshot] + Pick(feed, q)) == ExchangeBook(opening, feed, Top(s, q, |q|))
  }

  /** A feed in which only delta number `mark` says anything: it writes one bid. */
  function MarkedFeed(size: U64, mark: int, bid: PriceLevel): (feed: seq<OrderBookUpdate>)
    ensures |feed| == size
  {
    seq(size, k requires 0 <= k < size =>
      OrderBookUpdate(if k + 1 == mark then [bid] else [], [], k + 1))
  }

  lemma {:induction false} MarkedExchange(opening: OrderBookUpdate, size: U64, mark: int, bid: PriceLevel, n: nat)
    requires opening.sequence == 0 && n <= size && bid.quantity != 0.0
    ensures var b := ExchangeBook(opening, MarkedFeed(size, mark, bid), n);
      && b.sequence == n
      && b.asks == Overwrite(EMPTY_BOOK, opening).asks
      && (n < mark || mark <= 0 ==> b.bids == Overwrite(EMPTY_BOOK, opening).bids)
      && (0 < mark <= n ==> bid.price in b.bids && b.bids[bid.price] == bid.quantity)
  {
    if n > 0 {
      var feed := MarkedFeed(size, mark, bid);
      MarkedExchange(opening, size, mark, bid, n - 1);
      var before := ExchangeBook(opening, feed, n - 1);
      assert SetLevels(before.asks, []) == before.asks && SetLevels(before.bids, []) == before.bids;
      if n == mark {
        assert feed[n - 1].bids == [bid] && [bid][..0] == [];
        assert SetLevels(before.bids, [bid]) == SetLevel(before.bids, bid);
      } else {
        assert feed[n - 1].bids == [];
      }
    }
  }

  lemma UnmarkedSaysNothing(b: Book, size: U64, mark: int, bid: PriceLevel, number: U64)
    requires 1 <= number <= size
    ensures number != mark || number <= b.sequence ==>
      ApplyUpdate(b, MarkedFeed(size, mark, bid)[number - 1]).bids == b.bids
  {
  }

  /** Once number `mark` has been skipped, the book never gets it back. */
  lemma {:induction false} SkippedIsLost(
    snapshot: OrderBookUpdate, size: U64, q: seq<U64>, k: nat, mark: int, bid: PriceLevel, n: nat)
    requires Numbers(q, size) && k < |q| && n <= |q|
    requires mark == Top(snapshot.sequence, q, k) + 1 < q[k]
    ensures Synced(snapshot, MarkedFeed(size, mark, bid), q, n).bids == ApplyUpdate(EMPTY_BOOK, snapshot).bids
  {
    if n > 0 {
      var feed := MarkedFeed(size, mark, bid);
      SkippedIsLost(snapshot, size, q, k, mark, bid, n - 1);
      SyncedSequence(snapshot, feed, q, n - 1);
      if n - 1 < k {
        BelowTop(snapshot.sequence, q, k, n - 1);
      } else if k < n - 1 {
        BelowTop(snapshot.sequence, q, n - 1, k);
      }
      UnmarkedSaysNothing(Synced(snapshot, feed, q, n - 1), size, mark, bid, q[n - 1]);
    }
  }

  /** The exact condition, for every numbering of the deltas with duplicates and reordering:
      the synchronised book is the exchange's book whatever the deltas hold if and only if no
      number is skipped and the snapshot is not discarded. */
  lemma AgreementIffNoGap(opening: OrderBookUpdate, s: U64, q: seq<U64>, size: U64)
    requires opening.sequence == 0 && s <= size && Numbers(q, size)
    ensures AlwaysAgrees(opening, s, q, size) <==> NoGap(s, q) && SnapshotCounts(s, opening)
  {
    TopInRange(s, q, |q|, size);
    if NoGap(s, q) && SnapshotCounts(s, opening) {
      forall feed: seq<OrderBookUpdate>, snapshot: OrderBookUpdate |
        IsFeed(opening, feed) && |feed| == size && snapshot.sequence == s && Faithful(snapshot, opening, feed)
        ensures Replay(EMPTY_BOOK, [snapshot] + Pick(feed, q)) == ExchangeBook(opening, feed, Top(s, q, |q|))
      {
        NoGapReplay(opening, feed, snapshot, q);
      }
    } else if !NoGap(s, q) {
      var k :| 0 <= k < |q| && !InReach(s, q, k);
      GapDisagrees(opening, s, q, size, k);
    } else {
      DiscardedSnapshotDisagrees(opening, q, size);
    }
  }

  lemma GapDisagrees(opening: OrderBookUpdate, s: U64, q: seq<U64>, size: U64, k: nat)
    requires opening.sequence == 0 && s <= size && Numbers(q, size)
    requires k < |q| && !InReach(s, q, k)
    ensures !AlwaysAgrees(opening, s, q, size)
  {
    TopInRange(s, q, k, size);
    TopInRange(s, q, |q|, size);
    BelowTop(s, q, |q|, k);
    var snapshot := opening.(sequence := s);
    var mark := Top(s, q, k) + 1;
    var start := ApplyUpdate(EMPTY_BOOK, snapshot).bids;
    var bid := PriceLevel(0.0, if 0.0 in start && start[0.0] == 1.0 then 2.0 else 1.0);
    var feed := MarkedFeed(size, mark, bid);
    MarkedExchange(opening, size, mark, bid, s);
    MarkedExchange(opening, size, mark, bid, Top(s, q, |q|));
    assert IsFeed(opening, feed) && Faithful(snapshot, opening, feed);
    SkippedIsLost(snapshot, size, q, k, mark, bid, |q|);
    SyncedAll(snapshot, feed, q);
  }

  lemma DiscardedSnapshotDisagrees(opening: OrderBookUpdate, q: seq<U64>, size: U64)
    requires opening.sequence == 0 && Numbers(q, size)
    requires Overwrite(EMPTY_BOOK, opening) != EMPTY_BOOK
    ensures !AlwaysAgrees(opening, 0, q, size)
  {
    TopInRange(0, q, |q|, size);
    var bid := PriceLevel(0.0, 1.0);
    var feed := MarkedFeed(size, 0, bid);
    MarkedExchange(opening, size, 0, bid, Top(0, q, |q|));
    SilentDeltas(opening, size, q, |q|);
    SyncedAll(opening, feed, q);
    assert IsFeed(opening, feed) && Faithful(opening, opening, feed);
  }

  /** A discarded snapshot and deltas that say nothing leave the book empty. */
  lemma {:induction false} SilentDeltas(opening: OrderBookUpdate, size: U64, q: seq<U64>, n: nat)
    requires opening.sequence == 0 && n <= |q| && Numbers(q, size)
    ensures var b := Synced(opening, MarkedFeed(size, 0, PriceLevel(0.0, 1.0)), q, n);
      b.bids == map[] && b.asks == map[]
  {
    if n > 0 {
      SilentDeltas(opening, size, q, n - 1);
    }
  }
}
