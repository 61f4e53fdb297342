/** What any delivery, with duplicates, gaps and reordering, does to a book. */
module Delivery {
  import opened Models
  import opened OrderBooks

  /** The highest sequence number among `low` and the updates. */
  function Highest(low: U64, us: seq<OrderBookUpdate>): (h: U64)
    ensures low <= h
    ensures forall i :: 0 <= i < |us| ==> us[i].sequence <= h
    ensures h == low || exists i :: 0 <= i < |us| && us[i].sequence == h
  {
    if us == [] then low
    else
      var h := Highest(low, us[..|us| - 1]);
      var u := us[|us| - 1];
      assert forall i :: 0 <= i < |us| - 1 ==> us[..|us| - 1][i] == us[i];
      if u.sequence <= h then h else u.sequence
  }

  /** The strict left-to-right maxima above `low`: the updates that were news when they came. */
  function Records(low: U64, us: seq<OrderBookUpdate>): seq<OrderBookUpdate> {
    if us == [] then []
    else
      var rest := Records(low, us[..|us| - 1]);
      if us[|us| - 1].sequence > Highest(low, us[..|us| - 1]) then rest + [us[|us| - 1]] else rest
  }

  /** Every update written to the book, in order, with no look at the sequence numbers. */
  function OverwriteAll(b: Book, us: seq<OrderBookUpdate>): Book {
    if us == [] then b else Overwrite(OverwriteAll(b, us[..|us| - 1]), us[|us| - 1])
  }

  /** Any stream whatever gives exactly the book of its records, and the sequence number of the
      book is the highest number seen. */
  lemma {:induction false} ReplayIsOverwriteOfRecords(b: Book, us: seq<OrderBookUpdate>)
    ensures Replay(b, us) == OverwriteAll(b, Records(b.sequence, us))
    ensures Replay(b, us).sequence == Highest(b.sequence, us)
    decreases |us|
  {
    if us != [] {
      ReplayIsOverwriteOfRecords(b, us[..|us| - 1]);
      var rest, u := Records(b.sequence, us[..|us| - 1]), us[|us| - 1];
      assert (rest + [u])[..|rest|] == rest;
    }
  }

  lemma {:induction false} ReplayConcat(b: Book, us: seq<OrderBookUpdate>, vs: seq<OrderBookUpdate>)
    ensures Replay(b, us + vs) == Replay(Replay(b, us), vs)
    decreases |vs|
  {
    if vs == [] {
      assert us + vs == us;
    } else {
      var n := |vs| - 1;
      assert (us + vs)[..|us + vs| - 1] == us + vs[..n];
      ReplayConcat(b, us, vs[..n]);
    }
  }

  lemma {:induction false} StaleStreamIgnored(b: Book, us: seq<OrderBookUpdate>)
    requires forall i :: 0 <= i < |us| ==> us[i].sequence <= b.sequence
    ensures Replay(b, us) == b
    decreases |us|
  {
    if us != [] {
      assert us[|us| - 1].sequence <= b.sequence;
      StaleStreamIgnored(b, us[..|us| - 1]);
    }
  }

  /** Replaying updates that were already delivered, any number of times and in any order,
      changes nothing. */
  lemma RedeliveryChangesNothing(b: Book, us: seq<OrderBookUpdate>, again: seq<OrderBookUpdate>)
    requires forall u :: u in again ==> u in us
    ensures Replay(b, us + again) == Replay(b, us)
  {
    ReplayIsOverwriteOfRecords(b, us);
    forall i | 0 <= i < |again| ensures again[i].sequence <= Replay(b, us).sequence {
      assert again[i] in us;
    }
    ReplayConcat(b, us, again);
    StaleStreamIgnored(Replay(b, us), again);
  }

  ghost predicate Ascending(low: int, us: seq<OrderBookUpdate>, high: int) {
    && (forall i :: 0 <= i < |us| ==> low < us[i].sequence <= high)
    && (forall i, j :: 0 <= i < j < |us| ==> us[i].sequence < us[j].sequence)
  }

  /** Records come strictly in order, all of them above `low`, and all of them were delivered. */
  lemma {:induction false} RecordsAscend(low: U64, us: seq<OrderBookUpdate>)
    ensures Ascending(low, Records(low, us), Highest(low, us))
    ensures forall r :: r in Records(low, us) ==> r in us
    decreases |us|
  {
    if us != [] {
      var n := |us| - 1;
      RecordsAscend(low, us[..n]);
      var rest, rs := Records(low, us[..n]), Records(low, us);
      assert rs == if us[n].sequence > Highest(low, us[..n]) then rest + [us[n]] else rest;
      assert forall i :: 0 <= i < |rest| ==> rs[i] == rest[i];
    }
  }
}
