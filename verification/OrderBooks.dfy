/** The in-memory order book of one trading pair: two flat sorted slabs and the sequence
    number of the last update that was applied. */
module OrderBooks {
  import opened Models
  import opened PriceLevels

  /** What a book means: two maps and a sequence number. */
  datatype Book = Book(bids: Ladder, asks: Ladder, sequence: U64)

  const EMPTY_BOOK := Book(map[], map[], 0)

  /** Take the update whatever its sequence number says. */
  function Overwrite(b: Book, u: OrderBookUpdate): Book {
    Book(SetLevels(b.bids, u.bids), SetLevels(b.asks, u.asks), u.sequence)
  }

  function ApplyUpdate(b: Book, u: OrderBookUpdate): Book {
    if u.sequence <= b.sequence then b else Overwrite(b, u)
  }

  /** A newer update is written to both sides, level by level, and leaves its number; any other one
      changes nothing. */
  lemma UpdateWritesBothSides(b: Book, u: OrderBookUpdate)
    ensures var next := ApplyUpdate(b, u);
      if b.sequence < u.sequence
      then Wrote(b.bids, u.bids, next.bids) && Wrote(b.asks, u.asks, next.asks) && next.sequence == u.sequence
      else next == b
  {
    SetLevelsWrites(b.bids, u.bids);
    SetLevelsWrites(b.asks, u.asks);
  }

  /** `apply` over a whole stream, oldest update first. */
  function Replay(b: Book, us: seq<OrderBookUpdate>): Book {
    if us == [] then b else ApplyUpdate(Replay(b, us[..|us| - 1]), us[|us| - 1])
  }

  /** The binary search of the standard library, written out. */
  method PartitionPoint(slab: seq<PriceLevel>, price: real, side: Side) returns (pos: nat)
    requires Normal(slab, side)
    ensures IsPartitionPoint(slab, price, side, pos)
  {
    var lo, hi := 0, |slab|;
    while lo < hi
      invariant 0 <= lo <= hi <= |slab|
      invariant forall i :: 0 <= i < lo ==> Precedes(slab[i].price, price, side)
      invariant forall i :: hi <= i < |slab| ==> !Precedes(slab[i].price, price, side)
    {
      var mid := lo + (hi - lo) / 2;
      if Precedes(slab[mid].price, price, side) {
        lo := mid + 1;
      } else {
        hi := mid;
      }
    }
    pos := lo;
  }

  /** Update one side in place, level by level. The slab stays sorted, and as a map it is the
      old map with every update written to it in turn. */
  method ApplyBatch(oldSlab: seq<PriceLevel>, updates: seq<PriceLevel>, side: Side)
    returns (slab: seq<PriceLevel>)
    requires Normal(oldSlab, side)
    ensures Normal(slab, side)
    ensures LadderOf(slab) == SetLevels(LadderOf(oldSlab), updates)
  {
    slab := oldSlab;
    for k := 0 to |updates|
      invariant Normal(slab, side)
      invariant LadderOf(slab) == SetLevels(LadderOf(oldSlab), updates[..k])
    {
      var update := updates[k];
      assert updates[..k + 1][..k] == updates[..k];
      var pos := PartitionPoint(slab, update.price, side);
      OnlyThePartitionPointMatches(slab, update.price, side, pos);
      if pos < |slab| && slab[pos].price == update.price {
        if update.quantity == 0.0 {
          RemoveLevel(slab, side, pos, update);
          slab := slab[..pos] + slab[pos + 1..];
        } else {
          ReplaceLevel(slab, side, pos, update);
          slab := slab[pos := slab[pos].(quantity := update.quantity)];
        }
      } else if update.quantity != 0.0 {
        InsertLevel(slab, side, pos, update);
        slab := slab[..pos] + [update] + slab[pos..];
      } else {
        assert SetLevel(LadderOf(slab), update) == LadderOf(slab);
      }
    }
    assert updates[..|updates|] == updates;
  }

  class OrderBook {
    const symbol: string
    var bids: seq<PriceLevel>
    var asks: seq<PriceLevel>
    var sequence: U64

    ghost predicate Valid()
      reads this
    {
      Normal(bids, Buy) && Normal(asks, Sell)
    }

    ghost function View(): Book
      reads this
    {
      Book(LadderOf(bids), LadderOf(asks), sequence)
    }

    constructor (symbol: string)
      ensures Valid() && this.symbol == symbol
      ensures View() == EMPTY_BOOK && bids == [] && asks == []
    {
      this.symbol := symbol;
      bids, asks, sequence := [], [], 0;
    }

    /** A stale update changes nothing; any other one is written to both maps. */
    method Apply(update: OrderBookUpdate)
      requires Valid()
      modifies this
      ensures Valid()
      ensures View() == ApplyUpdate(old(View()), update)
      ensures update.sequence <= old(sequence) ==> bids == old(bids) && asks == old(asks)
      ensures old(sequence) < update.sequence ==>
        && Wrote(old(View()).bids, update.bids, View().bids)
        && Wrote(old(View()).asks, update.asks, View().asks)
        && sequence == update.sequence
    {
      UpdateWritesBothSides(View(), update);
      if update.sequence <= sequence {
        return;
      }
      sequence := update.sequence;
      bids := ApplyBatch(bids, update.bids, Buy);
      asks := ApplyBatch(asks, update.asks, Sell);
    }

    /** The head of the slab is the highest bid of the map. */
    function BestBid(): (r: Option<PriceLevel>)
      requires Valid()
      reads this
      ensures r == None <==> View().bids == map[]
      ensures r.Some? ==> r.value.price in View().bids && View().bids[r.value.price] == r.value.quantity
      ensures r.Some? ==> forall p :: p in View().bids ==> p <= r.value.price
    {
      FirstLevelIsExtreme(bids, Buy);
      if bids == [] then None else Some(bids[0])
    }

    /** The head of the slab is the lowest ask of the map. */
    function BestAsk(): (r: Option<PriceLevel>)
      requires Valid()
      reads this
      ensures r == None <==> View().asks == map[]
      ensures r.Some? ==> r.value.price in View().asks && View().asks[r.value.price] == r.value.quantity
      ensures r.Some? ==> forall p :: p in View().asks ==> r.value.price <= p
    {
      FirstLevelIsExtreme(asks, Sell);
      if asks == [] then None else Some(asks[0])
    }
  }

  /** Two valid books with the same meaning store exactly the same slabs. */
  lemma SameViewSameSlabs(a: OrderBook, b: OrderBook)
    requires a.Valid() && b.Valid() && a.View() == b.View()
    ensures a.bids == b.bids && a.asks == b.asks && a.sequence == b.sequence
  {
    SlabIsCanonical(a.bids, b.bids, Buy);
    SlabIsCanonical(a.asks, b.asks, Sell);
  }
}
