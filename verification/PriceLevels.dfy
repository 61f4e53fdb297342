/** One side of the book, twice: as the price-to-quantity map it stands for, and as the flat
    sorted slab that is stored. The results here say that the slab is a canonical form of the map. */
module PriceLevels {
  import opened Models

  /** The meaning of one side of a book. */
  type Ladder = map<real, real>

  function SetLevel(m: Ladder, u: PriceLevel): Ladder {
    if u.quantity == 0.0 then m - {u.price} else m[u.price := u.quantity]
  }

  function SetLevels(m: Ladder, us: seq<PriceLevel>): Ladder {
    if us == [] then m else SetLevel(SetLevels(m, us[..|us| - 1]), us[|us| - 1])
  }

  /** cmp_price: true while the search has to go on, that is, while `price` comes before `target`. */
  predicate Precedes(price: real, target: real, side: Side) {
    match side
    case Buy => price > target
    case Sell => price < target
  }

  /** Strictly ordered, hence without duplicate prices, and without empty levels. */
  ghost predicate Normal(slab: seq<PriceLevel>, side: Side) {
    && (forall i, j :: 0 <= i < j < |slab| ==> Precedes(slab[i].price, slab[j].price, side))
    && (forall i :: 0 <= i < |slab| ==> slab[i].quantity != 0.0)
  }

  ghost predicate Represents(slab: seq<PriceLevel>, m: Ladder) {
    && (forall i :: 0 <= i < |slab| ==> slab[i].price in m && m[slab[i].price] == slab[i].quantity)
    && (forall p :: p in m ==> exists i :: 0 <= i < |slab| && slab[i].price == p)
  }

  /** The map a slab stands for. */
  ghost function LadderOf(slab: seq<PriceLevel>): (m: Ladder) {
    map p | p in (set l | l in slab :: l.price) :: QuantityAt(slab, p)
  }

  ghost function QuantityAt(slab: seq<PriceLevel>, p: real): (q: real)
    requires exists i :: 0 <= i < |slab| && slab[i].price == p
    ensures exists i :: 0 <= i < |slab| && slab[i].price == p && slab[i].quantity == q
  {
    var i :| 0 <= i < |slab| && slab[i].price == p;
    slab[i].quantity
  }

  lemma LadderRepresents(slab: seq<PriceLevel>, side: Side)
    requires Normal(slab, side)
    ensures Represents(slab, LadderOf(slab))
  {
  }

  lemma LadderIsUnique(slab: seq<PriceLevel>, side: Side, m: Ladder)
    requires Normal(slab, side) && Represents(slab, m)
    ensures LadderOf(slab) == m
  {
    LadderRepresents(slab, side);
    forall p | p in m ensures p in LadderOf(slab) {}
  }

  /** Strict order makes the slab canonical: one map, one slab, bit for bit. */
  lemma {:induction false} SlabIsCanonical(a: seq<PriceLevel>, b: seq<PriceLevel>, side: Side)
    requires Normal(a, side) && Normal(b, side)
    requires LadderOf(a) == LadderOf(b)
    ensures a == b
  {
    LadderRepresents(a, side);
    LadderRepresents(b, side);
    SameMapSameSlab(a, b, side, LadderOf(a));
  }

  lemma {:induction false} SameMapSameSlab(a: seq<PriceLevel>, b: seq<PriceLevel>, side: Side, m: Ladder)
    requires Normal(a, side) && Normal(b, side)
    requires Represents(a, m) && Represents(b, m)
    ensures a == b
    decreases |a|
  {
    EmptySlabEmptyMap(a, m);
    EmptySlabEmptyMap(b, m);
    if a != [] {
      HeadsAgree(a, b, side, m);
      TailsAgree(a, b, side, m);
      SameMapSameSlab(a[1..], b[1..], side, m - {a[0].price});
      assert a == [a[0]] + a[1..] && b == [b[0]] + b[1..];
    }
  }

  lemma HeadsAgree(a: seq<PriceLevel>, b: seq<PriceLevel>, side: Side, m: Ladder)
    requires Normal(a, side) && Normal(b, side)
    requires Represents(a, m) && Represents(b, m)
    requires a != [] && b != []
    ensures a[0] == b[0]
  {
  }

  lemma TailsAgree(a: seq<PriceLevel>, b: seq<PriceLevel>, side: Side, m: Ladder)
    requires a != [] && b != [] && a[0] == b[0] && Normal(a, side) && Normal(b, side)
    requires Represents(a, m) && Represents(b, m)
    ensures Normal(a[1..], side) && Normal(b[1..], side)
    ensures Represents(a[1..], m - {a[0].price}) && Represents(b[1..], m - {a[0].price})
  {
    DropFirstLevel(a, side, m);
    DropFirstLevel(b, side, m);
  }

  lemma EmptySlabEmptyMap(a: seq<PriceLevel>, m: Ladder)
    requires Represents(a, m)
    ensures a == [] <==> m == map[]
  {
    if a != [] {
      assert a[0].price in m;
    } else {
      assert forall p :: p !in m;
    }
  }

  lemma DropFirstLevel(a: seq<PriceLevel>, side: Side, m: Ladder)
    requires a != [] && Normal(a, side) && Represents(a, m)
    ensures Normal(a[1..], side) && Represents(a[1..], m - {a[0].price})
  {
  }

  /** What the binary search has to return: the boundary between the levels that precede the
      target price and those that do not. */
  ghost predicate IsPartitionPoint(slab: seq<PriceLevel>, price: real, side: Side, pos: nat) {
    && pos <= |slab|
    && (forall i :: 0 <= i < pos ==> Precedes(slab[i].price, price, side))
    && (forall i :: pos <= i < |slab| ==> !Precedes(slab[i].price, price, side))
  }

  /** Past the partition point only the first level can carry the target price. */
  lemma OnlyThePartitionPointMatches(slab: seq<PriceLevel>, price: real, side: Side, pos: nat)
    requires Normal(slab, side) && IsPartitionPoint(slab, price, side, pos)
    ensures price in LadderOf(slab) <==> pos < |slab| && slab[pos].price == price
  {
  }

  lemma RemoveKeepsOrder(slab: seq<PriceLevel>, side: Side, pos: nat)
    requires Normal(slab, side) && pos < |slab|
    ensures Normal(slab[..pos] + slab[pos + 1..], side)
  {
  }

  lemma RemoveRepresents(slab: seq<PriceLevel>, side: Side, m: Ladder, pos: nat)
    requires Normal(slab, side) && Represents(slab, m) && pos < |slab|
    ensures Represents(slab[..pos] + slab[pos + 1..], m - {slab[pos].price})
  {
    var r, m' := slab[..pos] + slab[pos + 1..], m - {slab[pos].price};
    forall i | 0 <= i < |r| ensures r[i].price in m' && m'[r[i].price] == r[i].quantity {
      assert r[i] == slab[if i < pos then i else i + 1];
    }
    forall p | p in m' ensures exists i :: 0 <= i < |r| && r[i].price == p {
      var i :| 0 <= i < |slab| && slab[i].price == p;
      assert r[if i < pos then i else i - 1] == slab[i];
    }
  }

  lemma {:induction false} RemoveLevel(slab: seq<PriceLevel>, side: Side, pos: nat, u: PriceLevel)
    requires Normal(slab, side) && pos < |slab| && slab[pos].price == u.price && u.quantity == 0.0
    ensures Normal(slab[..pos] + slab[pos + 1..], side)
    ensures LadderOf(slab[..pos] + slab[pos + 1..]) == SetLevel(LadderOf(slab), u)
  {
    LadderRepresents(slab, side);
    RemoveKeepsOrder(slab, side, pos);
    RemoveRepresents(slab, side, LadderOf(slab), pos);
    LadderIsUnique(slab[..pos] + slab[pos + 1..], side, LadderOf(slab) - {u.price});
  }

  lemma ReplaceRepresents(slab: seq<PriceLevel>, side: Side, m: Ladder, pos: nat, u: PriceLevel)
    requires Normal(slab, side) && Represents(slab, m) && pos < |slab| && slab[pos].price == u.price
    requires u.quantity != 0.0
    ensures Normal(slab[pos := u], side)
    ensures Represents(slab[pos := u], m[u.price := u.quantity])
  {
    var r, m' := slab[pos := u], m[u.price := u.quantity];
    assert forall i :: 0 <= i < |r| ==> r[i].price == slab[i].price;
    forall p | p in m' ensures exists i :: 0 <= i < |r| && r[i].price == p {
      if p == u.price {
        assert r[pos].price == p;
      } else {
        var i :| 0 <= i < |slab| && slab[i].price == p;
        assert r[i].price == p;
      }
    }
  }

  lemma ReplaceLevel(slab: seq<PriceLevel>, side: Side, pos: nat, u: PriceLevel)
    requires Normal(slab, side) && pos < |slab| && slab[pos].price == u.price && u.quantity != 0.0
    ensures Normal(slab[pos := u], side)
    ensures LadderOf(slab[pos := u]) == SetLevel(LadderOf(slab), u)
  {
    LadderRepresents(slab, side);
    ReplaceRepresents(slab, side, LadderOf(slab), pos, u);
    LadderIsUnique(slab[pos := u], side, LadderOf(slab)[u.price := u.quantity]);
  }

  lemma InsertKeepsOrder(slab: seq<PriceLevel>, side: Side, pos: nat, u: PriceLevel)
    requires Normal(slab, side) && IsPartitionPoint(slab, u.price, side, pos)
    requires forall i :: 0 <= i < |slab| ==> slab[i].price != u.price
    requires u.quantity != 0.0
    ensures Normal(slab[..pos] + [u] + slab[pos..], side)
  {
  }

  lemma {:induction false} InsertLevel(slab: seq<PriceLevel>, side: Side, pos: nat, u: PriceLevel)
    requires Normal(slab, side) && IsPartitionPoint(slab, u.price, side, pos)
    requires u.price !in LadderOf(slab) && u.quantity != 0.0
    ensures Normal(slab[..pos] + [u] + slab[pos..], side)
    ensures LadderOf(slab[..pos] + [u] + slab[pos..]) == SetLevel(LadderOf(slab), u)
  {
    LadderRepresents(slab, side);
    InsertKeepsOrder(slab, side, pos, u);
    InsertRepresents(slab, LadderOf(slab), pos, u);
    LadderIsUnique(slab[..pos] + [u] + slab[pos..], side, LadderOf(slab)[u.price := u.quantity]);
  }

  lemma InsertRepresents(slab: seq<PriceLevel>, m: Ladder, pos: nat, u: PriceLevel)
    requires pos <= |slab| && Represents(slab, m) && u.price !in m
    ensures Represents(slab[..pos] + [u] + slab[pos..], m[u.price := u.quantity])
  {
    var r, m' := slab[..pos] + [u] + slab[pos..], m[u.price := u.quantity];
    forall p | p in m' ensures exists i :: 0 <= i < |r| && r[i].price == p {
      if p == u.price {
        assert r[pos].price == p;
      } else {
        var i :| 0 <= i < |slab| && slab[i].price == p;
        assert r[if i < pos then i else i + 1] == slab[i];
      }
    }
  }

  /** The first level of a slab is the best price of its map. */
  lemma FirstLevelIsExtreme(slab: seq<PriceLevel>, side: Side)
    requires Normal(slab, side)
    ensures slab == [] <==> LadderOf(slab) == map[]
    ensures slab != [] ==> slab[0].price in LadderOf(slab) && LadderOf(slab)[slab[0].price] == slab[0].quantity
    ensures slab != [] ==> forall p :: p in LadderOf(slab) && p != slab[0].price ==> Precedes(slab[0].price, p, side)
  {
    LadderRepresents(slab, side);
    if slab != [] {
      assert slab[0].price in LadderOf(slab);
      forall p | p in LadderOf(slab) && p != slab[0].price ensures Precedes(slab[0].price, p, side) {
        var i :| 0 <= i < |slab| && slab[i].price == p;
      }
    }
  }

  /** What a batch decides about a price: the last update that names it wins. */
  ghost predicate LastWrite(us: seq<PriceLevel>, p: real, k: nat) {
    && k < |us|
    && us[k].price == p
    && forall i :: k < i < |us| ==> us[i].price != p
  }

  lemma {:induction false} LastWriteWins(m: Ladder, us: seq<PriceLevel>, p: real, k: nat)
    requires LastWrite(us, p, k)
    ensures p in SetLevels(m, us) <==> us[k].quantity != 0.0
    ensures us[k].quantity != 0.0 ==> SetLevels(m, us)[p] == us[k].quantity
    decreases |us|
  {
    if k < |us| - 1 {
      assert us[|us| - 1].price != p;
      LastWriteWins(m, us[..|us| - 1], p, k);
    }
  }

  lemma {:induction false} UnnamedPriceUntouched(m: Ladder, us: seq<PriceLevel>, p: real)
    requires forall i :: 0 <= i < |us| ==> us[i].price != p
    ensures p in SetLevels(m, us) <==> p in m
    ensures p in m ==> SetLevels(m, us)[p] == m[p]
    decreases |us|
  {
    if us != [] {
      assert us[|us| - 1].price != p;
      UnnamedPriceUntouched(m, us[..|us| - 1], p);
    }
  }

  ghost predicate Names(us: seq<PriceLevel>, p: real) {
    exists i :: 0 <= i < |us| && us[i].price == p
  }

  /** What writing a batch comes to, price by price: the last update that names a price decides, a
      quantity of zero means that the level is gone, and all other prices keep their levels. */
  ghost predicate Wrote(before: Ladder, us: seq<PriceLevel>, after: Ladder) {
    && (forall p: real, k: nat :: LastWrite(us, p, k) ==>
        && (p in after <==> us[k].quantity != 0.0)
        && (p in after ==> after[p] == us[k].quantity))
    && (forall p {:trigger Names(us, p)} :: !Names(us, p) ==>
        && (p in after <==> p in before)
        && (p in after ==> after[p] == before[p]))
  }

  lemma SetLevelsWrites(m: Ladder, us: seq<PriceLevel>)
    ensures Wrote(m, us, SetLevels(m, us))
  {
    forall p: real, k: nat | LastWrite(us, p, k)
      ensures p in SetLevels(m, us) <==> us[k].quantity != 0.0
      ensures p in SetLevels(m, us) ==> SetLevels(m, us)[p] == us[k].quantity
    {
      LastWriteWins(m, us, p, k);
    }
    forall p | !Names(us, p)
      ensures p in SetLevels(m, us) <==> p in m
      ensures p in SetLevels(m, us) ==> SetLevels(m, us)[p] == m[p]
    {
      assert forall i :: 0 <= i < |us| ==> us[i].price != p;
      UnnamedPriceUntouched(m, us, p);
    }
  }

  lemma {:induction false} NamedHasLastWrite(us: seq<PriceLevel>, p: real) returns (k: nat)
    requires Names(us, p)
    ensures LastWrite(us, p, k)
    decreases |us|
  {
    var n := |us| - 1;
    if us[n].price == p {
      k := n;
    } else {
      var i :| 0 <= i < |us| && us[i].price == p;
      assert us[..n][i].price == p;
      k := NamedHasLastWrite(us[..n], p);
    }
  }

  /** Nothing is left open: a batch can have been written in one way only. */
  lemma OneWayToWrite(before: Ladder, us: seq<PriceLevel>, a: Ladder, b: Ladder)
    requires Wrote(before, us, a) && Wrote(before, us, b)
    ensures a == b
  {
    forall p: real ensures p in a <==> p in b ensures p in a ==> a[p] == b[p] {
      if Names(us, p) {
        var k := NamedHasLastWrite(us, p);
      }
    }
  }

  /** A level is stored exactly when the map has it. */
  lemma StoredIffMapped(slab: seq<PriceLevel>, side: Side, l: PriceLevel)
    requires Normal(slab, side)
    ensures l in slab <==> l.price in LadderOf(slab) && LadderOf(slab)[l.price] == l.quantity
  {
    LadderRepresents(slab, side);
    if l.price in LadderOf(slab) {
      var i :| 0 <= i < |slab| && slab[i].price == l.price;
      assert slab[i] == PriceLevel(l.price, LadderOf(slab)[l.price]);
    }
  }

  ghost predicate DistinctPrices(us: seq<PriceLevel>) {
    forall i, j :: 0 <= i < j < |us| ==> us[i].price != us[j].price
  }

  /** A batch that names every price at most once can be delivered in any order. */
  lemma BatchOrderIrrelevant(m: Ladder, us: seq<PriceLevel>, vs: seq<PriceLevel>)
    requires DistinctPrices(us) && DistinctPrices(vs)
    requires forall u :: u in us <==> u in vs
    ensures SetLevels(m, us) == SetLevels(m, vs)
  {
    forall p: real
      ensures p in SetLevels(m, us) <==> p in SetLevels(m, vs)
      ensures p in SetLevels(m, us) ==> SetLevels(m, us)[p] == SetLevels(m, vs)[p]
    {
      if k :| 0 <= k < |us| && us[k].price == p {
        assert us[k] in vs;
        var l :| 0 <= l < |vs| && vs[l] == us[k];
        LastWriteWins(m, us, p, k);
        LastWriteWins(m, vs, p, l);
      } else {
        forall i | 0 <= i < |vs| ensures vs[i].price != p {
          assert vs[i] in us;
        }
        UnnamedPriceUntouched(m, us, p);
        UnnamedPriceUntouched(m, vs, p);
      }
    }
  }

  /** The slabs are the same then, level by level and position by position. */
  lemma BatchOrderSameSlab(
    m: Ladder, us: seq<PriceLevel>, vs: seq<PriceLevel>, a: seq<PriceLevel>, b: seq<PriceLevel>, side: Side)
    requires DistinctPrices(us) && DistinctPrices(vs) && forall u :: u in us <==> u in vs
    requires Normal(a, side) && LadderOf(a) == SetLevels(m, us)
    requires Normal(b, side) && LadderOf(b) == SetLevels(m, vs)
    ensures a == b
  {
    BatchOrderIrrelevant(m, us, vs);
    SlabIsCanonical(a, b, side);
  }
}
