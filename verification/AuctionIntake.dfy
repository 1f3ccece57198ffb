/** Turning auction orders into market rows (apps/dma/src/workers/auctions.worker.ts). */
module AuctionIntake {
  import opened Wrappers
  import Rounding
  import SnapEdges
  import opened Heatmap

  const BATCH := 5000

  /** An order of the auction house or the commodity market; amounts are in copper. */
  datatype AuctionOrder = AuctionOrder(
    itemId: nat, bid: Option<nat>, buyout: Option<nat>, unitPrice: Option<nat>, quantity: Option<nat>)

  /** A market row before it is saved. */
  datatype Entity = Entity(
    itemId: nat, price: real, bid: Option<real>, quantity: Option<nat>, value: Option<real>)

  function ToGold(copper: nat): (gold: real)
    ensures gold >= 0.0
  {
    Rounding.ToFixed2(copper as real / 10000.0)
  }

  predicate Truthy(n: Option<nat>) {
    n.Some? && n.value != 0
  }

  /** The first non-zero of unit price, buyout and bid. */
  function TransformPrice(o: AuctionOrder): Option<real> {
    if Truthy(o.unitPrice) then Some(ToGold(o.unitPrice.value))
    else if Truthy(o.buyout) then Some(ToGold(o.buyout.value))
    else if Truthy(o.bid) then Some(ToGold(o.bid.value))
    else None
  }

  function OrderValue(price: real, quantity: nat): real {
    price * quantity as real
  }

  /** One order; None when it has no item or its price rounds to nothing. */
  function Transform(o: AuctionOrder): Option<Entity> {
    var price := TransformPrice(o);
    if o.itemId == 0 || price == None || price.value == 0.0 then None
    else
      var bid := if o.bid.Some? && ToGold(o.bid.value) != 0.0 then Some(ToGold(o.bid.value)) else None;
      var quantity := o.quantity.GetOr(1);
      if quantity == 0 then Some(Entity(o.itemId, price.value, bid, None, None))
      else Some(Entity(o.itemId, price.value, bid, Some(quantity), Some(OrderValue(price.value, quantity))))
  }

  function Transformed(os: seq<AuctionOrder>): seq<Entity> {
    if os == [] then []
    else
      var n := |os| - 1;
      Transformed(os[..n]) + (if Transform(os[n]).Some? then [Transform(os[n]).value] else [])
  }

  lemma TransformedEmpty()
    ensures Transformed([]) == []
  {
  }

  lemma TransformedStep(os: seq<AuctionOrder>, i: nat)
    requires i < |os|
    ensures Transformed(os[..i + 1])
         == if Transform(os[i]).Some? then Transformed(os[..i]) + [Transform(os[i]).value] else Transformed(os[..i])
  {
    assert os[..i + 1][..i] == os[..i];
  }

  /** map, filling each entity field by field, then filter. */
  method TransformOrders(os: seq<AuctionOrder>) returns (entities: seq<Entity>)
    ensures entities == Transformed(os)
  {
    hide Transformed, TransformPrice, OrderValue;
    entities := [];
    assert Transformed(os[..0]) == [] by { TransformedEmpty(); }
    for i := 0 to |os|
      invariant entities == Transformed(os[..i])
    {
      var o := os[i];
      TransformedStep(os, i);
      if o.itemId == 0 { continue; }
      var price := TransformPrice(o);
      if price == None || price.value == 0.0 { continue; }
      var entity := Entity(o.itemId, 0.0, None, None, None);
      var quantity := o.quantity.GetOr(1);
      if o.bid.Some? {
        var bid := ToGold(o.bid.value);
        if bid != 0.0 { entity := entity.(bid := Some(bid)); }
      }
      entity := entity.(price := price.value);
      if quantity != 0 {
        entity := entity.(quantity := Some(quantity));
        entity := entity.(value := Some(OrderValue(price.value, quantity)));
      }
      assert Transform(o) == Some(entity);
      entities := entities + [entity];
    }
    assert os[..|os|] == os;
  }

  // ----- batches

  /** bufferCount(5000): full batches, then what is left. */
  function Batches(os: seq<AuctionOrder>): seq<seq<AuctionOrder>> {
    if os == [] then []
    else if |os| <= BATCH then [os]
    else [os[..BATCH]] + Batches(os[BATCH..])
  }

  /** The batches put together again. */
  function Concat(bs: seq<seq<AuctionOrder>>): seq<AuctionOrder> {
    if bs == [] then [] else bs[0] + Concat(bs[1..])
  }

  /** The batches are the payload in order, all full except the last, none empty. */
  lemma {:induction false} BatchesPartition(os: seq<AuctionOrder>)
    ensures Concat(Batches(os)) == os
    ensures forall i :: 0 <= i < |Batches(os)| - 1 ==> |Batches(os)[i]| == 5000
    ensures forall b :: b in Batches(os) ==> 0 < |b| <= 5000
    decreases |os|
  {
    hide FirstBatch;
    if os != [] {
      var n := FirstBatch(os);
      BatchesStep(os);
      FullOrLast(os);
      BatchesPartition(os[n..]);
      PutInFront(os[..n], Batches(os[n..]));
      assert os == os[..n] + os[n..];
    }
  }

  lemma PutInFront(b: seq<AuctionOrder>, bs: seq<seq<AuctionOrder>>)
    ensures Concat([b] + bs) == b + Concat(bs)
  {
    assert ([b] + bs)[1..] == bs;
  }

  lemma FullOrLast(os: seq<AuctionOrder>)
    requires os != []
    ensures FirstBatch(os) == BATCH || Batches(os[FirstBatch(os)..]) == []
  {
  }

  /** What ends up in the table when batch number k is saved exactly if saves(k). */
  function SavedFrom(bs: seq<seq<AuctionOrder>>, saves: nat -> bool, k: nat): seq<Entity> {
    if bs == [] then []
    else (if saves(k) then Transformed(bs[0]) else []) + SavedFrom(bs[1..], saves, k + 1)
  }

  /**
   * The batch loop of process. A batch whose save throws is logged and skipped; the payload hash is
   * stored exactly when hasPersistedOrders ends up true.
   */
  method SaveAll(os: seq<AuctionOrder>, saves: nat -> bool)
    returns (table: seq<Entity>, iterator_: nat, hasPersistedOrders: bool)
    ensures table == SavedFrom(Batches(os), saves, 0)
    ensures iterator_ == |table|
    ensures hasPersistedOrders <==> table != []
  {
    hide Batches, SavedFrom, Transformed;
    table, iterator_, hasPersistedOrders := [], 0, false;
    var rest := os;
    var k := 0;
    while |rest| > 0
      invariant table + SavedFrom(Batches(rest), saves, k) == SavedFrom(Batches(os), saves, 0)
      invariant iterator_ == |table|
      invariant hasPersistedOrders <==> table != []
      decreases |rest|
    {
      var size := FirstBatch(rest);
      var batch := rest[..size];
      SavedStep(rest, saves, k);
      if saves(k) {
        var bulk := TransformOrders(batch);
        table := table + bulk;
        if |bulk| > 0 {
          hasPersistedOrders := true;
        }
        iterator_ := iterator_ + |bulk|;
      }
      rest, k := rest[size..], k + 1;
    }
    NothingSaved(saves, k);
  }

  lemma NothingSaved(saves: nat -> bool, k: nat)
    ensures SavedFrom(Batches([]), saves, k) == []
  {
  }

  function FirstBatch(os: seq<AuctionOrder>): (n: nat)
    ensures n <= |os| && (os != [] ==> n > 0)
  {
    if |os| < BATCH then |os| else BATCH
  }

  lemma BatchesStep(os: seq<AuctionOrder>)
    requires os != []
    ensures var n := FirstBatch(os); Batches(os) == [os[..n]] + Batches(os[n..])
  {
    if |os| <= BATCH {
      assert os[..|os|] == os && os[|os|..] == [];
    }
  }

  lemma SavedStep(os: seq<AuctionOrder>, saves: nat -> bool, k: nat)
    requires os != []
    ensures SavedFrom(Batches(os), saves, k)
         == (if saves(k) then Transformed(os[..FirstBatch(os)]) else [])
          + SavedFrom(Batches(os[FirstBatch(os)..]), saves, k + 1)
  {
    BatchesStep(os);
    var n := FirstBatch(os);
    assert ([os[..n]] + Batches(os[n..]))[1..] == Batches(os[n..]);
  }

  lemma TransformedLast(os: seq<AuctionOrder>, o: AuctionOrder)
    ensures Transformed(os + [o])
         == Transformed(os) + (if Transform(o).Some? then [Transform(o).value] else [])
  {
    assert (os + [o])[..|os|] == os;
  }

  lemma {:induction false} TransformedConcat(a: seq<AuctionOrder>, b: seq<AuctionOrder>)
    ensures Transformed(a + b) == Transformed(a) + Transformed(b)
  {
    hide Transformed, Transform;
    if b == [] {
      TransformedEmpty();
      assert a + b == a;
    } else {
      var n := |b| - 1;
      TransformedConcat(a, b[..n]);
      TransformedLast(a + b[..n], b[n]);
      TransformedLast(b[..n], b[n]);
      assert a + b == a + b[..n] + [b[n]] && b == b[..n] + [b[n]];
    }
  }

  /** The batches whose save succeeds, numbered from k. */
  function SavedBatches(bs: seq<seq<AuctionOrder>>, saves: nat -> bool, k: nat): seq<seq<AuctionOrder>> {
    if bs == [] then []
    else (if saves(k) then [bs[0]] else []) + SavedBatches(bs[1..], saves, k + 1)
  }

  /** A failing save loses its whole batch and nothing else. */
  lemma {:induction false} SavedExactly(bs: seq<seq<AuctionOrder>>, saves: nat -> bool, k: nat)
    ensures SavedFrom(bs, saves, k) == Transformed(Concat(SavedBatches(bs, saves, k)))
  {
    hide Transformed;
    if bs == [] {
      TransformedEmpty();
    } else {
      var rest := SavedBatches(bs[1..], saves, k + 1);
      SavedExactly(bs[1..], saves, k + 1);
      if saves(k) {
        PutInFront(bs[0], rest);
        TransformedConcat(bs[0], Concat(rest));
      } else {
        assert [] + rest == rest;
      }
    }
  }

  lemma {:induction false} AllSaved(bs: seq<seq<AuctionOrder>>, saves: nat -> bool, k: nat)
    requires forall i: nat :: saves(i)
    ensures SavedBatches(bs, saves, k) == bs
  {
    if bs != [] {
      AllSaved(bs[1..], saves, k + 1);
      assert bs == [bs[0]] + bs[1..];
    }
  }

  /** With no failing save the batching is invisible. */
  lemma BatchingInvisible(os: seq<AuctionOrder>, saves: nat -> bool, k: nat)
    requires forall i: nat :: saves(i)
    ensures SavedFrom(Batches(os), saves, k) == Transformed(os)
  {
    hide Transformed, Batches, SavedFrom, SavedBatches, Concat;
    SavedExactly(Batches(os), saves, k);
    AllSaved(Batches(os), saves, k);
    BatchesPartition(os);
  }

  lemma {:induction false} SavedWithin(bs: seq<seq<AuctionOrder>>, saves: nat -> bool, k: nat)
    ensures multiset(SavedFrom(bs, saves, k)) <= multiset(Transformed(Concat(bs)))
  {
    hide Transformed;
    if bs != [] {
      SavedWithin(bs[1..], saves, k + 1);
      TransformedConcat(bs[0], Concat(bs[1..]));
    }
  }

  /**
   * Whichever saves fail, the table holds the transformed orders of exactly the saved batches, so no row more often
   * than the payload has it, and every row is the transformation of some order.
   */
  lemma SavedIsTransformed(os: seq<AuctionOrder>, saves: nat -> bool, k: nat)
    ensures SavedFrom(Batches(os), saves, k) == Transformed(Concat(SavedBatches(Batches(os), saves, k)))
    ensures multiset(SavedFrom(Batches(os), saves, k)) <= multiset(Transformed(os))
    ensures forall e :: e in SavedFrom(Batches(os), saves, k) ==> exists o :: o in os && Transform(o) == Some(e)
  {
    hide Transformed, Transform, Batches, SavedFrom, SavedBatches, Concat;
    SavedExactly(Batches(os), saves, k);
    SavedWithin(Batches(os), saves, k);
    BatchesPartition(os);
    TransformedMembers(os);
    forall e | e in SavedFrom(Batches(os), saves, k) ensures exists o :: o in os && Transform(o) == Some(e) {
      assert e in multiset(SavedFrom(Batches(os), saves, k));
      assert e in multiset(Transformed(os));
      assert e in Transformed(os);
    }
  }

  lemma {:induction false} TransformedMembers(os: seq<AuctionOrder>)
    ensures forall e :: e in Transformed(os) ==> exists o :: o in os && Transform(o) == Some(e)
  {
    if os != [] {
      TransformedMembers(os[..|os| - 1]);
      assert os[|os| - 1] in os;
    }
  }

  // ----- what a row promises

  /** The row as the heatmap reads it back; the quantity column defaults to 1 in the database. */
  function Stored(e: Entity): Order {
    Order(e.price, Some(e.quantity.GetOr(1)), match e.value case Some(v) => Some(v) case None => None)
  }

  /** Prices are whole cents, at least one of them. */
  lemma PriceIsCents(o: AuctionOrder) returns (cents: nat)
    requires Transform(o).Some?
    ensures cents >= 1 && Transform(o).value.price == cents as real / 100.0
  {
    if Truthy(o.unitPrice) {
      cents := GoldIsCents(o.unitPrice.value);
    } else if Truthy(o.buyout) {
      cents := GoldIsCents(o.buyout.value);
    } else {
      cents := GoldIsCents(o.bid.value);
    }
  }

  lemma GoldIsCents(copper: nat) returns (cents: nat)
    ensures ToGold(copper) == cents as real / 100.0
  {
    cents := (100.0 * (copper as real / 10000.0) + 0.5).Floor;
  }

  /** The copper an order is priced at: the unit price, else the buyout, else the bid; none of them counts when 0. */
  ghost predicate PricedAt(o: AuctionOrder, copper: nat) {
    && copper != 0
    && (o.unitPrice == Some(copper)
        || (o.unitPrice in {None, Some(0)}
            && (o.buyout == Some(copper) || (o.buyout in {None, Some(0)} && o.bid == Some(copper)))))
  }

  lemma GoldExactly(copper: nat)
    ensures ToGold(copper) == 0.0 <==> copper < 50
    ensures -0.005 <= ToGold(copper) - copper as real / 10000.0 <= 0.005
  {
    var c := copper as real;
    assert 100.0 * (c / 10000.0) + 0.5 == c / 100.0 + 0.5;
    var cents := GoldIsCents(copper);
  }

  /** The amount is unique. */
  lemma PricedAtOne(o: AuctionOrder, a: nat, b: nat)
    requires PricedAt(o, a) && PricedAt(o, b)
    ensures a == b
  {
  }

  lemma PriceExactly(o: AuctionOrder)
    ensures TransformPrice(o).Some? ==> exists copper: nat :: PricedAt(o, copper) && TransformPrice(o).value == ToGold(copper)
    ensures TransformPrice(o) == None ==> forall copper: nat :: !PricedAt(o, copper)
  {
    hide ToGold;
    if Truthy(o.unitPrice) {
      assert PricedAt(o, o.unitPrice.value);
    } else if Truthy(o.buyout) {
      assert PricedAt(o, o.buyout.value);
    } else if Truthy(o.bid) {
      assert PricedAt(o, o.bid.value);
    }
  }

  /**
   * An order becomes a row exactly when it has an item and its price is at least half a cent; the row says the price
   * to the nearest cent, the quantity, 1 where none was given, the value, and a bid of at least half a cent.
   */
  lemma TransformExactly(o: AuctionOrder)
    ensures Transform(o).Some? <==> o.itemId != 0 && exists copper: nat :: PricedAt(o, copper) && copper >= 50
    ensures Transform(o).Some? ==>
              var e := Transform(o).value;
              && e.itemId == o.itemId
              && (forall copper: nat :: PricedAt(o, copper) ==> -0.005 <= e.price - copper as real / 10000.0 <= 0.005)
              && e.quantity == (match o.quantity case None => Some(1) case Some(n) => if n == 0 then None else Some(n))
              && (e.quantity.Some? ==> e.value.Some? && e.value.value == e.price * e.quantity.value as real)
              && (e.quantity == None ==> e.value == None)
              && (e.bid.Some? <==> o.bid.Some? && o.bid.value >= 50)
              && (e.bid.Some? ==> -0.005 <= e.bid.value - o.bid.value as real / 10000.0 <= 0.005)
  {
    hide ToGold, TransformPrice, PricedAt;
    PriceExactly(o);
    if TransformPrice(o).Some? {
      var copper: nat :| PricedAt(o, copper) && TransformPrice(o).value == ToGold(copper);
      GoldExactly(copper);
      forall other: nat | PricedAt(o, other) ensures other == copper {
        PricedAtOne(o, other, copper);
      }
    }
    if o.bid.Some? {
      GoldExactly(o.bid.value);
    }
  }

  /** A stored row has value = price * quantity exactly when the payload did not say quantity 0. */
  lemma StoredConsistent(o: AuctionOrder)
    requires Transform(o).Some?
    ensures Consistent(Stored(Transform(o).value)) <==> o.quantity != Some(0)
  {
  }

  /** The heatmap of saved rows shows every row's mean price inside that row. */
  lemma IntakeFeedsHeatmap(os: seq<AuctionOrder>, saves: nat -> bool, axis: seq<real>, x: nat, i: nat, rows: seq<Order>)
    requires forall o :: o in os ==> o.quantity != Some(0)
    requires forall r :: r in rows ==> exists e :: e in SavedFrom(Batches(os), saves, 0) && r == Stored(e)
    requires SnapEdges.Ascending(axis) && i < |axis| && |axis| >= 2 && CellOf(axis, x, i, rows).value > 0.0
    ensures 0 < i ==> axis[i] <= CellOf(axis, x, i, rows).price
    ensures i + 1 < |axis| ==> CellOf(axis, x, i, rows).price < axis[i + 1]
  {
    SavedIsTransformed(os, saves, 0);
    forall r | r in rows ensures Consistent(r) {
      var e :| e in SavedFrom(Batches(os), saves, 0) && r == Stored(e);
      var o :| o in os && Transform(o) == Some(e);
      StoredConsistent(o);
    }
    CellPriceInRow(axis, x, i, rows);
  }
}
