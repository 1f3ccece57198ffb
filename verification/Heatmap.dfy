/** One column of the heatmap (apps/api/src/dma/dma.service.ts, processTimestampData). */
module Heatmap {
  import opened Wrappers
  import Sequences
  import SnapEdges
  import opened PriceBuckets

  /** A stored market order; quantity and value are nullable columns. */
  datatype Order = Order(price: real, quantity: Option<int>, value: Option<real>)

  /** A heatmap cell; oi is the order value in it, value the quantity. */
  datatype Cell = Cell(lt: real, x: nat, y: nat, orders: nat, oi: real, price: real, value: real)

  function One(): Order -> real {
    (o: Order) => 1.0
  }

  function Value(): Order -> real {
    (o: Order) => o.value.GetOr(0.0)
  }

  function Quantity(): Order -> real {
    (o: Order) => o.quantity.GetOr(0) as real
  }

  function Sum(os: seq<Order>, w: Order -> real): real {
    if os == [] then 0.0 else Sum(os[..|os| - 1], w) + w(os[|os| - 1])
  }

  function InBucket(axis: seq<real>, i: nat): Order -> bool {
    (o: Order) => LastNotAbove(o.price, axis) == i
  }

  /** The orders of row i. */
  function Bucket(os: seq<Order>, axis: seq<real>, i: nat): seq<Order> {
    Sequences.Filter(os, InBucket(axis, i))
  }

  function Mean(oi: real, value: real): real {
    if value > 0.0 then oi / value else 0.0
  }

  /** What a cell must say about the orders in it. */
  function CellWith(axis: seq<real>, x: nat, i: nat, b: seq<Order>): Cell
    requires i < |axis|
  {
    var oi, value := Sum(b, Value()), Sum(b, Quantity());
    Cell(if i + 1 < |axis| then axis[i + 1] else axis[i], x, i, |b|, oi, Mean(oi, value), value)
  }

  function CellOf(axis: seq<real>, x: nat, i: nat, os: seq<Order>): Cell
    requires i < |axis|
  {
    CellWith(axis, x, i, Bucket(os, axis, i))
  }

  function Column(axis: seq<real>, x: nat, os: seq<Order>): (column: seq<Cell>)
    ensures |column| == |axis|
    ensures forall i :: 0 <= i < |axis| ==> column[i] == CellOf(axis, x, i, os)
  {
    seq(|axis|, i requires 0 <= i < |axis| => CellOf(axis, x, i, os))
  }

  lemma BucketStep(os: seq<Order>, o: Order, axis: seq<real>, i: nat)
    ensures Bucket(os + [o], axis, i)
         == if LastNotAbove(o.price, axis) == i then Bucket(os, axis, i) + [o] else Bucket(os, axis, i)
  {
    Sequences.FilterConcat(os, [o], InBucket(axis, i));
    assert [o][1..] == [];
  }

  lemma SumStep(os: seq<Order>, o: Order, w: Order -> real)
    ensures Sum(os + [o], w) == Sum(os, w) + w(o)
  {
  }

  function AddOrder(c: Cell, o: Order): Cell {
    var oi, value := c.oi + o.value.GetOr(0.0), c.value + o.quantity.GetOr(0) as real;
    c.(orders := c.orders + 1, oi := oi, value := value, price := Mean(oi, value))
  }

  /** An order changes its own row and no other. */
  lemma CellStep(axis: seq<real>, x: nat, i: nat, os: seq<Order>, o: Order)
    requires i < |axis|
    ensures CellOf(axis, x, i, os + [o])
         == if LastNotAbove(o.price, axis) == i then AddOrder(CellOf(axis, x, i, os), o) else CellOf(axis, x, i, os)
  {
    hide Bucket, CellWith, AddOrder;
    BucketStep(os, o, axis, i);
    CellWithStep(axis, x, i, Bucket(os, axis, i), o);
  }

  lemma CellWithStep(axis: seq<real>, x: nat, i: nat, b: seq<Order>, o: Order)
    requires i < |axis|
    ensures CellWith(axis, x, i, b + [o]) == AddOrder(CellWith(axis, x, i, b), o)
  {
  }

  function EmptyCell(axis: seq<real>, x: nat, i: nat): Cell
    requires i < |axis|
  {
    Cell(if i + 1 < |axis| then axis[i + 1] else axis[i], x, i, 0, 0.0, 0.0, 0.0)
  }

  lemma CellEmpty(axis: seq<real>, x: nat, i: nat)
    requires i < |axis|
    ensures CellOf(axis, x, i, []) == EmptyCell(axis, x, i)
  {
  }

  /**
   * The cells start empty and are updated in place, order by order. With no axis the source's
   * cell access fails and its catch block answers with the empty column.
   */
  method ProcessTimestampData(axis: seq<real>, x: nat, os: seq<Order>) returns (cells: array<Cell>)
    requires SnapEdges.Ascending(axis)
    ensures fresh(cells)
    ensures cells[..] == Column(axis, x, os)
  {
    hide CellOf;
    forall i | 0 <= i < |axis|
      ensures CellOf(axis, x, i, os[..0]) == EmptyCell(axis, x, i)
    {
      CellEmpty(axis, x, i);
      assert os[..0] == [];
    }
    cells := new Cell[|axis|](i requires 0 <= i < |axis| => EmptyCell(axis, x, i));
    if |axis| == 0 { return; }
    assert forall i :: 0 <= i < |axis| ==> cells[i] == EmptyCell(axis, x, i);
    for k := 0 to |os|
      invariant forall i :: 0 <= i < |axis| ==> cells[i] == CellOf(axis, x, i, os[..k])
    {
      ghost var before := cells[..];
      var o := os[k];
      var b := AssignPriceBucket(o.price, axis);
      assert os[..k + 1] == os[..k] + [o];
      forall i | 0 <= i < |axis|
        ensures CellOf(axis, x, i, os[..k + 1])
             == if b == i then AddOrder(CellOf(axis, x, i, os[..k]), o) else CellOf(axis, x, i, os[..k])
      {
        CellStep(axis, x, i, os[..k], o);
      }
      cells[b] := cells[b].(orders := cells[b].orders + 1);
      cells[b] := cells[b].(oi := cells[b].oi + o.value.GetOr(0.0));
      cells[b] := cells[b].(value := cells[b].value + o.quantity.GetOr(0) as real);
      cells[b] := cells[b].(price := if cells[b].value > 0.0 then cells[b].oi / cells[b].value else 0.0);
      assert cells[b] == AddOrder(before[b], o);
    }
    assert os[..|os|] == os;
  }

  // ----- conservation

  /** The weight of the first n rows. */
  function RowsSum(os: seq<Order>, axis: seq<real>, n: nat, w: Order -> real): real {
    if n == 0 then 0.0 else RowsSum(os, axis, n - 1, w) + Sum(Bucket(os, axis, n - 1), w)
  }

  lemma {:induction false} RowsSumStep(os: seq<Order>, o: Order, axis: seq<real>, n: nat, w: Order -> real)
    ensures RowsSum(os + [o], axis, n, w)
         == RowsSum(os, axis, n, w) + if LastNotAbove(o.price, axis) < n then w(o) else 0.0
  {
    hide Bucket, Sum;
    if n > 0 {
      RowsSumStep(os, o, axis, n - 1, w);
      BucketStep(os, o, axis, n - 1);
      SumStep(Bucket(os, axis, n - 1), o, w);
    }
  }

  lemma {:induction false} RowsSumEmpty(axis: seq<real>, n: nat, w: Order -> real)
    ensures RowsSum([], axis, n, w) == 0.0
  {
    if n > 0 {
      RowsSumEmpty(axis, n - 1, w);
    }
  }

  /** Whatever is weighed, the rows together hold exactly what the orders hold. */
  lemma {:induction false} RowsSumAll(os: seq<Order>, axis: seq<real>, w: Order -> real)
    requires axis != []
    ensures RowsSum(os, axis, |axis|, w) == Sum(os, w)
  {
    if os == [] {
      RowsSumEmpty(axis, |axis|, w);
    } else {
      var n := |os| - 1;
      assert os == os[..n] + [os[n]];
      RowsSumAll(os[..n], axis, w);
      RowsSumStep(os[..n], os[n], axis, |axis|, w);
    }
  }

  function CellsSum(cells: seq<Cell>, w: Cell -> real): real {
    if cells == [] then 0.0 else CellsSum(cells[..|cells| - 1], w) + w(cells[|cells| - 1])
  }

  function CellOrders(): Cell -> real {
    (c: Cell) => c.orders as real
  }

  function CellOi(): Cell -> real {
    (c: Cell) => c.oi
  }

  function CellValue(): Cell -> real {
    (c: Cell) => c.value
  }

  lemma {:induction false} SumOnes(os: seq<Order>)
    ensures Sum(os, One()) == |os| as real
  {
    if os != [] {
      SumOnes(os[..|os| - 1]);
    }
  }

  lemma {:induction false} ColumnSums(axis: seq<real>, x: nat, os: seq<Order>, n: nat)
    requires n <= |axis|
    ensures CellsSum(Column(axis, x, os)[..n], CellOrders()) == RowsSum(os, axis, n, One())
    ensures CellsSum(Column(axis, x, os)[..n], CellOi()) == RowsSum(os, axis, n, Value())
    ensures CellsSum(Column(axis, x, os)[..n], CellValue()) == RowsSum(os, axis, n, Quantity())
  {
    hide Bucket, Sum, Mean;
    if n > 0 {
      var c := Column(axis, x, os);
      ColumnSums(axis, x, os, n - 1);
      CellsSumStep(c, n - 1, CellOrders());
      CellsSumStep(c, n - 1, CellOi());
      CellsSumStep(c, n - 1, CellValue());
      SumOnes(Bucket(os, axis, n - 1));
    }
  }

  lemma CellsSumStep(cells: seq<Cell>, n: nat, w: Cell -> real)
    requires n < |cells|
    ensures CellsSum(cells[..n + 1], w) == CellsSum(cells[..n], w) + w(cells[n])
  {
    assert cells[..n + 1][..n] == cells[..n];
  }

  /** A column accounts for every order, all order value and all quantity, once each. */
  lemma ColumnConserves(axis: seq<real>, x: nat, os: seq<Order>)
    requires axis != []
    ensures var c := Column(axis, x, os);
            && CellsSum(c, CellOrders()) == |os| as real
            && CellsSum(c, CellOi()) == Sum(os, Value())
            && CellsSum(c, CellValue()) == Sum(os, Quantity())
  {
    var c := Column(axis, x, os);
    assert c[..|axis|] == c;
    ColumnSums(axis, x, os, |axis|);
    RowsSumAll(os, axis, One());
    RowsSumAll(os, axis, Value());
    RowsSumAll(os, axis, Quantity());
    SumOnes(os);
  }

  // ----- the weighted mean

  /** The order's value is its price times its quantity, as the auction worker stores it. */
  predicate Consistent(o: Order) {
    && o.quantity.GetOr(0) >= 0
    && o.value.GetOr(0.0) == o.price * o.quantity.GetOr(0) as real
  }

  lemma WeighAtLeast(lo: real, quantity: real, value: real, p: real, q: real)
    requires lo * quantity <= value && lo <= p && q >= 0.0
    ensures lo * (quantity + q) <= value + p * q
  {
  }

  lemma WeighBelow(hi: real, quantity: real, value: real, p: real, q: real)
    requires quantity >= 0.0 && q >= 0.0 && p < hi
    requires value <= hi * quantity && (quantity > 0.0 ==> value < hi * quantity)
    ensures value + p * q <= hi * (quantity + q)
    ensures quantity + q > 0.0 ==> value + p * q < hi * (quantity + q)
  {
  }

  lemma {:induction false} ValueAtLeast(os: seq<Order>, lo: real)
    requires forall o :: o in os ==> Consistent(o) && lo <= o.price
    ensures lo * Sum(os, Quantity()) <= Sum(os, Value())
  {
    if os != [] {
      var n := |os| - 1;
      var o := os[n];
      assert Consistent(o);
      ValueAtLeast(os[..n], lo);
      WeighAtLeast(lo, Sum(os[..n], Quantity()), Sum(os[..n], Value()), o.price, o.quantity.GetOr(0) as real);
    }
  }

  lemma {:induction false} ValueBelow(os: seq<Order>, hi: real)
    requires forall o :: o in os ==> Consistent(o) && o.price < hi
    ensures Sum(os, Quantity()) >= 0.0
    ensures Sum(os, Value()) <= hi * Sum(os, Quantity())
    ensures Sum(os, Quantity()) > 0.0 ==> Sum(os, Value()) < hi * Sum(os, Quantity())
  {
    if os != [] {
      var n := |os| - 1;
      var o := os[n];
      assert Consistent(o);
      ValueBelow(os[..n], hi);
      WeighBelow(hi, Sum(os[..n], Quantity()), Sum(os[..n], Value()), o.price, o.quantity.GetOr(0) as real);
    }
  }

  /** The price of a cell is its order value per unit, and 0 where nothing is on sale. */
  lemma CellPriceIsMean(axis: seq<real>, x: nat, i: nat, os: seq<Order>)
    requires i < |axis|
    ensures var c := CellOf(axis, x, i, os);
            (c.value > 0.0 ==> c.price * c.value == c.oi) && (c.value <= 0.0 ==> c.price == 0.0)
  {
    hide Sum, Bucket;
    var b := Bucket(os, axis, i);
    MeanTimes(Sum(b, Value()), Sum(b, Quantity()));
  }

  lemma MeanTimes(oi: real, value: real)
    ensures value > 0.0 ==> Mean(oi, value) * value == oi
    ensures value <= 0.0 ==> Mean(oi, value) == 0.0
  {
  }

  lemma MeanAtLeast(oi: real, value: real, lo: real)
    requires value > 0.0 && lo * value <= oi
    ensures lo <= Mean(oi, value)
  {
  }

  lemma MeanBelow(oi: real, value: real, hi: real)
    requires value > 0.0 && oi < hi * value
    ensures Mean(oi, value) < hi
  {
  }

  /** The price shown in a cell with quantity lies in the interval of its row. */
  lemma CellPriceInRow(axis: seq<real>, x: nat, i: nat, os: seq<Order>)
    requires SnapEdges.Ascending(axis) && i < |axis| && |axis| >= 2
    requires forall o :: o in os ==> Consistent(o)
    requires CellOf(axis, x, i, os).value > 0.0
    ensures 0 < i ==> axis[i] <= CellOf(axis, x, i, os).price
    ensures i + 1 < |axis| ==> CellOf(axis, x, i, os).price < CellOf(axis, x, i, os).lt == axis[i + 1]
    ensures i + 1 == |axis| ==> CellOf(axis, x, i, os).lt == axis[i]
  {
    hide Mean, Sum, Sequences.Filter, LastNotAbove;
    var b := Bucket(os, axis, i);
    var oi, value := Sum(b, Value()), Sum(b, Quantity());
    if 0 < i {
      ValueAtLeast(b, axis[i]);
      MeanAtLeast(oi, value, axis[i]);
    }
    if i + 1 < |axis| {
      ValueBelow(b, axis[i + 1]);
      MeanBelow(oi, value, axis[i + 1]);
    }
  }
}
