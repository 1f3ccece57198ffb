/** Assembling the chart and trimming its empty margins (dma.service.ts, buildChartDataset and trimEmptyXMargins). */
module Chart {
  import opened Sequences
  import SnapEdges
  import opened Heatmap

  // ----- trimming, as a function

  /** The columns that hold some quantity. */
  function Populated(dataset: seq<Cell>): (xs: set<nat>)
    ensures forall x :: x in xs <==> exists p :: p in dataset && p.value > 0.0 && p.x == x
  {
    set p | p in dataset && p.value > 0.0 :: p.x
  }

  /** Math.min(...xs) */
  ghost function Least(xs: set<nat>): (m: nat)
    requires xs != {}
    ensures m in xs && forall x :: x in xs ==> m <= x
  {
    var x :| x in xs;
    if xs == {x} then x
    else
      assert xs == xs - {x} + {x};
      var m := Least(xs - {x});
      if x < m then x else m
  }

  /** Math.max(...xs) */
  ghost function Greatest(xs: set<nat>): (m: nat)
    requires xs != {}
    ensures m in xs && forall x :: x in xs ==> x <= m
  {
    var x :| x in xs;
    if xs == {x} then x
    else
      assert xs == xs - {x} + {x};
      var m := Greatest(xs - {x});
      if x > m then x else m
  }

  function Within(lo: nat, hi: nat): Cell -> bool {
    (p: Cell) => lo <= p.x <= hi
  }

  /** Columns are renumbered from the first kept one. */
  function Renumber(lo: nat): Cell -> Cell {
    (p: Cell) => if lo <= p.x then p.(x := p.x - lo) else p
  }

  function Kept(dataset: seq<Cell>, lo: nat, hi: nat): seq<Cell> {
    Map(Renumber(lo), Filter(dataset, Within(lo, hi)))
  }

  /** Every cell has a column label. */
  predicate Labelled(dataset: seq<Cell>, xAxis: seq<int>) {
    forall p :: p in dataset ==> p.x < |xAxis|
  }

  ghost function TrimTo(dataset: seq<Cell>, xAxis: seq<int>, lo: nat, hi: nat): (seq<Cell>, seq<int>)
    requires lo <= hi < |xAxis|
  {
    if lo == 0 && hi == |xAxis| - 1 then (dataset, xAxis) else (Kept(dataset, lo, hi), xAxis[lo..hi + 1])
  }

  lemma EndsInRange(dataset: seq<Cell>, xAxis: seq<int>)
    requires Labelled(dataset, xAxis) && Populated(dataset) != {}
    ensures Least(Populated(dataset)) <= Greatest(Populated(dataset)) < |xAxis|
  {
  }

  ghost function Trimmed(dataset: seq<Cell>, xAxis: seq<int>): (seq<Cell>, seq<int>)
    requires Labelled(dataset, xAxis)
  {
    var xs := Populated(dataset);
    if xs == {} then (dataset, xAxis)
    else
      EndsInRange(dataset, xAxis);
      TrimTo(dataset, xAxis, Least(xs), Greatest(xs))
  }

  // ----- trimming, as the source does it

  method MinMax(xs: set<nat>) returns (lo: nat, hi: nat)
    requires xs != {}
    ensures lo == Least(xs) && hi == Greatest(xs)
  {
    var x :| x in xs;
    lo, hi := x, x;
    var rest := xs - {x};
    while rest != {}
      invariant lo in xs && hi in xs
      invariant forall y :: y in xs ==> y in rest || lo <= y <= hi
      decreases rest
    {
      var y :| y in rest;
      if y < lo { lo := y; }
      if y > hi { hi := y; }
      rest := rest - {y};
    }
  }

  method PopulatedColumns(dataset: seq<Cell>) returns (populatedX: set<nat>)
    ensures populatedX == Populated(dataset)
  {
    populatedX := {};
    for i := 0 to |dataset|
      invariant populatedX == Populated(dataset[..i])
    {
      assert dataset[..i + 1] == dataset[..i] + [dataset[i]];
      if dataset[i].value > 0.0 {
        populatedX := populatedX + {dataset[i].x};
      }
    }
    assert dataset[..|dataset|] == dataset;
  }

  /** oldToNew, filled column by column. */
  method NumberColumns(kept: seq<nat>, lo: nat) returns (oldToNew: map<nat, nat>)
    requires forall i :: 0 <= i < |kept| ==> kept[i] == lo + i
    ensures forall x :: x in oldToNew <==> lo <= x < lo + |kept|
    ensures forall x :: x in oldToNew ==> oldToNew[x] == x - lo
  {
    oldToNew := map[];
    for newX := 0 to |kept|
      invariant forall x :: x in oldToNew <==> lo <= x < lo + newX
      invariant forall x :: x in oldToNew ==> oldToNew[x] == x - lo
    {
      oldToNew := oldToNew[kept[newX] := newX];
    }
  }

  function Remapped(oldToNew: map<nat, nat>): Cell -> Cell {
    (p: Cell) => if p.x in oldToNew then p.(x := oldToNew[p.x]) else p
  }

  method CutColumns(dataset: seq<Cell>, xAxis: seq<int>, lo: nat, hi: nat) returns (trimmed: seq<Cell>, labels: seq<int>)
    requires lo <= hi < |xAxis|
    ensures trimmed == Kept(dataset, lo, hi) && labels == xAxis[lo..hi + 1]
  {
    var kept: seq<nat> := [];
    for x := lo to hi + 1
      invariant |kept| == x - lo
      invariant forall i :: 0 <= i < |kept| ==> kept[i] == lo + i
    {
      kept := kept + [x];
    }
    var oldToNew := NumberColumns(kept, lo);
    var inside := Filter(dataset, Within(lo, hi));
    trimmed := Map(Remapped(oldToNew), inside);
    assert trimmed == Map(Renumber(lo), inside) by {
      forall i | 0 <= i < |inside| ensures Remapped(oldToNew)(inside[i]) == Renumber(lo)(inside[i]) {
        assert inside[i] in inside;
      }
    }
    labels := seq(|kept|, i requires 0 <= i < |kept| => xAxis[kept[i]]);
  }

  lemma NothingToTrim(dataset: seq<Cell>, xAxis: seq<int>)
    requires Labelled(dataset, xAxis) && (dataset == [] || xAxis == [])
    ensures Populated(dataset) == {}
  {
  }

  method TrimEmptyXMargins(dataset: seq<Cell>, xAxis: seq<int>) returns (trimmed: seq<Cell>, labels: seq<int>)
    requires Labelled(dataset, xAxis)
    ensures (trimmed, labels) == Trimmed(dataset, xAxis)
  {
    hide Populated, Kept;
    if |dataset| == 0 || |xAxis| == 0 {
      NothingToTrim(dataset, xAxis);
      return dataset, xAxis;
    }
    var populatedX := PopulatedColumns(dataset);
    if populatedX == {} {
      return dataset, xAxis;
    }
    var minPopulated, maxPopulated := MinMax(populatedX);
    if minPopulated == 0 && maxPopulated == |xAxis| - 1 {
      return dataset, xAxis;
    }
    EndsInRange(dataset, xAxis);
    trimmed, labels := CutColumns(dataset, xAxis, minPopulated, maxPopulated);
  }

  // ----- what trimming keeps

  function Back(c: Cell, lo: nat): Cell {
    c.(x := c.x + lo)
  }

  lemma KeptMembers(dataset: seq<Cell>, lo: nat, hi: nat, c: Cell)
    requires lo <= hi
    ensures c in Kept(dataset, lo, hi) <==> c.x <= hi - lo && Back(c, lo) in dataset
  {
    var inside := Filter(dataset, Within(lo, hi));
    if c in Kept(dataset, lo, hi) {
      var i :| 0 <= i < |inside| && Map(Renumber(lo), inside)[i] == c;
      assert inside[i] in inside;
      assert inside[i] == Back(c, lo);
    }
    if c.x <= hi - lo && Back(c, lo) in dataset {
      assert Within(lo, hi)(Back(c, lo));
      var i :| 0 <= i < |inside| && inside[i] == Back(c, lo);
      assert Map(Renumber(lo), inside)[i] == c;
    }
  }

  /** Both ways out of the trim have the same members and labels. */
  lemma TrimToMembers(dataset: seq<Cell>, xAxis: seq<int>, lo: nat, hi: nat, c: Cell)
    requires lo <= hi < |xAxis| && Labelled(dataset, xAxis)
    ensures c in TrimTo(dataset, xAxis, lo, hi).0 <==> c.x <= hi - lo && Back(c, lo) in dataset
    ensures TrimTo(dataset, xAxis, lo, hi).1 == xAxis[lo..hi + 1]
  {
    KeptMembers(dataset, lo, hi, c);
    if lo == 0 && hi == |xAxis| - 1 {
      assert Back(c, lo) == c;
    }
  }

  /**
   * The kept columns are one run of the old ones, renumbered from 0 and aligned with their labels;
   * both its end columns hold quantity, every cell inside it survives, no populated cell is lost.
   */
  lemma TrimKeepsRun(dataset: seq<Cell>, xAxis: seq<int>)
    requires Labelled(dataset, xAxis) && Populated(dataset) != {}
    ensures var (d, labels) := Trimmed(dataset, xAxis);
            var lo, hi := Least(Populated(dataset)), Greatest(Populated(dataset));
            && lo <= hi < |xAxis| && labels == xAxis[lo..hi + 1]
            && (forall c :: c in d <==> c.x <= hi - lo && Back(c, lo) in dataset)
            && (forall p :: p in dataset && p.value > 0.0 ==> lo <= p.x <= hi)
            && 0 in Populated(d) && |labels| - 1 in Populated(d)
            && Labelled(d, labels)
  {
    hide TrimTo;
    var lo, hi := Least(Populated(dataset)), Greatest(Populated(dataset));
    EndsInRange(dataset, xAxis);
    var (d, labels) := TrimTo(dataset, xAxis, lo, hi);
    forall c ensures c in d <==> c.x <= hi - lo && Back(c, lo) in dataset {
      TrimToMembers(dataset, xAxis, lo, hi, c);
    }
    TrimToMembers(dataset, xAxis, lo, hi, dataset[0]);
    assert (d, labels) == Trimmed(dataset, xAxis);
    forall p | p in dataset && p.value > 0.0 ensures lo <= p.x <= hi {
      assert p.x in Populated(dataset);
    }
    EndSurvives(dataset, d, lo, hi, lo);
    EndSurvives(dataset, d, lo, hi, hi);
  }

  lemma EndSurvives(dataset: seq<Cell>, d: seq<Cell>, lo: nat, hi: nat, x: nat)
    requires lo <= x <= hi && x in Populated(dataset)
    requires forall c :: c in d <==> c.x <= hi - lo && Back(c, lo) in dataset
    ensures x - lo in Populated(d)
  {
    var p :| p in dataset && p.value > 0.0 && p.x == x;
    var c := p.(x := x - lo);
    assert Back(c, lo) == p;
    assert c in d && c.value > 0.0;
  }

  /** With nothing on sale at all, or nothing at either margin to cut, the chart stays as it is. */
  lemma TrimLeavesAlone(dataset: seq<Cell>, xAxis: seq<int>)
    requires Labelled(dataset, xAxis)
    requires (forall p :: p in dataset ==> p.value <= 0.0)
          || ((exists p :: p in dataset && p.value > 0.0 && p.x == 0)
              && exists p :: p in dataset && p.value > 0.0 && p.x == |xAxis| - 1)
    ensures Trimmed(dataset, xAxis) == (dataset, xAxis)
  {
    var xs := Populated(dataset);
    if xs != {} {
      EndsInRange(dataset, xAxis);
      assert 0 in xs && |xAxis| - 1 in xs;
    }
  }

  /** Trimming twice is trimming once. */
  lemma TrimIdempotent(dataset: seq<Cell>, xAxis: seq<int>)
    requires Labelled(dataset, xAxis)
    ensures var (d, labels) := Trimmed(dataset, xAxis);
            Labelled(d, labels) && Trimmed(d, labels) == (d, labels)
  {
    if Populated(dataset) != {} {
      TrimKeepsRun(dataset, xAxis);
      var (d, labels) := Trimmed(dataset, xAxis);
      EndsInRange(d, labels);
      FullRange(d, labels);
    }
  }

  lemma FullRange(d: seq<Cell>, labels: seq<int>)
    requires Labelled(d, labels) && 0 in Populated(d) && |labels| - 1 in Populated(d)
    ensures Trimmed(d, labels) == (d, labels)
  {
  }

  function PositiveValue(): Cell -> real {
    (c: Cell) => if c.value > 0.0 then c.value else 0.0
  }

  lemma {:induction false} SumAppend(a: seq<Cell>, b: seq<Cell>, w: Cell -> real)
    ensures CellsSum(a + b, w) == CellsSum(a, w) + CellsSum(b, w)
  {
    if b == [] {
      assert a + b == a;
    } else {
      var n := |b| - 1;
      assert (a + b)[..|a + b| - 1] == a + b[..n];
      SumAppend(a, b[..n], w);
    }
  }

  lemma KeptStep(dataset: seq<Cell>, p: Cell, lo: nat, hi: nat)
    ensures Kept(dataset + [p], lo, hi)
         == if Within(lo, hi)(p) then Kept(dataset, lo, hi) + [Renumber(lo)(p)] else Kept(dataset, lo, hi)
  {
    FilterConcat(dataset, [p], Within(lo, hi));
    assert [p][1..] == [];
    MapConcat(Renumber(lo), Filter(dataset, Within(lo, hi)), [p]);
  }

  lemma {:induction false} KeptSum(dataset: seq<Cell>, lo: nat, hi: nat)
    requires forall p :: p in dataset && p.value > 0.0 ==> lo <= p.x <= hi
    ensures CellsSum(Kept(dataset, lo, hi), PositiveValue()) == CellsSum(dataset, PositiveValue())
  {
    hide Kept, Renumber, Within;
    if dataset == [] {
      assert Kept(dataset, lo, hi) == [] by { KeptEmpty(lo, hi); }
    } else {
      var n := |dataset| - 1;
      var p := dataset[n];
      KeptSum(dataset[..n], lo, hi);
      assert dataset == dataset[..n] + [p];
      KeptStep(dataset[..n], p, lo, hi);
      var q := Renumber(lo)(p);
      assert q.value == p.value && (Within(lo, hi)(p) <==> lo <= p.x <= hi) by { RenumberValue(p, lo, hi); }
      SumAppend(Kept(dataset[..n], lo, hi), [q], PositiveValue());
      assert [q][..0] == [];
    }
  }

  lemma RenumberValue(p: Cell, lo: nat, hi: nat)
    ensures Renumber(lo)(p).value == p.value
    ensures Within(lo, hi)(p) <==> lo <= p.x <= hi
  {
  }

  lemma KeptEmpty(lo: nat, hi: nat)
    ensures Kept([], lo, hi) == []
  {
  }

  /** No quantity is lost. */
  lemma TrimConservesValue(dataset: seq<Cell>, xAxis: seq<int>)
    requires Labelled(dataset, xAxis)
    ensures CellsSum(Trimmed(dataset, xAxis).0, PositiveValue()) == CellsSum(dataset, PositiveValue())
  {
    hide Kept, CellsSum;
    if Populated(dataset) != {} {
      forall p | p in dataset && p.value > 0.0
        ensures Least(Populated(dataset)) <= p.x <= Greatest(Populated(dataset))
      {
        assert p.x in Populated(dataset);
      }
      KeptSum(dataset, Least(Populated(dataset)), Greatest(Populated(dataset)));
    }
  }

  lemma PopulatedMultiset(a: seq<Cell>, b: seq<Cell>)
    requires multiset(a) == multiset(b)
    ensures Populated(a) == Populated(b) && forall p :: p in a <==> p in b
  {
    forall p: Cell ensures p in a <==> p in b {
      InMultiset(p, a, b);
    }
  }

  /** The trimmed cells and labels do not depend on the order in which the cells came. */
  lemma TrimOrderFree(a: seq<Cell>, b: seq<Cell>, xAxis: seq<int>)
    requires Labelled(a, xAxis) && multiset(a) == multiset(b)
    ensures Labelled(b, xAxis)
    ensures multiset(Trimmed(a, xAxis).0) == multiset(Trimmed(b, xAxis).0)
    ensures Trimmed(a, xAxis).1 == Trimmed(b, xAxis).1
  {
    hide Populated, Filter, Map, Within, Renumber;
    PopulatedMultiset(a, b);
    if Populated(a) != {} {
      var lo, hi := Least(Populated(a)), Greatest(Populated(a));
      FilterMultiset(a, b, Within(lo, hi));
      MapMultiset(Renumber(lo), Filter(a, Within(lo, hi)), Filter(b, Within(lo, hi)));
    }
  }

  // ----- the chart

  /** The column for timestamp number x, out of all the orders. */
  function FeedColumn(axis: seq<real>, feeds: seq<seq<Order>>): nat -> seq<Cell> {
    (x: nat) => if x < |feeds| then Column(axis, x, feeds[x]) else []
  }

  /** reduce((acc, curr) => [...acc, ...curr], []) */
  function Flatten(blocks: seq<seq<Cell>>): seq<Cell> {
    if blocks == [] then [] else blocks[0] + Flatten(blocks[1..])
  }

  /** The columns in the order in which their queries answered. */
  function Gathered(axis: seq<real>, feeds: seq<seq<Order>>, arrival: seq<nat>): seq<Cell> {
    Flatten(Map(FeedColumn(axis, feeds), arrival))
  }

  lemma {:induction false} FlattenConcat(a: seq<seq<Cell>>, b: seq<seq<Cell>>)
    ensures Flatten(a + b) == Flatten(a) + Flatten(b)
  {
    if a == [] {
      assert a + b == b;
    } else {
      assert (a + b)[1..] == a[1..] + b;
      FlattenConcat(a[1..], b);
    }
  }

  lemma {:induction false} FlattenMultiset(a: seq<seq<Cell>>, b: seq<seq<Cell>>)
    requires multiset(a) == multiset(b)
    ensures multiset(Flatten(a)) == multiset(Flatten(b))
    decreases |a|
  {
    if a == [] {
      assert |multiset(b)| == 0;
    } else {
      var j := FindFirst(a, b);
      FlattenMultiset(a[1..], Without(b, j));
      assert b == b[..j] + ([b[j]] + b[j + 1..]);
      FlattenConcat(b[..j], [b[j]] + b[j + 1..]);
      FlattenConcat(b[..j], b[j + 1..]);
      assert ([b[j]] + b[j + 1..])[1..] == b[j + 1..];
    }
  }

  lemma {:induction false} GatheredLabelled(axis: seq<real>, feeds: seq<seq<Order>>, arrival: seq<nat>, xAxis: seq<int>)
    requires |feeds| == |xAxis|
    ensures Labelled(Gathered(axis, feeds, arrival), xAxis)
  {
    if arrival != [] {
      GatheredLabelled(axis, feeds, arrival[1..], xAxis);
      var f := FeedColumn(axis, feeds);
      assert Map(f, arrival)[1..] == Map(f, arrival[1..]);
    }
  }

  lemma GatheredEmpty(axis: seq<real>, feeds: seq<seq<Order>>)
    ensures Gathered(axis, feeds, []) == []
  {
  }

  lemma GatheredStep(axis: seq<real>, feeds: seq<seq<Order>>, arrival: seq<nat>, x: nat)
    ensures Gathered(axis, feeds, arrival + [x]) == Gathered(axis, feeds, arrival) + FeedColumn(axis, feeds)(x)
  {
    var f := FeedColumn(axis, feeds);
    MapConcat(f, arrival, [x]);
    FlattenConcat(Map(f, arrival), [f(x)]);
    assert [f(x)][1..] == [];
    assert Map(f, [x]) == [f(x)];
    assert Flatten([f(x)]) == f(x);
  }

  /** feeds[i] are the orders at timestamp xAxis[i]; arrival is the order in which the queries answer. */
  method BuildChartDataset(axis: seq<real>, xAxis: seq<int>, feeds: seq<seq<Order>>, arrival: seq<nat>)
    returns (dataset: seq<Cell>, labels: seq<int>)
    requires SnapEdges.Ascending(axis) && |feeds| == |xAxis|
    requires forall k :: 0 <= k < |arrival| ==> arrival[k] < |feeds|
    ensures Labelled(Gathered(axis, feeds, arrival), xAxis)
    ensures (dataset, labels)
         == if axis == [] then ([], xAxis) else Trimmed(Gathered(axis, feeds, arrival), xAxis)
  {
    hide Trimmed, Gathered;
    GatheredLabelled(axis, feeds, arrival, xAxis);
    if |axis| == 0 {
      return [], xAxis;
    }
    var acc: seq<Cell> := [];
    GatheredEmpty(axis, feeds);
    for k := 0 to |arrival|
      invariant acc == Gathered(axis, feeds, arrival[..k])
    {
      var cells := ProcessTimestampData(axis, arrival[k], feeds[arrival[k]]);
      GatheredStep(axis, feeds, arrival[..k], arrival[k]);
      assert arrival[..k + 1] == arrival[..k] + [arrival[k]];
      acc := acc + cells[..];
    }
    assert arrival[..|arrival|] == arrival;
    dataset, labels := TrimEmptyXMargins(acc, xAxis);
  }

  /** The chart is the same collection of cells whichever query answers first. */
  lemma ChartArrivalFree(axis: seq<real>, xAxis: seq<int>, feeds: seq<seq<Order>>, a: seq<nat>, b: seq<nat>)
    requires |feeds| == |xAxis| && multiset(a) == multiset(b)
    ensures var (ca, cb) := (Gathered(axis, feeds, a), Gathered(axis, feeds, b));
            && Labelled(ca, xAxis) && Labelled(cb, xAxis)
            && multiset(Trimmed(ca, xAxis).0) == multiset(Trimmed(cb, xAxis).0)
            && Trimmed(ca, xAxis).1 == Trimmed(cb, xAxis).1
  {
    var f := FeedColumn(axis, feeds);
    MapMultiset(f, a, b);
    FlattenMultiset(Map(f, a), Map(f, b));
    GatheredLabelled(axis, feeds, a, xAxis);
    TrimOrderFree(Gathered(axis, feeds, a), Gathered(axis, feeds, b), xAxis);
  }

  /** The quantity of the orders of one feed. */
  function FeedQuantity(feeds: seq<seq<Order>>, x: nat): real {
    if x < |feeds| then Sum(feeds[x], Quantity()) else 0.0
  }

  /** The quantity of the feeds asked for, in the order in which they answered. */
  function FeedsQuantity(feeds: seq<seq<Order>>, arrival: seq<nat>): real {
    if arrival == [] then 0.0 else FeedQuantity(feeds, arrival[0]) + FeedsQuantity(feeds, arrival[1..])
  }

  /** All the quantity there is. */
  function TotalQuantity(feeds: seq<seq<Order>>): real {
    if feeds == [] then 0.0 else TotalQuantity(feeds[..|feeds| - 1]) + Sum(feeds[|feeds| - 1], Quantity())
  }

  lemma {:induction false} FeedsQuantityConcat(feeds: seq<seq<Order>>, a: seq<nat>, b: seq<nat>)
    ensures FeedsQuantity(feeds, a + b) == FeedsQuantity(feeds, a) + FeedsQuantity(feeds, b)
  {
    hide FeedQuantity;
    if a == [] {
      assert a + b == b;
    } else {
      assert (a + b)[1..] == a[1..] + b;
      FeedsQuantityConcat(feeds, a[1..], b);
    }
  }

  lemma FeedsQuantityOne(feeds: seq<seq<Order>>, x: nat)
    ensures FeedsQuantity(feeds, [x]) == FeedQuantity(feeds, x)
  {
    assert [x][1..] == [];
  }

  lemma FeedsQuantityWithout(feeds: seq<seq<Order>>, a: seq<nat>, j: nat)
    requires j < |a|
    ensures FeedsQuantity(feeds, a) == FeedQuantity(feeds, a[j]) + FeedsQuantity(feeds, Without(a, j))
  {
    hide FeedQuantity, FeedsQuantity;
    assert a == a[..j] + ([a[j]] + a[j + 1..]);
    FeedsQuantityConcat(feeds, a[..j], [a[j]] + a[j + 1..]);
    FeedsQuantityConcat(feeds, [a[j]], a[j + 1..]);
    FeedsQuantityConcat(feeds, a[..j], a[j + 1..]);
    FeedsQuantityOne(feeds, a[j]);
  }

  lemma {:induction false} FeedsQuantityOrderFree(feeds: seq<seq<Order>>, a: seq<nat>, b: seq<nat>)
    requires multiset(a) == multiset(b)
    ensures FeedsQuantity(feeds, a) == FeedsQuantity(feeds, b)
    decreases |a|
  {
    hide FeedQuantity, FeedsQuantity, Without;
    assert |a| == |multiset(a)| == |multiset(b)| == |b|;
    if a == [] {
      assert a == b;
    } else {
      var j := FindFirst(a, b);
      FeedsQuantityOrderFree(feeds, a[1..], Without(b, j));
      FeedsQuantityWithout(feeds, a, 0);
      WithoutFirst(a);
      FeedsQuantityWithout(feeds, b, j);
    }
  }

  /** Every timestamp's query, once each. */
  function Indices(n: nat): (xs: seq<nat>)
    ensures |xs| == n && forall i :: 0 <= i < n ==> xs[i] == i
  {
    seq(n, i => i)
  }

  lemma {:induction false} FeedsQuantityUpTo(feeds: seq<seq<Order>>, n: nat)
    requires n <= |feeds|
    ensures FeedsQuantity(feeds, Indices(n)) == TotalQuantity(feeds[..n])
  {
    hide Sum;
    if n > 0 {
      FeedsQuantityUpTo(feeds, n - 1);
      assert Indices(n) == Indices(n - 1) + [n - 1];
      FeedsQuantityConcat(feeds, Indices(n - 1), [n - 1]);
      FeedsQuantityOne(feeds, n - 1);
      assert feeds[..n][..n - 1] == feeds[..n - 1];
    }
  }

  predicate NonNegative(os: seq<Order>) {
    forall o :: o in os ==> o.quantity.GetOr(0) >= 0
  }

  lemma {:induction false} SumNonNegative(os: seq<Order>)
    requires NonNegative(os)
    ensures Sum(os, Quantity()) >= 0.0
  {
    if os != [] {
      SumNonNegative(os[..|os| - 1]);
    }
  }

  lemma {:induction false} SumSameWeights(cells: seq<Cell>)
    requires forall c :: c in cells ==> c.value >= 0.0
    ensures CellsSum(cells, PositiveValue()) == CellsSum(cells, CellValue())
  {
    if cells != [] {
      SumSameWeights(cells[..|cells| - 1]);
    }
  }

  lemma ColumnQuantity(axis: seq<real>, x: nat, os: seq<Order>)
    requires axis != [] && NonNegative(os)
    ensures CellsSum(Column(axis, x, os), PositiveValue()) == Sum(os, Quantity())
  {
    var column := Column(axis, x, os);
    forall c | c in column ensures c.value >= 0.0 {
      var i :| 0 <= i < |axis| && column[i] == c;
      SumNonNegative(Bucket(os, axis, i));
    }
    SumSameWeights(column);
    ColumnConserves(axis, x, os);
  }

  lemma {:induction false} GatheredQuantity(axis: seq<real>, feeds: seq<seq<Order>>, arrival: seq<nat>)
    requires axis != [] && forall i :: 0 <= i < |feeds| ==> NonNegative(feeds[i])
    ensures CellsSum(Gathered(axis, feeds, arrival), PositiveValue()) == FeedsQuantity(feeds, arrival)
  {
    hide Column, CellsSum, Sum, NonNegative;
    if arrival == [] {
      NoCells();
    } else {
      var x := arrival[0];
      var f := FeedColumn(axis, feeds);
      GatheredQuantity(axis, feeds, arrival[1..]);
      SumAppend(f(x), Gathered(axis, feeds, arrival[1..]), PositiveValue());
      assert Map(f, arrival)[1..] == Map(f, arrival[1..]);
      if x < |feeds| {
        ColumnQuantity(axis, x, feeds[x]);
      } else {
        NoCells();
      }
    }
  }

  lemma NoCells()
    ensures CellsSum([], PositiveValue()) == 0.0
  {
  }

  /** Once every query has answered, in whatever order, the trimmed chart shows all the quantity there is. */
  lemma ChartConservesQuantity(axis: seq<real>, xAxis: seq<int>, feeds: seq<seq<Order>>, arrival: seq<nat>)
    requires axis != [] && |feeds| == |xAxis|
    requires forall i :: 0 <= i < |feeds| ==> NonNegative(feeds[i])
    requires multiset(arrival) == multiset(Indices(|feeds|))
    ensures Labelled(Gathered(axis, feeds, arrival), xAxis)
    ensures CellsSum(Trimmed(Gathered(axis, feeds, arrival), xAxis).0, PositiveValue()) == TotalQuantity(feeds)
  {
    hide Gathered, CellsSum, Trimmed, NonNegative, Indices;
    GatheredLabelled(axis, feeds, arrival, xAxis);
    GatheredQuantity(axis, feeds, arrival);
    FeedsQuantityOrderFree(feeds, arrival, Indices(|feeds|));
    FeedsQuantityUpTo(feeds, |feeds|);
    assert feeds[..|feeds|] == feeds;
    TrimConservesValue(Gathered(axis, feeds, arrival), xAxis);
  }

  lemma {:induction false} GatheredMembers(axis: seq<real>, feeds: seq<seq<Order>>, arrival: seq<nat>, c: Cell)
    requires c in Gathered(axis, feeds, arrival)
    ensures c.x < |feeds| && c.y < |axis| && c == CellOf(axis, c.x, c.y, feeds[c.x])
  {
    var f := FeedColumn(axis, feeds);
    assert Map(f, arrival)[1..] == Map(f, arrival[1..]);
    if c in f(arrival[0]) {
      var column := f(arrival[0]);
      var i :| 0 <= i < |column| && column[i] == c;
    } else {
      GatheredMembers(axis, feeds, arrival[1..], c);
    }
  }

  /** In the finished chart every coloured cell shows a mean price inside the row it is drawn in. */
  lemma ChartPricesInRows(axis: seq<real>, xAxis: seq<int>, feeds: seq<seq<Order>>, arrival: seq<nat>, c: Cell)
    requires SnapEdges.Ascending(axis) && |axis| >= 2 && |feeds| == |xAxis|
    requires forall i :: 0 <= i < |feeds| ==> forall o :: o in feeds[i] ==> Consistent(o)
    requires Labelled(Gathered(axis, feeds, arrival), xAxis)
    requires c in Trimmed(Gathered(axis, feeds, arrival), xAxis).0 && c.value > 0.0
    ensures c.y < |axis|
    ensures 0 < c.y ==> axis[c.y] <= c.price
    ensures c.y + 1 < |axis| ==> c.price < c.lt == axis[c.y + 1]
    ensures c.y + 1 == |axis| ==> c.lt == axis[c.y]
  {
    hide CellOf, Gathered;
    var dataset := Gathered(axis, feeds, arrival);
    var p := c;
    if Populated(dataset) != {} {
      TrimKeepsRun(dataset, xAxis);
      p := Back(c, Least(Populated(dataset)));
    }
    GatheredMembers(axis, feeds, arrival, p);
    CellPriceInRow(axis, p.x, p.y, feeds[p.x]);
  }
}
