/** The whole price axis (price-binning.ts, buildLogBins and buildHybridPriceBins). */
module PriceAxis {
  import RealFacts
  import Rounding
  import opened NiceGrid
  import opened SnapEdges
  import opened LinearBins
  import PriceBuckets
  import opened Sequences
  import opened Outliers

  const LOG_BIN_RATIO := 50.0
  const MIN_PRICE := 0.01

  // ----- log-spaced edges

  function LogEdge(scale: LogScale, min: real, max: real, blocks: nat, i: nat): real
    requires blocks >= 1
  {
    LogPoint(scale, scale.log(min), (scale.log(max) - scale.log(min)) / blocks as real, i)
  }

  /** Math.pow(10, logMin + i * logStep) */
  function LogPoint(scale: LogScale, logMin: real, logStep: real, i: nat): real {
    scale.pow(logMin + Multiple(i, logStep))
  }

  function LogRaw(scale: LogScale, min: real, max: real, blocks: nat): (raw: seq<real>)
    requires blocks >= 1
    ensures |raw| == blocks + 1
    ensures forall i :: 0 <= i <= blocks ==> raw[i] == LogEdge(scale, min, max, blocks, i)
  {
    seq(blocks + 1, i requires 0 <= i <= blocks => LogEdge(scale, min, max, blocks, i))
  }

  /** The raw edges run from min to max without ever going back. */
  lemma LogRawSpans(scale: LogScale, min: real, max: real, blocks: nat)
    requires scale.Valid() && 0.0 < min <= max && blocks >= 1
    ensures var raw := LogRaw(scale, min, max, blocks);
            && NonDecreasing(raw) && raw[0] == min && raw[blocks] == max
            && forall i :: 0 <= i <= blocks ==> min <= raw[i] <= max
  {
    hide LogEdge;
    LogEdgeEnds(scale, min, max, blocks);
    forall i, j | 0 <= i <= j <= blocks
      ensures LogEdge(scale, min, max, blocks, i) <= LogEdge(scale, min, max, blocks, j)
    {
      LogEdgeOrder(scale, min, max, blocks, i, j);
    }
  }

  lemma LogEdgeEnds(scale: LogScale, min: real, max: real, blocks: nat)
    requires scale.Valid() && 0.0 < min <= max && blocks >= 1
    ensures LogEdge(scale, min, max, blocks, 0) == min
    ensures LogEdge(scale, min, max, blocks, blocks) == max
  {
    hide Multiple;
    var span := scale.log(max) - scale.log(min);
    SmallMultiples(span / blocks as real);
    WholeSpan(span, blocks);
  }

  lemma WholeSpan(span: real, blocks: nat)
    requires blocks >= 1
    ensures Multiple(blocks, span / blocks as real) == span
  {
    RealFacts.QuotientTimes(span, blocks as real);
  }

  lemma LogEdgeOrder(scale: LogScale, min: real, max: real, blocks: nat, i: nat, j: nat)
    requires scale.Valid() && 0.0 < min <= max && blocks >= 1 && i <= j
    ensures LogEdge(scale, min, max, blocks, i) <= LogEdge(scale, min, max, blocks, j)
  {
    hide Multiple;
    scale.LogMonotone(min, max);
    var logStep := (scale.log(max) - scale.log(min)) / blocks as real;
    RealFacts.QuotientCompare(scale.log(max) - scale.log(min), blocks as real, 0.0);
    MultipleMonotone(i, j, logStep);
    scale.PowMonotone(scale.log(min) + Multiple(i, logStep), scale.log(min) + Multiple(j, logStep));
  }

  ghost function LogEdges(scale: LogScale, min: real, max: real, blocks: nat): seq<real>
    requires blocks >= 1
  {
    Records(Snapped(LogRaw(scale, min, max, blocks)))
  }

  method RawLogEdges(scale: LogScale, min: real, max: real, blocks: nat) returns (raw: seq<real>)
    requires blocks >= 1
    ensures raw == LogRaw(scale, min, max, blocks)
  {
    hide LogPoint;
    var logMin := scale.log(min);
    var logMax := scale.log(max);
    var logStep := (logMax - logMin) / blocks as real;
    raw := [];
    for i := 0 to blocks + 1
      invariant |raw| == i
      invariant forall j :: 0 <= j < i ==> raw[j] == LogEdge(scale, min, max, blocks, j)
    {
      raw := raw + [LogPoint(scale, logMin, logStep, i)];
    }
  }

  method BuildLogBins(scale: LogScale, min: real, max: real, blocks: nat) returns (edges: seq<real>)
    requires scale.Valid() && 0.0 < min <= max && blocks >= 1
    ensures edges == LogEdges(scale, min, max, blocks)
    ensures Ascending(edges) && 1 <= |edges| <= blocks + 1
    ensures edges[0] == Snap(min) && edges[|edges| - 1] == Snap(max)
  {
    hide Records, Snapped, Snap, LogEdge;
    var raw := RawLogEdges(scale, min, max, blocks);
    LogRawSpans(scale, min, max, blocks);
    SortedRecords(raw);
    var repaired;
    edges, repaired := SnapAndDedupe(raw);
  }

  // ----- the axis

  function MinOf(ps: seq<real>): (m: real)
    requires ps != []
    ensures m in ps && forall p :: p in ps ==> m <= p
  {
    assert ps == [ps[0]] + ps[1..];
    if |ps| == 1 then ps[0] else var m := MinOf(ps[1..]); if ps[0] < m then ps[0] else m
  }

  function MaxOf(ps: seq<real>): (m: real)
    requires ps != []
    ensures m in ps && forall p :: p in ps ==> p <= m
  {
    assert ps == [ps[0]] + ps[1..];
    if |ps| == 1 then ps[0] else var m := MaxOf(ps[1..]); if ps[0] > m then ps[0] else m
  }

  function AtLeastMin(p: real): real {
    if p < MIN_PRICE then MIN_PRICE else p
  }

  /** The axis of a price range [min, max] of cleaned records. */
  ghost function RangeAxis(scale: LogScale, min: real, max: real, blocks: nat): seq<real>
    requires blocks >= 1
  {
    var low := AtLeastMin(min);
    if max <= min then [low]
    else if max / low > LOG_BIN_RATIO then LogEdges(scale, low, max, blocks)
    else if max <= low then [Rounding.ToFixed2(low)]
    else LinearEdges(low, max, BestStep(max - low, blocks))
  }

  function Cleaned(scale: LogScale, data: seq<Listing>): seq<real> {
    Prices(FilterOutlierPrices(scale, data, 3.0))
  }

  ghost function Axis(scale: LogScale, data: seq<Listing>, blocks: nat): seq<real>
    requires blocks >= 1
  {
    var ps := Cleaned(scale, data);
    if ps == [] then [] else RangeAxis(scale, MinOf(ps), MaxOf(ps), blocks)
  }

  lemma RatioOrder(max: real, low: real)
    requires low > 0.0 && max / low > 50.0
    ensures low < max
  {
  }

  /** Every axis of a positive range is strictly ascending and not empty. */
  lemma RangeAxisAscending(scale: LogScale, min: real, max: real, blocks: nat)
    requires scale.Valid() && blocks >= 1 && 0.0 < min
    ensures Ascending(RangeAxis(scale, min, max, blocks)) && RangeAxis(scale, min, max, blocks) != []
  {
    var low := AtLeastMin(min);
    if max > min {
      if max / low > LOG_BIN_RATIO {
        RatioOrder(max, low);
        LogRawSpans(scale, low, max, blocks);
        SortedRecords(LogRaw(scale, low, max, blocks));
      } else if max > low {
        LinearEdgesCount(low, max, BestStep(max - low, blocks));
        LinearEdgesAscending(low, max, BestStep(max - low, blocks));
      }
    }
  }

  lemma CleanedPositive(scale: LogScale, data: seq<Listing>)
    ensures forall p :: p in Cleaned(scale, data) ==> p > 0.0
  {
  }

  /** The axis is ascending, and empty only when no listing has a positive price. */
  lemma AxisAscending(scale: LogScale, data: seq<Listing>, blocks: nat)
    requires scale.Valid() && blocks >= 1
    ensures Ascending(Axis(scale, data, blocks))
    ensures Axis(scale, data, blocks) != [] <==> exists d :: d in data && d.price > 0.0
  {
    HalfKept(scale, data, 3.0);
    CleanedPositive(scale, data);
    var ps := Cleaned(scale, data);
    if exists d :: d in data && d.price > 0.0 {
      var d :| d in data && d.price > 0.0;
      assert IsUsable(d);
      assert d in Usable(data);
    }
    if ps != [] {
      RangeAxisAscending(scale, MinOf(ps), MaxOf(ps), blocks);
      var kept := FilterOutlierPrices(scale, data, 3.0);
      assert kept[0] in kept;
    }
  }

  /** The prices the axis is built from: those within three interquartile ranges of the quartiles of their logarithms. */
  lemma CleanedExactly(scale: LogScale, data: seq<Listing>, p: real, logs: seq<real>, q1: real, q3: real)
    requires scale.Valid() && logs != []
    requires Sorted(logs) && multiset(logs) == multiset(Map(LogKey(scale), Filter(data, (e: Listing) => e.price > 0.0)))
    requires IsQuantile(logs, 0.25, q1) && IsQuantile(logs, 0.75, q3)
    ensures p in Cleaned(scale, data) <==>
              && (exists d :: d in data && d.price == p) && p > 0.0
              && (|logs| >= 4 && q3 > q1 ==> WithinRanges(3.0, q1, q3, scale.log(p)))
  {
    hide FilterOutlierPrices, IsQuantile, Sorted, Filter, WithinRanges;
    forall d ensures d in FilterOutlierPrices(scale, data, 3.0) <==>
              && d in data && d.price > 0.0
              && (|logs| >= 4 && q3 > q1 ==> WithinRanges(3.0, q1, q3, scale.log(d.price)))
    {
      KeptExactly(scale, data, 3.0, d, logs, q1, q3);
    }
    PricesAre(FilterOutlierPrices(scale, data, 3.0), p);
  }

  lemma PricesAre(kept: seq<Listing>, p: real)
    ensures p in Prices(kept) <==> exists d :: d in kept && d.price == p
  {
    if p in Prices(kept) {
      var i :| 0 <= i < |kept| && Prices(kept)[i] == p;
      assert kept[i] in kept;
    }
    if d :| d in kept && d.price == p {
      var i :| 0 <= i < |kept| && kept[i] == d;
      assert Prices(kept)[i] == p;
    }
  }

  /** Which axis is built: log above a ratio of 50 between the ends, the lower one at least a cent. */
  lemma AxisKind(scale: LogScale, data: seq<Listing>, blocks: nat)
    requires blocks >= 1 && Cleaned(scale, data) != []
    ensures var (ps, axis) := (Cleaned(scale, data), Axis(scale, data, blocks));
            var low := if MinOf(ps) < 0.01 then 0.01 else MinOf(ps);
            && (MaxOf(ps) <= MinOf(ps) ==> axis == [low])
            && (MaxOf(ps) > MinOf(ps) && MaxOf(ps) / low > 50.0 ==> axis == LogEdges(scale, low, MaxOf(ps), blocks))
            && (MaxOf(ps) > low && MaxOf(ps) / low <= 50.0 ==>
                  axis == LinearEdges(low, MaxOf(ps), BestStep(MaxOf(ps) - low, blocks)))
  {
    hide Cleaned, LogEdges, LinearEdges, BestStep;
  }

  method BuildHybridPriceBins(scale: LogScale, data: seq<Listing>, blocks: nat) returns (edges: seq<real>)
    requires scale.Valid() && blocks >= 1
    ensures edges == Axis(scale, data, blocks)
    ensures Ascending(edges)
    ensures edges != [] <==> exists d :: d in data && d.price > 0.0
  {
    hide LogEdges, LinearEdges, BestStep, Snap, Ascending;
    AxisAscending(scale, data, blocks);
    if |data| == 0 { return []; }
    var cleaned := FilterOutlierPrices(scale, data, 3.0);
    if |cleaned| == 0 { return []; }
    var prices := Prices(cleaned);
    CleanedPositive(scale, data);
    var min := MinOf(prices);
    var max := MaxOf(prices);
    if max <= min {
      return [AtLeastMin(min)];
    }
    min := AtLeastMin(min);
    if max / min > LOG_BIN_RATIO {
      RatioOrder(max, min);
      edges := BuildLogBins(scale, min, max, blocks);
    } else {
      edges := BuildLinearBins(min, max, blocks);
    }
  }

  // ----- what the axis says about the prices

  /** The cleaned price range, with the floor applied to its lower end. */
  function Low(scale: LogScale, data: seq<Listing>): real
    requires Cleaned(scale, data) != []
  {
    AtLeastMin(MinOf(Cleaned(scale, data)))
  }

  function High(scale: LogScale, data: seq<Listing>): real
    requires Cleaned(scale, data) != []
  {
    MaxOf(Cleaned(scale, data))
  }

  /** On a linear axis every cleaned price is within a step and a cent of its row's label. */
  lemma LinearAxisClose(scale: LogScale, data: seq<Listing>, blocks: nat, p: real)
    requires scale.Valid() && blocks >= 1 && p in Cleaned(scale, data)
    requires High(scale, data) / Low(scale, data) <= 50.0
    ensures var axis := Axis(scale, data, blocks);
            && axis != []
            && Abs(p - axis[PriceBuckets.LastNotAbove(p, axis)])
               <= BestStep(High(scale, data) - Low(scale, data), blocks) + 0.01
  {
    hide LinearEdges, LogEdges, FilterOutlierPrices, Cleaned, PriceBuckets.LastNotAbove;
    var ps := Cleaned(scale, data);
    CleanedPositive(scale, data);
    RangeClose(scale, MinOf(ps), MaxOf(ps), blocks, p);
  }

  lemma RangeClose(scale: LogScale, min: real, max: real, blocks: nat, p: real)
    requires scale.Valid() && blocks >= 1 && 0.0 < min <= p <= max
    requires max / AtLeastMin(min) <= 50.0
    ensures var axis := RangeAxis(scale, min, max, blocks);
            && axis != []
            && Abs(p - axis[PriceBuckets.LastNotAbove(p, axis)]) <= BestStep(max - AtLeastMin(min), blocks) + 0.01
  {
    hide LinearEdges, LogEdges;
    var low := AtLeastMin(min);
    if max > low {
      LinearBucketClose(low, max, BestStep(max - low, blocks), p);
    } else if max > min {
      Rounding.ToFixed2Cents(1);
    }
  }

  /** How many rows a linear axis has, measured against the requested count. */
  lemma LinearAxisRows(scale: LogScale, data: seq<Listing>, blocks: nat)
    requires scale.Valid() && blocks >= 1 && Cleaned(scale, data) != []
    requires High(scale, data) / Low(scale, data) <= 50.0
    ensures |Axis(scale, data, blocks)| as real
          < Max(Widest(blocks), (High(scale, data) - Low(scale, data)) / 10000.0) + 2.5
  {
    hide LinearEdges, LogEdges, BestStep, FilterOutlierPrices, Cleaned;
    var low, max := Low(scale, data), High(scale, data);
    if low < max {
      BinsBounded(max - low, blocks);
      LinearEdgesCount(low, max, BestStep(max - low, blocks));
    }
  }

  /** A log axis has at most blocks + 1 rows, all of them fixed points of the snap, and its ends
      are within a quarter of the true ends. */
  lemma LogAxisEnds(scale: LogScale, data: seq<Listing>, blocks: nat)
    requires scale.Valid() && blocks >= 1 && Cleaned(scale, data) != []
    requires High(scale, data) / Low(scale, data) > 50.0
    ensures var low, max := Low(scale, data), High(scale, data);
            var axis := Axis(scale, data, blocks);
            && 1 <= |axis| <= blocks + 1
            && axis[0] == Snap(low) && Abs(axis[0] - low) <= low / 4.0 + 0.005
            && axis[|axis| - 1] == Snap(max) && Abs(axis[|axis| - 1] - max) <= max / 4.0 + 0.005
            && forall e :: e in axis ==> Snap(e) == e
  {
    hide LogEdges, Snap, FilterOutlierPrices, Cleaned;
    var low, max := Low(scale, data), High(scale, data);
    RatioOrder(max, low);
    LogEdgesEnds(scale, low, max, blocks);
    assert max > MinOf(Cleaned(scale, data));
    SnapError(low);
    SnapError(max);
  }

  lemma LogEdgesEnds(scale: LogScale, low: real, max: real, blocks: nat)
    requires scale.Valid() && blocks >= 1 && 0.0 < low <= max
    ensures var axis := LogEdges(scale, low, max, blocks);
            && 1 <= |axis| <= blocks + 1
            && axis[0] == Snap(low) && axis[|axis| - 1] == Snap(max)
            && forall e :: e in axis ==> Snap(e) == e
  {
    hide Snap;
    var raw := LogRaw(scale, low, max, blocks);
    LogRawSpans(scale, low, max, blocks);
    SortedRecords(raw);
    forall e | e in LogEdges(scale, low, max, blocks) ensures Snap(e) == e {
      var i :| 0 <= i < |raw| && Snapped(raw)[i] == e;
      SnapIdempotent(raw[i]);
    }
  }

  /** The axis depends only on which usable prices occur how often. */
  lemma AxisByPricesAlone(scale: LogScale, data: seq<Listing>, other: seq<Listing>, blocks: nat)
    requires scale.Valid() && blocks >= 1
    requires multiset(Prices(Usable(data))) == multiset(Prices(Usable(other)))
    ensures Axis(scale, data, blocks) == Axis(scale, other, blocks)
  {
    UsablePositive(data);
    FenceMultiset(scale, Prices(Usable(data)), Prices(Usable(other)), 3.0);
    var f := FenceOf(scale, Prices(Usable(data)), 3.0);
    CleanedIsFiltered(scale, data, f);
    CleanedIsFiltered(scale, other, f);
    FilterMultiset(Prices(Usable(data)), Prices(Usable(other)), AdmitsPrice(f));
    SameEnds(Cleaned(scale, data), Cleaned(scale, other));
  }

  function AdmitsPrice(f: Fence): real -> bool {
    (p: real) => f.Admits(p)
  }

  lemma CleanedIsFiltered(scale: LogScale, data: seq<Listing>, f: Fence)
    requires f == FenceOf(scale, Prices(Usable(data)), 3.0)
    ensures Cleaned(scale, data) == Filter(Prices(Usable(data)), AdmitsPrice(f))
  {
    FilterMap(PriceOf(), Usable(data), Admitted(f), AdmitsPrice(f));
  }

  lemma SameEnds(ps: seq<real>, qs: seq<real>)
    requires multiset(ps) == multiset(qs)
    ensures ps == [] <==> qs == []
    ensures ps != [] && qs != [] ==> MinOf(ps) == MinOf(qs) && MaxOf(ps) == MaxOf(qs)
  {
    assert |ps| == |multiset(ps)| == |multiset(qs)| == |qs|;
    if ps != [] && qs != [] {
      InMultiset(MinOf(ps), ps, qs);
      InMultiset(MinOf(qs), ps, qs);
      InMultiset(MaxOf(ps), ps, qs);
      InMultiset(MaxOf(qs), ps, qs);
    }
  }
}
