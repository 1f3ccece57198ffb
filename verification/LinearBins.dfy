/** Equal-width edges for a narrow price range (price-binning.ts, buildLinearBins). */
module LinearBins {
  import opened RealFacts
  import opened Wrappers
  import opened Rounding
  import opened NiceGrid
  import SnapEdges
  import PriceBuckets

  function Abs(x: real): real {
    if x < 0.0 then -x else x
  }

  /** How far the bin count of grid step i is from the requested count. */
  function StepError(range: real, blocks: nat, i: nat): real
  {
    Abs(range / Step(i) - blocks as real)
  }

  /** i is the first minimiser of the error among the first n steps not above the range. */
  ghost predicate IsBest(range: real, blocks: nat, n: nat, i: nat)
    requires n <= 25
  {
    && i < 25
    && (i == 0 || (i < n && Step(i) <= range))
    && forall j :: 0 <= j < n && Step(j) <= range ==>
         && StepError(range, blocks, i) <= StepError(range, blocks, j)
         && (j < i ==> StepError(range, blocks, i) < StepError(range, blocks, j))
  }

  function BestUpTo(range: real, blocks: nat, n: nat): (i: nat)
    requires n <= 25
    ensures IsBest(range, blocks, n, i)
  {
    if n == 0 then 0
    else
      var b := BestUpTo(range, blocks, n - 1);
      if Step(n - 1) <= range && StepError(range, blocks, n - 1) < StepError(range, blocks, b) then n - 1 else b
  }

  function BestStep(range: real, blocks: nat): (step: real)
    ensures step >= 0.01
  {
    Step(BestUpTo(range, blocks, 25))
  }

  lemma {:induction false} BestUpToStops(range: real, blocks: nat, n: nat, m: nat)
    requires n <= m <= 25
    requires n < 25 ==> range < Step(n)
    ensures BestUpTo(range, blocks, m) == BestUpTo(range, blocks, n)
    decreases m
  {
    hide Step, StepError, IsBest;
    if n < m {
      BestUpToStops(range, blocks, n, m - 1);
      GridAscending(n, m - 1);
    }
  }

  lemma BestUpToStep(range: real, blocks: nat, n: nat)
    requires n < 25
    ensures BestUpTo(range, blocks, 0) == 0
    ensures var b := BestUpTo(range, blocks, n);
            BestUpTo(range, blocks, n + 1)
            == if Step(n) <= range && StepError(range, blocks, n) < StepError(range, blocks, b) then n else b
  {
    hide Step, StepError;
  }

  lemma ErrorOfStep(range: real, blocks: nat, i: nat)
    ensures StepError(range, blocks, i) == Abs(range / Step(i) - blocks as real)
  {
  }

  /** The ascending search over the grid, with its early exit. */
  method PickStep(range: real, blocks: nat) returns (bestStep: real)
    ensures bestStep == BestStep(range, blocks)
  {
    hide Step, StepError, IsBest, BestUpTo;
    GridIsSeries();
    BestUpToStep(range, blocks, 0);
    bestStep := NICE_STEPS[0];
    var bestErr: Option<real> := None;  // None is the initial Infinity
    for i := 0 to |NICE_STEPS|
      invariant bestStep == Step(BestUpTo(range, blocks, i))
      invariant bestErr == if i == 0 then None else Some(StepError(range, blocks, BestUpTo(range, blocks, i)))
    {
      var s := NICE_STEPS[i];
      ErrorOfStep(range, blocks, i);
      BestUpToStep(range, blocks, i);
      if s > range {
        BestUpToStops(range, blocks, i, 25);
        break;
      }
      var count := range / s;
      var err := Abs(count - blocks as real);
      if bestErr.None? || err < bestErr.value {
        bestErr, bestStep := Some(err), s;
      }
    }
  }

  /** One of two neighbouring steps around range / b has a count within a third of b. */
  lemma NeighbourSteps(range: real, b: real, s: real, t: real)
    requires 0.0 < b && 0.0 < s < t <= 2.0 * s
    requires s <= range / b < t
    ensures b <= range / s <= 4.0 * b / 3.0 || 2.0 * b / 3.0 < range / t <= b
  {
    QuotientCompare(range, b, s);
    QuotientCompare(range, b, t);
    QuotientCompare(range, s, b);
    QuotientCompare(range, s, 4.0 * b / 3.0);
    MulMonotone(t, 2.0 * s, 2.0 * b / 3.0);
    QuotientCompare(range, t, 2.0 * b / 3.0);
    QuotientCompare(range, t, b);
  }

  lemma AsGoodAs(range: real, blocks: nat, i: nat, bound: real)
    requires i < 25 && Step(i) <= range && StepError(range, blocks, i) <= bound
    ensures Abs(range / BestStep(range, blocks) - blocks as real) <= bound
  {
  }

  /** The chosen step gives a bin count within a third of the requested one. */
  lemma StepAccuracy(range: real, blocks: nat)
    requires blocks >= 2
    requires 0.01 * blocks as real <= range <= 10000.0 * blocks as real
    ensures Abs(range / BestStep(range, blocks) - blocks as real) <= blocks as real / 3.0
  {
    hide Step, BestStep;
    var b := blocks as real;
    var x := range / b;
    QuotientCompare(range, b, 0.01);
    QuotientCompare(range, b, 10000.0);
    var i := StepIndex(2.0 * x);
    GridEnds();
    GridRatio(i);
    BracketBelow(range, b, x);
    if i < 24 {
      NeighbourSteps(range, b, Step(i), Step(i + 1));
      if b <= range / Step(i) <= 4.0 * b / 3.0 {
        AsGoodAs(range, blocks, i, b / 3.0);
      } else {
        AsGoodAs(range, blocks, i + 1, b / 3.0);
      }
    } else {
      ExactCount(range, b);
      AsGoodAs(range, blocks, i, b / 3.0);
    }
  }

  lemma GridEnds()
    ensures Step(0) == 0.01 && Step(24) == 10000.0
  {
    GridIsSeries();
  }

  function Max(a: real, b: real): real {
    if a > b then a else b
  }

  /** The most bins, relative to the request, that the step search settles for within the grid. */
  function Widest(blocks: nat): real {
    if blocks == 1 then 2.0 else 4.0 / 3.0 * blocks as real
  }

  /** However wide or narrow the range is, the chosen step does not give many more bins than requested. */
  lemma BinsBounded(range: real, blocks: nat)
    requires blocks >= 1 && range > 0.0
    ensures range / BestStep(range, blocks) <= Max(Widest(blocks), range / 10000.0)
  {
    hide Step, BestStep, StepIndex;
    var b := blocks as real;
    var s := BestStep(range, blocks);
    GridEnds();
    if range < 0.01 * b {
      FewBins(range, b, s);
    } else if range > 10000.0 * b {
      BestIsOnGrid(range, blocks);
      AsGoodAs(range, blocks, 24, range / 10000.0 - b);
    } else if blocks == 1 {
      var i := StepIndex(2.0 * range);
      OneBin(range, Step(i));
      if i < 24 {
        GridRatio(i);
      }
      AsGoodAs(range, blocks, i, Abs(range / Step(i) - 1.0));
    } else {
      StepAccuracy(range, blocks);
    }
  }

  lemma FewBins(range: real, b: real, s: real)
    requires 0.0 < b && range < 0.01 * b && 0.01 <= s
    ensures range / s < b
  {
    MulMonotone(0.01, s, b);
    QuotientCompare(range, s, b);
  }

  lemma BestIsOnGrid(range: real, blocks: nat)
    requires range >= 10000.0
    ensures 0.01 <= BestStep(range, blocks) <= 10000.0
  {
    GridEnds();
    GridAscending(BestUpTo(range, blocks, 25), 24);
  }

  lemma OneBin(range: real, s: real)
    requires s > 0.0
    ensures s <= range < 2.0 * s ==> 1.0 <= range / s < 2.0
    ensures range == s ==> range / s == 1.0
  {
    QuotientCompare(range, s, 1.0);
    QuotientCompare(range, s, 2.0);
  }

  lemma BracketBelow(range: real, b: real, x: real)
    requires b >= 2.0 && x == range / b && 0.0 < x
    ensures 2.0 * x <= range
  {
  }

  lemma ExactCount(range: real, b: real)
    requires b > 0.0 && range / b == 10000.0
    ensures range / 10000.0 == b
  {
  }

  // ----- the edges

  function LinearStart(min: real, step: real): real
    requires step > 0.0
  {
    (min / step).Floor as real * step
  }

  function LinearRaw(min: real, step: real, j: int): real
    requires step > 0.0
  {
    LinearStart(min, step) + j as real * step
  }

  /** How many raw edges fit below max plus half a step. */
  function LinearCount(min: real, max: real, step: real): int
    requires step > 0.0
  {
    ((max + step / 2.0 - LinearStart(min, step)) / step).Floor + 1
  }

  lemma LinearStartBounds(min: real, step: real)
    requires step > 0.0
    ensures min - step < LinearStart(min, step) <= min
    ensures min >= 0.0 ==> LinearStart(min, step) >= 0.0
  {
    var n := (min / step).Floor;
    QuotientCompare(min, step, n as real);
    QuotientCompare(min, step, (n + 1) as real);
    assert (n + 1) as real * step == n as real * step + step;
    QuotientCompare(min, step, 0.0);
    if min >= 0.0 { MulMonotone(0.0, n as real, step); }
  }

  /** Edge j is in the loop's range exactly when j is below the count. */
  lemma LinearCountExact(min: real, max: real, step: real, j: int)
    requires step > 0.0
    ensures LinearRaw(min, step, j) <= max + step / 2.0 <==> j < LinearCount(min, max, step)
  {
    QuotientCompare(max + step / 2.0 - LinearStart(min, step), step, j as real);
  }

  function LinearEdges(min: real, max: real, step: real): (edges: seq<real>)
    requires step > 0.0
  {
    var n := LinearCount(min, max, step);
    seq(if n < 0 then 0 else n, j => ToFixed2(LinearRaw(min, step, j)))
  }

  lemma LinearRawGap(min: real, step: real, i: int, j: int)
    requires step >= 0.01 && min >= 0.0 && 0 <= i < j
    ensures 0.0 <= LinearRaw(min, step, i) && LinearRaw(min, step, i) + 0.01 <= LinearRaw(min, step, j)
  {
  }

  lemma LinearEdgesAscending(min: real, max: real, step: real)
    requires step >= 0.01 && min >= 0.0
    ensures SnapEdges.Ascending(LinearEdges(min, max, step))
  {
    var e := LinearEdges(min, max, step);
    forall i, j | 0 <= i < j < |e| ensures e[i] < e[j] {
      LinearRawGap(min, step, i, j);
      ToFixed2Separates(LinearRaw(min, step, i), LinearRaw(min, step, j));
    }
  }

  lemma LinearEdgesCount(min: real, max: real, step: real)
    requires step > 0.0 && min < max
    ensures 1 <= |LinearEdges(min, max, step)|
    ensures |LinearEdges(min, max, step)| as real < (max - min) / step + 2.5
  {
    LinearStartBounds(min, step);
    LinearCountExact(min, max, step, 0);
    var n := LinearCount(min, max, step);
    LinearCountExact(min, max, step, n - 1);
    QuotientCompare(max - min, step, n as real - 2.5);
    assert (n as real - 2.5) * step == (n - 1) as real * step - 1.5 * step;
  }

  /** filter((v, i, arr) => i === 0 || v > arr[i - 1]) */
  function AboveNeighbour(arr: seq<real>): (r: seq<real>)
    ensures |r| <= |arr|
    ensures SnapEdges.Ascending(arr) ==> r == arr
  {
    if |arr| <= 1 then arr
    else
      var n := |arr| - 1;
      var rest := AboveNeighbour(arr[..n]);
      assert arr == arr[..n] + [arr[n]];
      if arr[n] > arr[n - 1] then rest + [arr[n]] else rest
  }

  /** The loop over v; it stops after LinearCount rounds. */
  method RawLinearEdges(min: real, max: real, step: real) returns (raw: seq<real>)
    requires step > 0.0 && min < max
    ensures |raw| == LinearCount(min, max, step)
    ensures forall j :: 0 <= j < |raw| ==> raw[j] == LinearRaw(min, step, j)
  {
    var start := (min / step).Floor as real * step;
    raw := [];
    var v := start;
    LinearEdgesCount(min, max, step);
    ghost var n := LinearCount(min, max, step);
    while v <= max + step / 2.0
      invariant |raw| <= n
      invariant v == LinearRaw(min, step, |raw|)
      invariant forall j :: 0 <= j < |raw| ==> raw[j] == LinearRaw(min, step, j)
      decreases n - |raw|
    {
      LinearCountExact(min, max, step, |raw|);
      LinearRawNext(min, step, |raw|);
      raw := raw + [v];
      v := v + step;
    }
    LinearCountExact(min, max, step, |raw|);
  }

  /** The edges of the linear axis. The closing filter never drops one. */
  method BuildLinearBins(min: real, max: real, blocks: nat) returns (edges: seq<real>)
    requires min > 0.0
    ensures max <= min ==> edges == [ToFixed2(min)]
    ensures min < max ==> edges == LinearEdges(min, max, BestStep(max - min, blocks))
    ensures SnapEdges.Ascending(edges) && edges != []
  {
    hide LinearRaw, LinearCount, BestStep, ToFixed2;
    var range := max - min;
    if range <= 0.0 {
      return [ToFixed2(min)];
    }
    var bestStep := PickStep(range, blocks);
    var raw := RawLinearEdges(min, max, bestStep);
    var mapped := seq(|raw|, j requires 0 <= j < |raw| => ToFixed2(raw[j]));
    LinearEdgesCount(min, max, bestStep);
    LinearEdgesAscending(min, max, bestStep);
    assert mapped == LinearEdges(min, max, bestStep);
    edges := AboveNeighbour(mapped);
  }

  lemma LinearRawNext(min: real, step: real, j: int)
    requires step > 0.0
    ensures LinearRaw(min, step, j + 1) == LinearRaw(min, step, j) + step
  {
  }

  /** Every price up to max, down to the clamped floor, is near the label of its row. */
  lemma LinearBucketClose(min: real, max: real, step: real, p: real)
    requires step >= 0.01 && 0.01 <= min < max
    requires (min <= p || (min == 0.01 && 0.0 < p)) && p <= max
    ensures var edges := LinearEdges(min, max, step);
            edges != [] && Abs(p - edges[PriceBuckets.LastNotAbove(p, edges)]) <= step + 0.01
  {
    var edges := LinearEdges(min, max, step);
    LinearEdgesCount(min, max, step);
    LinearStartBounds(min, step);
    var i := PriceBuckets.LastNotAbove(p, edges);
    assert edges[0] == ToFixed2(LinearRaw(min, step, 0));
    LinearRawNext(min, step, i);
    if i + 1 == |edges| {
      LinearCountExact(min, max, step, i + 1);
    } else {
      assert p < edges[i + 1];
    }
  }
}
