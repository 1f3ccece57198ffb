/**
 * Where the price axis ends, how many labels it has, and how far a price is from its label
 * (price-binning.ts, what the comments of snapAndDedupe and buildHybridPriceBins promise).
 */
module AxisEnds {
  import opened RealFacts
  import opened Rounding
  import opened NiceGrid
  import opened SnapEdges
  import opened LinearBins
  import opened PriceBuckets
  import opened Sequences
  import opened Outliers
  import opened PriceAxis

  // ----- when a label reaches the value it stands for

  /** Rounding q to a whole number does not go down. */
  predicate RoundsUp(q: real) {
    q == q.Floor as real || q.Floor as real + 0.5 <= q
  }

  /** Rounding v to grid step i and to cents does not go down; 0.025 gains half a cent on odd multiples. */
  predicate ReachesUp(v: real, i: nat) {
    var q := v / Step(i);
    RoundsUp(q) || (i == 2 && q.Floor % 2 == 1 && q <= q.Floor as real + 0.2)
  }

  /** The greatest multiple of step i not above v is still not above v as a label. */
  predicate StaysBelow(v: real, i: nat) {
    var q := v / Step(i);
    i == 2 && q.Floor % 2 == 1 ==> q.Floor as real + 0.2 <= q
  }

  /** Rounding v to grid step i and to cents does not go up. */
  predicate ReachesDown(v: real, i: nat) {
    var q := v / Step(i);
    q < q.Floor as real + 0.5 && StaysBelow(v, i)
  }

  /** A value as a number of steps: the whole ones and what is left. */
  lemma StepsOf(v: real, s: real) returns (m: int, rest: real)
    requires s > 0.0
    ensures m == (v / s).Floor && v == Multiple(m, s) + rest
    ensures 0.0 <= rest < s
    ensures rest == 0.0 <==> v / s == m as real
    ensures rest < s / 2.0 <==> v / s < m as real + 0.5
    ensures rest < 0.2 * s <==> v / s < m as real + 0.2
    ensures rest <= 0.2 * s <==> v / s <= m as real + 0.2
    ensures Steps(v, s) == if rest < s / 2.0 then m else m + 1
  {
    m := (v / s).Floor;
    rest := v - Multiple(m, s);
    QuotientCompare(v, s, m as real);
    QuotientCompare(v, s, m as real + 1.0);
    QuotientCompare(v, s, m as real + 0.5);
    QuotientCompare(v, s, m as real + 0.2);
    Distribute(m as real, 1.0, s);
    Distribute(m as real, 0.5, s);
    Distribute(m as real, 0.2, s);
  }

  lemma StepAtLeastCent(i: nat)
    ensures Step(i) >= 0.01 && Step(2) == 0.025
  {
    SmallSteps();
  }

  /** The rounded label is at or above the value, and at or below it, exactly in these cases. */
  lemma LabelSide(v: real, i: nat)
    requires v >= 0.0 && i < 25
    ensures ToFixed2(RoundToStep(v, Step(i))) >= v <==> ReachesUp(v, i)
    ensures ToFixed2(RoundToStep(v, Step(i))) <= v <==> ReachesDown(v, i)
  {
    hide Step, Multiple, Steps, ToFixed2;
    StepAtLeastCent(i);
    var s := Step(i);
    var m, rest := StepsOf(v, s);
    FloorAtLeastZero(v, s);
    MultipleNext(m, s);
    LabelOf(Steps(v, s), i);
  }

  lemma FloorAtLeastZero(v: real, s: real)
    requires v >= 0.0 && s > 0.0
    ensures (v / s).Floor >= 0
  {
    QuotientCompare(v, s, 0.0);
  }

  /** The label at which a linear axis of step i starts. */
  function StartLabel(v: real, i: nat): real {
    ToFixed2(Multiple((v / Step(i)).Floor, Step(i)))
  }

  /** The same for the multiple at which a linear axis starts. */
  lemma StartSide(v: real, i: nat)
    requires v >= 0.0 && i < 25
    ensures StartLabel(v, i) <= v <==> StaysBelow(v, i)
  {
    hide Step, Multiple, Steps, ToFixed2;
    StepAtLeastCent(i);
    var m, rest := StepsOf(v, Step(i));
    FloorAtLeastZero(v, Step(i));
    LabelOf(m, i);
  }

  // ----- the ends of both kinds of axis

  /** The last linear label is the rounded maximum, the first one the floored minimum. */
  lemma LinearEnds(min: real, max: real, step: real)
    requires step >= 0.01 && 0.0 < min < max
    ensures var edges := LinearEdges(min, max, step);
            && edges != []
            && edges[|edges| - 1] == ToFixed2(RoundToStep(max, step))
            && edges[0] == ToFixed2(Multiple((min / step).Floor, step))
  {
    hide ToFixed2, Multiple, LinearRaw, LinearCount;
    LinearEdgesCount(min, max, step);
    LinearRawIs(min, step, 0);
    var n := LinearCount(min, max, step);
    LinearRawIs(min, step, n - 1);
    LinearCountIs(min, max, step);
  }

  lemma LinearRawIs(min: real, step: real, j: int)
    requires step > 0.0
    ensures LinearRaw(min, step, j) == Multiple((min / step).Floor + j, step)
  {
    Distribute((min / step).Floor as real, j as real, step);
  }

  lemma LinearCountIs(min: real, max: real, step: real)
    requires step > 0.0
    ensures (min / step).Floor + LinearCount(min, max, step) - 1 == Steps(max, step)
  {
    var m := (min / step).Floor;
    var q := max / step;
    QuotientTimes(max, step);
    Distribute(q, 0.5, step);
    Distribute(q + 0.5, m as real, step);
    DivideBack(q + 0.5 - m as real, step, max + step / 2.0 - LinearStart(min, step));
  }

  predicate IsLog(scale: LogScale, data: seq<Listing>)
    requires Cleaned(scale, data) != [] && Low(scale, data) > 0.0
  {
    High(scale, data) / Low(scale, data) > 50.0
  }

  /** The grid step behind the last label: that of the maximum itself, or the one step of a linear axis. */
  function TopStep(scale: LogScale, data: seq<Listing>, blocks: nat): (i: nat)
    requires Cleaned(scale, data) != [] && Low(scale, data) > 0.0
    ensures i < 25
  {
    if IsLog(scale, data) then StepIndex(High(scale, data))
    else BestUpTo(High(scale, data) - Low(scale, data), blocks, 25)
  }

  lemma LowPositive(scale: LogScale, data: seq<Listing>)
    requires Cleaned(scale, data) != []
    ensures Low(scale, data) >= 0.01
  {
  }

  /** The least cleaned price, before the floor of a cent. */
  function Cheapest(scale: LogScale, data: seq<Listing>): real
    requires Cleaned(scale, data) != []
  {
    MinOf(Cleaned(scale, data))
  }

  /** When the last label reaches the greatest cleaned price: rounding it to its step does not go down. */
  predicate TopCovered(scale: LogScale, data: seq<Listing>, blocks: nat)
    requires Cleaned(scale, data) != [] && Low(scale, data) > 0.0
  {
    High(scale, data) <= Low(scale, data) || ReachesUp(High(scale, data), TopStep(scale, data, blocks))
  }

  /**
   * When the first label is not above the least cleaned price: rounding or flooring it does not go up, and for
   * a price below the floor of a cent, a linear axis with a coarser step than a cent, which then starts at 0.
   */
  predicate BottomCovered(scale: LogScale, data: seq<Listing>, blocks: nat)
    requires Cleaned(scale, data) != [] && Low(scale, data) > 0.0
  {
    var (low, i) := (Low(scale, data), TopStep(scale, data, blocks));
    if Cheapest(scale, data) < 0.01 then
      low < High(scale, data) && !IsLog(scale, data) && Step(i) > 0.01
    else
      High(scale, data) <= low || if IsLog(scale, data) then ReachesDown(low, StepIndex(low)) else StaysBelow(low, i)
  }

  /** Under a step coarser than a cent a cent is floored to nothing. */
  lemma CentFloors(i: nat)
    requires i < 25
    ensures StartLabel(0.01, i) == if Step(i) > 0.01 then 0.0 else 0.01
  {
    hide Step, Multiple, ToFixed2;
    var s := Step(i);
    StepAtLeastCent(i);
    QuotientCompare(0.01, s, 0.0);
    QuotientCompare(0.01, s, 1.0);
    SmallMultiples(s);
    SmallSteps();
    LabelOf((0.01 / s).Floor, i);
  }

  lemma CentSnaps()
    ensures Snap(0.01) == 0.01
  {
    hide Step, StepIndex, Multiple, Steps, ToFixed2;
    SmallSteps();
    StepIndexUnique(0.01, StepIndex(0.01), 0);
    SmallMultiples(0.01);
    StepsIff(0.01, 0.01, 1);
    LabelOf(1, 0);
  }

  /** The first label of an axis with two different ends. */
  lemma FirstLabel(scale: LogScale, data: seq<Listing>, blocks: nat)
    requires scale.Valid() && blocks >= 1 && Cleaned(scale, data) != []
    requires 0.0 < Low(scale, data) < High(scale, data)
    ensures var (low, axis, i) := (Low(scale, data), Axis(scale, data, blocks), TopStep(scale, data, blocks));
            && axis != []
            && axis[0] == (if IsLog(scale, data) then Snap(low) else StartLabel(low, i))
            && axis[|axis| - 1] == ToFixed2(RoundToStep(High(scale, data), Step(i)))
  {
    hide Cleaned, LogEdges, LinearEdges, Step, StepIndex, RoundToStep, ToFixed2, Multiple;
    LowPositive(scale, data);
    var low, high, i := Low(scale, data), High(scale, data), TopStep(scale, data, blocks);
    StepAtLeastCent(i);
    if IsLog(scale, data) {
      LogEdgesEnds(scale, low, high, blocks);
    } else {
      LinearEnds(low, high, Step(i));
    }
  }

  /** What decides the two ends, once they are different. */
  lemma EndsDecided(scale: LogScale, data: seq<Listing>, blocks: nat)
    requires scale.Valid() && blocks >= 1 && Cleaned(scale, data) != []
    requires 0.0 < Low(scale, data) < High(scale, data)
    ensures var axis := Axis(scale, data, blocks);
            && axis != []
            && (High(scale, data) <= axis[|axis| - 1] <==> TopCovered(scale, data, blocks))
            && (axis[0] <= Cheapest(scale, data) <==> BottomCovered(scale, data, blocks))
  {
    hide Cleaned, Axis, High, Step, StepIndex, RoundToStep, ToFixed2, Multiple, Snap, IsLog;
    hide ReachesUp, ReachesDown, StaysBelow, TopStep, StartLabel;
    LowPositive(scale, data);
    var low, i := Low(scale, data), TopStep(scale, data, blocks);
    FirstLabel(scale, data, blocks);
    TopSide(scale, data, blocks);
    SnapSide(low);
    StartSide(low, i);
    CentFloors(i);
    CentSnaps();
    CleanedPositive(scale, data);
    assert Cheapest(scale, data) in Cleaned(scale, data);
  }

  lemma TopSide(scale: LogScale, data: seq<Listing>, blocks: nat)
    requires Cleaned(scale, data) != [] && 0.0 < Low(scale, data) < High(scale, data)
    ensures var i := TopStep(scale, data, blocks);
            Step(i) > 0.0 && (High(scale, data) <= ToFixed2(RoundToStep(High(scale, data), Step(i)))
                              <==> ReachesUp(High(scale, data), i))
  {
    hide Cleaned, High, Step, RoundToStep, ToFixed2, ReachesUp;
    StepAtLeastCent(TopStep(scale, data, blocks));
    LabelSide(High(scale, data), TopStep(scale, data, blocks));
  }

  lemma SnapSide(v: real)
    requires v >= 0.0
    ensures Snap(v) <= v <==> ReachesDown(v, StepIndex(v))
  {
    hide Step, StepIndex, RoundToStep, ToFixed2, ReachesDown;
    LabelSide(v, StepIndex(v));
  }

  lemma AllBetween(ps: seq<real>, lo: real, hi: real)
    requires ps != []
    ensures (forall p :: p in ps ==> lo <= p <= hi) <==> lo <= MinOf(ps) && MaxOf(ps) <= hi
  {
    assert MinOf(ps) in ps && MaxOf(ps) in ps;
  }

  /** The axis covers all cleaned prices exactly when it covers the greatest and the least of them. */
  lemma AxisCovers(scale: LogScale, data: seq<Listing>, blocks: nat)
    requires scale.Valid() && blocks >= 1 && Cleaned(scale, data) != []
    ensures Low(scale, data) > 0.0 && Axis(scale, data, blocks) != []
    ensures var axis := Axis(scale, data, blocks);
            && (High(scale, data) <= axis[|axis| - 1] <==> TopCovered(scale, data, blocks))
            && (axis[0] <= Cheapest(scale, data) <==> BottomCovered(scale, data, blocks))
            && ((forall p :: p in Cleaned(scale, data) ==> axis[0] <= p <= axis[|axis| - 1])
                <==> TopCovered(scale, data, blocks) && BottomCovered(scale, data, blocks))
  {
    hide Cleaned, TopCovered, BottomCovered, Axis, MinOf, MaxOf;
    LowPositive(scale, data);
    if High(scale, data) <= Low(scale, data) {
      OneLabel(scale, data, blocks);
    } else {
      EndsDecided(scale, data, blocks);
    }
    var axis := Axis(scale, data, blocks);
    AllBetween(Cleaned(scale, data), axis[0], axis[|axis| - 1]);
  }

  /** When the cleaned prices are equal or all below a cent, the axis is the floored minimum. */
  lemma OneLabel(scale: LogScale, data: seq<Listing>, blocks: nat)
    requires blocks >= 1 && Cleaned(scale, data) != [] && 0.01 <= Low(scale, data) && High(scale, data) <= Low(scale, data)
    ensures Axis(scale, data, blocks) == [Low(scale, data)]
    ensures TopCovered(scale, data, blocks)
    ensures Low(scale, data) <= Cheapest(scale, data) <==> BottomCovered(scale, data, blocks)
  {
    hide Cleaned, LogEdges, LinearEdges, ToFixed2;
    RatioAtMostOne(High(scale, data), Low(scale, data));
    ToFixed2Cents(1);
  }

  /** On a log axis the half cent plays no part: the last label reaches the maximum exactly when it rounds up. */
  lemma LogAxisCovers(scale: LogScale, data: seq<Listing>, blocks: nat)
    requires scale.Valid() && blocks >= 1 && Cleaned(scale, data) != []
    requires High(scale, data) / Low(scale, data) > 50.0
    ensures var (high, axis) := (High(scale, data), Axis(scale, data, blocks));
            && axis != []
            && (high <= axis[|axis| - 1] <==> RoundsUp(high / Step(StepIndex(high))))
  {
    hide Cleaned, Axis, High, Low, Step, StepIndex;
    LowPositive(scale, data);
    RatioOrder(High(scale, data), Low(scale, data));
    QuotientCompare(High(scale, data), Low(scale, data), 50.0);
    MulMonotone(0.01, Low(scale, data), 50.0);
    SmallSteps();
    AxisCovers(scale, data, blocks);
  }

  lemma RatioAtMostOne(high: real, low: real)
    requires 0.0 < low && high <= low
    ensures high / low <= 1.0
  {
    QuotientCompare(high, low, 1.0);
  }

  // ----- how many labels a log axis has

  /** The number of the label 2 * Step(i); the step before a ratio of 1.25 has one label, every other has two. */
  function FirstRank(i: nat): int {
    2 * i + 2 - (i + 2) / 4
  }

  /** Numbers the possible labels in order, without gaps: 0.01 is the first. */
  function Rank(e: real): int {
    FirstRank(StepIndex(e)) + Steps(e, Step(StepIndex(e))) - 2
  }

  /** The most steps a label of grid step i has, and that the next step takes over right there. */
  function MostSteps(i: nat): int {
    if i % 4 == 1 then 2 else 3
  }

  lemma RanksMeet(i: nat)
    ensures FirstRank(i + 1) == FirstRank(i) + MostSteps(i) - 1
    ensures Step(i + 1) == if MostSteps(i) == 2 then 1.25 * Step(i) else 2.0 * Step(i)
    ensures 2 <= MostSteps(i) <= 3
  {
    hide Step;
    StepNext(i);
    QuarterCount(i);
  }

  lemma QuarterCount(i: nat)
    ensures (i + 3) / 4 == (i + 2) / 4 + if i % 4 == 1 then 1 else 0
  {
  }

  lemma {:induction false} RanksAscend(i: nat, j: nat)
    requires i < j
    ensures FirstRank(i) + MostSteps(i) - 2 < FirstRank(j)
    decreases j
  {
    RanksMeet(j - 1);
    if i < j - 1 {
      RanksAscend(i, j - 1);
    }
  }

  /** Different labels have different numbers, in the same order. */
  lemma RankStrict(e: real, f: real)
    requires 0.0 <= e < f && Snap(e) == e && Snap(f) == f
    ensures Rank(e) < Rank(f)
  {
    hide Step, StepIndex, Multiple, Steps, ToFixed2, FirstRank, MostSteps;
    var i, j := StepIndex(e), StepIndex(f);
    StepIndexMonotone(e, f);
    if i == j {
      StepsMonotone(e, f, Step(i));
    } else {
      FewSteps(e);
      TwoSteps(f);
      RanksAscend(i, j);
    }
  }

  /** Below the last step of the grid a label is at most two or three steps. */
  lemma FewSteps(e: real)
    requires 0.0 <= e && Snap(e) == e && StepIndex(e) < 24
    ensures Steps(e, Step(StepIndex(e))) <= MostSteps(StepIndex(e))
  {
    hide Step, StepIndex, RawSnap, Multiple, Steps;
    var i := StepIndex(e);
    var k := SnapParts(e);
    RanksMeet(i);
    SmallMultiples(Step(i));
    if k > MostSteps(i) {
      MultipleMonotone(MostSteps(i) + 1, k, Step(i));
    }
  }

  /** Above the first step it is at least two. */
  lemma TwoSteps(f: real)
    requires 0.0 <= f && 0 < StepIndex(f)
    ensures Steps(f, Step(StepIndex(f))) >= 2
  {
    hide Step, StepIndex, Multiple, Steps;
    var s := Step(StepIndex(f));
    SmallMultiples(s);
    StepsIff(2.0 * s, s, 2);
    StepsMonotone(2.0 * s, f, s);
  }

  /** No number is left out: below the last step of the grid every label has a next one. */
  lemma NextLabel(e: real) returns (f: real)
    requires 0.01 <= e && Snap(e) == e && StepIndex(e) < 24
    ensures e < f && Snap(f) == f && Rank(f) == Rank(e) + 1
  {
    hide Step, StepIndex, Multiple, Steps, ToFixed2, RawSnap, FirstRank;
    var i := StepIndex(e);
    var s := Step(i);
    var k := SnapParts(e);
    RanksMeet(i);
    GridRatio(i);
    FewSteps(e);
    SmallMultiples(s);
    MultipleNext(k, s);
    if k == MostSteps(i) {
      f := 2.0 * Step(i + 1);
      FirstOfStep(i + 1);
    } else {
      f := ToFixed2(Multiple(k + 1, s));
      LaterOfStep(i, k + 1);
    }
  }

  /** Twice a step is a label. */
  lemma FirstOfStep(i: nat)
    requires 0 < i < 25
    ensures Snap(2.0 * Step(i)) == 2.0 * Step(i) && StepIndex(2.0 * Step(i)) == i
    ensures Steps(2.0 * Step(i), Step(i)) == 2
  {
    hide Step, StepIndex, Multiple, Steps, ToFixed2;
    GridRatio(i);
    SmallMultiples(Step(i));
    StepIndexUnique(2.0 * Step(i), StepIndex(2.0 * Step(i)), i);
    StepsIff(2.0 * Step(i), Step(i), 2);
    LabelOf(2, i);
  }

  /** So are the other small multiples of a step inside its range. */
  lemma LaterOfStep(i: nat, k: nat)
    requires i < 24 && 1 <= k <= MostSteps(i) && (i == 0 || 2 <= k)
    ensures var f := ToFixed2(Multiple(k, Step(i)));
            f >= Multiple(k, Step(i)) && Snap(f) == f && StepIndex(f) == i && Steps(f, Step(i)) == k
  {
    hide Step, StepIndex, Multiple, Steps, ToFixed2, MostSteps;
    SmallSteps();
    SmallMultiples(Step(i));
    LabelOf(k, i);
    if i == 2 && k == 3 {
      Snap75();
      OnGrid(0.08, 2, 3);
    } else {
      RanksMeet(i);
      OnGrid(Multiple(k, Step(i)), i, k);
    }
  }

  lemma OnGrid(f: real, i: nat, k: nat)
    requires f >= 0.0 && IsStepIndex(f, i)
    requires Multiple(k, Step(i)) - Step(i) / 2.0 <= f < Multiple(k, Step(i)) + Step(i) / 2.0
    ensures StepIndex(f) == i && Steps(f, Step(i)) == k
  {
    hide Step, StepIndex, Multiple, Steps;
    StepIndexUnique(f, StepIndex(f), i);
    StepsIff(f, Step(i), k);
  }

  lemma {:induction false} RanksBetween(es: seq<real>)
    requires es != [] && Ascending(es) && forall e :: e in es ==> e >= 0.0 && Snap(e) == e
    ensures |es| <= Rank(es[|es| - 1]) - Rank(es[0]) + 1
  {
    hide Rank, Snap;
    if |es| > 1 {
      var n := |es| - 1;
      AllButLast(es);
      forall e | e in es[..n] ensures e >= 0.0 && Snap(e) == e {
        assert e in es;
      }
      RanksBetween(es[..n]);
      assert es[n - 1] in es && es[n] in es;
      RankStrict(es[n - 1], es[n]);
    }
  }

  lemma FirstIsLeast(es: seq<real>)
    requires Ascending(es) && es != []
    ensures forall e :: e in es ==> es[0] <= e
  {
  }

  /** A log axis has no more labels than the grid has between its ends, whatever number was requested. */
  lemma LogAxisLabels(scale: LogScale, data: seq<Listing>, blocks: nat)
    requires scale.Valid() && blocks >= 1 && Cleaned(scale, data) != []
    requires High(scale, data) / Low(scale, data) > 50.0
    ensures |Axis(scale, data, blocks)| <= Rank(Snap(High(scale, data))) - Rank(Snap(Low(scale, data))) + 1
  {
    hide Snap, Rank, Cleaned, Low, High, Axis, Ascending;
    LogAxisEnds(scale, data, blocks);
    AxisAscending(scale, data, blocks);
    LowPositive(scale, data);
    var axis := Axis(scale, data, blocks);
    SnapError(Low(scale, data));
    FirstIsLeast(axis);
    RanksBetween(axis);
  }

  /** The number of labels of a linear axis. */
  lemma LinearAxisCount(scale: LogScale, data: seq<Listing>, blocks: nat)
    requires scale.Valid() && blocks >= 1 && Cleaned(scale, data) != []
    requires Low(scale, data) < High(scale, data)
    requires High(scale, data) / Low(scale, data) <= 50.0
    ensures var s := BestStep(High(scale, data) - Low(scale, data), blocks);
            |Axis(scale, data, blocks)| == Steps(High(scale, data), s) - (Low(scale, data) / s).Floor + 1
  {
    hide Cleaned, LogEdges, BestStep, Steps;
    LowPositive(scale, data);
    var low, high := Low(scale, data), High(scale, data);
    var s := BestStep(high - low, blocks);
    LinearEdgesCount(low, high, s);
    LinearCountIs(low, high, s);
  }

  lemma WithoutEntry(s: seq<real>, i: nat)
    requires NonDecreasing(s) && i + 1 < |s| && s[i] == s[i + 1]
    ensures NonDecreasing(Without(s, i)) && forall x :: x in Without(s, i) <==> x in s
  {
    var t := Without(s, i);
    forall x ensures x in t <==> x in s {
      if x in s {
        var j :| 0 <= j < |s| && s[j] == x;
        assert t[if j <= i then (if j < i then j else i) else j - 1] == x;
      }
    }
  }

  /** A sorted list has as many records as entries exactly when no two neighbours are equal. */
  lemma AllRecords(s: seq<real>)
    requires NonDecreasing(s)
    ensures |Records(s)| == |s| <==> forall i :: 0 <= i < |s| - 1 ==> s[i] < s[i + 1]
  {
    hide Records, NonDecreasing, Ascending;
    RecordsOfSorted(s);
    if i :| 0 <= i < |s| - 1 && s[i] >= s[i + 1] {
      EqualNeighbours(s, i);
      WithoutEntry(s, i);
      RecordsOfSorted(Without(s, i));
      AscendingUnique(Records(s), Records(Without(s, i)));
    } else {
      StrictAscends(s);
      AscendingUnique(Records(s), s);
    }
  }

  lemma EqualNeighbours(s: seq<real>, i: nat)
    requires NonDecreasing(s) && i + 1 < |s| && s[i] >= s[i + 1]
    ensures s[i] == s[i + 1]
  {
  }

  lemma {:induction false} StrictAscends(s: seq<real>)
    requires forall i :: 0 <= i < |s| - 1 ==> s[i] < s[i + 1]
    ensures Ascending(s)
  {
    if |s| > 1 {
      var n := |s| - 1;
      StrictAscends(s[..n]);
      forall i, j | 0 <= i < j < |s| ensures s[i] < s[j] {
        assert s[..n][i] <= s[..n][n - 1];
      }
    }
  }

  /** A log axis has the number of labels asked for exactly when no two neighbouring raw edges share a label. */
  lemma LogAxisFull(scale: LogScale, data: seq<Listing>, blocks: nat)
    requires scale.Valid() && blocks >= 1 && Cleaned(scale, data) != []
    requires High(scale, data) / Low(scale, data) > 50.0
    ensures var raw := LogRaw(scale, Low(scale, data), High(scale, data), blocks);
            |Axis(scale, data, blocks)| == blocks + 1
            <==> forall i :: 0 <= i < blocks ==> Snap(raw[i]) < Snap(raw[i + 1])
  {
    hide Cleaned, Snap, LogEdge, Records, NonDecreasing;
    LowPositive(scale, data);
    var low, high := Low(scale, data), High(scale, data);
    RatioOrder(high, low);
    var raw := LogRaw(scale, low, high, blocks);
    LogRawSpans(scale, low, high, blocks);
    SnappedSorted(raw);
    AllRecords(Snapped(raw));
  }

  // ----- two listings

  function Two(a: real, b: real): seq<Listing> {
    [Listing(a, 1), Listing(b, 1)]
  }

  lemma TwoEnds(scale: LogScale, a: real, b: real)
    requires 0.0 < a < b
    ensures Cleaned(scale, Two(a, b)) == [a, b]
    ensures Low(scale, Two(a, b)) == AtLeastMin(a) && High(scale, Two(a, b)) == b
  {
    FilterAll(Two(a, b), IsUsable);
    FilterAll(Two(a, b), Admitted(KeepAll));
    assert FilterOutlierPrices(scale, Two(a, b), 3.0) == Two(a, b);
  }

  /** A value's place on the grid, its label and the label's number. */
  lemma Placed(v: real, i: nat, s: real, k: nat, edge: real)
    requires i < 25 && i != 2 && Step(i) == s && IsStepIndex(v, i) && v >= 0.0
    requires Multiple(k, s) - s / 2.0 <= v < Multiple(k, s) + s / 2.0 && Multiple(k, s) == edge
    ensures Snap(v) == edge && Rank(v) == FirstRank(i) + k - 2
  {
    hide Step, StepIndex, Multiple, Steps, ToFixed2;
    StepIndexUnique(v, StepIndex(v), i);
    StepsIff(v, s, k);
    LabelOf(k, i);
  }

  lemma WideSnaps()
    ensures Snap(0.5) == 0.5 && Rank(0.5) == 12
    ensures Snap(49.0) == 40.0 && Rank(40.0) == 25
  {
    hide Snap, Rank, Step;
    assert FirstRank(6) == 12 && FirstRank(13) == 25;
    GridIsSeries();
    Placed(0.5, 6, 0.25, 2, 0.5);
    Placed(49.0, 13, 20.0, 2, 40.0);
    Placed(40.0, 13, 20.0, 2, 40.0);
  }

  /** With a listing below a cent the axis of a wide range starts above it. */
  lemma FirstLabelMayBeAboveMin(scale: LogScale)
    requires scale.Valid()
    ensures var (data, axis) := (Two(0.005, 1.0), Axis(scale, Two(0.005, 1.0), 20));
            0.005 in Cleaned(scale, data) && axis != [] && axis[0] == 0.01
  {
    hide Cleaned, Low, High, Axis, Snap;
    TwoEnds(scale, 0.005, 1.0);
    LogAxisEnds(scale, Two(0.005, 1.0), 20);
    CentSnaps();
  }

  /** At a maximum of 49 the axis ends at 40, and of 21 labels asked for there are at most 14. */
  lemma LastLabelMayBeBelowMax(scale: LogScale)
    requires scale.Valid()
    ensures High(scale, Two(0.5, 49.0)) == 49.0
    ensures var axis := Axis(scale, Two(0.5, 49.0), 20);
            axis != [] && axis[|axis| - 1] == 40.0 && |axis| <= 14
  {
    hide Snap, Rank, Cleaned, Low, High, Axis;
    TwoEnds(scale, 0.5, 49.0);
    WideSnaps();
    LogAxisEnds(scale, Two(0.5, 49.0), 20);
    LogAxisLabels(scale, Two(0.5, 49.0), 20);
  }

  /** From 4.00 to 4.15 the finest step gives 16 labels, not the 21 asked for. */
  lemma NarrowAxisIsShort(scale: LogScale)
    requires scale.Valid()
    ensures |Axis(scale, Two(4.0, 4.15), 20)| == 16
  {
    hide Cleaned, Low, High, Axis, BestStep, Steps;
    TwoEnds(scale, 4.0, 4.15);
    FinestIsBest();
    assert 4.15 - 4.0 == 0.15;
    LinearAxisCount(scale, Two(4.0, 4.15), 20);
    StepsIff(4.15, 0.01, 415);
  }

  lemma FinestIsBest()
    ensures BestStep(0.15, 20) == 0.01
  {
    hide Step, StepError, BestStep;
    SmallSteps();
    ErrorOfStep(0.15, 20, 0);
    CoarseError(BestStep(0.15, 20));
    AsGoodAs(0.15, 20, 0, 5.0);
    FinestOrCoarse(0.15, 20);
  }

  lemma FinestOrCoarse(range: real, blocks: nat)
    ensures BestStep(range, blocks) == 0.01 || BestStep(range, blocks) >= 0.02
  {
    hide Step, IsBest;
    SmallSteps();
    var i := BestUpTo(range, blocks, 25);
    if i > 0 {
      GridAscending(1, i);
    }
  }

  lemma CoarseError(s: real)
    requires s > 0.0
    ensures s >= 0.02 ==> Abs(0.15 / s - 20.0) > 12.0
    ensures Abs(0.15 / 0.01 - 20.0) == 5.0
  {
    QuotientCompare(0.15, s, 8.0);
  }

  // ----- how far a price is from its label on a log axis

  /** The ratio of neighbouring raw edges. */
  function EdgeRatio(scale: LogScale, low: real, max: real, blocks: nat): real
    requires blocks >= 1
  {
    scale.pow((scale.log(max) - scale.log(low)) / blocks as real)
  }

  function Scaled(x: real, r: real): real {
    x * r
  }

  lemma PowAdds(scale: LogScale, a: real, b: real)
    requires scale.Valid() && scale.Additive()
    ensures scale.pow(a + b) == Scaled(scale.pow(a), scale.pow(b))
  {
    var x, y := scale.pow(a), scale.pow(b);
    assert scale.Adds(x, y);
    PositiveFactor(x, y);
    assert scale.log(x * y) == a + b;
  }

  lemma NextPoint(scale: LogScale, logMin: real, logStep: real, i: nat)
    requires scale.Valid() && scale.Additive()
    ensures LogPoint(scale, logMin, logStep, i + 1) == Scaled(LogPoint(scale, logMin, logStep, i), scale.pow(logStep))
  {
    hide Multiple, Scaled, LogScale.Valid, LogScale.Additive;
    MultipleNext(i, logStep);
    PowAdds(scale, logMin + Multiple(i, logStep), logStep);
  }

  lemma NextEdge(scale: LogScale, low: real, max: real, blocks: nat, i: nat)
    requires scale.Valid() && scale.Additive() && blocks >= 1
    ensures LogEdge(scale, low, max, blocks, i + 1)
         == Scaled(LogEdge(scale, low, max, blocks, i), EdgeRatio(scale, low, max, blocks))
  {
    hide LogPoint, Scaled;
    NextPoint(scale, scale.log(low), (scale.log(max) - scale.log(low)) / blocks as real, i);
  }

  lemma RatioAtLeastOne(scale: LogScale, low: real, max: real, blocks: nat)
    requires scale.Valid() && scale.Additive() && blocks >= 1 && 0.0 < low <= max
    ensures EdgeRatio(scale, low, max, blocks) >= 1.0
  {
    hide LogEdge, EdgeRatio, Scaled;
    LogEdgeEnds(scale, low, max, blocks);
    LogEdgeOrder(scale, low, max, blocks, 0, 1);
    NextEdge(scale, low, max, blocks, 0);
    FactorAtLeastOne(low, EdgeRatio(scale, low, max, blocks));
  }

  lemma FactorAtLeastOne(x: real, r: real)
    requires 0.0 < x <= Scaled(x, r)
    ensures r >= 1.0
  {
  }

  /** The last raw edge with a given label. */
  lemma {:induction false} LastWithLabel(s: seq<real>, x: real) returns (i: nat)
    requires x in s
    ensures i < |s| && s[i] == x && (i + 1 < |s| ==> s[i + 1] != x)
  {
    var n := |s| - 1;
    if s[n] == x {
      return n;
    }
    assert s == s[..n] + [s[n]];
    i := LastWithLabel(s[..n], x);
  }

  /** The label of a price comes from a raw edge, and the next raw edge already has a label above the price. */
  lemma LabelSource(raw: seq<real>, p: real) returns (i: nat)
    requires raw != [] && NonDecreasing(raw) && forall j :: 0 <= j < |raw| ==> raw[j] >= 0.0
    ensures var edges := Records(Snapped(raw));
            edges != [] && i < |raw| && Snap(raw[i]) == edges[LastNotAbove(p, edges)]
    ensures i + 1 < |raw| ==> p < Snap(raw[i + 1])
  {
    hide Snap, Records, LastNotAbove;
    var s := Snapped(raw);
    var edges := Records(s);
    SortedRecords(raw);
    SnappedSorted(raw);
    var k := LastNotAbove(p, edges);
    assert edges[k] in edges;
    i := LastWithLabel(s, edges[k]);
    if i + 1 < |raw| {
      assert s[i] < s[i + 1] && s[i + 1] in edges;
      var j :| 0 <= j < |edges| && edges[j] == s[i + 1];
      assert k < j;
    }
  }

  /** The greatest price a label can have. */
  function Reach(edge: real, r: real): real {
    5.0 / 3.0 * (r * (edge + 0.005)) + 0.005
  }

  /** What a snapped neighbour says about a price between two raw edges. */
  lemma BetweenEdges(p: real, x: real, r: real, edge: real)
    requires x > 0.0 && r >= 1.0 && edge >= 0.75 * x - 0.005
    requires p <= x || p < 1.25 * Scaled(x, r) + 0.005
    ensures p <= Reach(edge, r)
  {
    MulMonotone(0.75 * x, edge + 0.005, r);
    MulMonotone(1.0, r, x);
  }

  lemma RangeLogClose(scale: LogScale, low: real, max: real, blocks: nat, p: real)
    requires scale.Valid() && scale.Additive() && blocks >= 1 && 0.01 <= low <= max && p <= max
    ensures var axis := LogEdges(scale, low, max, blocks);
            && axis != []
            && p <= Reach(axis[LastNotAbove(p, axis)], EdgeRatio(scale, low, max, blocks))
            && (axis[LastNotAbove(p, axis)] <= p || axis[LastNotAbove(p, axis)] <= 1.25 * low + 0.005)
  {
    hide LogEdge, EdgeRatio, Snap, Records, Snapped, LastNotAbove, NonDecreasing, Scaled, Reach;
    var raw := LogRaw(scale, low, max, blocks);
    var axis := LogEdges(scale, low, max, blocks);
    LogRawSpans(scale, low, max, blocks);
    var i := LabelSource(raw, p);
    SnapError(raw[i]);
    RatioAtLeastOne(scale, low, max, blocks);
    if i < blocks {
      NextEdge(scale, low, max, blocks, i);
      SnapError(raw[i + 1]);
    }
    BetweenEdges(p, raw[i], EdgeRatio(scale, low, max, blocks), Snap(raw[i]));
    if axis[LastNotAbove(p, axis)] > p {
      SortedRecords(raw);
      SnapError(low);
      assert LastNotAbove(p, axis) == 0;
    }
  }

  /**
   * On a log axis the label of a price is at most a quarter above it, and the price at most five thirds of
   * one edge ratio above its label, up to half a cent.
   */
  lemma LogAxisClose(scale: LogScale, data: seq<Listing>, blocks: nat, p: real)
    requires scale.Valid() && scale.Additive() && blocks >= 1 && p in Cleaned(scale, data)
    requires High(scale, data) / Low(scale, data) > 50.0
    ensures var axis := Axis(scale, data, blocks);
            && axis != []
            && var (edge, r) := (axis[LastNotAbove(p, axis)], EdgeRatio(scale, Low(scale, data), High(scale, data), blocks));
               && p <= Reach(edge, r)
               && edge <= 1.25 * AtLeastMin(p) + 0.005
  {
    hide Cleaned, LogEdges, LinearEdges, LastNotAbove, EdgeRatio, Reach;
    LowPositive(scale, data);
    var low, max := Low(scale, data), High(scale, data);
    RatioOrder(max, low);
    RangeLogClose(scale, low, max, blocks, p);
  }
}
