/**
 * The 1-2-2.5-5 grid of apps/api/src/dma/price-binning.ts: the step search, rounding to a step,
 * and snapping one price to the step that fits its own magnitude.
 */
module NiceGrid {
  import opened RealFacts
  import opened Rounding

  const NICE_STEPS: seq<real> := [
    0.01, 0.02, 0.025, 0.05, 0.1, 0.2, 0.25, 0.5, 1.0, 2.0, 2.5, 5.0, 10.0, 20.0, 25.0, 50.0, 100.0,
    200.0, 250.0, 500.0, 1000.0, 2000.0, 2500.0, 5000.0, 10000.0
  ]

  /** The same grid as a series: every entry is 2 or 1.25 times the one before it. */
  function Step(i: nat): (s: real)
    ensures s >= 0.01
  {
    if i == 0 then 0.01 else if i % 4 == 2 then 1.25 * Step(i - 1) else 2.0 * Step(i - 1)
  }

  /** The list in the source is that series, 25 entries long. */
  lemma GridIsSeries()
    ensures |NICE_STEPS| == 25
    ensures forall i :: 0 <= i < 25 ==> NICE_STEPS[i] == Step(i)
  {
    assert Step(4) == 0.1 && Step(5) == 0.2 && Step(6) == 0.25 && Step(7) == 0.5;
    assert Step(8) == 1.0 && Step(9) == 2.0 && Step(10) == 2.5 && Step(11) == 5.0;
    assert Step(12) == 10.0 && Step(13) == 20.0 && Step(14) == 25.0 && Step(15) == 50.0;
    assert Step(16) == 100.0 && Step(17) == 200.0 && Step(18) == 250.0 && Step(19) == 500.0;
    assert Step(20) == 1000.0 && Step(21) == 2000.0 && Step(22) == 2500.0 && Step(23) == 5000.0;
  }

  lemma GridRatio(i: nat)
    ensures Step(i + 1) == 2.0 * Step(i) || Step(i + 1) == 1.25 * Step(i)
    ensures 0.01 <= Step(i) < Step(i + 1)
  {
  }

  lemma {:induction false} GridAscending(i: nat, j: nat)
    requires i <= j
    ensures Step(i) <= Step(j)
    ensures i < j ==> Step(i) < Step(j)
    decreases j
  {
    if i < j {
      GridAscending(i, j - 1);
      GridRatio(j - 1);
    }
  }

  /** Index i is the last grid entry no bigger than half of v, or 0 when there is none. */
  predicate IsStepIndex(v: real, i: nat) {
    && i < 25
    && (0 < i ==> 2.0 * Step(i) <= v)
    && (i < 24 ==> v < 2.0 * Step(i + 1))
  }

  function StepIndexFrom(v: real, i: nat): (k: nat)
    requires i < 25
    requires i < 24 ==> v < 2.0 * Step(i + 1)
    ensures IsStepIndex(v, k)
  {
    if i == 0 || Step(i) <= v / 2.0 then i else StepIndexFrom(v, i - 1)
  }

  function StepIndex(v: real): (k: nat)
    ensures IsStepIndex(v, k)
  {
    StepIndexFrom(v, 24)
  }

  lemma StepIndexUnique(v: real, i: nat, j: nat)
    requires IsStepIndex(v, i) && IsStepIndex(v, j)
    ensures i == j
  {
    if i < j {
      GridAscending(i + 1, j);
    } else if j < i {
      GridAscending(j + 1, i);
    }
  }

  lemma StepIndexMonotone(v: real, w: real)
    requires v <= w
    ensures StepIndex(v) <= StepIndex(w)
  {
    if StepIndex(w) < StepIndex(v) {
      GridAscending(StepIndex(w) + 1, StepIndex(v));
    }
  }

  /** The downward scan for the step. */
  method NiceStep(value: real) returns (step: real)
    ensures step == Step(StepIndex(value))
    ensures step in NICE_STEPS
    ensures value >= 0.02 ==> step <= value / 2.0
    ensures value >= 0.02 ==> forall s :: s in NICE_STEPS && s <= value / 2.0 ==> s <= step
    ensures value < 0.02 ==> step == 0.01
  {
    hide Step;
    ghost var k := StepIndex(value);
    GridIsSeries();
    GridAscending(0, k);
    forall j | 0 <= j < 25 && Step(j) <= value / 2.0 ensures Step(j) <= Step(k) {
      if k < j { GridAscending(k + 1, j); } else { GridAscending(j, k); }
    }
    if value <= NICE_STEPS[0] {
      return NICE_STEPS[0];
    }
    var half := value / 2.0;
    for i := |NICE_STEPS| downto 0
      invariant i < 25 ==> half < NICE_STEPS[i]
    {
      if NICE_STEPS[i] <= half {
        StepIndexUnique(value, i, k);
        return NICE_STEPS[i];
      }
    }
    return NICE_STEPS[0];
  }

  function Multiple(n: int, step: real): real {
    n as real * step
  }

  /** Math.round(value / step) */
  function Steps(value: real, step: real): int
    requires step > 0.0
  {
    MathRound(value / step)
  }

  /** Round to a multiple of step. */
  function RoundToStep(value: real, step: real): (r: real)
    requires step > 0.0
  {
    Multiple(Steps(value, step), step)
  }

  lemma MultipleMonotone(m: int, n: int, s: real)
    requires s >= 0.0 && m <= n
    ensures Multiple(m, s) <= Multiple(n, s)
  {
    MulMonotone(m as real, n as real, s);
  }

  /** Half a step around a multiple. */
  lemma StepsIff(v: real, s: real, n: int)
    requires s > 0.0
    ensures Multiple(n, s) - s / 2.0 <= v < Multiple(n, s) + s / 2.0 <==> Steps(v, s) == n
  {
    QuotientCompare(v, s, n as real - 0.5);
    QuotientCompare(v, s, n as real + 0.5);
    Distribute(n as real, 0.5, s);
  }

  lemma StepsMonotone(v: real, w: real, s: real)
    requires s > 0.0 && v <= w
    ensures Steps(v, s) <= Steps(w, s)
  {
    QuotientCompare(w, s, v / s);
    QuotientTimes(v, s);
    FloorMonotone(v / s + 0.5, w / s + 0.5);
  }

  /** Multiples of the step bound the rounded value, and it is at most half a step away. */
  lemma RoundToStepBounds(v: real, s: real, lo: int, hi: int)
    requires s > 0.0
    requires Multiple(lo, s) <= v < Multiple(hi, s) + s / 2.0
    ensures Multiple(lo, s) <= RoundToStep(v, s) <= Multiple(hi, s)
    ensures -s / 2.0 <= RoundToStep(v, s) - v <= s / 2.0
  {
    hide Multiple, Steps;
    var n := Steps(v, s);
    StepsIff(v, s, n);
    if n < lo {
      MultipleNext(n, s);
      MultipleMonotone(n + 1, lo, s);
    } else if hi < n {
      MultipleNext(hi, s);
      MultipleMonotone(hi + 1, n, s);
    } else {
      MultipleMonotone(lo, n, s);
      MultipleMonotone(n, hi, s);
    }
  }

  lemma MultipleNext(n: int, s: real)
    ensures Multiple(n + 1, s) == Multiple(n, s) + s
  {
    Distribute(n as real, 1.0, s);
  }

  lemma RoundToStepMonotone(v: real, w: real, s: real)
    requires s > 0.0 && v <= w
    ensures RoundToStep(v, s) <= RoundToStep(w, s)
  {
    hide Multiple, Steps;
    StepsMonotone(v, w, s);
    MultipleMonotone(Steps(v, s), Steps(w, s), s);
  }

  /** A multiple of the step is a fixed point. */
  lemma RoundToStepFixed(k: int, s: real)
    requires s > 0.0
    ensures RoundToStep(Multiple(k, s), s) == Multiple(k, s)
  {
    hide Multiple, Steps;
    StepsIff(Multiple(k, s), s, k);
  }

  /** Small multiples, written out. */
  lemma SmallMultiples(s: real)
    ensures Multiple(0, s) == 0.0 && Multiple(1, s) == s
    ensures Multiple(2, s) == 2.0 * s && Multiple(3, s) == 3.0 * s && Multiple(4, s) == 4.0 * s
  {
  }

  /** One edge of the axis: its value rounded to the step of its own magnitude. */
  function RawSnap(v: real): real {
    GridAscending(0, StepIndex(v));
    RoundToStep(v, Step(StepIndex(v)))
  }

  function Snap(v: real): real {
    ToFixed2(RawSnap(v))
  }

  /** Within one step's range [2s, 2s') the snapped value stays in [2s, 2s']. */
  lemma RawSnapRange(v: real)
    requires v >= 0.0
    ensures var i := StepIndex(v);
            && (0 < i ==> 2.0 * Step(i) <= RawSnap(v))
            && (i < 24 ==> RawSnap(v) <= 2.0 * Step(i + 1))
            && 0.0 <= RawSnap(v)
    ensures -Step(StepIndex(v)) / 2.0 <= RawSnap(v) - v <= Step(StepIndex(v)) / 2.0
  {
    hide Step, StepIndex, RoundToStep, Multiple, Steps;
    var i := StepIndex(v);
    var s := Step(i);
    var lo := if 0 < i then 2 else 0;
    SmallMultiples(s);
    if i < 24 {
      GridRatio(i);
      RoundToStepBounds(v, s, lo, if Step(i + 1) == 2.0 * s then 4 else 2);
    } else {
      StepsIff(v, s, Steps(v, s));
      RoundToStepBounds(v, s, lo, Steps(v, s));
    }
  }

  /** Snapping keeps the order of prices although the step changes with magnitude. */
  lemma SnapMonotone(v: real, w: real)
    requires 0.0 <= v <= w
    ensures Snap(v) <= Snap(w)
  {
    hide Step, StepIndex, RoundToStep, ToFixed2;
    var i, j := StepIndex(v), StepIndex(w);
    StepIndexMonotone(v, w);
    if i == j {
      GridAscending(0, i);
      RoundToStepMonotone(v, w, Step(i));
    } else {
      RawSnapRange(v);
      RawSnapRange(w);
      GridAscending(i + 1, j);
    }
    ToFixed2Monotone(RawSnap(v), RawSnap(w));
  }

  // ----- two decimals

  /** Every step except 0.025 is a whole number of cents. */
  lemma StepCents(i: nat) returns (c: nat)
    requires i < 25 && i != 2
    ensures Step(i) == c as real / 100.0
  {
    if i < 3 {
      return i + 1;
    }
    c := CentsFrom3(i);
  }

  /** From 0.05 on; four entries on, the step is ten times as large. */
  lemma {:induction false} CentsFrom3(i: nat) returns (c: nat)
    requires 3 <= i
    ensures Step(i) == c as real / 100.0
  {
    if i < 7 {
      assert Step(4) == 0.1 && Step(5) == 0.2 && Step(6) == 0.25;
      return [5, 10, 20, 25][i - 3];
    }
    var d := CentsFrom3(i - 4);
    TenTimes(i - 4);
    return 10 * d;
  }

  /** Any four entries in a row contain the ratio 1.25 once. */
  lemma TenTimes(i: nat)
    ensures Step(i + 4) == 10.0 * Step(i)
  {
    hide Step;
    StepNext(i);
    StepNext(i + 1);
    StepNext(i + 2);
    StepNext(i + 3);
  }

  lemma StepNext(i: nat)
    ensures Step(i + 1) == (if i % 4 == 1 then 1.25 else 2.0) * Step(i)
  {
  }

  /** What toFixed(2) adds to k times grid step i: only odd multiples of 0.025 have half a cent to round up. */
  function Lift(k: int, i: nat): real {
    if i == 2 && k % 2 == 1 then 0.005 else 0.0
  }

  /** The label of k times grid step i. */
  lemma LabelOf(k: nat, i: nat)
    requires i < 25
    ensures ToFixed2(Multiple(k, Step(i))) == Multiple(k, Step(i)) + Lift(k, i)
  {
    hide Step;
    if i == 2 {
      SmallSteps();
      HalfCents(k);
    } else {
      var c := StepCents(i);
      assert Multiple(k, c as real / 100.0) == (k * c) as real / 100.0;
      ToFixed2Cents(k * c);
    }
  }

  lemma SmallSteps()
    ensures Step(0) == 0.01 && Step(1) == 0.02 && Step(2) == 0.025 && Step(3) == 0.05
  {
  }

  lemma HalfCents(k: nat)
    ensures ToFixed2(Multiple(k, 0.025)) == Multiple(k, 0.025) + Lift(k, 2)
  {
    hide ToFixed2;
    var m := k / 2;
    if k % 2 == 0 {
      assert Multiple(k, 0.025) == (5 * m) as real / 100.0;
      ToFixed2Cents(5 * m);
    } else {
      assert Multiple(k, 0.025) == (5 * m + 2) as real / 100.0 + 0.005;
      ToFixed2HalfCent(5 * m + 2);
    }
  }

  /** A snapped price: a multiple of its step, and what toFixed(2) adds. */
  lemma SnapParts(v: real) returns (k: nat)
    requires v >= 0.0
    ensures k == Steps(v, Step(StepIndex(v)))
    ensures RawSnap(v) == Multiple(k, Step(StepIndex(v)))
    ensures Snap(v) == RawSnap(v) + Lift(k, StepIndex(v))
  {
    hide Step, StepIndex, Multiple, ToFixed2;
    var s := Step(StepIndex(v));
    StepsMonotone(0.0, v, s);
    StepsIff(0.0, s, 0);
    SmallMultiples(s);
    k := Steps(v, s);
    LabelOf(k, StepIndex(v));
  }

  /** A snapped price is at most a quarter of itself, plus half a cent, away. */
  lemma SnapError(v: real)
    requires 0.01 <= v
    ensures -v / 4.0 - 0.005 <= Snap(v) - v <= v / 4.0 + 0.005
    ensures Snap(v) >= 0.01
  {
    hide Step, RawSnap, StepIndex;
    RawSnapRange(v);
    var i := StepIndex(v);
    var k := SnapParts(v);
    SmallSteps();
    if i == 0 {
      StepsMonotone(0.01, v, 0.01);
      StepsIff(0.01, 0.01, 1);
    } else {
      GridAscending(1, i);
    }
  }

  /** A multiple of a step that lies in that step's range snaps to itself. */
  lemma MultipleFixed(w: real, i: nat, k: int)
    requires IsStepIndex(w, i) && w == Multiple(k, Step(i))
    ensures RawSnap(w) == w
  {
    hide RoundToStep, Step, Multiple;
    StepIndexUnique(w, StepIndex(w), i);
    RoundToStepFixed(k, Step(i));
  }

  /** A raw snapped value is its own raw snapped value. */
  lemma RawSnapFixed(v: real)
    requires v >= 0.0
    ensures RawSnap(RawSnap(v)) == RawSnap(v)
  {
    hide RawSnap, StepIndex, Step, Multiple;
    var i := StepIndex(v);
    var w := RawSnap(v);
    RawSnapRange(v);
    var k := SnapParts(v);
    if i < 24 && w == 2.0 * Step(i + 1) {
      SmallMultiples(Step(i + 1));
      assert IsStepIndex(w, i + 1) by { GridRatio(i + 1); }
      MultipleFixed(w, i + 1, 2);
    } else {
      MultipleFixed(w, i, k);
    }
  }

  /** Axis labels are fixed points: snapping a label again gives the label. */
  lemma SnapIdempotent(v: real)
    requires v >= 0.0
    ensures Snap(Snap(v)) == Snap(v)
  {
    hide RawSnap, StepIndex, Step, Multiple, ToFixed2;
    RawSnapFixed(v);
    RawSnapRange(v);
    SmallSteps();
    var k := SnapParts(v);
    if Lift(k, StepIndex(v)) != 0.0 {
      ThreeSteps(RawSnap(v), k);
      Snap75();
    }
  }

  /** The 0.025 regime has three labels: 0.05, 0.08 (from 0.075) and 0.1. */
  lemma ThreeSteps(w: real, k: nat)
    requires w == Multiple(k, 0.025) && 0.05 <= w <= 0.1 && k % 2 == 1
    ensures k == 3 && w == 0.075
  {
  }

  lemma Snap75()
    ensures ToFixed2(0.075) == 0.08 && Snap(0.08) == 0.08
  {
    hide Step, StepIndex;
    SmallSteps();
    StepIndexUnique(0.08, StepIndex(0.08), 2);
    StepsIff(0.08, 0.025, 3);
  }
}
