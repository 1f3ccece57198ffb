/** The interquartile filter on log10(price) (price-binning.ts, filterOutlierPrices). */
module Outliers {
  import RealFacts
  import opened Sequences

  /** A market record; only the price matters to the axis. */
  datatype Listing = Listing(price: real, quantity: int)

  /** Math.log10 and Math.pow(10, _) as a strictly increasing pair of inverses. */
  datatype LogScale = LogScale(log: real -> real, pow: real -> real) {

    ghost predicate Valid() {
      && (forall x, y :: 0.0 < x < y ==> log(x) < log(y))
      && (forall y :: pow(y) > 0.0 && log(pow(y)) == y)
      && (forall x :: x > 0.0 ==> pow(log(x)) == x)
    }

    /** Products become sums, which the scaling law and the distances on a log axis need. */
    ghost predicate Additive() {
      forall x, y :: x > 0.0 && y > 0.0 ==> Adds(x, y)
    }

    ghost predicate Adds(x: real, y: real) {
      log(x * y) == log(x) + log(y)
    }

    lemma LogMonotone(x: real, y: real)
      requires Valid() && 0.0 < x <= y
      ensures log(x) <= log(y)
    {
    }

    lemma LogInjective(x: real, y: real)
      requires Valid() && x > 0.0 && y > 0.0 && log(x) == log(y)
      ensures x == y
    {
    }

    lemma PowMonotone(x: real, y: real)
      requires Valid() && x <= y
      ensures pow(x) <= pow(y)
    {
      assert pow(y) < pow(x) ==> log(pow(y)) < log(pow(x));
    }
  }

  /** A rational stand-in for log10 on the positive numbers. */
  function HyperbolicLog(x: real): real {
    if x >= 1.0 then x - 1.0 else if x > 0.0 then 1.0 - 1.0 / x else 0.0
  }

  function HyperbolicPow(y: real): (x: real)
    ensures x > 0.0
  {
    if y >= 0.0 then y + 1.0 else 1.0 / (1.0 - y)
  }

  lemma Reciprocals(x: real, y: real)
    requires 0.0 < x < y
    ensures 1.0 / y < 1.0 / x
    ensures x <= 1.0 ==> 1.0 / x >= 1.0
    ensures x < 1.0 ==> 1.0 / x > 1.0
  {
    assert 1.0 / x - 1.0 / y == (y - x) / (x * y);
  }

  lemma TwiceReciprocal(x: real)
    requires x > 0.0
    ensures 1.0 / (1.0 / x) == x
  {
  }

  lemma HyperbolicIncreases(x: real, y: real)
    requires 0.0 < x < y
    ensures HyperbolicLog(x) < HyperbolicLog(y)
  {
    Reciprocals(x, y);
  }

  lemma HyperbolicLogPow(y: real)
    ensures HyperbolicLog(HyperbolicPow(y)) == y
  {
    if y < 0.0 {
      Reciprocals(1.0, 1.0 - y);
      TwiceReciprocal(1.0 - y);
    }
  }

  lemma HyperbolicPowLog(x: real)
    requires x > 0.0
    ensures HyperbolicPow(HyperbolicLog(x)) == x
  {
    if x < 1.0 {
      Reciprocals(x, 1.0);
      TwiceReciprocal(x);
    }
  }

  /** A valid pair exists; this one is not additive, so it says nothing about the scaling law. */
  lemma ScaleExists() returns (scale: LogScale)
    ensures scale.Valid()
  {
    hide HyperbolicLog, HyperbolicPow;
    scale := LogScale(HyperbolicLog, HyperbolicPow);
    forall x, y | 0.0 < x < y ensures scale.log(x) < scale.log(y) {
      HyperbolicIncreases(x, y);
    }
    forall y ensures scale.pow(y) > 0.0 && scale.log(scale.pow(y)) == y {
      HyperbolicLogPow(y);
    }
    forall x | x > 0.0 ensures scale.pow(scale.log(x)) == x {
      HyperbolicPowLog(x);
    }
  }

  // ----- the filter

  predicate IsUsable(d: Listing) {
    d.price > 0.0
  }

  function Usable(data: seq<Listing>): seq<Listing> {
    Filter(data, IsUsable)
  }

  function PriceOf(): Listing -> real {
    (d: Listing) => d.price
  }

  function Prices(data: seq<Listing>): seq<real> {
    Map(PriceOf(), data)
  }

  /** clean.map(log10).sort() */
  function SortedLogs(scale: LogScale, prices: seq<real>): (logs: seq<real>)
    ensures |logs| == |prices|
  {
    SortBy(Map(scale.log, prices), Identity())
  }

  function Lerp(a: real, b: real, t: real): real {
    a + (b - a) * t
  }

  /** Linear interpolation between the two list entries around a fractional position. */
  function Interpolate(logs: seq<real>, idx: real): real
    requires 0.0 <= idx <= (|logs| - 1) as real
  {
    var lo := idx.Floor;
    var hi := if lo as real == idx then lo else lo + 1;
    if lo == hi then logs[lo] else Lerp(logs[lo], logs[hi], idx - lo as real)
  }

  /** The interpolated quantile of a sorted list. */
  function At(logs: seq<real>, pct: real): real
    requires logs != [] && 0.0 <= pct <= 1.0
  {
    Interpolate(logs, Position(|logs| - 1, pct))
  }

  function Position(last: nat, pct: real): (idx: real)
    requires 0.0 <= pct <= 1.0
    ensures 0.0 <= idx <= last as real
  {
    last as real * pct
  }

  datatype Fence = KeepAll | Between(low: real, high: real) {
    predicate Admits(price: real) {
      KeepAll? || low <= price <= high
    }
  }

  /** k interquartile ranges. */
  function Margin(k: real, iqr: real): (m: real)
    ensures k >= 0.0 && iqr >= 0.0 ==> m >= 0.0
  {
    k * iqr
  }

  function FenceAround(scale: LogScale, q1: real, q3: real, k: real): Fence {
    var iqr := q3 - q1;
    if iqr > 0.0 then Between(scale.pow(q1 - Margin(k, iqr)), scale.pow(q3 + Margin(k, iqr))) else KeepAll
  }

  function QuartileFence(scale: LogScale, logs: seq<real>, k: real): Fence
    requires logs != []
  {
    FenceAround(scale, At(logs, 0.25), At(logs, 0.75), k)
  }

  /** The fence, from the usable prices alone. */
  function FenceOf(scale: LogScale, prices: seq<real>, k: real): Fence {
    if |prices| < 4 then KeepAll else QuartileFence(scale, SortedLogs(scale, prices), k)
  }

  function Admitted(f: Fence): Listing -> bool {
    (d: Listing) => f.Admits(d.price)
  }

  function FilterOutlierPrices(scale: LogScale, data: seq<Listing>, k: real): (kept: seq<Listing>)
    ensures forall d :: d in kept ==> d in data && d.price > 0.0
  {
    var clean := Usable(data);
    Filter(clean, Admitted(FenceOf(scale, Prices(clean), k)))
  }

  // ----- quantiles of a sorted list

  predicate Sorted(logs: seq<real>) {
    forall i, j :: 0 <= i <= j < |logs| ==> logs[i] <= logs[j]
  }

  lemma SortedLogsSorted(scale: LogScale, prices: seq<real>)
    ensures Sorted(SortedLogs(scale, prices))
  {
    SortBySorted(Map(scale.log, prices), Identity());
  }

  lemma LerpBetween(a: real, b: real, t: real)
    requires a <= b && 0.0 <= t <= 1.0
    ensures a <= Lerp(a, b, t) <= b
  {
    RealFacts.MulMonotone(0.0, t, b - a);
    RealFacts.MulMonotone(t, 1.0, b - a);
  }

  /** An interpolated value lies between any rank below its position and any rank above it. */
  lemma InterpolateBetween(logs: seq<real>, idx: real, i: nat, j: nat)
    requires Sorted(logs) && i <= j < |logs| && i as real <= idx <= j as real
    ensures logs[i] <= Interpolate(logs, idx) <= logs[j]
  {
    hide Lerp;
    var lo := idx.Floor;
    if lo as real != idx {
      assert lo + 1 <= j && logs[lo + 1] <= logs[j];
      LerpBetween(logs[lo], logs[lo + 1], idx - lo as real);
    }
  }

  /** Ranks between the two quartile positions lie between the quartiles. */
  lemma QuartilesAround(logs: seq<real>, j: nat)
    requires Sorted(logs) && j < |logs| && |logs| - 1 <= 4 * j <= 3 * (|logs| - 1)
    ensures At(logs, 0.25) <= logs[j] <= At(logs, 0.75)
  {
    InterpolateBetween(logs, Position(|logs| - 1, 0.25), 0, j);
    InterpolateBetween(logs, Position(|logs| - 1, 0.75), j, |logs| - 1);
  }

  lemma FenceAroundAdmits(scale: LogScale, q1: real, q3: real, k: real, p: real)
    requires scale.Valid() && k >= 0.0 && p > 0.0 && q1 <= scale.log(p) <= q3
    ensures FenceAround(scale, q1, q3, k).Admits(p)
  {
  }

  /** Such a rank is inside the fence. */
  lemma MiddleRankAdmitted(scale: LogScale, prices: seq<real>, k: real, j: nat, p: real)
    requires scale.Valid() && k >= 0.0
    requires j < |prices| && |prices| - 1 <= 4 * j <= 3 * (|prices| - 1)
    requires p > 0.0 && scale.log(p) == SortedLogs(scale, prices)[j]
    ensures FenceOf(scale, prices, k).Admits(p)
  {
    if |prices| >= 4 {
      var logs := SortedLogs(scale, prices);
      SortedLogsSorted(scale, prices);
      QuartilesAround(logs, j);
      FenceAroundAdmits(scale, At(logs, 0.25), At(logs, 0.75), k, p);
    }
  }

  // ----- what the filter keeps

  function LogKey(scale: LogScale): Listing -> real {
    (d: Listing) => scale.log(d.price)
  }

  /** The usable listings in the order of their prices. */
  function Ranked(scale: LogScale, data: seq<Listing>): (ranked: seq<Listing>)
    ensures |ranked| == |Usable(data)|
  {
    SortBy(Usable(data), LogKey(scale))
  }

  lemma SortLogs(scale: LogScale, clean: seq<Listing>)
    ensures SortedLogs(scale, Prices(clean)) == Map(LogKey(scale), SortBy(clean, LogKey(scale)))
  {
    assert Map(scale.log, Prices(clean)) == Map(LogKey(scale), clean);
    SortKeys(clean, LogKey(scale));
  }

  /** Every record ranked between the two quartile positions is kept. */
  lemma MiddleKept(scale: LogScale, data: seq<Listing>, k: real, j: nat)
    requires scale.Valid() && k >= 0.0
    requires j < |Usable(data)| && |Usable(data)| - 1 <= 4 * j <= 3 * (|Usable(data)| - 1)
    ensures Ranked(scale, data)[j] in FilterOutlierPrices(scale, data, k)
    ensures FenceOf(scale, Prices(Usable(data)), k).Admits(Ranked(scale, data)[j].price)
  {
    var clean := Usable(data);
    var d := Ranked(scale, data)[j];
    SortLogs(scale, clean);
    SortByMembers(clean, LogKey(scale));
    assert d in clean;
    MiddleRankAdmitted(scale, Prices(clean), k, j, d.price);
  }

  /** Usable data never loses everything: all but about half of it is safe. */
  lemma HalfKept(scale: LogScale, data: seq<Listing>, k: real)
    requires scale.Valid() && k >= 0.0
    ensures 2 * |FilterOutlierPrices(scale, data, k)| >= |Usable(data)| - 2
    ensures Usable(data) != [] ==> FilterOutlierPrices(scale, data, k) != []
  {
    var clean := Usable(data);
    var p := Admitted(FenceOf(scale, Prices(clean), k));
    var n := |clean|;
    if n < 4 {
      FilterAll(clean, p);
    } else {
      var ranked := Ranked(scale, data);
      var lo, hi := (n + 2) / 4, 3 * (n - 1) / 4;
      forall j | lo <= j < hi + 1 ensures p(ranked[j]) {
        MiddleKept(scale, data, k, j);
      }
      FilterSlice(ranked, lo, hi + 1, p);
      FilterSort(clean, LogKey(scale), p);
    }
  }

  /**
   * The quantile without its code: the point at position pct * (n - 1) on the line through the two neighbouring
   * ranks, each weighted by how near it is.
   */
  ghost predicate IsQuantile(logs: seq<real>, pct: real, q: real)
    requires logs != []
  {
    (|logs| == 1 ==> q == logs[0]) && forall i: nat :: QuantileBetween(logs, pct, q, i)
  }

  ghost predicate QuantileBetween(logs: seq<real>, pct: real, q: real, i: nat)
    requires logs != []
  {
    var pos := pct * (|logs| - 1) as real;
    i + 1 < |logs| && i as real <= pos <= i as real + 1.0 ==> q == OnLine(logs[i], logs[i + 1], pos - i as real)
  }

  /** The same, with the position in a variable. */
  lemma QuantileBetweenAt(logs: seq<real>, pct: real, q: real, i: nat)
    requires logs != [] && 0.0 <= pct <= 1.0 && i + 1 < |logs|
    ensures var pos := Position(|logs| - 1, pct);
            pos == pct * (|logs| - 1) as real
            && (QuantileBetween(logs, pct, q, i) <==>
                  (i as real <= pos <= i as real + 1.0 ==> q == OnLine(logs[i], logs[i + 1], pos - i as real)))
  {
    hide OnLine;
  }

  /** Weight 1 - t on the left, t on the right. */
  function OnLine(left: real, right: real, t: real): real {
    left * (1.0 - t) + right * t
  }

  lemma LerpIsOnLine(left: real, right: real, t: real)
    ensures Lerp(left, right, t) == left * (1.0 - t) + right * t
    ensures OnLine(left, right, t) == left * (1.0 - t) + right * t
    ensures Lerp(left, right, 0.0) == left && OnLine(left, right, 1.0) == right
  {
  }

  lemma InterpolateOnLine(logs: seq<real>, idx: real, i: nat)
    requires i + 1 < |logs| && i as real <= idx <= i as real + 1.0
    ensures Interpolate(logs, idx) == OnLine(logs[i], logs[i + 1], idx - i as real)
  {
    hide Lerp, OnLine;
    LerpIsOnLine(logs[i], logs[i + 1], idx - i as real);
    LerpIsOnLine(logs[i], logs[i + 1], 0.0);
  }

  /** The quantile in the code is that point. */
  lemma QuantileExactly(logs: seq<real>, pct: real)
    requires logs != [] && 0.0 <= pct <= 1.0
    ensures IsQuantile(logs, pct, At(logs, pct))
  {
    hide Interpolate, OnLine, QuantileBetween, Position;
    var pos := Position(|logs| - 1, pct);
    forall i: nat ensures QuantileBetween(logs, pct, At(logs, pct), i) {
      if i + 1 < |logs| {
        QuantileBetweenAt(logs, pct, At(logs, pct), i);
        if i as real <= pos <= i as real + 1.0 {
          InterpolateOnLine(logs, pos, i);
        }
      } else {
        NotBetween(logs, pct, At(logs, pct), i);
      }
    }
    if |logs| == 1 {
      InterpolateOnly(logs);
    }
  }

  lemma NotBetween(logs: seq<real>, pct: real, q: real, i: nat)
    requires logs != [] && i + 1 >= |logs|
    ensures QuantileBetween(logs, pct, q, i)
  {
  }

  lemma InterpolateOnly(logs: seq<real>)
    requires |logs| == 1
    ensures Interpolate(logs, 0.0) == logs[0]
  {
  }

  /** Some pair of neighbouring ranks encloses every position. */
  lemma Neighbours(n: nat, pos: real) returns (i: nat)
    requires n >= 2 && 0.0 <= pos <= (n - 1) as real
    ensures i + 1 < n && i as real <= pos <= i as real + 1.0
  {
    i := if pos.Floor == n - 1 then n - 2 else pos.Floor;
  }

  lemma QuantileUnique(logs: seq<real>, pct: real, q: real, r: real)
    requires logs != [] && 0.0 <= pct <= 1.0
    requires IsQuantile(logs, pct, q) && IsQuantile(logs, pct, r)
    ensures q == r
  {
    hide OnLine, QuantileBetween, Position;
    if |logs| > 1 {
      var i := Neighbours(|logs|, Position(|logs| - 1, pct));
      assert QuantileBetween(logs, pct, q, i) && QuantileBetween(logs, pct, r, i);
      QuantileBetweenAt(logs, pct, q, i);
      QuantileBetweenAt(logs, pct, r, i);
    }
  }

  /** The value of a line at x. */
  function Along(a: real, d: real, x: real): real {
    a + d * x
  }

  /** Equally spaced values are reproduced at every position. */
  lemma QuantileOfLine(logs: seq<real>, a: real, d: real, pct: real)
    requires logs != [] && 0.0 <= pct <= 1.0
    requires forall i :: 0 <= i < |logs| ==> logs[i] == Along(a, d, i as real)
    ensures At(logs, pct) == Along(a, d, pct * (|logs| - 1) as real)
  {
    hide At, OnLine, QuantileBetween, Position, Along;
    QuantileExactly(logs, pct);
    var pos := Position(|logs| - 1, pct);
    PositionIs(|logs| - 1, pct);
    if |logs| > 1 {
      var i := Neighbours(|logs|, pos);
      assert QuantileBetween(logs, pct, At(logs, pct), i);
      QuantileBetweenAt(logs, pct, At(logs, pct), i);
      LineOnLine(a, d, i, pos);
    }
  }

  lemma PositionIs(last: nat, pct: real)
    requires 0.0 <= pct <= 1.0
    ensures Position(last, pct) == pct * last as real
  {
  }

  lemma LineOnLine(a: real, d: real, i: nat, pos: real)
    ensures OnLine(Along(a, d, i as real), Along(a, d, (i + 1) as real), pos - i as real) == Along(a, d, pos)
  {
    hide OnLine, Along;
    var x := i as real;
    AlongNext(a, d, x);
    AlongStep(a, d, x, pos - x);
    OnLineStep(Along(a, d, x), d, pos - x);
  }

  lemma AlongNext(a: real, d: real, x: real)
    ensures Along(a, d, x + 1.0) == Along(a, d, x) + d
  {
    RealFacts.Distribute(x, 1.0, d);
  }

  lemma AlongStep(a: real, d: real, x: real, t: real)
    ensures Along(a, d, x + t) == Along(a, d, x) + d * t
  {
    RealFacts.Distribute(x, t, d);
  }

  lemma OnLineStep(y: real, d: real, t: real)
    ensures OnLine(y, y + d, t) == y + d * t
  {
  }

  /** Only the two ranks next to the position matter. */
  lemma QuantileOfNeighbours(a: seq<real>, b: seq<real>, pct: real, i: nat)
    requires |a| == |b| && i + 1 < |a| && 0.0 <= pct <= 1.0
    requires i as real <= Position(|a| - 1, pct) <= i as real + 1.0
    requires a[i] == b[i] && a[i + 1] == b[i + 1]
    ensures At(a, pct) == At(b, pct)
  {
    hide At, OnLine, QuantileBetween, Position;
    QuantileExactly(a, pct);
    QuantileExactly(b, pct);
    assert QuantileBetween(a, pct, At(a, pct), i) && QuantileBetween(b, pct, At(b, pct), i);
    QuantileBetweenAt(a, pct, At(a, pct), i);
    QuantileBetweenAt(b, pct, At(b, pct), i);
  }

  /** At most k interquartile ranges outside the quartiles. */
  predicate WithinRanges(k: real, q1: real, q3: real, x: real) {
    q1 - k * (q3 - q1) <= x <= q3 + k * (q3 - q1)
  }

  /**
   * What the filter keeps, without its code: of four or more positive prices, with q1 and q3 the quartiles of
   * their sorted logarithms, those within k interquartile ranges of the quartiles; of fewer, or when the
   * quartiles coincide, all of them.
   */
  lemma KeptExactly(scale: LogScale, data: seq<Listing>, k: real, d: Listing, logs: seq<real>, q1: real, q3: real)
    requires scale.Valid() && logs != []
    requires Sorted(logs) && multiset(logs) == multiset(Map(LogKey(scale), Filter(data, (e: Listing) => e.price > 0.0)))
    requires IsQuantile(logs, 0.25, q1) && IsQuantile(logs, 0.75, q3)
    ensures d in FilterOutlierPrices(scale, data, k) <==>
              && d in data && d.price > 0.0
              && (|logs| >= 4 && q3 > q1 ==> WithinRanges(k, q1, q3, scale.log(d.price)))
  {
    hide At, SortedLogs, Margin, IsQuantile, Filter, FilterOutlierPrices, Sorted, WithinRanges, LogScale.Valid;
    TheQuartiles(scale, data, logs, q1, q3);
    KeptByMargin(scale, data, k, d);
    MarginIs(k, q1, q3, scale.log(d.price));
  }

  lemma TheQuartiles(scale: LogScale, data: seq<Listing>, logs: seq<real>, q1: real, q3: real)
    requires logs != []
    requires Sorted(logs) && multiset(logs) == multiset(Map(LogKey(scale), Filter(data, (e: Listing) => e.price > 0.0)))
    requires IsQuantile(logs, 0.25, q1) && IsQuantile(logs, 0.75, q3)
    ensures logs == SortedLogs(scale, Prices(Usable(data)))
    ensures q1 == At(logs, 0.25) && q3 == At(logs, 0.75)
  {
    hide At, SortedLogs, IsQuantile, Filter, Sorted;
    FilterAgree(data, (e: Listing) => e.price > 0.0, IsUsable);
    LogsAreSorted(scale, Usable(data), logs);
    QuantileExactly(logs, 0.25);
    QuantileExactly(logs, 0.75);
    QuantileUnique(logs, 0.25, q1, At(logs, 0.25));
    QuantileUnique(logs, 0.75, q3, At(logs, 0.75));
  }

  /** There is only one sorted list of the logarithms. */
  lemma LogsAreSorted(scale: LogScale, clean: seq<Listing>, logs: seq<real>)
    requires Sorted(logs) && multiset(logs) == multiset(Map(LogKey(scale), clean))
    ensures logs == SortedLogs(scale, Prices(clean)) && |logs| == |clean|
  {
    var raw := Map(scale.log, Prices(clean));
    assert raw == Map(LogKey(scale), clean);
    SortBySorted(raw, Identity());
    SortByMultiset(raw, Identity());
    SortedUnique(logs, SortBy(raw, Identity()), Identity());
  }

  lemma MarginIs(k: real, q1: real, q3: real, x: real)
    ensures WithinRanges(k, q1, q3, x) <==> q1 - Margin(k, q3 - q1) <= x <= q3 + Margin(k, q3 - q1)
  {
  }

  lemma KeptByMargin(scale: LogScale, data: seq<Listing>, k: real, d: Listing)
    requires scale.Valid()
    ensures var prices := Prices(Usable(data));
            d in FilterOutlierPrices(scale, data, k) <==>
              && d in data && d.price > 0.0
              && (|prices| >= 4 ==>
                    var (q1, q3) := (At(SortedLogs(scale, prices), 0.25), At(SortedLogs(scale, prices), 0.75));
                    q3 > q1 ==> q1 - Margin(k, q3 - q1) <= scale.log(d.price) <= q3 + Margin(k, q3 - q1))
  {
    hide At, SortedLogs, Margin, Filter;
    var prices := Prices(Usable(data));
    if d in data && d.price > 0.0 && |prices| >= 4 {
      assert IsUsable(d);
      var q1, q3 := At(SortedLogs(scale, prices), 0.25), At(SortedLogs(scale, prices), 0.75);
      InsideLog(scale, q1 - Margin(k, q3 - q1), d.price);
      InsideLog(scale, q3 + Margin(k, q3 - q1), d.price);
    }
  }

  lemma InsideLog(scale: LogScale, a: real, p: real)
    requires scale.Valid() && p > 0.0
    ensures scale.pow(a) <= p <==> a <= scale.log(p)
    ensures p <= scale.pow(a) <==> scale.log(p) <= a
  {
  }

  /** How often a record stays: as often as it occurs, or not at all. */
  lemma KeptAsOften(scale: LogScale, data: seq<Listing>, k: real, d: Listing)
    ensures multiset(FilterOutlierPrices(scale, data, k))[d]
         == if d in FilterOutlierPrices(scale, data, k) then multiset(data)[d] else 0
  {
    var f := Admitted(FenceOf(scale, Prices(Usable(data)), k));
    FilterCount(data, IsUsable, d);
    FilterCount(Usable(data), f, d);
  }

  /** Anything usable priced between two kept records is kept. */
  lemma KeptConvex(scale: LogScale, data: seq<Listing>, k: real, a: Listing, b: Listing, d: Listing)
    requires a in FilterOutlierPrices(scale, data, k) && b in FilterOutlierPrices(scale, data, k)
    requires d in data && a.price <= d.price <= b.price
    ensures d in FilterOutlierPrices(scale, data, k)
  {
  }

  /** The fence depends only on which prices occur how often: not on order, not on quantities. */
  lemma FenceMultiset(scale: LogScale, ps: seq<real>, qs: seq<real>, k: real)
    requires scale.Valid() && forall p :: p in ps ==> p > 0.0
    requires multiset(ps) == multiset(qs)
    ensures FenceOf(scale, ps, k) == FenceOf(scale, qs, k)
  {
    SortedLogsMultiset(scale, ps, qs);
    assert |ps| == |multiset(ps)| == |multiset(qs)| == |qs|;
  }

  lemma SortedLogsMultiset(scale: LogScale, ps: seq<real>, qs: seq<real>)
    requires scale.Valid() && forall p :: p in ps ==> p > 0.0
    requires multiset(ps) == multiset(qs)
    ensures SortedLogs(scale, ps) == SortedLogs(scale, qs)
  {
    forall x, y | x in ps && y in ps && scale.log(x) == scale.log(y) ensures x == y {
      scale.LogInjective(x, y);
    }
    SortMultiset(ps, qs, scale.log);
    SortKeys(ps, scale.log);
    SortKeys(qs, scale.log);
  }

  lemma UsablePositive(data: seq<Listing>)
    ensures forall p :: p in Prices(Usable(data)) ==> p > 0.0
  {
    forall p | p in Prices(Usable(data)) ensures p > 0.0 {
      var i :| 0 <= i < |Usable(data)| && Prices(Usable(data))[i] == p;
      assert Usable(data)[i] in Usable(data);
    }
  }

  /** Same usable prices, same verdict on every price. */
  lemma KeptByPricesAlone(scale: LogScale, data: seq<Listing>, other: seq<Listing>, k: real, d: Listing, e: Listing)
    requires scale.Valid()
    requires multiset(Prices(Usable(data))) == multiset(Prices(Usable(other)))
    requires d in data && e in other && d.price == e.price
    ensures d in FilterOutlierPrices(scale, data, k) <==> e in FilterOutlierPrices(scale, other, k)
  {
    var f := FenceOf(scale, Prices(Usable(data)), k);
    UsablePositive(data);
    FenceMultiset(scale, Prices(Usable(data)), Prices(Usable(other)), k);
    assert IsUsable(d) == IsUsable(e) && Admitted(f)(d) == Admitted(f)(e);
  }

  // ----- scaling

  /** A change of currency unit: on the log axis it is a shift by delta. */
  ghost predicate IsRescaling(scale: LogScale, u: real -> real, delta: real) {
    forall x :: Shifts(scale, u, delta, x)
  }

  ghost predicate Shifts(scale: LogScale, u: real -> real, delta: real, x: real) {
    && (u(x) > 0.0 <==> x > 0.0)
    && (x > 0.0 ==> scale.log(u(x)) == delta + scale.log(x))
  }

  function Shift(delta: real): real -> real {
    (x: real) => delta + x
  }

  function Repriced(u: real -> real): Listing -> Listing {
    (d: Listing) => d.(price := u(d.price))
  }

  predicate Shifted(a: seq<real>, b: seq<real>, delta: real) {
    |a| == |b| && forall i :: 0 <= i < |a| ==> b[i] == delta + a[i]
  }

  lemma AtShift(a: seq<real>, b: seq<real>, delta: real, pct: real)
    requires a != [] && Shifted(a, b, delta) && 0.0 <= pct <= 1.0
    ensures At(b, pct) == delta + At(a, pct)
  {
  }

  lemma RescaledLogs(scale: LogScale, ps: seq<real>, u: real -> real, delta: real)
    requires scale.Valid() && IsRescaling(scale, u, delta)
    requires forall p :: p in ps ==> p > 0.0
    ensures SortedLogs(scale, Map(u, ps)) == Map(Shift(delta), SortedLogs(scale, ps))
  {
    forall p | p in ps ensures scale.log(u(p)) == Shift(delta)(scale.log(p)) {
      assert Shifts(scale, u, delta, p);
    }
    MapCommutes(u, scale.log, scale.log, Shift(delta), ps);
    SortMap(Shift(delta), Map(scale.log, ps), Identity(), Identity());
  }

  lemma RescaledPow(scale: LogScale, u: real -> real, delta: real, a: real)
    requires scale.Valid() && IsRescaling(scale, u, delta)
    ensures scale.pow(delta + a) == u(scale.pow(a))
  {
    assert Shifts(scale, u, delta, scale.pow(a));
  }

  function RescaleFence(u: real -> real, f: Fence): Fence {
    match f
    case KeepAll => KeepAll
    case Between(low, high) => Between(u(low), u(high))
  }

  /** A change of unit moves both fences with the prices. */
  lemma FenceRescaled(scale: LogScale, ps: seq<real>, u: real -> real, delta: real, k: real)
    requires scale.Valid() && IsRescaling(scale, u, delta)
    requires forall p :: p in ps ==> p > 0.0
    ensures FenceOf(scale, Map(u, ps), k) == RescaleFence(u, FenceOf(scale, ps, k))
  {
    RescaledLogs(scale, ps, u, delta);
    if |ps| >= 4 {
      QuartileFenceRescaled(scale, SortedLogs(scale, ps), u, delta, k);
    }
  }

  lemma QuartileFenceRescaled(scale: LogScale, logs: seq<real>, u: real -> real, delta: real, k: real)
    requires scale.Valid() && IsRescaling(scale, u, delta) && logs != []
    ensures QuartileFence(scale, Map(Shift(delta), logs), k) == RescaleFence(u, QuartileFence(scale, logs, k))
  {
    var logs' := Map(Shift(delta), logs);
    assert Shifted(logs, logs', delta);
    FenceShifted(scale, logs, logs', u, delta, k);
  }

  lemma FenceShifted(scale: LogScale, a: seq<real>, b: seq<real>, u: real -> real, delta: real, k: real)
    requires scale.Valid() && IsRescaling(scale, u, delta)
    requires a != [] && Shifted(a, b, delta)
    ensures QuartileFence(scale, b, k) == RescaleFence(u, QuartileFence(scale, a, k))
  {
    AtShift(a, b, delta, 0.25);
    AtShift(a, b, delta, 0.75);
    FenceAroundRescaled(scale, At(a, 0.25), At(a, 0.75), At(b, 0.25), At(b, 0.75), u, delta, k);
  }

  lemma FenceAroundRescaled(scale: LogScale, q1: real, q3: real, r1: real, r3: real,
                            u: real -> real, delta: real, k: real)
    requires scale.Valid() && IsRescaling(scale, u, delta)
    requires r1 == delta + q1 && r3 == delta + q3
    ensures FenceAround(scale, r1, r3, k) == RescaleFence(u, FenceAround(scale, q1, q3, k))
  {
    var margin := Margin(k, q3 - q1);
    assert r3 - r1 == q3 - q1;
    RescaledPow(scale, u, delta, q1 - margin);
    RescaledPow(scale, u, delta, q3 + margin);
    assert delta + (q1 - margin) == r1 - margin;
    assert delta + (q3 + margin) == r3 + margin;
  }

  lemma RescaledOrder(scale: LogScale, u: real -> real, delta: real, x: real, y: real)
    requires scale.Valid() && IsRescaling(scale, u, delta) && x > 0.0 && y > 0.0
    ensures u(x) <= u(y) <==> x <= y
  {
    assert Shifts(scale, u, delta, x) && Shifts(scale, u, delta, y);
    if x <= y { scale.LogMonotone(x, y); }
    if u(x) <= u(y) { scale.LogMonotone(u(x), u(y)); }
  }

  /** The filter commutes with a change of unit. */
  lemma FilterRescaled(scale: LogScale, data: seq<Listing>, u: real -> real, delta: real, k: real)
    requires scale.Valid() && IsRescaling(scale, u, delta)
    ensures FilterOutlierPrices(scale, Map(Repriced(u), data), k)
         == Map(Repriced(u), FilterOutlierPrices(scale, data, k))
  {
    hide RescaleFence, Admitted, At, SortedLogs;
    var clean := Usable(data);
    var f := FenceOf(scale, Prices(clean), k);
    forall d | d in data ensures IsUsable(d) == IsUsable(Repriced(u)(d)) {
      assert Shifts(scale, u, delta, d.price);
    }
    FilterMap(Repriced(u), data, IsUsable, IsUsable);
    MapCommutes(Repriced(u), PriceOf(), PriceOf(), u, clean);
    UsablePositive(data);
    FenceRescaled(scale, Prices(clean), u, delta, k);
    AdmittedRescaled(scale, clean, u, delta, f);
    FilterMap(Repriced(u), clean, Admitted(f), Admitted(RescaleFence(u, f)));
  }

  lemma AdmittedRescaled(scale: LogScale, clean: seq<Listing>, u: real -> real, delta: real, f: Fence)
    requires scale.Valid() && IsRescaling(scale, u, delta)
    requires forall d :: d in clean ==> IsUsable(d)
    requires f.Between? ==> f.low > 0.0 && f.high > 0.0
    ensures forall d :: d in clean ==> Admitted(f)(d) == Admitted(RescaleFence(u, f))(Repriced(u)(d))
  {
    forall d | d in clean ensures Admitted(f)(d) == Admitted(RescaleFence(u, f))(Repriced(u)(d)) {
      if f.Between? {
        RescaledOrder(scale, u, delta, f.low, d.price);
        RescaledOrder(scale, u, delta, d.price, f.high);
      }
    }
  }

  function Times(c: real): real -> real {
    (x: real) => c * x
  }

  lemma TimesShifts(scale: LogScale, c: real, x: real)
    requires scale.Additive() && c > 0.0
    ensures Shifts(scale, Times(c), scale.log(c), x)
  {
    assert c * x > 0.0 <==> x > 0.0 by { RealFacts.PositiveFactor(x, c); }
    if x > 0.0 {
      assert scale.Adds(c, x);
      assert Times(c)(x) == c * x;
    }
  }

  /** Multiplying every price by c > 0 is such a change: no listing enters or leaves. */
  lemma FilterScale(scale: LogScale, data: seq<Listing>, c: real, k: real)
    requires scale.Valid() && scale.Additive() && c > 0.0
    ensures FilterOutlierPrices(scale, Map(Repriced(Times(c)), data), k)
         == Map(Repriced(Times(c)), FilterOutlierPrices(scale, data, k))
  {
    hide Shifts, Times;
    forall x ensures Shifts(scale, Times(c), scale.log(c), x) {
      TimesShifts(scale, c, x);
    }
    FilterRescaled(scale, data, Times(c), scale.log(c), k);
  }
}
