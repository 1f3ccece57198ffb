/** The two roundings the price axis uses, over the reals. */
module Rounding {

  /** JavaScript's Math.round: the nearest integer, halves go up. */
  function MathRound(x: real): (n: int)
    ensures n as real - 0.5 <= x < n as real + 0.5
  {
    (x + 0.5).Floor
  }

  /** parseFloat(v.toFixed(2)): the nearest multiple of 0.01, halves away from zero. */
  function ToFixed2(v: real): (r: real)
    ensures -0.005 <= r - v <= 0.005
    ensures v >= 0.0 ==> r >= 0.0
  {
    if v < 0.0 then -((0.5 - 100.0 * v).Floor as real / 100.0)
    else (100.0 * v + 0.5).Floor as real / 100.0
  }

  lemma FloorMonotone(x: real, y: real)
    requires x <= y
    ensures x.Floor <= y.Floor
  {
  }

  lemma ToFixed2Monotone(v: real, w: real)
    requires v <= w
    ensures ToFixed2(v) <= ToFixed2(w)
  {
    if w < 0.0 {
      FloorMonotone(0.5 - 100.0 * w, 0.5 - 100.0 * v);
    } else if v < 0.0 {
      FloorMonotone(0.0, 0.5 - 100.0 * v);
      FloorMonotone(0.0, 100.0 * w + 0.5);
    } else {
      FloorMonotone(100.0 * v + 0.5, 100.0 * w + 0.5);
    }
  }

  /** Values at least a cent apart stay at least a cent apart. */
  lemma ToFixed2Separates(v: real, w: real)
    requires 0.0 <= v && v + 0.01 <= w
    ensures ToFixed2(v) + 0.01 <= ToFixed2(w)
  {
    assert (100.0 * v + 0.5).Floor + 1 <= (100.0 * w + 0.5).Floor;
  }

  /** Half a cent more is rounded up. */
  lemma ToFixed2HalfCent(n: nat)
    ensures ToFixed2(n as real / 100.0 + 0.005) == n as real / 100.0 + 0.01
  {
    var c := n as real;
    assert 100.0 * (c / 100.0 + 0.005) + 0.5 == c + 1.0;
    assert (c + 1.0).Floor == n + 1;
  }

  /** A non-negative whole number of cents is left alone. */
  lemma ToFixed2Cents(n: nat)
    ensures ToFixed2(n as real / 100.0) == n as real / 100.0
  {
    var c := n as real;
    assert 100.0 * (c / 100.0) == c;
    assert (c + 0.5).Floor == n;
  }
}
