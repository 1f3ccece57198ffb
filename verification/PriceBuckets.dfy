/** Which row of the axis a price belongs to (price-binning.ts, assignPriceBucket). */
module PriceBuckets {
  import opened SnapEdges

  /** The reference: scanning down, the last edge not above the price; 0 when there is none. */
  function LastNotAbove(price: real, edges: seq<real>): (i: nat)
    ensures |edges| > 0 ==> i < |edges|
    ensures edges == [] ==> i == 0
    ensures 0 < i ==> edges[i] <= price
    ensures forall j :: i < j < |edges| ==> price < edges[j]
  {
    if |edges| <= 1 then 0
    else if edges[|edges| - 1] <= price then |edges| - 1
    else LastNotAbove(price, edges[..|edges| - 1])
  }

  /** The half-open interval [edge[i], edge[i + 1]) identifies the bucket. */
  lemma BucketUnique(price: real, edges: seq<real>, i: nat)
    requires Ascending(edges) && i < |edges|
    requires 0 < i ==> edges[i] <= price
    requires i + 1 < |edges| ==> price < edges[i + 1]
    ensures LastNotAbove(price, edges) == i
  {
  }

  /**
   * The binary search. It stays in range for any list; on ascending edges it agrees with the scan.
   */
  method AssignPriceBucket(price: real, edges: seq<real>) returns (bucket: int)
    ensures edges == [] ==> bucket == 0
    ensures edges != [] ==> 0 <= bucket < |edges|
    ensures Ascending(edges) ==> bucket == LastNotAbove(price, edges)
  {
    if |edges| == 0 { return 0; }
    if price <= edges[0] {
      if Ascending(edges) { BucketUnique(price, edges, 0); }
      return 0;
    }
    if price >= edges[|edges| - 1] {
      if Ascending(edges) { BucketUnique(price, edges, |edges| - 1); }
      return |edges| - 1;
    }
    var lo, hi := 0, |edges| - 1;
    while lo < hi
      invariant 0 <= lo <= hi < |edges| && 1 <= hi
      invariant 0 < lo ==> edges[lo - 1] <= price
      invariant price < edges[hi]
    {
      var mid := (lo + hi) / 2;
      if price < edges[mid] {
        hi := mid;
      } else {
        lo := mid + 1;
      }
    }
    if Ascending(edges) { BucketUnique(price, edges, lo - 1); }
    return lo - 1;
  }

  lemma BucketMonotone(p: real, q: real, edges: seq<real>)
    requires p <= q && Ascending(edges)
    ensures LastNotAbove(p, edges) <= LastNotAbove(q, edges)
  {
  }

  /** The label of a row belongs to that row. */
  lemma BucketOfEdge(edges: seq<real>, i: nat)
    requires Ascending(edges) && i < |edges|
    ensures LastNotAbove(edges[i], edges) == i
  {
  }
}
