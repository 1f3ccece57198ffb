/** Snapping a list of raw edges and dropping the duplicates (price-binning.ts, snapAndDedupe). */
module SnapEdges {
  import opened NiceGrid

  predicate Ascending(s: seq<real>) {
    forall i, j :: 0 <= i < j < |s| ==> s[i] < s[j]
  }

  predicate NonDecreasing(s: seq<real>) {
    forall i, j :: 0 <= i <= j < |s| ==> s[i] <= s[j]
  }

  function Snapped(raw: seq<real>): (s: seq<real>)
    ensures |s| == |raw|
    ensures forall i :: 0 <= i < |raw| ==> s[i] == Snap(raw[i])
  {
    seq(|raw|, i requires 0 <= i < |raw| => Snap(raw[i]))
  }

  /** Entry i is greater than everything before it. */
  ghost predicate RecordAt(s: seq<real>, i: nat)
    requires i < |s|
  {
    forall j :: 0 <= j < i ==> s[j] < s[i]
  }

  /** x is a record among the first n entries of s. */
  ghost predicate IsRecord(s: seq<real>, n: nat, x: real)
    requires n <= |s|
  {
    exists i: nat :: i < n && RecordAt(s, i) && s[i] == x
  }

  /** The strictly ascending list of exactly the records among the first n entries of s. */
  ghost predicate AreRecords(s: seq<real>, n: nat, r: seq<real>)
    requires n <= |s|
  {
    && Ascending(r)
    && |r| <= n
    && (forall x :: x in r <==> IsRecord(s, n, x))
    && (n > 0 ==> |r| > 0 && r[0] == s[0] && forall i :: 0 <= i < n ==> s[i] <= r[|r| - 1])
  }

  /** All but the last, greatest entry. */
  lemma AllButLast(a: seq<real>)
    requires Ascending(a) && a != []
    ensures Ascending(a[..|a| - 1])
    ensures forall x :: x in a ==> x <= a[|a| - 1]
    ensures forall x :: x in a[..|a| - 1] <==> x in a && x != a[|a| - 1]
  {
    assert a == a[..|a| - 1] + [a[|a| - 1]];
  }

  /** Two ascending lists with the same members are the same list. */
  lemma {:induction false} AscendingUnique(a: seq<real>, b: seq<real>)
    requires Ascending(a) && Ascending(b)
    requires forall x :: x in a <==> x in b
    ensures a == b
    decreases |a|
  {
    hide Ascending;
    if a != [] && b != [] {
      var m, n := |a| - 1, |b| - 1;
      AllButLast(a);
      AllButLast(b);
      SameLast(a, b);
      forall x ensures x in a[..m] <==> x in b[..n] {
        assert x in a <==> x in b;
      }
      AscendingUnique(a[..m], b[..n]);
      assert a == a[..m] + [a[m]] && b == b[..n] + [b[n]];
    } else if a != [] {
      var x := FirstMember(a);
      assert false;
    } else if b != [] {
      var x := FirstMember(b);
      assert false;
    }
  }

  lemma FirstMember(s: seq<real>) returns (x: real)
    requires s != []
    ensures x in s
  {
    x := s[0];
  }

  lemma SameLast(a: seq<real>, b: seq<real>)
    requires a != [] && b != [] && forall x :: x in a <==> x in b
    requires forall x :: x in a ==> x <= a[|a| - 1]
    requires forall x :: x in b ==> x <= b[|b| - 1]
    ensures a[|a| - 1] == b[|b| - 1]
  {
    assert a[|a| - 1] in a && b[|b| - 1] in b;
  }

  /** One more entry adds at most itself to the records. */
  lemma IsRecordStep(s: seq<real>, n: nat, x: real)
    requires n < |s|
    ensures IsRecord(s, n + 1, x) <==> IsRecord(s, n, x) || (RecordAt(s, n) && s[n] == x)
  {
    hide RecordAt;
  }

  /** The next entry is a record exactly when it exceeds the greatest one so far. */
  lemma RecordAbove(s: seq<real>, n: nat, r: seq<real>)
    requires 0 < n < |s| && AreRecords(s, n, r)
    ensures RecordAt(s, n) <==> s[n] > r[|r| - 1]
  {
    var top := r[|r| - 1];
    assert top in r;
    var i: nat :| i < n && RecordAt(s, i) && s[i] == top;
  }

  lemma RecordStep(s: seq<real>, n: nat, r: seq<real>)
    requires 0 < n < |s| && AreRecords(s, n, r)
    ensures AreRecords(s, n + 1, if s[n] > r[|r| - 1] then r + [s[n]] else r)
  {
    hide RecordAt, IsRecord;
    var r' := if s[n] > r[|r| - 1] then r + [s[n]] else r;
    RecordAbove(s, n, r);
    forall x ensures x in r' <==> IsRecord(s, n + 1, x) {
      IsRecordStep(s, n, x);
    }
  }

  lemma FirstRecord(s: seq<real>)
    requires s != []
    ensures AreRecords(s, 1, [s[0]])
  {
    assert RecordAt(s, 0);
  }

  /** The records, read off entry by entry. */
  ghost function RecordsUpTo(s: seq<real>, n: nat): seq<real>
    requires n <= |s|
  {
    if n == 0 then []
    else
      var r := RecordsUpTo(s, n - 1);
      if r == [] || s[n - 1] > r[|r| - 1] then r + [s[n - 1]] else r
  }

  lemma {:induction false} RecordsUpToAre(s: seq<real>, n: nat)
    requires n <= |s|
    ensures AreRecords(s, n, RecordsUpTo(s, n))
  {
    hide AreRecords;
    if n == 0 {
      NoRecords(s);
    } else if n == 1 {
      FirstRecord(s);
      assert RecordsUpTo(s, 0) == [];
      assert RecordsUpTo(s, 1) == [] + [s[0]] == [s[0]];
    } else {
      RecordsUpToAre(s, n - 1);
      SomeRecord(s, n - 1, RecordsUpTo(s, n - 1));
      RecordStep(s, n - 1, RecordsUpTo(s, n - 1));
    }
  }

  lemma NoRecords(s: seq<real>)
    ensures AreRecords(s, 0, [])
  {
  }

  lemma SomeRecord(s: seq<real>, n: nat, r: seq<real>)
    requires 0 < n <= |s| && AreRecords(s, n, r)
    ensures r != []
  {
  }

  ghost function Records(s: seq<real>): (r: seq<real>)
    ensures AreRecords(s, |s|, r)
  {
    RecordsUpToAre(s, |s|);
    RecordsUpTo(s, |s|)
  }

  lemma RecordsUnique(s: seq<real>, r: seq<real>)
    requires AreRecords(s, |s|, r)
    ensures r == Records(s)
  {
    AscendingUnique(r, Records(s));
  }

  /**
   * The two loops and the closing repair step. Whatever the input order, the result is the
   * strictly ascending list of the snapped running maxima, so the repair step has nothing to do.
   */
  method SnapAndDedupe(raw: seq<real>) returns (edges: seq<real>, repaired: bool)
    ensures edges == Records(Snapped(raw))
    ensures !repaired
  {
    repaired := false;
    if |raw| == 0 {
      return [], false;
    }
    hide Snapped, IsRecord, RecordAt;
    var snapped := Snapped(raw);
    edges := [snapped[0]];
    FirstRecord(snapped);
    for i := 1 to |snapped|
      invariant AreRecords(snapped, i, edges)
    {
      RecordStep(snapped, i, edges);
      if snapped[i] > edges[|edges| - 1] {
        edges := edges + [snapped[i]];
      }
    }
    var trueMax := snapped[|snapped| - 1];
    if edges[|edges| - 1] < trueMax {
      edges, repaired := edges + [trueMax], true;
    }
    RecordsUnique(snapped, edges);
  }

  lemma SnappedSorted(raw: seq<real>)
    requires NonDecreasing(raw) && forall i :: 0 <= i < |raw| ==> raw[i] >= 0.0
    ensures NonDecreasing(Snapped(raw))
  {
    hide Snap;
    forall i, j | 0 <= i <= j < |raw| ensures Snapped(raw)[i] <= Snapped(raw)[j] {
      SnapMonotone(raw[i], raw[j]);
    }
  }

  /** The first occurrence of a value in a sorted list is a record. */
  lemma {:induction false} FirstOccurrence(s: seq<real>, i: nat)
    requires NonDecreasing(s) && i < |s|
    ensures IsRecord(s, |s|, s[i])
  {
    if 0 < i && s[i - 1] == s[i] {
      FirstOccurrence(s, i - 1);
    } else {
      forall j | 0 <= j < i ensures s[j] < s[i] {
        assert s[j] <= s[i - 1] <= s[i];
      }
      assert RecordAt(s, i);
    }
  }

  /** The records of a sorted list are its distinct values. */
  lemma RecordsOfSorted(s: seq<real>)
    requires NonDecreasing(s)
    ensures forall x :: x in Records(s) <==> x in s
    ensures s != [] ==> Records(s) != [] && Records(s)[0] == s[0] && Records(s)[|Records(s)| - 1] == s[|s| - 1]
  {
    hide Records, RecordAt;
    var r := Records(s);
    forall x ensures x in r <==> x in s {
      if x in s {
        var i :| 0 <= i < |s| && s[i] == x;
        FirstOccurrence(s, i);
      }
    }
    if s != [] {
      var top := r[|r| - 1];
      assert top in r;
      assert s[|s| - 1] <= top;
    }
  }

  /** On nondecreasing raw edges the records are exactly the distinct snapped values. */
  lemma SortedRecords(raw: seq<real>)
    requires NonDecreasing(raw) && forall i :: 0 <= i < |raw| ==> raw[i] >= 0.0
    ensures var edges := Records(Snapped(raw));
            && Ascending(edges) && |edges| <= |raw|
            && (forall x :: x in edges <==> x in Snapped(raw))
            && (|raw| > 0 ==> edges != [] && edges[0] == Snap(raw[0]) && edges[|edges| - 1] == Snap(raw[|raw| - 1]))
  {
    hide Snap, Records, NonDecreasing;
    SnappedSorted(raw);
    RecordsOfSorted(Snapped(raw));
  }
}
