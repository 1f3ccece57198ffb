/** The rotating scan over the characters table (apps/characters/src/characters.service.ts, indexCharacters). */
module CharacterScan {
  import opened Wrappers
  import opened Sequences

  /** OSINT_CHARACTER_LIMIT */
  const LIMIT := 5000

  /** find({ skip: offset, take: LIMIT }) on the ordered table. */
  function Page<T>(rows: seq<T>, offset: nat): seq<T> {
    var from := if offset < |rows| then offset else |rows|;
    var to := if offset + LIMIT < |rows| then offset + LIMIT else |rows|;
    rows[from..to]
  }

  function NextOffset(offset: nat, count: nat): nat {
    if offset + LIMIT >= count then 0 else offset + LIMIT
  }

  class Scanner<T> {
    var offset: nat

    constructor ()
      ensures offset == 0
    {
      offset := 0;
    }

    /** One tick; rows is the table when the page is read, count its size when counted. None: a query failed. */
    method IndexCharacters(rows: Option<seq<T>>, count: Option<nat>) returns (queued: seq<T>)
      modifies this
      ensures rows == None || count == None ==> queued == [] && offset == old(offset)
      ensures rows.Some? && count.Some? ==>
                queued == Page(rows.value, old(offset)) && offset == NextOffset(old(offset), count.value)
    {
      queued := [];
      if rows == None || count == None { return; }
      var characters := Page(rows.value, offset);
      offset := offset + LIMIT;
      if offset >= count.value {
        offset := 0;
      }
      queued := characters;
    }
  }

  /** The offset after ticks that saw these counts. */
  function OffsetAfter(counts: seq<nat>): nat {
    if counts == [] then 0 else NextOffset(OffsetAfter(counts[..|counts| - 1]), counts[|counts| - 1])
  }

  /** However the table grows or shrinks, the offset is a multiple of the limit, and 0 or below the last count. */
  lemma {:induction false} OffsetInRange(counts: seq<nat>)
    ensures OffsetAfter(counts) % 5000 == 0
    ensures OffsetAfter(counts) == 0 || (counts != [] && OffsetAfter(counts) < counts[|counts| - 1])
  {
    if counts != [] {
      OffsetInRange(counts[..|counts| - 1]);
    }
  }

  // ----- a fixed table

  function OffsetAt(size: nat, ticks: nat): nat {
    if ticks == 0 then 0 else NextOffset(OffsetAt(size, ticks - 1), size)
  }

  /** Everything queued in the first ticks. */
  function Queued<T>(rows: seq<T>, ticks: nat): seq<T> {
    if ticks == 0 then [] else Queued(rows, ticks - 1) + Page(rows, OffsetAt(|rows|, ticks - 1))
  }

  /** max(1, ceil(size / LIMIT)) */
  function SweepTicks(size: nat): nat {
    if size == 0 then 1 else (size + LIMIT - 1) / LIMIT
  }

  lemma {:induction false} PartialSweep<T>(rows: seq<T>, ticks: nat)
    requires ticks < SweepTicks(|rows|)
    ensures OffsetAt(|rows|, ticks) == ticks * LIMIT
    ensures ticks * LIMIT <= |rows| && Queued(rows, ticks) == rows[..ticks * LIMIT]
  {
    if ticks > 0 {
      PartialSweep(rows, ticks - 1);
      var from := (ticks - 1) * LIMIT;
      assert rows[..from] + rows[from..from + LIMIT] == rows[..from + LIMIT];
    }
  }

  /** One sweep queues every row exactly once, in order, and ends where it began. */
  lemma FullSweep<T>(rows: seq<T>)
    ensures Queued(rows, SweepTicks(|rows|)) == rows
    ensures OffsetAt(|rows|, SweepTicks(|rows|)) == 0
  {
    hide SweepTicks, Queued, OffsetAt, Page, NextOffset;
    var n := SweepTicks(|rows|);
    SweepBounds(|rows|);
    Tick(rows, n - 1);
    PartialSweep(rows, n - 1);
    LastPage(rows, (n - 1) * LIMIT);
  }

  /** A sweep takes one tick for every 5000 rows or part of them, and one for an empty table. */
  lemma SweepBounds(size: nat)
    ensures SweepTicks(size) >= 1
    ensures (SweepTicks(size) - 1) * 5000 <= size <= SweepTicks(size) * 5000
    ensures SweepTicks(size) > 1 ==> (SweepTicks(size) - 1) * 5000 < size
  {
  }

  lemma LastPage<T>(rows: seq<T>, from: nat)
    requires from <= |rows| <= from + LIMIT
    ensures rows[..from] + Page(rows, from) == rows && NextOffset(from, |rows|) == 0
  {
  }

  function Repeated<T>(rows: seq<T>, k: nat): seq<T> {
    if k == 0 then [] else Repeated(rows, k - 1) + rows
  }

  lemma {:induction false} ShiftedTicks<T>(rows: seq<T>, start: nat, ticks: nat)
    requires OffsetAt(|rows|, start) == 0
    ensures OffsetAt(|rows|, start + ticks) == OffsetAt(|rows|, ticks)
    ensures Queued(rows, start + ticks) == Queued(rows, start) + Queued(rows, ticks)
  {
    hide NextOffset, Page, Queued, OffsetAt;
    NoTicks(rows);
    if ticks == 0 {
      assert Queued(rows, start) + [] == Queued(rows, start);
    } else {
      ShiftedTicks(rows, start, ticks - 1);
      Tick(rows, start + ticks - 1);
      Tick(rows, ticks - 1);
      var a, b, c := Queued(rows, start), Queued(rows, ticks - 1), Page(rows, OffsetAt(|rows|, ticks - 1));
      assert a + b + c == a + (b + c);
    }
  }

  lemma Tick<T>(rows: seq<T>, ticks: nat)
    ensures Queued(rows, ticks + 1) == Queued(rows, ticks) + Page(rows, OffsetAt(|rows|, ticks))
    ensures OffsetAt(|rows|, ticks + 1) == NextOffset(OffsetAt(|rows|, ticks), |rows|)
  {
  }

  lemma NoTicks<T>(rows: seq<T>)
    ensures Queued(rows, 0) == [] && OffsetAt(|rows|, 0) == 0
  {
  }

  /** k sweeps queue the whole table k times. */
  lemma {:induction false} ManySweeps<T>(rows: seq<T>, k: nat)
    ensures Queued(rows, k * SweepTicks(|rows|)) == Repeated(rows, k)
    ensures OffsetAt(|rows|, k * SweepTicks(|rows|)) == 0
  {
    hide SweepTicks, Queued, OffsetAt;
    if k == 0 {
      NoTicks(rows);
    } else {
      var n := SweepTicks(|rows|);
      ManySweeps(rows, k - 1);
      FullSweep(rows);
      ShiftedTicks(rows, (k - 1) * n, n);
      assert (k - 1) * n + n == k * n;
    }
  }

  // ----- rows that the sort cannot tell apart

  /** An order in which the database may read the table: ascending in the sort key, ties as it likes. */
  ghost predicate MayRead<T>(order: seq<T>, table: seq<T>, key: T -> real) {
    multiset(order) == multiset(table) && SortedBy(order, key)
  }

  /** On every tick the database reads the table in some such order. */
  ghost predicate Readings<T>(orders: nat -> seq<T>, table: seq<T>, key: T -> real) {
    forall i: nat :: MayRead(orders(i), table, key)
  }

  /** Everything queued in the first ticks when tick i reads orders(i). */
  function QueuedFrom<T>(orders: nat -> seq<T>, size: nat, ticks: nat): seq<T> {
    if ticks == 0 then []
    else QueuedFrom(orders, size, ticks - 1) + Page(orders(ticks - 1), OffsetAt(size, ticks - 1))
  }

  /** No page boundary runs between two rows with the same sort key. */
  ghost predicate CleanBoundaries<T>(sorted: seq<T>, key: T -> real) {
    forall n: nat :: 0 < n * 5000 < |sorted| ==> key(sorted[n * 5000 - 1]) < key(sorted[n * 5000])
  }

  function UpTo<T>(key: T -> real, bound: real): T -> bool {
    (x: T) => key(x) <= bound
  }

  /** Sorted readings have the same key at every place. */
  lemma SameKeys<T(!new)>(a: seq<T>, b: seq<T>, key: T -> real)
    requires multiset(a) == multiset(b) && SortedBy(a, key) && SortedBy(b, key)
    ensures |a| == |b| && forall i :: 0 <= i < |a| ==> key(a[i]) == key(b[i])
  {
    var ka, kb := Map(key, a), Map(key, b);
    assert |a| == |multiset(a)| == |multiset(b)| == |b|;
    MapMultiset(key, a, b);
    KeysSorted(a, key);
    KeysSorted(b, key);
    SortedUnique(ka, kb, Identity());
    forall i | 0 <= i < |a| ensures key(a[i]) == key(b[i]) {
      assert ka[i] == kb[i];
    }
  }

  lemma KeysSorted<T>(a: seq<T>, key: T -> real)
    requires SortedBy(a, key)
    ensures SortedBy(Map(key, a), Identity())
  {
  }

  lemma AllOf<T>(xs: seq<T>, p: T -> bool)
    requires forall i :: 0 <= i < |xs| ==> p(xs[i])
    ensures Filter(xs, p) == xs
  {
    forall x | x in xs ensures p(x) {
      var i :| 0 <= i < |xs| && xs[i] == x;
    }
    FilterAll(xs, p);
  }

  lemma NoneOf<T>(xs: seq<T>, p: T -> bool)
    requires forall i :: 0 <= i < |xs| ==> !p(xs[i])
    ensures Filter(xs, p) == []
  {
    forall x | x in xs ensures !p(x) {
      var i :| 0 <= i < |xs| && xs[i] == x;
    }
    NothingLeft(xs, p);
  }

  /** The entries before a cut at which the key grows. */
  lemma BeforeCut<T>(a: seq<T>, key: T -> real, bound: real, cut: nat)
    requires cut <= |a| && forall i :: 0 <= i < |a| ==> (key(a[i]) <= bound <==> i < cut)
    ensures Filter(a, UpTo(key, bound)) == a[..cut]
  {
    hide Filter;
    var low := UpTo(key, bound);
    FilterConcat(a[..cut], a[cut..], low);
    AllOf(a[..cut], low);
    NoneOf(a[cut..], low);
    assert a == a[..cut] + a[cut..];
  }

  /** Where the key grows at a cut, the cut separates the same rows in every reading. */
  lemma SameCut<T(!new)>(a: seq<T>, b: seq<T>, key: T -> real, cut: nat)
    requires multiset(a) == multiset(b) && SortedBy(a, key) && SortedBy(b, key)
    requires cut <= |a| && (0 < cut < |a| ==> key(a[cut - 1]) < key(a[cut]))
    ensures |b| == |a| && multiset(a[..cut]) == multiset(b[..cut])
  {
    SameKeys(a, b, key);
    if 0 < cut < |a| {
      var bound := key(a[cut - 1]);
      CutByKey(a, key, cut);
      BeforeCut(a, key, bound, cut);
      BeforeCut(b, key, bound, cut);
      FilterMultiset(a, b, UpTo(key, bound));
    } else {
      assert cut == |a| ==> a[..cut] == a && b[..cut] == b;
      assert cut == 0 ==> a[..cut] == [] && b[..cut] == [];
    }
  }

  lemma CutByKey<T>(a: seq<T>, key: T -> real, cut: nat)
    requires SortedBy(a, key) && 0 < cut < |a| && key(a[cut - 1]) < key(a[cut])
    ensures forall i :: 0 <= i < |a| ==> (key(a[i]) <= key(a[cut - 1]) <==> i < cut)
  {
    forall i | 0 <= i < |a| ensures key(a[i]) <= key(a[cut - 1]) <==> i < cut {
      if cut <= i { assert key(a[cut]) <= key(a[i]); }
    }
  }

  /** How far the first ticks of a sweep reach. */
  function Reach(size: nat, ticks: nat): (n: nat)
    ensures n <= size
  {
    if ticks * LIMIT < size then ticks * LIMIT else size
  }

  lemma CleanAtReach<T>(sorted: seq<T>, key: T -> real, ticks: nat)
    requires CleanBoundaries(sorted, key)
    ensures var cut := Reach(|sorted|, ticks);
            0 < cut < |sorted| ==> key(sorted[cut - 1]) < key(sorted[cut])
  {
  }

  lemma PageIs<T>(order: seq<T>, ticks: nat)
    requires ticks * LIMIT <= |order|
    ensures Reach(|order|, ticks) <= Reach(|order|, ticks + 1)
    ensures Page(order, ticks * LIMIT) == order[Reach(|order|, ticks)..Reach(|order|, ticks + 1)]
  {
  }

  lemma SliceRows<T>(order: seq<T>, from: nat, to: nat)
    requires from <= to <= |order|
    ensures multiset(order[..from]) + multiset(order[from..to]) == multiset(order[..to])
  {
    assert order[..to] == order[..from] + order[from..to];
  }

  /** When no boundary is tied, a page holds the same rows in every reading. */
  lemma PageRows<T(!new)>(sorted: seq<T>, order: seq<T>, key: T -> real, ticks: nat)
    requires MayRead(order, sorted, key) && SortedBy(sorted, key) && CleanBoundaries(sorted, key)
    requires ticks * LIMIT <= |sorted|
    ensures multiset(sorted[..Reach(|sorted|, ticks)]) + multiset(Page(order, ticks * LIMIT))
         == multiset(sorted[..Reach(|sorted|, ticks + 1)])
  {
    hide Reach, Page, SortedBy, CleanBoundaries;
    var from, to := Reach(|sorted|, ticks), Reach(|sorted|, ticks + 1);
    CleanAtReach(sorted, key, ticks);
    CleanAtReach(sorted, key, ticks + 1);
    SameCut(sorted, order, key, from);
    SameCut(sorted, order, key, to);
    PageIs(order, ticks);
    SliceRows(order, from, to);
  }

  /** When no boundary is tied, the first ticks queue the rows of the first pages, once each, in whatever readings. */
  lemma {:induction false} TicksCover<T(!new)>(orders: nat -> seq<T>, sorted: seq<T>, key: T -> real, ticks: nat)
    requires Readings(orders, sorted, key) && SortedBy(sorted, key) && CleanBoundaries(sorted, key)
    requires ticks <= SweepTicks(|sorted|)
    ensures multiset(QueuedFrom(orders, |sorted|, ticks)) == multiset(sorted[..Reach(|sorted|, ticks)])
  {
    hide SweepTicks, OffsetAt, Page, SortedBy, CleanBoundaries, Reach, MayRead, Queued, QueuedFrom;
    if ticks == 0 {
      NoReach(|sorted|);
      NothingQueued(orders, |sorted|);
    } else {
      TicksCover(orders, sorted, key, ticks - 1);
      TickFrom(orders, sorted, ticks - 1);
      assert MayRead(orders(ticks - 1), sorted, key);
      PageRows(sorted, orders(ticks - 1), key, ticks - 1);
    }
  }

  lemma NothingQueued<T>(orders: nat -> seq<T>, size: nat)
    ensures QueuedFrom(orders, size, 0) == []
  {
  }

  /** One tick of a sweep that has not ended. */
  lemma TickFrom<T>(orders: nat -> seq<T>, sorted: seq<T>, ticks: nat)
    requires ticks < SweepTicks(|sorted|)
    ensures ticks * LIMIT <= |sorted|
    ensures QueuedFrom(orders, |sorted|, ticks + 1)
         == QueuedFrom(orders, |sorted|, ticks) + Page(orders(ticks), ticks * LIMIT)
  {
    hide SweepTicks, Page, Queued;
    PartialSweep(sorted, ticks);
  }

  lemma NoReach(size: nat)
    ensures Reach(size, 0) == 0
  {
  }

  lemma FullReach(size: nat)
    ensures Reach(size, SweepTicks(size)) == size
  {
    hide SweepTicks;
    SweepBounds(size);
  }

  lemma SameReadings<T>(orders: nat -> seq<T>, a: seq<T>, b: seq<T>, key: T -> real)
    requires Readings(orders, a, key) && multiset(a) == multiset(b)
    ensures Readings(orders, b, key)
  {
    hide SortedBy;
    forall i: nat ensures MayRead(orders(i), b, key) {
      assert MayRead(orders(i), a, key);
    }
  }

  /** When no page boundary is tied, a sweep queues every row of the table exactly once, whatever the readings. */
  lemma AnyReadingSweeps<T(!new)>(orders: nat -> seq<T>, table: seq<T>, key: T -> real)
    requires Readings(orders, table, key) && CleanBoundaries(SortBy(table, key), key)
    ensures multiset(QueuedFrom(orders, |table|, SweepTicks(|table|))) == multiset(table)
  {
    hide SweepTicks, QueuedFrom, CleanBoundaries, SortedBy, Readings, SortBy, Reach;
    var sorted := SortBy(table, key);
    SortBySorted(table, key);
    SortByMultiset(table, key);
    SameReadings(orders, table, sorted, key);
    TicksCover(orders, sorted, key, SweepTicks(|table|));
    FullReach(|table|);
    assert sorted[..|sorted|] == sorted;
  }

  function Later<T>(orders: nat -> seq<T>, start: nat): nat -> seq<T> {
    (i: nat) => orders(start + i)
  }

  /** Ticks after a point where the offset was 0 are the first ticks of later readings. */
  lemma {:induction false} ShiftedReadings<T>(orders: nat -> seq<T>, size: nat, start: nat, ticks: nat)
    requires OffsetAt(size, start) == 0
    ensures OffsetAt(size, start + ticks) == OffsetAt(size, ticks)
    ensures QueuedFrom(orders, size, start + ticks)
         == QueuedFrom(orders, size, start) + QueuedFrom(Later(orders, start), size, ticks)
  {
    hide NextOffset, Page, QueuedFrom, OffsetAt;
    NothingQueued(Later(orders, start), size);
    if ticks == 0 {
      assert QueuedFrom(orders, size, start) + [] == QueuedFrom(orders, size, start);
      NoOffset(size);
    } else {
      ShiftedReadings(orders, size, start, ticks - 1);
      TickReads(orders, size, start + ticks - 1);
      TickReads(Later(orders, start), size, ticks - 1);
      var a, b := QueuedFrom(orders, size, start), QueuedFrom(Later(orders, start), size, ticks - 1);
      var c := Page(orders(start + ticks - 1), OffsetAt(size, ticks - 1));
      assert a + b + c == a + (b + c);
    }
  }

  lemma NoOffset(size: nat)
    ensures OffsetAt(size, 0) == 0
  {
  }

  lemma TickReads<T>(orders: nat -> seq<T>, size: nat, ticks: nat)
    ensures QueuedFrom(orders, size, ticks + 1)
         == QueuedFrom(orders, size, ticks) + Page(orders(ticks), OffsetAt(size, ticks))
    ensures OffsetAt(size, ticks + 1) == NextOffset(OffsetAt(size, ticks), size)
  {
  }

  /** One more sweep from a point where the offset is 0. */
  lemma OneMoreSweep<T(!new)>(orders: nat -> seq<T>, table: seq<T>, key: T -> real, start: nat)
    requires Readings(orders, table, key) && CleanBoundaries(SortBy(table, key), key)
    requires OffsetAt(|table|, start) == 0
    ensures OffsetAt(|table|, start + SweepTicks(|table|)) == 0
    ensures multiset(QueuedFrom(orders, |table|, start + SweepTicks(|table|)))
         == multiset(QueuedFrom(orders, |table|, start)) + multiset(table)
  {
    hide SweepTicks, QueuedFrom, OffsetAt, CleanBoundaries, SortBy, Readings, Later;
    ShiftedReadings(orders, |table|, start, SweepTicks(|table|));
    LaterReads(orders, table, key, start);
    AnyReadingSweeps(Later(orders, start), table, key);
    FullSweep(table);
  }

  /** When no page boundary is tied, k sweeps queue every row k times, whatever the readings. */
  lemma {:induction false} ManyReadingsSweep<T(!new)>(orders: nat -> seq<T>, table: seq<T>, key: T -> real, k: nat)
    requires Readings(orders, table, key) && CleanBoundaries(SortBy(table, key), key)
    ensures multiset(QueuedFrom(orders, |table|, k * SweepTicks(|table|))) == multiset(Repeated(table, k))
    ensures OffsetAt(|table|, k * SweepTicks(|table|)) == 0
  {
    hide SweepTicks, QueuedFrom, OffsetAt, CleanBoundaries, SortBy, Readings;
    var n := SweepTicks(|table|);
    if k == 0 {
      NothingQueued(orders, |table|);
      NoOffset(|table|);
    } else {
      ManyReadingsSweep(orders, table, key, k - 1);
      OneMoreSweep(orders, table, key, (k - 1) * n);
      assert (k - 1) * n + n == k * n;
    }
  }

  lemma LaterReads<T>(orders: nat -> seq<T>, table: seq<T>, key: T -> real, start: nat)
    requires Readings(orders, table, key)
    ensures Readings(Later(orders, start), table, key)
  {
    hide MayRead;
    forall i: nat ensures MayRead(Later(orders, start)(i), table, key) {
      assert MayRead(orders(start + i), table, key);
    }
  }

  /** No row is in the table twice. */
  ghost predicate RowsDiffer<T(!new)>(table: seq<T>) {
    forall x :: multiset(table)[x] <= 1
  }

  lemma DifferentPlaces<T(!new)>(s: seq<T>, i: nat, j: nat)
    requires RowsDiffer(s) && i < j < |s|
    ensures s[i] != s[j]
  {
    assert s == s[..j] + [s[j]] + s[j + 1..];
    assert s[..j][i] in multiset(s[..j]);
    assert multiset(s)[s[j]] <= 1;
  }

  /** Two neighbours in each other's place. */
  function Swapped<T>(s: seq<T>, c: nat): seq<T>
    requires 0 < c < |s|
  {
    s[c - 1 := s[c]][c := s[c - 1]]
  }

  lemma SwappedRows<T>(s: seq<T>, c: nat)
    requires 0 < c < |s|
    ensures multiset(Swapped(s, c)) == multiset(s)
  {
  }

  lemma SwappedReads<T>(s: seq<T>, key: T -> real, c: nat)
    requires SortedBy(s, key) && 0 < c < |s| && key(s[c]) <= key(s[c - 1])
    ensures MayRead(Swapped(s, c), s, key)
  {
    SwappedRows(s, c);
    assert key(s[c - 1]) <= key(s[c]);
    SameKeysSorted(s, Swapped(s, c), key);
  }

  lemma SameKeysSorted<T>(a: seq<T>, b: seq<T>, key: T -> real)
    requires SortedBy(a, key) && |a| == |b| && forall i :: 0 <= i < |a| ==> key(a[i]) == key(b[i])
    ensures SortedBy(b, key)
  {
    forall i, j | 0 <= i <= j < |b| ensures key(b[i]) <= key(b[j]) {
      assert key(a[i]) <= key(a[j]);
    }
  }

  /** Tick n reads the two rows at its boundary in the other order, every other tick reads s. */
  function OneOdd<T>(s: seq<T>, n: nat): nat -> seq<T>
    requires 0 < n * LIMIT < |s|
  {
    (i: nat) => if i == n then Swapped(s, n * LIMIT) else s
  }

  /** No page of these readings holds the first row of page n. */
  lemma PageMisses<T(!new)>(s: seq<T>, n: nat, ticks: nat)
    requires RowsDiffer(s) && 0 < n * LIMIT < |s| && ticks * LIMIT <= |s|
    ensures s[n * LIMIT] !in Page(OneOdd(s, n)(ticks), ticks * LIMIT)
  {
    var order, from := OneOdd(s, n)(ticks), ticks * LIMIT;
    var page := Page(order, from);
    forall j | 0 <= j < |page| ensures page[j] != s[n * LIMIT] {
      assert page[j] == order[from + j];
      SwappedMisses(s, n, ticks, from + j);
    }
  }

  lemma SwappedMisses<T(!new)>(s: seq<T>, n: nat, ticks: nat, i: nat)
    requires RowsDiffer(s) && 0 < n * LIMIT < |s| && ticks * LIMIT <= i < |s| && i < ticks * LIMIT + LIMIT
    ensures OneOdd(s, n)(ticks)[i] != s[n * LIMIT]
  {
    hide RowsDiffer;
    var c := n * LIMIT;
    DifferentPlaces(s, c - 1, c);
    if i < c {
      DifferentPlaces(s, i, c);
    } else if c < i {
      DifferentPlaces(s, c, i);
    }
  }

  lemma {:induction false} SweepMisses<T(!new)>(s: seq<T>, n: nat, ticks: nat)
    requires RowsDiffer(s) && 0 < n * LIMIT < |s| && ticks <= SweepTicks(|s|)
    ensures s[n * LIMIT] !in QueuedFrom(OneOdd(s, n), |s|, ticks)
  {
    hide SweepTicks, Page, OneOdd, RowsDiffer, QueuedFrom;
    if ticks == 0 {
      NothingQueued(OneOdd(s, n), |s|);
    } else {
      SweepMisses(s, n, ticks - 1);
      TickFrom(OneOdd(s, n), s, ticks - 1);
      PageMisses(s, n, ticks - 1);
    }
  }

  /** At a tied boundary there are readings with which a sweep misses a row. */
  lemma TieMissesRow<T(!new)>(table: seq<T>, key: T -> real) returns (orders: nat -> seq<T>)
    requires RowsDiffer(table) && !CleanBoundaries(SortBy(table, key), key)
    ensures Readings(orders, table, key)
    ensures multiset(QueuedFrom(orders, |table|, SweepTicks(|table|))) != multiset(table)
  {
    hide SweepTicks, QueuedFrom, SortBy, SortedBy, OneOdd;
    var s := SortBy(table, key);
    SortBySorted(table, key);
    SortByMultiset(table, key);
    var n: nat :| 0 < n * LIMIT < |s| && key(s[n * LIMIT]) <= key(s[n * LIMIT - 1]);
    orders := OneOdd(s, n);
    OddReadings(s, key, n);
    SameReadings(orders, s, table, key);
    SweepMisses(s, n, SweepTicks(|s|));
    var row := s[n * LIMIT];
    assert row in multiset(s);
  }

  lemma OddReadings<T>(s: seq<T>, key: T -> real, n: nat)
    requires SortedBy(s, key) && 0 < n * LIMIT < |s| && key(s[n * LIMIT]) <= key(s[n * LIMIT - 1])
    ensures Readings(OneOdd(s, n), s, key)
  {
    hide SortedBy, Swapped;
    SwappedReads(s, key, n * LIMIT);
  }

  /** A sweep queues every row exactly once in all readings if and only if no page boundary is tied. */
  lemma SweepExactly<T(!new)>(table: seq<T>, key: T -> real)
    requires RowsDiffer(table)
    ensures CleanBoundaries(SortBy(table, key), key)
       <==> forall orders: nat -> seq<T> :: Readings(orders, table, key) ==>
              multiset(QueuedFrom(orders, |table|, SweepTicks(|table|))) == multiset(table)
  {
    hide SweepTicks, QueuedFrom, SortBy, CleanBoundaries, Readings, RowsDiffer;
    if CleanBoundaries(SortBy(table, key), key) {
      forall orders: nat -> seq<T> | Readings(orders, table, key)
        ensures multiset(QueuedFrom(orders, |table|, SweepTicks(|table|))) == multiset(table)
      {
        AnyReadingSweeps(orders, table, key);
      }
    } else {
      var orders := TieMissesRow(table, key);
    }
  }
}
