/** Filtering and the stable sort of JavaScript arrays. */
module Sequences {

  function Filter<T>(xs: seq<T>, p: T -> bool): (r: seq<T>)
    ensures |r| <= |xs|
    ensures forall x :: x in r ==> x in xs && p(x)
    ensures forall x :: x in xs && p(x) ==> x in r
  {
    if xs == [] then []
    else if p(xs[0]) then [xs[0]] + Filter(xs[1..], p)
    else Filter(xs[1..], p)
  }

  lemma TailOfConcat<T>(a: seq<T>, b: seq<T>)
    requires a != []
    ensures (a + b)[0] == a[0] && (a + b)[1..] == a[1..] + b
  {
  }

  lemma ConsConcat<T>(x: T, a: seq<T>, b: seq<T>)
    ensures [x] + (a + b) == [x] + a + b
  {
  }

  lemma {:induction false} FilterConcat<T>(a: seq<T>, b: seq<T>, p: T -> bool)
    ensures Filter(a + b, p) == Filter(a, p) + Filter(b, p)
  {
    if a == [] {
      assert a + b == b;
    } else {
      TailOfConcat(a, b);
      FilterConcat(a[1..], b, p);
      ConsConcat(a[0], Filter(a[1..], p), Filter(b, p));
    }
  }

  lemma {:induction false} FilterAll<T>(xs: seq<T>, p: T -> bool)
    requires forall x :: x in xs ==> p(x)
    ensures Filter(xs, p) == xs
  {
    if xs != [] {
      FilterAll(xs[1..], p);
    }
  }

  lemma NothingLeft<T>(xs: seq<T>, p: T -> bool)
    requires forall x :: x in xs ==> !p(x)
    ensures Filter(xs, p) == []
  {
  }

  lemma {:induction false} FilterAgree<T>(xs: seq<T>, p: T -> bool, q: T -> bool)
    requires forall x :: x in xs ==> p(x) == q(x)
    ensures Filter(xs, p) == Filter(xs, q)
  {
    if xs != [] {
      FilterAgree(xs[1..], p, q);
    }
  }

  lemma {:induction false} FilterTwice<T>(xs: seq<T>, p: T -> bool, q: T -> bool, both: T -> bool)
    requires forall x :: x in xs ==> (both(x) <==> p(x) && q(x))
    ensures Filter(Filter(xs, p), q) == Filter(xs, both)
  {
    if xs != [] {
      FilterTwice(xs[1..], p, q, both);
      if p(xs[0]) {
        assert Filter(xs, p)[1..] == Filter(xs[1..], p);
      }
    }
  }

  lemma {:induction false} FilterCount<T>(xs: seq<T>, p: T -> bool, x: T)
    ensures multiset(Filter(xs, p))[x] == if p(x) then multiset(xs)[x] else 0
  {
    if xs != [] {
      var rest := Filter(xs[1..], p);
      FilterCount(xs[1..], p, x);
      CountFirst(xs, x);
      if p(xs[0]) {
        assert ([xs[0]] + rest)[1..] == rest;
        CountFirst([xs[0]] + rest, x);
      }
    }
  }

  lemma CountFirst<T>(xs: seq<T>, x: T)
    requires xs != []
    ensures multiset(xs)[x] == multiset(xs[1..])[x] + if xs[0] == x then 1 else 0
  {
    assert xs == [xs[0]] + xs[1..];
  }

  /** Filtering depends on the order of the input only through the order of the output. */
  lemma FilterMultiset<T(!new)>(a: seq<T>, b: seq<T>, p: T -> bool)
    requires multiset(a) == multiset(b)
    ensures multiset(Filter(a, p)) == multiset(Filter(b, p))
  {
    var fa, fb := multiset(Filter(a, p)), multiset(Filter(b, p));
    forall x: T ensures fa[x] == fb[x] {
      FilterCount(a, p, x);
      FilterCount(b, p, x);
    }
    assert fa == fb;
  }

  // ----- the stable sort

  predicate SortedBy<T>(xs: seq<T>, key: T -> real) {
    forall i, j :: 0 <= i <= j < |xs| ==> key(xs[i]) <= key(xs[j])
  }

  function InsertBy<T>(x: T, ys: seq<T>, key: T -> real): (r: seq<T>)
    ensures |r| == |ys| + 1
  {
    if ys == [] || key(x) <= key(ys[0]) then [x] + ys
    else [ys[0]] + InsertBy(x, ys[1..], key)
  }

  /** xs.sort((a, b) => key(a) - key(b)): ascending keys, ties in their original order. */
  function SortBy<T>(xs: seq<T>, key: T -> real): (r: seq<T>)
    ensures |r| == |xs|
  {
    if xs == [] then [] else InsertBy(xs[0], SortBy(xs[1..], key), key)
  }

  lemma {:induction false} InsertByMultiset<T>(x: T, ys: seq<T>, key: T -> real)
    ensures multiset(InsertBy(x, ys, key)) == multiset(ys) + multiset{x}
  {
    if ys != [] {
      InsertByMultiset(x, ys[1..], key);
      assert ys == [ys[0]] + ys[1..];
    }
  }

  /** The sort is a permutation. */
  lemma {:induction false} SortByMultiset<T>(xs: seq<T>, key: T -> real)
    ensures multiset(SortBy(xs, key)) == multiset(xs)
  {
    if xs != [] {
      SortByMultiset(xs[1..], key);
      InsertByMultiset(xs[0], SortBy(xs[1..], key), key);
      assert xs == [xs[0]] + xs[1..];
    }
  }

  lemma InMultiset<T>(x: T, a: seq<T>, b: seq<T>)
    requires multiset(a) == multiset(b)
    ensures x in a <==> x in b
  {
    assert x in a <==> x in multiset(a);
    assert x in b <==> x in multiset(b);
  }

  lemma SortByMembers<T>(xs: seq<T>, key: T -> real)
    ensures forall x :: x in SortBy(xs, key) <==> x in xs
  {
    SortByMultiset(xs, key);
    forall x ensures x in SortBy(xs, key) <==> x in xs {
      InMultiset(x, SortBy(xs, key), xs);
    }
  }

  lemma SortedCons<T>(y: T, rest: seq<T>, key: T -> real)
    requires SortedBy(rest, key) && forall z :: z in rest ==> key(y) <= key(z)
    ensures SortedBy([y] + rest, key)
  {
  }

  lemma SortedTail<T>(ys: seq<T>, key: T -> real)
    requires ys != [] && SortedBy(ys, key)
    ensures SortedBy(ys[1..], key) && forall z :: z in ys[1..] ==> key(ys[0]) <= key(z)
  {
  }

  lemma {:induction false} InsertBySorted<T>(x: T, ys: seq<T>, key: T -> real)
    requires SortedBy(ys, key)
    ensures SortedBy(InsertBy(x, ys, key), key)
  {
    hide SortedBy;
    if ys == [] {
      SortedCons(x, ys, key);
    } else {
      SortedTail(ys, key);
      if key(x) <= key(ys[0]) {
        SortedCons(x, ys, key);
      } else {
        var rest := InsertBy(x, ys[1..], key);
        InsertBySorted(x, ys[1..], key);
        InsertByMultiset(x, ys[1..], key);
        forall z | z in rest ensures key(ys[0]) <= key(z) {
          InMultiset(z, rest, ys[1..] + [x]);
        }
        SortedCons(ys[0], rest, key);
      }
    }
  }

  lemma {:induction false} SortBySorted<T>(xs: seq<T>, key: T -> real)
    ensures SortedBy(SortBy(xs, key), key)
  {
    hide InsertBy;
    if xs != [] {
      SortBySorted(xs[1..], key);
      InsertBySorted(xs[0], SortBy(xs[1..], key), key);
    }
  }

  lemma {:induction false} FilterInsert<T>(x: T, ys: seq<T>, key: T -> real, p: T -> bool)
    requires SortedBy(ys, key)
    ensures Filter(InsertBy(x, ys, key), p) == if p(x) then InsertBy(x, Filter(ys, p), key) else Filter(ys, p)
  {
    if ys == [] || key(x) <= key(ys[0]) {
      assert ([x] + ys)[1..] == ys;
      var f := Filter(ys, p);
      if f != [] {
        assert f[0] in f;
      }
    } else {
      FilterInsert(x, ys[1..], key, p);
      assert InsertBy(x, ys, key)[1..] == InsertBy(x, ys[1..], key);
      if p(ys[0]) {
        assert Filter(ys, p)[1..] == Filter(ys[1..], p);
      }
    }
  }

  /** Stability: sorting a selection is selecting from the sorted list. */
  lemma {:induction false} FilterSort<T>(xs: seq<T>, key: T -> real, p: T -> bool)
    ensures Filter(SortBy(xs, key), p) == SortBy(Filter(xs, p), key)
  {
    if xs != [] {
      FilterSort(xs[1..], key, p);
      SortBySorted(xs[1..], key);
      FilterInsert(xs[0], SortBy(xs[1..], key), key, p);
      if p(xs[0]) {
        assert Filter(xs, p)[1..] == Filter(xs[1..], p);
      }
    }
  }

  lemma {:induction false} InsertByHead<T>(x: T, ys: seq<T>, key: T -> real)
    requires forall y :: y in ys ==> key(x) <= key(y)
    ensures InsertBy(x, ys, key) == [x] + ys
  {
  }

  /** A sorted list is a fixed point of the sort. */
  lemma {:induction false} SortSorted<T>(xs: seq<T>, key: T -> real)
    requires SortedBy(xs, key)
    ensures SortBy(xs, key) == xs
  {
    if xs != [] {
      SortSorted(xs[1..], key);
      InsertByHead(xs[0], xs[1..], key);
    }
  }

  /** With distinct keys the sorted order is the only one. */
  lemma {:induction false} SortedUnique<T>(a: seq<T>, b: seq<T>, key: T -> real)
    requires SortedBy(a, key) && SortedBy(b, key) && multiset(a) == multiset(b)
    requires forall x, y :: x in a && y in a && key(x) == key(y) ==> x == y
    ensures a == b
  {
    assert |a| == |multiset(a)| == |multiset(b)| == |b|;
    if a != [] {
      assert a[0] == b[0] by {
        InMultiset(a[0], a, b);
        InMultiset(b[0], a, b);
      }
      DropFirst(a, b);
      SortedUnique(a[1..], b[1..], key);
    }
  }

  lemma DropFirst<T>(a: seq<T>, b: seq<T>)
    requires a != [] && b != [] && a[0] == b[0] && multiset(a) == multiset(b)
    ensures multiset(a[1..]) == multiset(b[1..])
  {
    assert a == [a[0]] + a[1..] && b == [b[0]] + b[1..];
    assert multiset(a[1..]) == multiset(a) - multiset{a[0]};
  }

  lemma FilterSlice<T>(xs: seq<T>, lo: nat, hi: nat, p: T -> bool)
    requires lo <= hi <= |xs|
    requires forall i :: lo <= i < hi ==> p(xs[i])
    ensures |Filter(xs, p)| >= hi - lo
  {
    var a, b, c := xs[..lo], xs[lo..hi], xs[hi..];
    assert xs == a + (b + c);
    FilterConcat(a, b + c, p);
    FilterConcat(b, c, p);
    FilterAll(b, p);
  }

  // ----- mapping

  function Map<T, U>(f: T -> U, xs: seq<T>): (r: seq<U>)
    ensures |r| == |xs|
    ensures forall i :: 0 <= i < |xs| ==> r[i] == f(xs[i])
  {
    if xs == [] then [] else [f(xs[0])] + Map(f, xs[1..])
  }

  lemma {:induction false} FilterMap<T, U>(f: T -> U, xs: seq<T>, p: T -> bool, q: U -> bool)
    requires forall x :: x in xs ==> p(x) == q(f(x))
    ensures Filter(Map(f, xs), q) == Map(f, Filter(xs, p))
  {
    if xs != [] {
      FilterMap(f, xs[1..], p, q);
      assert Map(f, xs)[1..] == Map(f, xs[1..]);
      if p(xs[0]) {
        assert Filter(xs, p)[1..] == Filter(xs[1..], p);
      }
    }
  }

  lemma {:induction false} InsertMap<T, U>(f: T -> U, x: T, ys: seq<T>, key: T -> real, key': U -> real)
    requires forall y :: y in ys ==> SameOrder(f, key, key', x, y)
    ensures InsertBy(f(x), Map(f, ys), key') == Map(f, InsertBy(x, ys, key))
  {
    if ys == [] {
    } else if key(x) <= key(ys[0]) {
      assert SameOrder(f, key, key', x, ys[0]);
      assert ([x] + ys)[1..] == ys;
    } else {
      assert SameOrder(f, key, key', x, ys[0]);
      InsertMap(f, x, ys[1..], key, key');
      assert Map(f, ys)[1..] == Map(f, ys[1..]);
      assert InsertBy(x, ys, key)[1..] == InsertBy(x, ys[1..], key);
    }
  }

  ghost predicate SameOrder<T, U>(f: T -> U, key: T -> real, key': U -> real, x: T, y: T) {
    key(x) <= key(y) <==> key'(f(x)) <= key'(f(y))
  }

  /** Sorting commutes with a map that carries the order of one key to the order of the other. */
  lemma {:induction false} SortMap<T, U>(f: T -> U, xs: seq<T>, key: T -> real, key': U -> real)
    requires forall x, y :: x in xs && y in xs ==> SameOrder(f, key, key', x, y)
    ensures SortBy(Map(f, xs), key') == Map(f, SortBy(xs, key))
  {
    if xs != [] {
      var rest := SortBy(xs[1..], key);
      SortMap(f, xs[1..], key, key');
      SortByMultiset(xs[1..], key);
      forall y | y in rest ensures SameOrder(f, key, key', xs[0], y) {
        InMultiset(y, rest, xs[1..]);
      }
      assert Map(f, xs)[1..] == Map(f, xs[1..]);
      InsertMap(f, xs[0], rest, key, key');
    }
  }

  /** Two routes to the same elements give the same list. */
  lemma MapCommutes<T, A, B, U>(f: T -> A, g: A -> U, f': T -> B, g': B -> U, xs: seq<T>)
    requires forall x :: x in xs ==> g(f(x)) == g'(f'(x))
    ensures Map(g, Map(f, xs)) == Map(g', Map(f', xs))
  {
  }

  /** When keys tell elements apart, sorting forgets the original order. */
  lemma SortMultiset<T(!new)>(a: seq<T>, b: seq<T>, key: T -> real)
    requires multiset(a) == multiset(b)
    requires forall x, y :: x in a && y in a && key(x) == key(y) ==> x == y
    ensures SortBy(a, key) == SortBy(b, key)
  {
    SortBySorted(a, key);
    SortBySorted(b, key);
    SortByMembers(a, key);
    SortByMultiset(a, key);
    SortByMultiset(b, key);
    SortedUnique(SortBy(a, key), SortBy(b, key), key);
  }

  function Identity(): real -> real {
    (x: real) => x
  }

  /** Sorting the keys is reading the keys off the sorted list. */
  lemma SortKeys<T(!new)>(a: seq<T>, key: T -> real)
    ensures SortBy(Map(key, a), Identity()) == Map(key, SortBy(a, key))
  {
    SortMap(key, a, key, Identity());
  }

  // ----- permutations

  lemma MapConcat<T, U>(f: T -> U, a: seq<T>, b: seq<T>)
    ensures Map(f, a + b) == Map(f, a) + Map(f, b)
  {
  }

  function Without<T>(s: seq<T>, j: nat): seq<T>
    requires j < |s|
  {
    s[..j] + s[j + 1..]
  }

  lemma WithoutMultiset<T>(s: seq<T>, j: nat)
    requires j < |s|
    ensures multiset(s) == multiset(Without(s, j)) + multiset{s[j]}
    ensures multiset(Without(s, j)) == multiset(s) - multiset{s[j]}
  {
    assert s == s[..j] + [s[j]] + s[j + 1..];
  }

  lemma MapSplit<T, U>(f: T -> U, a: seq<T>, x: T, b: seq<T>)
    ensures Map(f, a + [x] + b) == Map(f, a) + [f(x)] + Map(f, b)
  {
  }

  lemma MapSplitMultiset<T, U>(f: T -> U, s: seq<T>, a: seq<T>, x: T, b: seq<T>)
    requires s == a + [x] + b
    ensures multiset(Map(f, s)) == multiset(Map(f, a + b)) + multiset{f(x)}
  {
    hide Map;
    MapSplit(f, a, x, b);
    SplitMultiset(Map(f, a), f(x), Map(f, b));
    MapConcat(f, a, b);
  }

  lemma SplitMultiset<T>(a: seq<T>, x: T, b: seq<T>)
    ensures multiset(a + [x] + b) == multiset(a + b) + multiset{x}
  {
  }

  /** The first element of one list, found in a permutation of it. */
  lemma FindFirst<T>(a: seq<T>, b: seq<T>) returns (j: nat)
    requires a != [] && multiset(a) == multiset(b)
    ensures j < |b| && b[j] == a[0] && multiset(a[1..]) == multiset(Without(b, j))
  {
    hide Without;
    InMultiset(a[0], a, b);
    j :| 0 <= j < |b| && b[j] == a[0];
    WithoutMultiset(a, 0);
    WithoutMultiset(b, j);
    WithoutFirst(a);
  }

  lemma WithoutFirst<T>(a: seq<T>)
    requires a != []
    ensures Without(a, 0) == a[1..]
  {
  }

  lemma {:induction false} MapMultiset<T, U>(f: T -> U, a: seq<T>, b: seq<T>)
    requires multiset(a) == multiset(b)
    ensures multiset(Map(f, a)) == multiset(Map(f, b))
    decreases |a|
  {
    hide Map;
    assert |a| == |multiset(a)| == |multiset(b)| == |b|;
    if a != [] {
      var j := FindFirst(a, b);
      MapMultiset(f, a[1..], Without(b, j));
      assert multiset(Map(f, a)) == multiset(Map(f, a[1..])) + multiset{f(a[0])} by {
        MapSplitMultiset(f, a, [], a[0], a[1..]);
        assert [] + a[1..] == a[1..];
      }
      assert multiset(Map(f, b)) == multiset(Map(f, Without(b, j))) + multiset{f(b[j])} by {
        MapSplitMultiset(f, b, b[..j], b[j], b[j + 1..]);
      }
    }
  }

  lemma {:induction false} FilterSorted<T>(xs: seq<T>, p: T -> bool, key: T -> real)
    requires SortedBy(xs, key)
    ensures SortedBy(Filter(xs, p), key)
  {
    if xs != [] {
      var rest := Filter(xs[1..], p);
      FilterSorted(xs[1..], p, key);
      forall y | y in rest ensures key(xs[0]) <= key(y) {
        var i :| 0 <= i < |xs[1..]| && xs[1..][i] == y;
        assert key(xs[0]) <= key(xs[i + 1]);
      }
    }
  }
}
