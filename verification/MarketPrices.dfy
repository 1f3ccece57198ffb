/** Single and batched market price lookup (apps/market/src/services/evaluation.service.ts). */
module MarketPrices {
  import RealFacts
  import opened Wrappers
  import opened Sequences

  datatype Valuation = Valuation(itemId: nat, realm: int, market: Option<real>, timestamp: int)

  datatype MarketRow = MarketRow(itemId: nat, realm: int, price: real, quantity: Option<int>, timestamp: int)

  /** The two tables; a query orders by timestamp DESC and keeps table order on ties. */
  datatype Tables = Tables(valuations: seq<Valuation>, markets: seq<MarketRow>)

  const SINGLE_TAKE := 100
  const BATCH_TAKE := 1000

  function NewestValuation(): Valuation -> real {
    (v: Valuation) => -(v.timestamp as real)
  }

  function NewestRow(): MarketRow -> real {
    (m: MarketRow) => -(m.timestamp as real)
  }

  function Take<T>(xs: seq<T>, n: nat): seq<T> {
    if |xs| <= n then xs else xs[..n]
  }

  function ValuationFor(item: nat, realm: int): Valuation -> bool {
    (v: Valuation) => v.itemId == item && v.realm == realm
  }

  function RowFor(item: nat, realm: int): MarketRow -> bool {
    (m: MarketRow) => m.itemId == item && m.realm == realm
  }

  function ValuationIn(items: seq<nat>, realm: int): Valuation -> bool {
    (v: Valuation) => v.itemId in items && v.realm == realm
  }

  function RowIn(items: seq<nat>, realm: int): MarketRow -> bool {
    (m: MarketRow) => m.itemId in items && m.realm == realm
  }

  function OfItemV(item: nat): Valuation -> bool {
    (v: Valuation) => v.itemId == item
  }

  function OfItem(item: nat): MarketRow -> bool {
    (m: MarketRow) => m.itemId == item
  }

  // ----- the weighted average

  /** market.quantity || 1 */
  function Weight(m: MarketRow): real {
    if m.quantity.Some? && m.quantity.value != 0 then m.quantity.value as real else 1.0
  }

  function TotalValue(ms: seq<MarketRow>): real {
    if ms == [] then 0.0 else TotalValue(ms[..|ms| - 1]) + ms[|ms| - 1].price * Weight(ms[|ms| - 1])
  }

  function TotalWeight(ms: seq<MarketRow>): real {
    if ms == [] then 0.0 else TotalWeight(ms[..|ms| - 1]) + Weight(ms[|ms| - 1])
  }

  function WeightedAverage(ms: seq<MarketRow>): real {
    if TotalWeight(ms) > 0.0 then TotalValue(ms) / TotalWeight(ms) else 0.0
  }

  method CalculateWeightedAverage(markets: seq<MarketRow>) returns (average: real)
    ensures average == WeightedAverage(markets)
  {
    if |markets| == 0 { return 0.0; }
    var totalValue, totalQuantity := 0.0, 0.0;
    for i := 0 to |markets|
      invariant totalValue == TotalValue(markets[..i]) && totalQuantity == TotalWeight(markets[..i])
    {
      assert markets[..i + 1][..i] == markets[..i];
      var quantity := Weight(markets[i]);
      totalValue := totalValue + markets[i].price * quantity;
      totalQuantity := totalQuantity + quantity;
    }
    assert markets[..|markets|] == markets;
    return if totalQuantity > 0.0 then totalValue / totalQuantity else 0.0;
  }

  lemma {:induction false} WeightPositive(ms: seq<MarketRow>)
    requires forall m :: m in ms ==> m.quantity.GetOr(0) >= 0
    ensures TotalWeight(ms) >= |ms| as real
  {
    if ms != [] {
      WeightPositive(ms[..|ms| - 1]);
      WeightAtLeastOne(ms[|ms| - 1]);
    }
  }

  lemma TotalsStep(ms: seq<MarketRow>)
    requires ms != []
    ensures var n := |ms| - 1;
            && TotalWeight(ms) == TotalWeight(ms[..n]) + Weight(ms[n])
            && TotalValue(ms) == TotalValue(ms[..n]) + ms[n].price * Weight(ms[n])
  {
  }

  lemma {:induction false} ValueBetween(ms: seq<MarketRow>, lo: real, hi: real)
    requires forall m :: m in ms ==> lo <= m.price <= hi && m.quantity.GetOr(0) >= 0
    ensures lo * TotalWeight(ms) <= TotalValue(ms) <= hi * TotalWeight(ms)
  {
    hide Weight, TotalWeight, TotalValue;
    if ms == [] {
      NoTotals();
    } else {
      var n := |ms| - 1;
      ValueBetween(ms[..n], lo, hi);
      WeightAtLeastOne(ms[n]);
      TotalsStep(ms);
      WeighBetween(lo, hi, TotalWeight(ms[..n]), TotalValue(ms[..n]), ms[n].price, Weight(ms[n]));
    }
  }

  lemma NoTotals()
    ensures TotalValue([]) == 0.0 && TotalWeight([]) == 0.0
  {
  }

  lemma WeightAtLeastOne(m: MarketRow)
    requires m.quantity.GetOr(0) >= 0
    ensures Weight(m) >= 1.0
  {
  }

  lemma WeighBetween(lo: real, hi: real, weight: real, value: real, p: real, w: real)
    requires lo * weight <= value <= hi * weight && lo <= p <= hi && w >= 0.0
    ensures lo * (weight + w) <= value + p * w <= hi * (weight + w)
  {
  }

  /** An averaged price lies between the cheapest and the dearest row. */
  lemma AverageBetween(ms: seq<MarketRow>, lo: real, hi: real)
    requires ms != [] && forall m :: m in ms ==> lo <= m.price <= hi && m.quantity.GetOr(0) >= 0
    ensures lo <= WeightedAverage(ms) <= hi
  {
    hide TotalWeight, TotalValue;
    ValueBetween(ms, lo, hi);
    WeightPositive(ms);
    QuotientBetween(lo, hi, TotalValue(ms), TotalWeight(ms));
  }

  lemma QuotientBetween(lo: real, hi: real, value: real, weight: real)
    requires weight > 0.0 && lo * weight <= value <= hi * weight
    ensures lo <= value / weight <= hi
  {
  }

  // ----- what the weights mean

  /** A price, n times. */
  function Copies(price: real, n: nat): (ps: seq<real>)
    ensures |ps| == n && forall i :: 0 <= i < n ==> ps[i] == price
  {
    seq(n, i => price)
  }

  /** The price of every single unit on sale; a row without a quantity is one unit. */
  function Units(ms: seq<MarketRow>): seq<real> {
    if ms == [] then []
    else
      var m := ms[|ms| - 1];
      Units(ms[..|ms| - 1]) + Copies(m.price, if m.quantity.GetOr(0) <= 0 then 1 else m.quantity.value)
  }

  function SumOf(ps: seq<real>): real {
    if ps == [] then 0.0 else SumOf(ps[..|ps| - 1]) + ps[|ps| - 1]
  }

  function Mean(ps: seq<real>): real
    requires ps != []
  {
    SumOf(ps) / |ps| as real
  }

  lemma {:induction false} SumAppends(a: seq<real>, b: seq<real>)
    ensures SumOf(a + b) == SumOf(a) + SumOf(b)
  {
    if b == [] {
      assert a + b == a;
    } else {
      var n := |b| - 1;
      assert (a + b)[..|a + b| - 1] == a + b[..n];
      SumAppends(a, b[..n]);
    }
  }

  lemma {:induction false} SumCopies(price: real, n: nat)
    ensures SumOf(Copies(price, n)) == price * n as real
  {
    if n > 0 {
      SumCopies(price, n - 1);
      assert Copies(price, n)[..n - 1] == Copies(price, n - 1);
      RealFacts.Distribute((n - 1) as real, 1.0, price);
    }
  }

  lemma WeightIsUnits(m: MarketRow)
    requires m.quantity.GetOr(0) >= 0
    ensures Weight(m) == (if m.quantity.GetOr(0) <= 0 then 1 else m.quantity.value) as real
  {
  }

  lemma {:induction false} TotalsAreUnits(ms: seq<MarketRow>)
    requires forall m :: m in ms ==> m.quantity.GetOr(0) >= 0
    ensures TotalWeight(ms) == |Units(ms)| as real && TotalValue(ms) == SumOf(Units(ms))
    ensures |Units(ms)| >= |ms|
  {
    hide TotalWeight, TotalValue, Weight, Copies, SumOf;
    if ms == [] {
      NoTotals();
      assert SumOf([]) == 0.0 by { NoSum(); }
    } else {
      var n := |ms| - 1;
      var m := ms[n];
      var units := if m.quantity.GetOr(0) <= 0 then 1 else m.quantity.value;
      TotalsAreUnits(ms[..n]);
      TotalsStep(ms);
      WeightIsUnits(m);
      SumCopies(m.price, units);
      SumAppends(Units(ms[..n]), Copies(m.price, units));
    }
  }

  lemma NoSum()
    ensures SumOf([]) == 0.0
  {
  }

  /** The weighted average of the rows is the plain mean over all units on sale. */
  lemma AverageIsUnitMean(ms: seq<MarketRow>)
    requires ms != [] && forall m :: m in ms ==> m.quantity.GetOr(0) >= 0
    ensures Units(ms) != [] && WeightedAverage(ms) == Mean(Units(ms))
  {
    hide TotalWeight, TotalValue, Units, SumOf;
    TotalsAreUnits(ms);
  }

  lemma TotalsAround(a: seq<MarketRow>, ms: seq<MarketRow>, b: seq<MarketRow>)
    ensures TotalValue(a + ms + b) == TotalValue(a) + TotalValue(ms) + TotalValue(b)
    ensures TotalWeight(a + ms + b) == TotalWeight(a) + TotalWeight(ms) + TotalWeight(b)
  {
    hide TotalValue, TotalWeight;
    TotalsConcat(a + ms, b);
    TotalsConcat(a, ms);
  }

  lemma TotalsOfTwo(m: MarketRow, n: MarketRow)
    ensures TotalValue([m, n]) == m.price * Weight(m) + n.price * Weight(n)
    ensures TotalWeight([m, n]) == Weight(m) + Weight(n)
    ensures TotalValue([m]) == m.price * Weight(m) && TotalWeight([m]) == Weight(m)
  {
    hide Weight, TotalWeight, TotalValue;
    assert [m, n][..1] == [m] && [m][..0] == [];
    TotalsStep([m, n]);
    TotalsStep([m]);
    NoTotals();
  }

  /** A row may be split into two of the same price without any effect, wherever it stands. */
  lemma SplitRow(a: seq<MarketRow>, m: MarketRow, x: int, y: int, b: seq<MarketRow>)
    requires x != 0 && y != 0 && x + y != 0 && m.quantity == Some(x + y)
    ensures WeightedAverage(a + [m] + b) == WeightedAverage(a + [m.(quantity := Some(x)), m.(quantity := Some(y))] + b)
  {
    hide TotalValue, TotalWeight;
    var p, q := m.(quantity := Some(x)), m.(quantity := Some(y));
    TotalsAround(a, [m], b);
    TotalsAround(a, [p, q], b);
    TotalsOfTwo(m, m);
    TotalsOfTwo(p, q);
    RealFacts.Distribute(x as real, y as real, m.price);
  }

  /** A quantity that is null or 0 counts as 1. */
  lemma MissingQuantityIsOne(a: seq<MarketRow>, m: MarketRow, b: seq<MarketRow>)
    requires m.quantity == None || m.quantity == Some(0)
    ensures WeightedAverage(a + [m] + b) == WeightedAverage(a + [m.(quantity := Some(1))] + b)
  {
    hide TotalValue, TotalWeight;
    var one := m.(quantity := Some(1));
    TotalsAround(a, [m], b);
    TotalsAround(a, [one], b);
    TotalsOfTwo(m, one);
    TotalsOfTwo(one, m);
  }

  // ----- one item

  function Head(vs: seq<Valuation>): Option<Valuation> {
    if vs == [] then None else Some(vs[0])
  }

  /** The market field of a valuation, when it is neither null nor 0. */
  function Market(v: Option<Valuation>): (p: Option<real>)
    ensures p != Some(0.0)
  {
    if v.Some? && v.value.market.Some? && v.value.market.value != 0.0 then v.value.market else None
  }

  function Latest(t: Tables, item: nat, realm: int): Option<Valuation> {
    Head(SortBy(Filter(t.valuations, ValuationFor(item, realm)), NewestValuation()))
  }

  function ValuationPrice(t: Tables, item: nat, realm: int): (p: Option<real>)
    ensures p != Some(0.0)
  {
    Market(Latest(t, item, realm))
  }

  function OwnRows(t: Tables, item: nat, realm: int): seq<MarketRow> {
    SortBy(Filter(t.markets, RowFor(item, realm)), NewestRow())
  }

  function GetMarketPrice(t: Tables, item: nat, realm: int): Option<real> {
    var v := ValuationPrice(t, item, realm);
    if v.Some? then v
    else
      var ms := Take(OwnRows(t, item, realm), SINGLE_TAKE);
      if ms == [] then None else Some(WeightedAverage(ms))
  }

  // ----- many items

  function NeedsRows(t: Tables, realm: int): nat -> bool {
    (item: nat) => ValuationPrice(t, item, realm) == None
  }

  function BatchRows(t: Tables, items: seq<nat>, realm: int): seq<MarketRow> {
    Take(SortBy(Filter(t.markets, RowIn(Filter(items, NeedsRows(t, realm)), realm)), NewestRow()), BATCH_TAKE)
  }

  /** What the batch lookup has to say about one item. */
  function BatchPrice(t: Tables, items: seq<nat>, realm: int, item: nat): Option<real> {
    if item !in items then None
    else if ValuationPrice(t, item, realm).Some? then ValuationPrice(t, item, realm)
    else
      var own := Filter(BatchRows(t, items, realm), OfItem(item));
      if WeightedAverage(own) == 0.0 then None else Some(WeightedAverage(own))
  }

  /** latest holds the first valuation of each item in the list. */
  ghost predicate Firsts(latest: map<nat, Valuation>, vs: seq<Valuation>) {
    && (forall id: nat :: id in latest <==> Filter(vs, OfItemV(id)) != [])
    && (forall id: nat :: id in latest ==> latest[id] == Filter(vs, OfItemV(id))[0])
  }

  lemma FirstsEmpty()
    ensures Firsts(map[], [])
  {
  }

  lemma FirstsStep(latest: map<nat, Valuation>, vs: seq<Valuation>, i: nat)
    requires i < |vs| && Firsts(latest, vs[..i])
    ensures Firsts(if vs[i].itemId in latest then latest else latest[vs[i].itemId := vs[i]], vs[..i + 1])
  {
    hide Filter;
    forall id: nat
      ensures Filter(vs[..i + 1], OfItemV(id))
              == if vs[i].itemId == id then Filter(vs[..i], OfItemV(id)) + [vs[i]] else Filter(vs[..i], OfItemV(id))
    {
      FilterStep(vs, i, OfItemV(id));
    }
  }

  /** A later entry of a list ordered newest first is not newer than the one already kept. */
  lemma KeptIsNewest(latest: map<nat, Valuation>, vs: seq<Valuation>, i: nat)
    requires SortedBy(vs, NewestValuation()) && i < |vs| && Firsts(latest, vs[..i])
    requires vs[i].itemId in latest
    ensures latest[vs[i].itemId].timestamp >= vs[i].timestamp
  {
    var own := Filter(vs[..i], OfItemV(vs[i].itemId));
    assert own[0] in own;
    var j :| 0 <= j < i && vs[..i][j] == own[0];
    assert NewestValuation()(vs[j]) <= NewestValuation()(vs[i]);
  }

  method LatestByItem(vs: seq<Valuation>) returns (latest: map<nat, Valuation>)
    requires SortedBy(vs, NewestValuation())
    ensures Firsts(latest, vs)
  {
    hide Firsts, SortedBy;
    latest := map[];
    assert vs[..0] == [];
    FirstsEmpty();
    for i := 0 to |vs|
      invariant Firsts(latest, vs[..i])
    {
      var val := vs[i];
      FirstsStep(latest, vs, i);
      if val.itemId in latest { KeptIsNewest(latest, vs, i); }
      if val.itemId !in latest || val.timestamp > latest[val.itemId].timestamp {
        latest := latest[val.itemId := val];
      }
    }
    assert vs[..|vs|] == vs;
  }

  lemma FilterStep<T>(xs: seq<T>, i: nat, p: T -> bool)
    requires i < |xs|
    ensures Filter(xs[..i + 1], p) == if p(xs[i]) then Filter(xs[..i], p) + [xs[i]] else Filter(xs[..i], p)
  {
    assert xs[..i + 1] == xs[..i] + [xs[i]];
    FilterConcat(xs[..i], [xs[i]], p);
    assert [xs[i]][1..] == [];
  }

  method GroupByItem(ms: seq<MarketRow>) returns (groups: map<nat, seq<MarketRow>>)
    ensures forall id: nat :: id in groups <==> Filter(ms, OfItem(id)) != []
    ensures forall id: nat :: id in groups ==> groups[id] == Filter(ms, OfItem(id))
  {
    groups := map[];
    for i := 0 to |ms|
      invariant forall id: nat :: id in groups <==> Filter(ms[..i], OfItem(id)) != []
      invariant forall id: nat :: id in groups ==> groups[id] == Filter(ms[..i], OfItem(id))
    {
      var market := ms[i];
      forall id: nat
        ensures Filter(ms[..i + 1], OfItem(id))
             == if market.itemId == id then Filter(ms[..i], OfItem(id)) + [market] else Filter(ms[..i], OfItem(id))
      {
        FilterStep(ms, i, OfItem(id));
      }
      if market.itemId !in groups {
        groups := groups[market.itemId := []];
      }
      groups := groups[market.itemId := groups[market.itemId] + [market]];
    }
    assert ms[..|ms|] == ms;
  }

  /** Picking an item out of the batch result is querying the item. */
  lemma BatchIsPerItem(t: Tables, items: seq<nat>, realm: int, item: nat)
    ensures item in items ==>
      Filter(SortBy(Filter(t.valuations, ValuationIn(items, realm)), NewestValuation()), OfItemV(item))
      == SortBy(Filter(t.valuations, ValuationFor(item, realm)), NewestValuation())
    ensures item !in items ==>
      Filter(SortBy(Filter(t.valuations, ValuationIn(items, realm)), NewestValuation()), OfItemV(item)) == []
    ensures item in items ==>
      Filter(SortBy(Filter(t.markets, RowIn(items, realm)), NewestRow()), OfItem(item)) == OwnRows(t, item, realm)
    ensures item !in items ==>
      Filter(SortBy(Filter(t.markets, RowIn(items, realm)), NewestRow()), OfItem(item)) == []
  {
    FilterSort(Filter(t.valuations, ValuationIn(items, realm)), NewestValuation(), OfItemV(item));
    FilterSort(Filter(t.markets, RowIn(items, realm)), NewestRow(), OfItem(item));
    if item in items {
      FilterTwice(t.valuations, ValuationIn(items, realm), OfItemV(item), ValuationFor(item, realm));
      FilterTwice(t.markets, RowIn(items, realm), OfItem(item), RowFor(item, realm));
    } else {
      NothingLeft(Filter(t.valuations, ValuationIn(items, realm)), OfItemV(item));
      NothingLeft(Filter(t.markets, RowIn(items, realm)), OfItem(item));
    }
  }

  /** The batched lookup, step by step. */
  method BatchGetMarketPrices(t: Tables, items: seq<nat>, realm: int) returns (prices: map<nat, real>)
    ensures forall id: nat :: id in prices <==> BatchPrice(t, items, realm, id).Some?
    ensures forall id: nat :: id in prices ==> Some(prices[id]) == BatchPrice(t, items, realm, id)
  {
    hide Filter, SortBy, WeightedAverage, Take, ValuationFor, ValuationIn, RowIn, NeedsRows, OfItem, OfItemV, Latest, Firsts;
    prices := map[];
    if |items| == 0 { return; }
    var valuations := SortBy(Filter(t.valuations, ValuationIn(items, realm)), NewestValuation());
    SortBySorted(Filter(t.valuations, ValuationIn(items, realm)), NewestValuation());
    var latest := LatestByItem(valuations);
    FirstsAreLatest(t, items, realm, latest);
    prices := PricesOfValuations(latest);
    assert forall id: nat :: id in prices <==> id in items && ValuationPrice(t, id, realm).Some?;
    var missing := Filter(items, NotIn(prices));
    MissingNeedRows(t, items, realm, prices);
    if |missing| > 0 {
      var markets := Take(SortBy(Filter(t.markets, RowIn(missing, realm)), NewestRow()), BATCH_TAKE);
      var groups := GroupByItem(markets);
      NoGroupNoPrice(markets, groups);
      GroupsOnlyMissing(t, items, realm, groups);
      prices := AddAverages(prices, groups);
    } else {
      NoMissingNoRows(t, items, realm);
    }
  }

  lemma FirstsAreLatest(t: Tables, items: seq<nat>, realm: int, latest: map<nat, Valuation>)
    requires Firsts(latest, SortBy(Filter(t.valuations, ValuationIn(items, realm)), NewestValuation()))
    ensures forall id: nat :: id in latest <==> id in items && Latest(t, id, realm).Some?
    ensures forall id: nat :: id in latest ==> Some(latest[id]) == Latest(t, id, realm)
  {
    hide Filter, SortBy, ValuationFor, ValuationIn, OfItemV;
    forall id: nat
      ensures id in latest <==> id in items && Latest(t, id, realm).Some?
      ensures id in latest ==> Some(latest[id]) == Latest(t, id, realm)
    {
      BatchIsPerItem(t, items, realm, id);
    }
  }

  function NotIn(prices: map<nat, real>): nat -> bool {
    (id: nat) => id !in prices
  }

  lemma MissingNeedRows(t: Tables, items: seq<nat>, realm: int, prices: map<nat, real>)
    requires forall id: nat :: id in prices <==> id in items && ValuationPrice(t, id, realm).Some?
    ensures Filter(items, NotIn(prices)) == Filter(items, NeedsRows(t, realm))
  {
    FilterAgree(items, NotIn(prices), NeedsRows(t, realm));
  }

  lemma NoGroupNoPrice(markets: seq<MarketRow>, groups: map<nat, seq<MarketRow>>)
    requires forall id: nat :: id in groups <==> Filter(markets, OfItem(id)) != []
    ensures forall id: nat :: id !in groups ==> WeightedAverage(Filter(markets, OfItem(id))) == 0.0
  {
  }

  lemma GroupsOnlyMissing(t: Tables, items: seq<nat>, realm: int, groups: map<nat, seq<MarketRow>>)
    requires forall id: nat :: id in groups <==> Filter(BatchRows(t, items, realm), OfItem(id)) != []
    ensures forall id: nat :: id in groups ==> id in items && ValuationPrice(t, id, realm) == None
  {
    RowsOnlyMissing(t, items, realm);
    forall id | id in groups ensures id in items && ValuationPrice(t, id, realm) == None {
      var own := Filter(BatchRows(t, items, realm), OfItem(id));
      assert own[0] in own;
    }
  }

  lemma NoMissingNoRows(t: Tables, items: seq<nat>, realm: int)
    requires Filter(items, NeedsRows(t, realm)) == []
    ensures forall id: nat :: id in items ==> ValuationPrice(t, id, realm).Some?
  {
  }

  method PricesOfValuations(latest: map<nat, Valuation>) returns (prices: map<nat, real>)
    ensures forall id: nat :: id in prices <==> id in latest && latest[id].market.Some? && latest[id].market.value != 0.0
    ensures forall id: nat :: id in prices ==> prices[id] == latest[id].market.value
  {
    prices := map[];
    var rest := latest.Keys;
    while rest != {}
      invariant rest <= latest.Keys
      invariant forall id: nat :: id in prices <==>
                  id in latest && id !in rest && latest[id].market.Some? && latest[id].market.value != 0.0
      invariant forall id: nat :: id in prices ==> prices[id] == latest[id].market.value
      decreases rest
    {
      var id :| id in rest;
      rest := rest - {id};
      if latest[id].market.Some? && latest[id].market.value != 0.0 {
        prices := prices[id := latest[id].market.value];
      }
    }
  }

  method AddAverages(prices: map<nat, real>, groups: map<nat, seq<MarketRow>>) returns (r: map<nat, real>)
    ensures forall id: nat :: id in r <==> id in prices || (id in groups && WeightedAverage(groups[id]) != 0.0)
    ensures forall id: nat :: id in r ==>
              r[id] == if id in groups && WeightedAverage(groups[id]) != 0.0 then WeightedAverage(groups[id]) else prices[id]
  {
    r := prices;
    var rest := groups.Keys;
    while rest != {}
      invariant rest <= groups.Keys
      invariant forall id: nat :: id in r <==>
                  id in prices || (id in groups && id !in rest && WeightedAverage(groups[id]) != 0.0)
      invariant forall id: nat :: id in r ==>
                  r[id] == if id in groups && id !in rest && WeightedAverage(groups[id]) != 0.0
                           then WeightedAverage(groups[id]) else prices[id]
      decreases rest
    {
      var id :| id in rest;
      rest := rest - {id};
      var average := CalculateWeightedAverage(groups[id]);
      if average != 0.0 {
        r := r[id := average];
      }
    }
  }

  /** The batch reads no rows of an item that already has a price. */
  lemma RowsOnlyMissing(t: Tables, items: seq<nat>, realm: int)
    ensures forall m :: m in BatchRows(t, items, realm) ==>
              m.itemId in items && ValuationPrice(t, m.itemId, realm) == None
  {
    var missing := Filter(items, NeedsRows(t, realm));
    var own := Filter(t.markets, RowIn(missing, realm));
    forall m | m in BatchRows(t, items, realm) ensures m.itemId in items && ValuationPrice(t, m.itemId, realm) == None {
      SortByMultiset(own, NewestRow());
      InMultiset(m, SortBy(own, NewestRow()), own);
      assert RowIn(missing, realm)(m);
      assert NeedsRows(t, realm)(m.itemId);
    }
  }

  // ----- agreement

  /** A price of 0 counts as no price. */
  function NonZero(p: Option<real>): Option<real> {
    if p == Some(0.0) then None else p
  }

  /** Where an item's price comes from market rows and neither query is cut off, both lookups agree. */
  lemma BatchAgrees(t: Tables, items: seq<nat>, realm: int, item: nat)
    requires item in items
    requires ValuationPrice(t, item, realm) == None ==>
               && |OwnRows(t, item, realm)| <= 100
               && |Filter(t.markets, RowIn(Filter(items, NeedsRows(t, realm)), realm))| <= 1000
    ensures BatchPrice(t, items, realm, item) == NonZero(GetMarketPrice(t, item, realm))
  {
    hide ValuationPrice, WeightedAverage, Filter, SortBy;
    if ValuationPrice(t, item, realm) == None {
      var missing := Filter(items, NeedsRows(t, realm));
      assert NeedsRows(t, realm)(item);
      BatchIsPerItem(t, missing, realm, item);
      if OwnRows(t, item, realm) == [] {
        NoRowsNoAverage();
      }
    }
  }

  lemma NoRowsNoAverage()
    ensures WeightedAverage([]) == 0.0
  {
  }

  /** The own rows of an item are those of its realm, all of them, newest first. */
  lemma OwnRowsNewestFirst(t: Tables, item: nat, realm: int)
    ensures multiset(OwnRows(t, item, realm))
         == multiset(Filter(t.markets, (m: MarketRow) => m.itemId == item && m.realm == realm))
    ensures forall i, j :: 0 <= i <= j < |OwnRows(t, item, realm)| ==>
              OwnRows(t, item, realm)[i].timestamp >= OwnRows(t, item, realm)[j].timestamp
  {
    hide SortBy;
    FilterAgree(t.markets, (m: MarketRow) => m.itemId == item && m.realm == realm, RowFor(item, realm));
    var own := Filter(t.markets, RowFor(item, realm));
    SortByMultiset(own, NewestRow());
    SortBySorted(own, NewestRow());
    forall i, j | 0 <= i <= j < |OwnRows(t, item, realm)|
      ensures OwnRows(t, item, realm)[i].timestamp >= OwnRows(t, item, realm)[j].timestamp
    {
      assert NewestRow()(OwnRows(t, item, realm)[i]) <= NewestRow()(OwnRows(t, item, realm)[j]);
    }
  }

  /** v is a valuation of this item in this realm, and none is newer. */
  ghost predicate IsNewest(t: Tables, item: nat, realm: int, v: Valuation) {
    && v in t.valuations && v.itemId == item && v.realm == realm
    && forall w :: w in t.valuations && w.itemId == item && w.realm == realm ==> w.timestamp <= v.timestamp
  }

  /** A valuation price is the non-zero market field of a newest valuation of the item in the realm. */
  lemma ValuationPriceExactly(t: Tables, item: nat, realm: int)
    ensures Latest(t, item, realm) == None <==>
              forall v :: v in t.valuations ==> v.itemId != item || v.realm != realm
    ensures Latest(t, item, realm).Some? ==> IsNewest(t, item, realm, Latest(t, item, realm).value)
    ensures Latest(t, item, realm).Some? ==>
              var market := Latest(t, item, realm).value.market;
              ValuationPrice(t, item, realm) == if market == Some(0.0) then None else market
    ensures Latest(t, item, realm) == None ==> ValuationPrice(t, item, realm) == None
  {
    hide SortBy;
    var own := Filter(t.valuations, ValuationFor(item, realm));
    var vs := SortBy(own, NewestValuation());
    SortByMembers(own, NewestValuation());
    SortBySorted(own, NewestValuation());
    if vs == [] {
      assert own == [];
      forall v | v in t.valuations ensures v.itemId != item || v.realm != realm {
        assert v in own <==> ValuationFor(item, realm)(v);
      }
    } else {
      assert vs[0] in vs;
      assert vs[0] in own && ValuationFor(item, realm)(vs[0]);
      forall w | w in t.valuations && w.itemId == item && w.realm == realm ensures w.timestamp <= vs[0].timestamp {
        assert ValuationFor(item, realm)(w);
        assert w in vs;
        var i :| 0 <= i < |vs| && vs[i] == w;
        assert NewestValuation()(vs[0]) <= NewestValuation()(vs[i]);
      }
    }
  }

  /** The batched query returns at most 1000 rows, all there are when there are no more. */
  lemma BatchReads(t: Tables, items: seq<nat>, realm: int)
    ensures var all := |Filter(t.markets, RowIn(Filter(items, NeedsRows(t, realm)), realm))|;
            |BatchRows(t, items, realm)| == if all <= 1000 then all else 1000
  {
    hide Filter, NeedsRows;
  }

  /** The rows of an item among those the batched query returns. */
  function SeenRows(t: Tables, items: seq<nat>, realm: int, item: nat): seq<MarketRow> {
    Filter(BatchRows(t, items, realm), OfItem(item))
  }

  lemma TakePrefix<T>(xs: seq<T>, n: nat, p: T -> bool)
    ensures Filter(Take(xs, n), p) <= Filter(xs, p)
  {
    if n < |xs| {
      assert xs == xs[..n] + xs[n..];
      FilterConcat(xs[..n], xs[n..], p);
    }
  }

  /** They are the newest rows of the item, some number of them. */
  lemma SeenIsPrefix(t: Tables, items: seq<nat>, realm: int, item: nat)
    requires item in items && ValuationPrice(t, item, realm) == None
    ensures SeenRows(t, items, realm, item) <= OwnRows(t, item, realm)
  {
    hide ValuationPrice, Filter, SortBy, Take, OfItem;
    var missing := Filter(items, NeedsRows(t, realm));
    assert NeedsRows(t, realm)(item);
    BatchIsPerItem(t, missing, realm, item);
    TakePrefix(SortBy(Filter(t.markets, RowIn(missing, realm)), NewestRow()), BATCH_TAKE, OfItem(item));
  }

  lemma QuotientIs(v: real, w: real, x: real)
    requires w > 0.0
    ensures v / w == x <==> v == x * w
  {
  }

  /** More rows leave an average alone exactly when they have that average themselves. */
  lemma PrefixAverage(ms: seq<MarketRow>, n: nat)
    requires 0 < n < |ms| && forall m :: m in ms ==> m.quantity.GetOr(0) >= 0
    ensures WeightedAverage(ms) == WeightedAverage(ms[..n]) <==> WeightedAverage(ms[n..]) == WeightedAverage(ms[..n])
  {
    hide TotalValue, TotalWeight;
    var a, b := ms[..n], ms[n..];
    assert ms == a + b;
    TotalsConcat(a, b);
    WeightPositive(a);
    WeightPositive(b);
    var x := WeightedAverage(a);
    QuotientIs(TotalValue(a), TotalWeight(a), x);
    QuotientIs(TotalValue(b), TotalWeight(b), x);
    QuotientIs(TotalValue(ms), TotalWeight(ms), x);
    RealFacts.Distribute(TotalWeight(a), TotalWeight(b), x);
  }

  /** The averages of the first a and of the first b rows count as the same price. */
  ghost predicate SamePrice(own: seq<MarketRow>, a: nat, b: nat)
    requires a <= |own| && b <= |own|
  {
    if a == b then true
    else if b == 0 then WeightedAverage(own[..a]) == 0.0
    else if a < b then WeightedAverage(own[a..b]) == WeightedAverage(own[..a])
    else WeightedAverage(own[b..a]) == WeightedAverage(own[..b])
  }

  lemma SamePriceIs(own: seq<MarketRow>, a: nat, b: nat)
    requires 0 < a <= |own| && b <= |own| && forall m :: m in own ==> m.quantity.GetOr(0) >= 0
    ensures SamePrice(own, a, b) <==> WeightedAverage(own[..a]) == WeightedAverage(own[..b])
  {
    hide WeightedAverage;
    if b == 0 {
      assert own[..b] == [];
      NoRowsNoAverage();
    } else if a < b {
      assert own[..b][..a] == own[..a] && own[..b][a..] == own[a..b];
      PrefixAverage(own[..b], a);
    } else if b < a {
      assert own[..a][..b] == own[..b] && own[..a][b..] == own[b..a];
      PrefixAverage(own[..a], b);
    }
  }

  /**
   * With no limit assumed: the lookups average the newest rows of the item, one up to 100 of them, the other those
   * within the newest 1000 of all missing items. They agree exactly when they read equally many, or when the rows
   * that only one of them reads leave the average as it is.
   */
  lemma BatchAgreesExactly(t: Tables, items: seq<nat>, realm: int, item: nat)
    requires item in items
    requires forall m :: m in OwnRows(t, item, realm) ==> m.quantity.GetOr(0) >= 0
    ensures ValuationPrice(t, item, realm).Some? ==>
              BatchPrice(t, items, realm, item) == NonZero(GetMarketPrice(t, item, realm))
    ensures ValuationPrice(t, item, realm) == None ==>
              var own, seen := OwnRows(t, item, realm), SeenRows(t, items, realm, item);
              && |seen| <= |own|
              && (BatchPrice(t, items, realm, item) == NonZero(GetMarketPrice(t, item, realm))
                  <==> SamePrice(own, if |own| <= 100 then |own| else 100, |seen|))
  {
    hide ValuationPrice, WeightedAverage, OwnRows, SeenRows, SamePrice, Filter;
    if ValuationPrice(t, item, realm) == None {
      var own, seen := OwnRows(t, item, realm), SeenRows(t, items, realm, item);
      SeenIsPrefix(t, items, realm, item);
      SeenDecides(t, items, realm, item);
      var a := if |own| <= SINGLE_TAKE then |own| else SINGLE_TAKE;
      assert own[..|own|] == own && Take(own, SINGLE_TAKE) == own[..a];
      if a == 0 {
        assert seen == [];
        NoRowsNoAverage();
        SameCount(own);
      } else {
        assert seen == own[..|seen|];
        SamePriceIs(own, a, |seen|);
      }
    }
  }

  lemma SameCount(own: seq<MarketRow>)
    ensures SamePrice(own, 0, 0)
  {
  }

  lemma SeenDecides(t: Tables, items: seq<nat>, realm: int, item: nat)
    requires item in items && ValuationPrice(t, item, realm) == None
    ensures BatchPrice(t, items, realm, item) == NonZero(Some(WeightedAverage(SeenRows(t, items, realm, item))))
  {
  }

  lemma OwnRowsOf(t: Tables, item: nat, realm: int)
    ensures forall m :: m in OwnRows(t, item, realm) <==> m in t.markets && m.itemId == item && m.realm == realm
  {
    hide SortBy;
    var own := Filter(t.markets, RowFor(item, realm));
    SortByMembers(own, NewestRow());
    forall m ensures m in OwnRows(t, item, realm) <==> m in t.markets && m.itemId == item && m.realm == realm {
      assert m in own <==> m in t.markets && RowFor(item, realm)(m);
    }
  }

  /** A price from either lookup that is not a valuation lies between the cheapest and the dearest listing. */
  lemma PriceIsBetween(t: Tables, items: seq<nat>, item: nat, realm: int, lo: real, hi: real)
    requires ValuationPrice(t, item, realm) == None
    requires forall m :: m in t.markets && m.itemId == item && m.realm == realm ==>
               lo <= m.price <= hi && m.quantity.GetOr(0) >= 0
    ensures GetMarketPrice(t, item, realm).Some?
       <==> exists m :: m in t.markets && m.itemId == item && m.realm == realm
    ensures GetMarketPrice(t, item, realm).Some? ==> lo <= GetMarketPrice(t, item, realm).value <= hi
    ensures BatchPrice(t, items, realm, item).Some? ==> lo <= BatchPrice(t, items, realm, item).value <= hi
  {
    hide ValuationPrice, WeightedAverage, Filter, OwnRows;
    OwnRowsOf(t, item, realm);
    var own := OwnRows(t, item, realm);
    var ms := Take(own, SINGLE_TAKE);
    if ms != [] {
      assert own[0] in own;
      AverageBetween(ms, lo, hi);
    }
    if item in items {
      SeenIsPrefix(t, items, realm, item);
      SeenDecides(t, items, realm, item);
      var seen := SeenRows(t, items, realm, item);
      if seen == [] {
        NoRowsNoAverage();
      } else {
        forall m | m in seen ensures m in own {
          var i :| 0 <= i < |seen| && seen[i] == m;
          assert own[i] == m;
        }
        AverageBetween(seen, lo, hi);
      }
    }
  }

  // ----- ties

  /** An answer the database may give to a query: the selected rows, newest first, ties in any order. */
  ghost predicate MayAnswer<T>(answer: seq<T>, selected: seq<T>, newest: T -> real) {
    multiset(answer) == multiset(selected) && SortedBy(answer, newest)
  }

  ghost predicate DistinctTimes(vs: seq<Valuation>) {
    forall a, b :: a in vs && b in vs && a.timestamp == b.timestamp ==> a == b
  }

  lemma OwnAnswer(t: Tables, realm: int, item: nat, answer: seq<Valuation>)
    requires var own := Filter(t.valuations, ValuationFor(item, realm));
             DistinctTimes(own) && MayAnswer(answer, own, NewestValuation())
    ensures answer == SortBy(Filter(t.valuations, ValuationFor(item, realm)), NewestValuation())
  {
    hide Filter, SortBy;
    var own := Filter(t.valuations, ValuationFor(item, realm));
    SortBySorted(own, NewestValuation());
    SortByMultiset(own, NewestValuation());
    forall a, b | a in answer && b in answer && NewestValuation()(a) == NewestValuation()(b) ensures a == b {
      InMultiset(a, answer, own);
      InMultiset(b, answer, own);
    }
    SortedUnique(answer, SortBy(own, NewestValuation()), NewestValuation());
  }

  /** Where an item's valuation timestamps are distinct, every answer shows the same latest valuation of it. */
  lemma AnyAnswerSameLatest(t: Tables, items: seq<nat>, realm: int, item: nat, answer: seq<Valuation>)
    requires item in items
    requires MayAnswer(answer, Filter(t.valuations, ValuationIn(items, realm)), NewestValuation())
    requires DistinctTimes(Filter(t.valuations, ValuationFor(item, realm)))
    ensures Filter(answer, OfItemV(item)) == SortBy(Filter(t.valuations, ValuationFor(item, realm)), NewestValuation())
  {
    hide SortBy, SortedBy, DistinctTimes;
    FilterSorted(answer, OfItemV(item), NewestValuation());
    FilterMultiset(answer, Filter(t.valuations, ValuationIn(items, realm)), OfItemV(item));
    FilterTwice(t.valuations, ValuationIn(items, realm), OfItemV(item), ValuationFor(item, realm));
    OwnAnswer(t, realm, item, Filter(answer, OfItemV(item)));
  }

  lemma {:induction false} TotalsConcat(a: seq<MarketRow>, b: seq<MarketRow>)
    ensures TotalValue(a + b) == TotalValue(a) + TotalValue(b)
    ensures TotalWeight(a + b) == TotalWeight(a) + TotalWeight(b)
  {
    hide TotalValue, TotalWeight, Weight;
    if b == [] {
      NoTotals();
      assert a + b == a;
    } else {
      var n := |b| - 1;
      var ab := a + b;
      assert ab[..|ab| - 1] == a + b[..n];
      TotalsConcat(a, b[..n]);
      TotalsStep(ab);
      TotalsStep(b);
    }
  }

  lemma TotalsWithout(s: seq<MarketRow>, j: nat)
    requires j < |s|
    ensures TotalValue(s) == TotalValue(Without(s, j)) + TotalValue([s[j]])
    ensures TotalWeight(s) == TotalWeight(Without(s, j)) + TotalWeight([s[j]])
  {
    hide TotalValue, TotalWeight;
    assert s == s[..j] + [s[j]] + s[j + 1..];
    TotalsConcat(s[..j] + [s[j]], s[j + 1..]);
    TotalsConcat(s[..j], [s[j]]);
    TotalsConcat(s[..j], s[j + 1..]);
  }

  /** The average does not depend on the order of the rows. */
  lemma {:induction false} AverageOrderFree(a: seq<MarketRow>, b: seq<MarketRow>)
    requires multiset(a) == multiset(b)
    ensures TotalValue(a) == TotalValue(b) && TotalWeight(a) == TotalWeight(b)
    ensures WeightedAverage(a) == WeightedAverage(b)
    decreases |a|
  {
    hide TotalValue, TotalWeight;
    assert |a| == |multiset(a)| == |multiset(b)| == |b|;
    if a != [] {
      var j := FindFirst(a, b);
      AverageOrderFree(a[1..], Without(b, j));
      TotalsWithout(a, 0);
      TotalsWithout(b, j);
      assert Without(a, 0) == a[1..];
    }
  }

  /** So ties among market rows never change an item's average, as long as the query is not cut off. */
  lemma AnyAnswerSameAverage(t: Tables, items: seq<nat>, realm: int, item: nat, answer: seq<MarketRow>)
    requires item in items
    requires MayAnswer(answer, Filter(t.markets, RowIn(items, realm)), NewestRow())
    ensures WeightedAverage(Filter(answer, OfItem(item))) == WeightedAverage(OwnRows(t, item, realm))
  {
    var own := Filter(t.markets, RowFor(item, realm));
    FilterMultiset(answer, Filter(t.markets, RowIn(items, realm)), OfItem(item));
    FilterTwice(t.markets, RowIn(items, realm), OfItem(item), RowFor(item, realm));
    SortByMultiset(own, NewestRow());
    AverageOrderFree(Filter(answer, OfItem(item)), OwnRows(t, item, realm));
  }

  /** What the single lookup makes of its two answers. */
  function SinglePrice(valuations: seq<Valuation>, rows: seq<MarketRow>): Option<real> {
    if Market(Head(valuations)).Some? then Market(Head(valuations))
    else if Take(rows, SINGLE_TAKE) == [] then None
    else Some(WeightedAverage(Take(rows, SINGLE_TAKE)))
  }

  /** The items for which the batched lookup finds no valuation in its first answer. */
  function Unpriced(valuations: seq<Valuation>): nat -> bool {
    (item: nat) => Market(Head(Filter(valuations, OfItemV(item)))) == None
  }

  /** What the batched lookup makes of its two answers. */
  function BatchedPrice(valuations: seq<Valuation>, rows: seq<MarketRow>, item: nat): Option<real> {
    if Unpriced(valuations)(item) then NonZero(Some(WeightedAverage(Filter(Take(rows, BATCH_TAKE), OfItem(item)))))
    else Market(Head(Filter(valuations, OfItemV(item))))
  }

  /**
   * Whatever the database answers: when an item's valuation timestamps are distinct and no query for its rows is
   * cut off, the two lookups agree, however ties are ordered in each of the four answers.
   */
  lemma AnyAnswersAgree(
    t: Tables, items: seq<nat>, realm: int, item: nat,
    ownValuations: seq<Valuation>, ownRows: seq<MarketRow>, valuations: seq<Valuation>, rows: seq<MarketRow>)
    requires item in items && DistinctTimes(Filter(t.valuations, ValuationFor(item, realm)))
    requires MayAnswer(ownValuations, Filter(t.valuations, ValuationFor(item, realm)), NewestValuation())
    requires MayAnswer(ownRows, Filter(t.markets, RowFor(item, realm)), NewestRow())
    requires MayAnswer(valuations, Filter(t.valuations, ValuationIn(items, realm)), NewestValuation())
    requires MayAnswer(rows, Filter(t.markets, RowIn(Filter(items, Unpriced(valuations)), realm)), NewestRow())
    requires Unpriced(valuations)(item) ==> |ownRows| <= 100 && |rows| <= 1000
    ensures BatchedPrice(valuations, rows, item) == NonZero(SinglePrice(ownValuations, ownRows))
  {
    hide Filter, WeightedAverage, OwnRows;
    AnyAnswerSameLatest(t, items, realm, item, valuations);
    OwnAnswer(t, realm, item, ownValuations);
    if Unpriced(valuations)(item) {
      AnyAnswerSameAverage(t, Filter(items, Unpriced(valuations)), realm, item, rows);
      OwnAverage(t, realm, item, ownRows);
      NoRowsNoAverage();
    }
  }

  lemma OwnAverage(t: Tables, realm: int, item: nat, answer: seq<MarketRow>)
    requires MayAnswer(answer, Filter(t.markets, RowFor(item, realm)), NewestRow())
    ensures WeightedAverage(answer) == WeightedAverage(OwnRows(t, item, realm))
  {
    hide Filter, SortBy;
    SortByMultiset(Filter(t.markets, RowFor(item, realm)), NewestRow());
    AverageOrderFree(answer, OwnRows(t, item, realm));
  }

  // ----- why the limits matter

  /** 101 listings of one item, newest first; only the oldest is dear. */
  function Crowd(): (rows: seq<MarketRow>)
    ensures |rows| == 101
    ensures forall i :: 0 <= i < 101 ==>
      rows[i] == MarketRow(1, 1, if i == 100 then 102.0 else 1.0, Some(1), 100 - i)
  {
    seq(101, i => MarketRow(1, 1, if i == 100 then 102.0 else 1.0, Some(1), 100 - i))
  }

  lemma {:induction false} CrowdSums(n: nat)
    requires n <= 100
    ensures TotalValue(Crowd()[..n]) == n as real && TotalWeight(Crowd()[..n]) == n as real
  {
    if n > 0 {
      assert Crowd()[..n][..n - 1] == Crowd()[..n - 1];
      CrowdSums(n - 1);
    }
  }

  lemma CrowdAverages()
    ensures WeightedAverage(Crowd()) == 2.0 && WeightedAverage(Crowd()[..100]) == 1.0
  {
    hide Crowd;
    var rows := Crowd();
    CrowdSums(100);
    assert TotalValue(rows) == TotalValue(rows[..100]) + 102.0;
    assert TotalWeight(rows) == TotalWeight(rows[..100]) + 1.0;
  }

  lemma NewestFirst(rows: seq<MarketRow>)
    requires forall i :: 0 <= i < |rows| ==> rows[i].timestamp == 100 - i
    ensures SortedBy(rows, NewestRow())
  {
  }

  lemma CrowdIsAnswer()
    ensures var t := Tables([], Crowd());
            OwnRows(t, 1, 1) == Crowd() && Filter(BatchRows(t, [1], 1), OfItem(1)) == Crowd()
  {
    hide Crowd, Filter, SortBy, SortedBy;
    var t := Tables([], Crowd());
    var rows := Crowd();
    NewestFirst(rows);
    FilterAll(rows, RowFor(1, 1));
    SortSorted(rows, NewestRow());
    NoValuations(t);
    assert NeedsRows(t, 1)(1);
    var wanted: seq<nat> := [1];
    FilterAll(wanted, NeedsRows(t, 1));
    FilterAll(rows, RowIn([1], 1));
    FilterAll(rows, OfItem(1));
  }

  /** One listing above the limit of 100 and the two lookups answer 1 and 2. */
  lemma LimitMatters()
    ensures var t := Tables([], Crowd());
            GetMarketPrice(t, 1, 1) == Some(1.0) && BatchPrice(t, [1], 1, 1) == Some(2.0)
  {
    hide Crowd, WeightedAverage, OwnRows, BatchRows;
    var t := Tables([], Crowd());
    NoValuations(t);
    CrowdAverages();
    CrowdIsAnswer();
  }

  lemma NoValuations(t: Tables)
    requires t.valuations == []
    ensures forall item: nat, realm :: ValuationPrice(t, item, realm) == None
  {
  }
}
