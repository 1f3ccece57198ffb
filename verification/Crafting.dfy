/** Crafting cost and profitable crafts (evaluation.service.ts, calculateCraftingCost and findProfitableCrafts). */
module Crafting {
  import RealFacts
  import opened Wrappers
  import opened Sequences
  import opened MarketPrices

  /** A reagent or derivative: an object with a quantity, or a bare item id. */
  datatype Component = Full(itemId: nat, quantity: real) | Bare(itemId: nat) {
    function Amount(): real {
      if Full? then quantity else 1.0
    }
  }

  /** A recipe; the lists may be null. */
  datatype Pricing = Pricing(
    recipeId: int, rank: Option<int>, reagents: Option<seq<Component>>, derivatives: Option<seq<Component>>)

  datatype ReagentCost = ReagentCost(itemId: nat, cost: real, quantity: real, marketPrice: real)

  datatype CraftingCost = CraftingCost(
    recipeId: int, totalCost: real, reagentCosts: seq<ReagentCost>, costPerUnit: map<nat, real>,
    missingData: seq<nat>, confidence: real)

  // ----- the cost of a recipe

  /** marketPrices.get(itemId), when it is there and not 0. */
  function Priced(prices: map<nat, real>, item: nat): Option<real> {
    if item in prices && prices[item] != 0.0 then Some(prices[item]) else None
  }

  function CostOf(prices: map<nat, real>, c: Component): ReagentCost
    requires Priced(prices, c.itemId).Some?
  {
    CostAt(Priced(prices, c.itemId).value, c)
  }

  function CostAt(price: real, c: Component): ReagentCost {
    ReagentCost(c.itemId, price * c.Amount(), c.Amount(), price)
  }

  /** The costs of the reagents that have a price, in order. */
  function Costs(prices: map<nat, real>, reagents: seq<Component>): seq<ReagentCost> {
    if reagents == [] then []
    else
      var n := |reagents| - 1;
      var rest := Costs(prices, reagents[..n]);
      if Priced(prices, reagents[n].itemId).Some? then rest + [CostOf(prices, reagents[n])] else rest
  }

  /** The items of the reagents that have none, in order. */
  function MissingItems(prices: map<nat, real>, reagents: seq<Component>): seq<nat> {
    if reagents == [] then []
    else
      var n := |reagents| - 1;
      var rest := MissingItems(prices, reagents[..n]);
      if Priced(prices, reagents[n].itemId).Some? then rest else rest + [reagents[n].itemId]
  }

  function SumCosts(costs: seq<ReagentCost>): real {
    if costs == [] then 0.0 else SumCosts(costs[..|costs| - 1]) + costs[|costs| - 1].cost
  }

  /** costPerUnit: the last derivative with an item wins; empty or negative amounts are skipped. */
  function UnitCosts(total: real, derivatives: seq<Component>): map<nat, real> {
    if derivatives == [] then map[]
    else
      var n := |derivatives| - 1;
      var rest := UnitCosts(total, derivatives[..n]);
      if derivatives[n].Amount() > 0.0 then rest[derivatives[n].itemId := total / derivatives[n].Amount()] else rest
  }

  function Ids(cs: seq<Component>): (ids: seq<nat>)
    ensures |ids| == |cs|
    ensures forall i :: 0 <= i < |cs| ==> ids[i] == cs[i].itemId
  {
    seq(|cs|, i requires 0 <= i < |cs| => cs[i].itemId)
  }

  function CostIds(cs: seq<ReagentCost>): (ids: seq<nat>)
    ensures |ids| == |cs|
    ensures forall i :: 0 <= i < |cs| ==> ids[i] == cs[i].itemId
  {
    seq(|cs|, i requires 0 <= i < |cs| => cs[i].itemId)
  }

  /** The crafting cost against a price table; None for a recipe without reagents or with a null list. */
  function CraftingCostOf(p: Pricing, prices: map<nat, real>): Option<CraftingCost> {
    if p.reagents == None || p.reagents.value == [] || p.derivatives == None then None
    else
      var costs := Costs(prices, p.reagents.value);
      var missing := MissingItems(prices, p.reagents.value);
      Some(CraftingCost(
        p.recipeId, SumCosts(costs), costs, UnitCosts(SumCosts(costs), p.derivatives.value), missing,
        (|p.reagents.value| - |missing|) as real / |p.reagents.value| as real))
  }

  method PriceReagents(prices: map<nat, real>, reagents: seq<Component>)
    returns (totalCost: real, reagentCosts: seq<ReagentCost>, missingData: seq<nat>)
    ensures reagentCosts == Costs(prices, reagents) && missingData == MissingItems(prices, reagents)
    ensures totalCost == SumCosts(reagentCosts)
  {
    hide CostAt;
    totalCost, reagentCosts, missingData := 0.0, [], [];
    for i := 0 to |reagents|
      invariant reagentCosts == Costs(prices, reagents[..i])
      invariant missingData == MissingItems(prices, reagents[..i])
      invariant totalCost == SumCosts(reagentCosts)
    {
      assert reagents[..i + 1][..i] == reagents[..i];
      if reagents[i].itemId in prices && prices[reagents[i].itemId] != 0.0 {
        var c := CostAt(prices[reagents[i].itemId], reagents[i]);
        totalCost := totalCost + c.cost;
        assert (reagentCosts + [c])[..|reagentCosts|] == reagentCosts;
        reagentCosts := reagentCosts + [c];
      } else {
        missingData := missingData + [reagents[i].itemId];
      }
    }
    assert reagents[..|reagents|] == reagents;
  }

  method PriceUnits(totalCost: real, derivatives: seq<Component>) returns (costPerUnit: map<nat, real>)
    ensures costPerUnit == UnitCosts(totalCost, derivatives)
  {
    costPerUnit := map[];
    for i := 0 to |derivatives|
      invariant costPerUnit == UnitCosts(totalCost, derivatives[..i])
    {
      assert derivatives[..i + 1][..i] == derivatives[..i];
      var quantity := derivatives[i].Amount();
      if quantity > 0.0 {
        costPerUnit := costPerUnit[derivatives[i].itemId := totalCost / quantity];
      }
    }
    assert derivatives[..|derivatives|] == derivatives;
  }

  /** The price table of the reagents of a recipe. */
  ghost function ReagentPrices(t: Tables, realm: int, p: Pricing): (prices: map<nat, real>)
    requires p.reagents.Some?
    ensures forall item: nat :: item in Ids(p.reagents.value) ==>
              Priced(prices, item) == BatchPrice(t, Ids(p.reagents.value), realm, item)
  {
    var ids := Ids(p.reagents.value);
    var prices := map item: nat | item in ids && BatchPrice(t, ids, realm, item).Some? ::
                    BatchPrice(t, ids, realm, item).value;
    PricesMatch(t, ids, realm, prices);
    prices
  }

  lemma PricesMatch(t: Tables, ids: seq<nat>, realm: int, prices: map<nat, real>)
    requires forall item: nat :: item in ids ==> (item in prices <==> BatchPrice(t, ids, realm, item).Some?)
    requires forall item: nat :: item in ids && item in prices ==> Some(prices[item]) == BatchPrice(t, ids, realm, item)
    ensures forall item: nat :: item in ids ==> Priced(prices, item) == BatchPrice(t, ids, realm, item)
  {
  }

  /** The cost of a recipe at the market: only the reagents' own prices matter. */
  ghost function MarketCost(t: Tables, realm: int, p: Pricing): Option<CraftingCost> {
    if p.reagents == None then None else CraftingCostOf(p, ReagentPrices(t, realm, p))
  }

  lemma {:induction false} SamePricesSameCost(a: map<nat, real>, b: map<nat, real>, reagents: seq<Component>)
    requires forall i :: 0 <= i < |reagents| ==> Priced(a, reagents[i].itemId) == Priced(b, reagents[i].itemId)
    ensures Costs(a, reagents) == Costs(b, reagents) && MissingItems(a, reagents) == MissingItems(b, reagents)
  {
    hide CostAt;
    if reagents != [] {
      var n := |reagents| - 1;
      SamePricesSameCost(a, b, reagents[..n]);
    }
  }

  lemma CostIsMarketCost(t: Tables, realm: int, p: Pricing, prices: map<nat, real>)
    requires p.reagents.Some?
    requires forall item: nat :: item in Ids(p.reagents.value) ==>
               Priced(prices, item) == BatchPrice(t, Ids(p.reagents.value), realm, item)
    ensures CraftingCostOf(p, prices) == MarketCost(t, realm, p)
  {
    hide BatchPrice, Costs, MissingItems, UnitCosts, SumCosts, Priced, ReagentPrices;
    var reagents := p.reagents.value;
    var own := ReagentPrices(t, realm, p);
    forall i | 0 <= i < |reagents| ensures Priced(prices, reagents[i].itemId) == Priced(own, reagents[i].itemId) {
      assert Ids(reagents)[i] in Ids(reagents);
    }
    SamePricesSameCost(prices, own, reagents);
  }

  /** With a null list of derivatives the loop over it throws and the catch answers null. */
  method CalculateCraftingCost(t: Tables, p: Pricing, realm: int) returns (r: Option<CraftingCost>)
    ensures r == MarketCost(t, realm, p)
  {
    hide BatchPrice, Costs, MissingItems, UnitCosts, SumCosts, MarketCost;
    if p.reagents == None || |p.reagents.value| == 0 {
      NoReagentsNoCost(t, realm, p);
      return None;
    }
    var reagents := p.reagents.value;
    var marketPrices := BatchGetMarketPrices(t, Ids(reagents), realm);
    PricesMatch(t, Ids(reagents), realm, marketPrices);
    CostIsMarketCost(t, realm, p, marketPrices);
    var totalCost, reagentCosts, missingData := PriceReagents(marketPrices, reagents);
    if p.derivatives == None {
      return None;
    }
    var costPerUnit := PriceUnits(totalCost, p.derivatives.value);
    var confidence := (|reagents| - |missingData|) as real / |reagents| as real;
    r := Some(CraftingCost(p.recipeId, totalCost, reagentCosts, costPerUnit, missingData, confidence));
  }

  lemma NoReagentsNoCost(t: Tables, realm: int, p: Pricing)
    requires p.reagents == None || p.reagents.value == []
    ensures MarketCost(t, realm, p) == None
  {
  }

  lemma CostsStep(prices: map<nat, real>, reagents: seq<Component>, n: nat)
    requires n < |reagents|
    ensures var (priced, own) := (Priced(prices, reagents[n].itemId).Some?, reagents[..n]);
            && CostIds(Costs(prices, reagents[..n + 1]))
               == CostIds(Costs(prices, own)) + (if priced then [reagents[n].itemId] else [])
            && MissingItems(prices, reagents[..n + 1])
               == MissingItems(prices, own) + (if priced then [] else [reagents[n].itemId])
            && Ids(reagents[..n + 1]) == Ids(own) + [reagents[n].itemId]
  {
    assert reagents[..n + 1][..n] == reagents[..n];
  }

  /** Every reagent is either priced or missing, once each. */
  lemma {:induction false} PricedPlusMissing(prices: map<nat, real>, reagents: seq<Component>)
    ensures |Costs(prices, reagents)| + |MissingItems(prices, reagents)| == |reagents|
    ensures multiset(CostIds(Costs(prices, reagents))) + multiset(MissingItems(prices, reagents)) == multiset(Ids(reagents))
  {
    hide Costs, MissingItems, Ids, CostIds, Priced;
    if reagents == [] {
      NothingPriced(prices);
    } else {
      var n := |reagents| - 1;
      PricedPlusMissing(prices, reagents[..n]);
      CostsStep(prices, reagents, n);
      assert reagents[..n + 1] == reagents;
    }
  }

  lemma NothingPriced(prices: map<nat, real>)
    ensures Costs(prices, []) == [] && MissingItems(prices, []) == [] && Ids([]) == []
  {
  }

  /** A recipe has a cost exactly when it has reagents and its list of derivatives is not null. */
  lemma CostGiven(p: Pricing, prices: map<nat, real>)
    ensures CraftingCostOf(p, prices).Some? <==> p.reagents.Some? && |p.reagents.value| > 0 && p.derivatives.Some?
    ensures CraftingCostOf(p, prices).Some? ==> CraftingCostOf(p, prices).value.recipeId == p.recipeId
  {
  }

  /** Confidence is the priced share; it is at least one half when no more reagents are missing than priced. */
  lemma ConfidenceIsPricedShare(p: Pricing, prices: map<nat, real>)
    requires CraftingCostOf(p, prices).Some?
    ensures var c := CraftingCostOf(p, prices).value;
            && c.confidence == |c.reagentCosts| as real / |p.reagents.value| as real
            && 0.0 <= c.confidence <= 1.0
            && (c.confidence == 1.0 <==> c.missingData == [])
            && (c.confidence >= 0.5 <==> |c.missingData| <= |c.reagentCosts|)
  {
    var reagents := p.reagents.value;
    var c := CraftingCostOf(p, prices).value;
    PricedPlusMissing(prices, reagents);
    ShareFacts(|c.reagentCosts|, |c.missingData|, |reagents|);
  }

  lemma ShareFacts(priced: nat, missing: nat, all: nat)
    requires priced + missing == all && all > 0
    ensures 0.0 <= priced as real / all as real <= 1.0
    ensures priced as real / all as real == 1.0 <==> missing == 0
    ensures priced as real / all as real >= 0.5 <==> missing <= priced
  {
    RealFacts.QuotientCompare(priced as real, all as real, 0.0);
    RealFacts.QuotientCompare(priced as real, all as real, 0.5);
    RealFacts.QuotientCompare(priced as real, all as real, 1.0);
  }

  // ----- the total cost, without the code that adds it up

  /** What one reagent costs: the table's price, unless missing or 0, times the amount; a bare item counts once. */
  function Spent(prices: map<nat, real>, c: Component): real {
    if c.itemId !in prices then 0.0
    else
      match c
      case Full(item, quantity) => prices[item] * quantity
      case Bare(item) => prices[item]
  }

  /** What all reagents cost together. */
  function Bill(prices: map<nat, real>, reagents: seq<Component>): real {
    if reagents == [] then 0.0 else Spent(prices, reagents[0]) + Bill(prices, reagents[1..])
  }

  lemma {:induction false} BillConcat(prices: map<nat, real>, a: seq<Component>, b: seq<Component>)
    ensures Bill(prices, a + b) == Bill(prices, a) + Bill(prices, b)
  {
    hide Spent;
    if a == [] {
      assert a + b == b;
    } else {
      assert (a + b)[1..] == a[1..] + b;
      BillConcat(prices, a[1..], b);
    }
  }

  lemma BillOne(prices: map<nat, real>, c: Component)
    ensures Bill(prices, [c]) == Spent(prices, c)
  {
    hide Spent;
    assert [c][1..] == [];
  }

  lemma SpentIsCost(prices: map<nat, real>, c: Component)
    ensures Spent(prices, c) == if Priced(prices, c.itemId).Some? then CostOf(prices, c).cost else 0.0
  {
  }

  lemma SumCostsStep(costs: seq<ReagentCost>, c: ReagentCost)
    ensures SumCosts(costs + [c]) == SumCosts(costs) + c.cost
  {
    assert (costs + [c])[..|costs|] == costs;
  }

  lemma {:induction false} SumIsBill(prices: map<nat, real>, reagents: seq<Component>)
    ensures SumCosts(Costs(prices, reagents)) == Bill(prices, reagents)
  {
    hide Spent, SumCosts, Bill, CostOf, Priced;
    if reagents == [] {
      NoBill(prices);
    } else {
      var n := |reagents| - 1;
      var c := reagents[n];
      SumIsBill(prices, reagents[..n]);
      assert reagents == reagents[..n] + [c];
      BillConcat(prices, reagents[..n], [c]);
      BillOne(prices, c);
      SpentIsCost(prices, c);
      if Priced(prices, c.itemId).Some? {
        SumCostsStep(Costs(prices, reagents[..n]), CostOf(prices, c));
      }
    }
  }

  lemma NoBill(prices: map<nat, real>)
    ensures Bill(prices, []) == 0.0 && SumCosts([]) == 0.0
  {
  }

  /** The total cost is what all priced reagents cost together, each its price times its amount. */
  lemma TotalCostIsBill(p: Pricing, prices: map<nat, real>)
    requires CraftingCostOf(p, prices).Some?
    ensures p.reagents.Some? && CraftingCostOf(p, prices).value.totalCost == Bill(prices, p.reagents.value)
  {
    SumIsBill(prices, p.reagents.value);
  }

  /** Asking for a reagent in two parts costs the same. */
  lemma SplitReagent(prices: map<nat, real>, a: seq<Component>, item: nat, x: real, y: real, b: seq<Component>,
                     p: Pricing, whole: CraftingCost, parts: CraftingCost)
    requires CraftingCostOf(p.(reagents := Some(a + [Full(item, x + y)] + b)), prices) == Some(whole)
    requires CraftingCostOf(p.(reagents := Some(a + [Full(item, x), Full(item, y)] + b)), prices) == Some(parts)
    ensures whole.totalCost == parts.totalCost
  {
    hide Bill, CraftingCostOf;
    var one, two := [Full(item, x + y)], [Full(item, x), Full(item, y)];
    TotalCostIsBill(p.(reagents := Some(a + one + b)), prices);
    TotalCostIsBill(p.(reagents := Some(a + two + b)), prices);
    BillConcat(prices, a + one, b);
    BillConcat(prices, a, one);
    BillConcat(prices, a + two, b);
    BillConcat(prices, a, two);
    assert two == [Full(item, x)] + [Full(item, y)];
    BillConcat(prices, [Full(item, x)], [Full(item, y)]);
    BillOne(prices, Full(item, x + y));
    BillOne(prices, Full(item, x));
    BillOne(prices, Full(item, y));
    if item in prices {
      RealFacts.Distribute(x, y, prices[item]);
    }
  }

  /** Every listed cost is that of some reagent: the table's price times the reagent's amount. */
  lemma {:induction false} ListedCosts(prices: map<nat, real>, reagents: seq<Component>)
    ensures forall e :: e in Costs(prices, reagents) ==>
              && e.cost == e.marketPrice * e.quantity
              && e.itemId in prices && e.marketPrice == prices[e.itemId] != 0.0
              && (Full(e.itemId, e.quantity) in reagents || (Bare(e.itemId) in reagents && e.quantity == 1.0))
  {
    if reagents != [] {
      var n := |reagents| - 1;
      ListedCosts(prices, reagents[..n]);
      assert reagents == reagents[..n] + [reagents[n]];
    }
  }

  /** What the market charges for one reagent, when the batched lookup has a price for it. */
  function Charged(t: Tables, items: seq<nat>, realm: int, c: Component): real {
    BatchPrice(t, items, realm, c.itemId).GetOr(0.0) * (match c case Full(_, quantity) => quantity case Bare(_) => 1.0)
  }

  function MarketBill(t: Tables, items: seq<nat>, realm: int, reagents: seq<Component>): real {
    if reagents == [] then 0.0
    else Charged(t, items, realm, reagents[0]) + MarketBill(t, items, realm, reagents[1..])
  }

  /** The cost of a recipe at the market: the batched price of each reagent times its amount, summed. */
  lemma MarketCostIsBill(t: Tables, realm: int, p: Pricing)
    requires MarketCost(t, realm, p).Some?
    ensures p.reagents.Some?
    ensures MarketCost(t, realm, p).value.totalCost == MarketBill(t, Ids(p.reagents.value), realm, p.reagents.value)
  {
    hide BatchPrice, CraftingCostOf, Bill, MarketBill, ReagentPrices;
    var prices := ReagentPrices(t, realm, p);
    TotalCostIsBill(p, prices);
    forall i | 0 <= i < |p.reagents.value|
      ensures Spent(prices, p.reagents.value[i]) == Charged(t, Ids(p.reagents.value), realm, p.reagents.value[i])
    {
      assert Ids(p.reagents.value)[i] in Ids(p.reagents.value);
      SpentIsCharged(t, Ids(p.reagents.value), realm, prices, p.reagents.value[i]);
    }
    BillIsMarketBill(t, Ids(p.reagents.value), realm, prices, p.reagents.value);
  }

  lemma SpentIsCharged(t: Tables, items: seq<nat>, realm: int, prices: map<nat, real>, c: Component)
    requires Priced(prices, c.itemId) == BatchPrice(t, items, realm, c.itemId)
    ensures Spent(prices, c) == Charged(t, items, realm, c)
  {
    hide BatchPrice;
  }

  lemma {:induction false} BillIsMarketBill(
    t: Tables, items: seq<nat>, realm: int, prices: map<nat, real>, reagents: seq<Component>)
    requires forall i :: 0 <= i < |reagents| ==> Spent(prices, reagents[i]) == Charged(t, items, realm, reagents[i])
    ensures Bill(prices, reagents) == MarketBill(t, items, realm, reagents)
  {
    hide Spent, Charged;
    if reagents != [] {
      assert Spent(prices, reagents[0]) == Charged(t, items, realm, reagents[0]);
      forall i | 0 <= i < |reagents[1..]|
        ensures Spent(prices, reagents[1..][i]) == Charged(t, items, realm, reagents[1..][i])
      {
        assert reagents[1..][i] == reagents[i + 1];
      }
      BillIsMarketBill(t, items, realm, prices, reagents[1..]);
    }
  }

  /** With distinct derivatives the unit cost times the amount is the total cost. */
  lemma {:induction false} UnitCostsExact(total: real, derivatives: seq<Component>, i: nat)
    requires i < |derivatives|
    requires forall a, b :: 0 <= a < b < |derivatives| ==> derivatives[a].itemId != derivatives[b].itemId
    ensures derivatives[i].Amount() > 0.0 ==>
              && derivatives[i].itemId in UnitCosts(total, derivatives)
              && UnitCosts(total, derivatives)[derivatives[i].itemId] * derivatives[i].Amount() == total
    ensures derivatives[i].Amount() <= 0.0 ==> derivatives[i].itemId !in UnitCosts(total, derivatives)
  {
    var n := |derivatives| - 1;
    if i < n {
      UnitCostsExact(total, derivatives[..n], i);
    } else {
      UnitCostsKeys(total, derivatives[..n], derivatives[n].itemId);
      if derivatives[n].Amount() > 0.0 {
        assert total / derivatives[n].Amount() * derivatives[n].Amount() == total;
      }
    }
  }

  lemma {:induction false} UnitCostsKeys(total: real, derivatives: seq<Component>, item: nat)
    ensures item in UnitCosts(total, derivatives) ==> exists d :: d in derivatives && d.itemId == item
  {
    if derivatives != [] {
      var n := |derivatives| - 1;
      UnitCostsKeys(total, derivatives[..n], item);
      assert derivatives[n] in derivatives;
    }
  }

  // ----- profitable crafts

  /** The optional filters; 0 counts as not set. */
  datatype Options = Options(maxCraftingCost: Option<real>, minMargin: Option<real>, minProfit: Option<real>)

  predicate AtLeast(limit: Option<real>, x: real) {
    limit == None || limit.value == 0.0 || x >= limit.value
  }

  predicate AtMost(limit: Option<real>, x: real) {
    limit == None || limit.value == 0.0 || x <= limit.value
  }

  datatype Craft = Craft(
    itemId: nat, marketPrice: real, craftingCost: real, profit: real, profitMargin: real, recipeId: int, rank: Option<int>)

  /** The recipes whose cost is known well enough and low enough. */
  predicate Affordable(cost: Option<CraftingCost>, o: Options) {
    cost.Some? && cost.value.confidence >= 0.5 && AtMost(o.maxCraftingCost, cost.value.totalCost)
  }

  /** The pair of a recipe and one of its derivatives, when it is worth crafting. */
  function CraftOf(t: Tables, realm: int, o: Options, p: Pricing, cost: CraftingCost, d: Component): Option<Craft> {
    var price := NonZero(GetMarketPrice(t, d.itemId, realm));
    if price == None || d.itemId !in cost.costPerUnit || cost.costPerUnit[d.itemId] == 0.0 then None
    else
      var unit := cost.costPerUnit[d.itemId];
      var profit := price.value - unit;
      var margin := profit / unit * 100.0;
      if profit > 0.0 && AtLeast(o.minMargin, margin) && AtLeast(o.minProfit, profit) then
        Some(Craft(d.itemId, price.value, unit, profit, margin, p.recipeId, p.rank))
      else None
  }

  function CraftsOf(t: Tables, realm: int, o: Options, p: Pricing, cost: CraftingCost, ds: seq<Component>): seq<Craft> {
    if ds == [] then []
    else
      var n := |ds| - 1;
      var rest := CraftsOf(t, realm, o, p, cost, ds[..n]);
      var c := CraftOf(t, realm, o, p, cost, ds[n]);
      if c.Some? then rest + [c.value] else rest
  }

  ghost function RecipeCrafts(t: Tables, realm: int, o: Options, p: Pricing): seq<Craft> {
    var cost := MarketCost(t, realm, p);
    if p.derivatives == None || p.derivatives.value == [] || !Affordable(cost, o) then []
    else CraftsOf(t, realm, o, p, cost.value, p.derivatives.value)
  }

  ghost function AllCrafts(t: Tables, realm: int, o: Options, ps: seq<Pricing>): seq<Craft> {
    if ps == [] then []
    else
      var n := |ps| - 1;
      AllCrafts(t, realm, o, ps[..n]) + RecipeCrafts(t, realm, o, ps[n])
  }

  function ByMargin(): Craft -> real {
    (c: Craft) => -c.profitMargin
  }

  /** The scan over recipes and derivatives, and the closing sort. */
  method FindProfitableCrafts(t: Tables, realm: int, pricings: seq<Pricing>, o: Options) returns (crafts: seq<Craft>)
    ensures crafts == SortBy(AllCrafts(t, realm, o, pricings), ByMargin())
  {
    crafts := [];
    for i := 0 to |pricings|
      invariant crafts == AllCrafts(t, realm, o, pricings[..i])
    {
      assert pricings[..i + 1][..i] == pricings[..i];
      var own := EvaluateRecipe(t, realm, pricings[i], o);
      crafts := crafts + own;
    }
    assert pricings[..|pricings|] == pricings;
    crafts := SortBy(crafts, ByMargin());
  }

  method EvaluateRecipe(t: Tables, realm: int, p: Pricing, o: Options) returns (crafts: seq<Craft>)
    ensures crafts == RecipeCrafts(t, realm, o, p)
  {
    hide CraftOf, CraftingCostOf, AtMost;
    crafts := [];
    if p.derivatives == None || |p.derivatives.value| == 0 { return; }
    var derivatives := p.derivatives.value;
    var cost := CalculateCraftingCost(t, p, realm);
    if cost == None || cost.value.confidence < 0.5 { return; }
    if !AtMost(o.maxCraftingCost, cost.value.totalCost) { return; }
    for i := 0 to |derivatives|
      invariant crafts == CraftsOf(t, realm, o, p, cost.value, derivatives[..i])
    {
      assert derivatives[..i + 1][..i] == derivatives[..i];
      var c := CraftOf(t, realm, o, p, cost.value, derivatives[i]);
      if c.Some? {
        crafts := crafts + [c.value];
      }
    }
    assert derivatives[..|derivatives|] == derivatives;
  }

  // ----- exactly the profitable pairs

  /** What makes the pair (p, d) a craft worth listing as c. */
  ghost predicate IsProfitablePair(t: Tables, realm: int, o: Options, p: Pricing, d: Component, c: Craft) {
    && p.derivatives.Some? && d in p.derivatives.value
    && MarketCost(t, realm, p).Some?
    && var cost := MarketCost(t, realm, p).value;
       && 2 * |cost.missingData| <= |p.reagents.value|
       && (o.maxCraftingCost in {None, Some(0.0)} || cost.totalCost <= o.maxCraftingCost.value)
       && c.itemId == d.itemId && c.recipeId == p.recipeId && c.rank == p.rank
       && GetMarketPrice(t, d.itemId, realm) == Some(c.marketPrice) && c.marketPrice != 0.0
       && d.itemId in cost.costPerUnit && cost.costPerUnit[d.itemId] == c.craftingCost && c.craftingCost != 0.0
       && c.profit == c.marketPrice - c.craftingCost && c.profit > 0.0
       && c.profitMargin == c.profit / c.craftingCost * 100.0
       && (o.minMargin in {None, Some(0.0)} || c.profitMargin >= o.minMargin.value)
       && (o.minProfit in {None, Some(0.0)} || c.profit >= o.minProfit.value)
  }

  lemma {:induction false} CraftsOfMembers(
    t: Tables, realm: int, o: Options, p: Pricing, cost: CraftingCost, ds: seq<Component>, c: Craft)
    ensures c in CraftsOf(t, realm, o, p, cost, ds) <==> exists d :: d in ds && CraftOf(t, realm, o, p, cost, d) == Some(c)
  {
    hide CraftOf;
    if ds != [] {
      var n := |ds| - 1;
      CraftsOfMembers(t, realm, o, p, cost, ds[..n], c);
      assert ds == ds[..n] + [ds[n]];
    }
  }

  lemma PairIsCraft(t: Tables, realm: int, o: Options, p: Pricing, d: Component, c: Craft)
    requires p.derivatives.Some? && d in p.derivatives.value && MarketCost(t, realm, p).Some?
    ensures IsProfitablePair(t, realm, o, p, d, c)
       <==> Affordable(MarketCost(t, realm, p), o) && CraftOf(t, realm, o, p, MarketCost(t, realm, p).value, d) == Some(c)
  {
    hide GetMarketPrice, ReagentPrices, CraftingCostOf, Costs, MissingItems;
    ConfidenceIsPricedShare(p, ReagentPrices(t, realm, p));
    PricedPlusMissing(ReagentPrices(t, realm, p), p.reagents.value);
    CostFields(p, ReagentPrices(t, realm, p));
  }

  lemma CostFields(p: Pricing, prices: map<nat, real>)
    requires CraftingCostOf(p, prices).Some?
    ensures p.reagents.Some?
    ensures CraftingCostOf(p, prices).value.reagentCosts == Costs(prices, p.reagents.value)
    ensures CraftingCostOf(p, prices).value.missingData == MissingItems(prices, p.reagents.value)
  {
  }

  lemma RecipeCraftsMembers(t: Tables, realm: int, o: Options, p: Pricing, c: Craft)
    ensures c in RecipeCrafts(t, realm, o, p) <==> exists d :: IsProfitablePair(t, realm, o, p, d, c)
  {
    hide CraftsOf, CraftOf, MarketCost;
    var cost := MarketCost(t, realm, p);
    if p.derivatives.Some? && p.derivatives.value != [] && cost.Some? {
      CraftsOfMembers(t, realm, o, p, cost.value, p.derivatives.value, c);
      forall d | d in p.derivatives.value
        ensures IsProfitablePair(t, realm, o, p, d, c)
           <==> Affordable(cost, o) && CraftOf(t, realm, o, p, cost.value, d) == Some(c)
      {
        PairIsCraft(t, realm, o, p, d, c);
      }
    }
  }

  /** The list holds exactly the profitable pairs, dearest margin first. */
  lemma {:induction false} ExactlyProfitable(t: Tables, realm: int, o: Options, ps: seq<Pricing>, c: Craft)
    ensures c in AllCrafts(t, realm, o, ps) <==> exists p, d :: p in ps && IsProfitablePair(t, realm, o, p, d, c)
  {
    hide RecipeCrafts, IsProfitablePair;
    if ps != [] {
      var n := |ps| - 1;
      ExactlyProfitable(t, realm, o, ps[..n], c);
      RecipeCraftsMembers(t, realm, o, ps[n], c);
      assert ps == ps[..n] + [ps[n]];
    }
  }

  // ----- how often a craft is listed

  function Derivatives(p: Pricing): seq<Component> {
    p.derivatives.GetOr([])
  }

  /** The places in a recipe's list of derivatives that give the craft c. */
  ghost function RecipePlaces(t: Tables, realm: int, o: Options, p: Pricing, c: Craft): set<nat> {
    set j: nat | j < |Derivatives(p)| && IsProfitablePair(t, realm, o, p, Derivatives(p)[j], c)
  }

  /** The recipe and derivative numbers that give the craft c. */
  ghost function PairPlaces(t: Tables, realm: int, o: Options, ps: seq<Pricing>, c: Craft): set<(nat, nat)> {
    set i: nat, j: nat | i < |ps| && j in RecipePlaces(t, realm, o, ps[i], c) :: (i, j)
  }

  ghost function CraftPlaces(
    t: Tables, realm: int, o: Options, p: Pricing, cost: CraftingCost, ds: seq<Component>, c: Craft): set<nat>
  {
    set j: nat | j < |ds| && CraftOf(t, realm, o, p, cost, ds[j]) == Some(c)
  }

  lemma {:induction false} CraftsOfCount(
    t: Tables, realm: int, o: Options, p: Pricing, cost: CraftingCost, ds: seq<Component>, c: Craft)
    ensures multiset(CraftsOf(t, realm, o, p, cost, ds))[c] == |CraftPlaces(t, realm, o, p, cost, ds, c)|
  {
    hide CraftOf;
    if ds == [] {
      assert CraftPlaces(t, realm, o, p, cost, ds, c) == {};
    } else {
      var n := |ds| - 1;
      CraftsOfCount(t, realm, o, p, cost, ds[..n], c);
      var before := CraftPlaces(t, realm, o, p, cost, ds[..n], c);
      assert CraftPlaces(t, realm, o, p, cost, ds, c)
          == if CraftOf(t, realm, o, p, cost, ds[n]) == Some(c) then before + {n} else before;
    }
  }

  lemma RecipeCraftsCount(t: Tables, realm: int, o: Options, p: Pricing, c: Craft)
    ensures multiset(RecipeCrafts(t, realm, o, p))[c] == |RecipePlaces(t, realm, o, p, c)|
  {
    hide CraftsOf, CraftOf, MarketCost, IsProfitablePair;
    var cost := MarketCost(t, realm, p);
    var places := RecipePlaces(t, realm, o, p, c);
    if p.derivatives.Some? && cost.Some? {
      var ds := p.derivatives.value;
      forall j: nat | j < |ds|
        ensures IsProfitablePair(t, realm, o, p, ds[j], c)
           <==> Affordable(cost, o) && CraftOf(t, realm, o, p, cost.value, ds[j]) == Some(c)
      {
        PairIsCraft(t, realm, o, p, ds[j], c);
      }
      if Affordable(cost, o) {
        CraftsOfCount(t, realm, o, p, cost.value, ds, c);
        forall j: nat ensures j in places <==> j in CraftPlaces(t, realm, o, p, cost.value, ds, c) {
          assert j < |ds| ==> (IsProfitablePair(t, realm, o, p, ds[j], c)
                               <==> CraftOf(t, realm, o, p, cost.value, ds[j]) == Some(c));
        }
        assert places == CraftPlaces(t, realm, o, p, cost.value, ds, c);
      } else {
        assert places == {};
      }
    } else {
      NoCostNoPair(t, realm, o, p, c);
      assert places == {};
    }
  }

  lemma NoCostNoPair(t: Tables, realm: int, o: Options, p: Pricing, c: Craft)
    requires p.derivatives == None || MarketCost(t, realm, p) == None
    ensures forall d :: !IsProfitablePair(t, realm, o, p, d, c)
  {
  }

  ghost function Tagged(n: nat, js: set<nat>): set<(nat, nat)> {
    set j | j in js :: (n, j)
  }

  lemma {:induction false} TaggedCount(n: nat, js: set<nat>)
    ensures |Tagged(n, js)| == |js|
  {
    if js == {} {
      assert Tagged(n, js) == {};
    } else {
      var j :| j in js;
      TaggedCount(n, js - {j});
      assert Tagged(n, js) == Tagged(n, js - {j}) + {(n, j)};
    }
  }

  /** A craft is listed once for each recipe and derivative number that gives it. */
  lemma {:induction false} ListedOncePerPair(t: Tables, realm: int, o: Options, ps: seq<Pricing>, c: Craft)
    ensures multiset(AllCrafts(t, realm, o, ps))[c] == |PairPlaces(t, realm, o, ps, c)|
  {
    hide RecipeCrafts, RecipePlaces;
    if ps == [] {
      assert PairPlaces(t, realm, o, ps, c) == {};
    } else {
      var n := |ps| - 1;
      ListedOncePerPair(t, realm, o, ps[..n], c);
      RecipeCraftsCount(t, realm, o, ps[n], c);
      var before, last := PairPlaces(t, realm, o, ps[..n], c), RecipePlaces(t, realm, o, ps[n], c);
      TaggedCount(n, last);
      assert PairPlaces(t, realm, o, ps, c) == before + Tagged(n, last);
      assert before !! Tagged(n, last);
    }
  }

  /** The list holds each craft once for each pair that gives it, dearest margin first. */
  lemma ProfitableSorted(t: Tables, realm: int, o: Options, ps: seq<Pricing>)
    ensures var crafts := SortBy(AllCrafts(t, realm, o, ps), ByMargin());
            && multiset(crafts) == multiset(AllCrafts(t, realm, o, ps))
            && (forall i, j :: 0 <= i <= j < |crafts| ==> crafts[i].profitMargin >= crafts[j].profitMargin)
            && (forall c :: c in crafts <==> exists p, d :: p in ps && IsProfitablePair(t, realm, o, p, d, c))
            && (forall c :: multiset(crafts)[c] == |PairPlaces(t, realm, o, ps, c)|)
  {
    hide AllCrafts, IsProfitablePair, PairPlaces;
    forall c: Craft ensures multiset(AllCrafts(t, realm, o, ps))[c] == |PairPlaces(t, realm, o, ps, c)| {
      ListedOncePerPair(t, realm, o, ps, c);
    }
    var all := AllCrafts(t, realm, o, ps);
    var crafts := SortBy(all, ByMargin());
    SortBySorted(all, ByMargin());
    SortByMultiset(all, ByMargin());
    forall i, j | 0 <= i <= j < |crafts| ensures crafts[i].profitMargin >= crafts[j].profitMargin {
      assert ByMargin()(crafts[i]) <= ByMargin()(crafts[j]);
    }
    forall c: Craft ensures c in crafts <==> exists p, d :: p in ps && IsProfitablePair(t, realm, o, p, d, c) {
      ExactlyProfitable(t, realm, o, ps, c);
      InMultiset(c, crafts, all);
    }
  }
}
