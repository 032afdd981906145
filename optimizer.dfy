/** The two-store optimizer `cmd_optimize`.

    Every cart product with price rows becomes an item: its name, its cart
    quantity and the lowest price of every store that sells it. The integer
    program of handlers.py:410-431 picks one store per item (`x[(i, j)]`),
    opens at most two stores (`y[j]`, with `x ≤ y`) and minimises the sum of
    `prices.get(j, 0) × quantity`. An assignment of one store per item whose
    set of stores has at most two members is exactly a solution of those
    constraints, so the program is modelled by `Feasible` and `Optimal` on
    such assignments, and the external solver by `Optimize`, which tries
    every pair of stores and keeps the cheapest per-item choice within the
    best pair.

    As written the objective charges a store that does not sell a product
    nothing for it (`Pricing.AsWritten`); `Pricing.Covering` allows an item
    only at the stores that sell it. */
module Optimizer {
  import opened Wrappers
  import opened Text
  import opened Catalog
  import opened ShoppingCart
  import opened Totals

  /** One entry of `products_in_cart`: name, quantity and store prices. */
  datatype Item = Item(name: string, quantity: int, prices: map<string, int>)

  /** `prices.get(shop, 0)` */
  function GetOrZero(prices: map<string, int>, shop: string): int
  {
    if shop in prices then prices[shop] else 0
  }

  /** How the objective prices an item at a store that does not sell it:
      at zero as the source does, or not at all. */
  datatype Pricing = AsWritten | Covering

  /** The objective's cost of buying `it` at `shop`, if that is allowed. */
  function LineCost(p: Pricing, it: Item, shop: string): Option<int>
  {
    match p
    case AsWritten => Some(GetOrZero(it.prices, shop) * it.quantity)
    case Covering => if shop in it.prices then Some(it.prices[shop] * it.quantity) else None
  }

  /** `a` gives every item an allowed store. */
  predicate Priced(p: Pricing, items: seq<Item>, a: seq<string>)
  {
    |a| == |items| && forall i :: 0 <= i < |a| ==> LineCost(p, items[i], a[i]).Some?
  }

  lemma PricedPrefix(p: Pricing, items: seq<Item>, a: seq<string>)
    requires Priced(p, items, a) && items != []
    ensures Priced(p, items[..|items| - 1], a[..|a| - 1])
  {
  }

  /** The objective of handlers.py:417-421 for the assignment `a`. */
  function Objective(p: Pricing, items: seq<Item>, a: seq<string>): int
    requires Priced(p, items, a)
    decreases |items|
  {
    if items == [] then 0
    else
      PricedPrefix(p, items, a);
      Objective(p, items[..|items| - 1], a[..|a| - 1]) +
      LineCost(p, items[|items| - 1], a[|a| - 1]).value
  }

  /** The stores an assignment uses: those with `y[j] = 1`. */
  function UsedShops(a: seq<string>): set<string>
  {
    set i | 0 <= i < |a| :: a[i]
  }

  /** A solution of the integer program: one allowed store from `shops` per
      item and at most two stores in use (handlers.py:424-431). */
  predicate Feasible(p: Pricing, items: seq<Item>, shops: seq<string>, a: seq<string>)
  {
    Priced(p, items, a) && (forall i :: 0 <= i < |a| ==> a[i] in shops) && |UsedShops(a)| <= 2
  }

  /** An optimal solution of the integer program. */
  ghost predicate Optimal(p: Pricing, items: seq<Item>, shops: seq<string>, a: seq<string>)
  {
    Feasible(p, items, shops, a) &&
    forall b :: Feasible(p, items, shops, b) ==> Objective(p, items, a) <= Objective(p, items, b)
  }

  /** The cheaper allowed store of `u` and `v` for `it`. */
  function Pick(p: Pricing, it: Item, u: string, v: string): (r: Option<string>)
    ensures r.Some? ==> (r.value == u || r.value == v) && LineCost(p, it, r.value).Some?
    ensures r.None? <==> LineCost(p, it, u).None? && LineCost(p, it, v).None?
    ensures r.Some? ==> forall w :: (w == u || w == v) && LineCost(p, it, w).Some? ==>
                          LineCost(p, it, r.value).value <= LineCost(p, it, w).value
  {
    match (LineCost(p, it, u), LineCost(p, it, v))
    case (Some(cu), Some(cv)) => if cu <= cv then Some(u) else Some(v)
    case (Some(_), None) => Some(u)
    case (None, Some(_)) => Some(v)
    case (None, None) => None
  }

  /** The best assignment that uses only `u` and `v`, if there is one. */
  function PickAll(p: Pricing, items: seq<Item>, u: string, v: string): (r: Option<seq<string>>)
    ensures r.Some? ==> Priced(p, items, r.value)
    ensures r.Some? ==> forall i :: 0 <= i < |r.value| ==> r.value[i] == u || r.value[i] == v
    ensures r.None? ==> exists i :: 0 <= i < |items| &&
                          LineCost(p, items[i], u).None? && LineCost(p, items[i], v).None?
    decreases |items|
  {
    if items == [] then Some([])
    else
      var init := items[..|items| - 1];
      var last := items[|items| - 1];
      match (PickAll(p, init, u, v), Pick(p, last, u, v))
      case (Some(rest), Some(s)) => Some(rest + [s])
      case (None, _) => None
      case (_, None) => None
  }

  /** Within the pair `u`, `v` nothing beats `PickAll`. */
  lemma {:induction false} PickAllCheapest(p: Pricing, items: seq<Item>, u: string, v: string, a: seq<string>)
    requires PickAll(p, items, u, v).Some? && Priced(p, items, a)
    requires forall i :: 0 <= i < |a| ==> a[i] == u || a[i] == v
    ensures Objective(p, items, PickAll(p, items, u, v).value) <= Objective(p, items, a)
    decreases |items|
  {
    if items != [] {
      var init, last := items[..|items| - 1], items[|items| - 1];
      var b := PickAll(p, items, u, v).value;
      var rest := PickAll(p, init, u, v).value;
      var s := Pick(p, last, u, v).value;
      assert b == rest + [s];
      assert b[..|b| - 1] == rest;
      PricedPrefix(p, items, a);
      PickAllCheapest(p, init, u, v, a[..|a| - 1]);
      assert LineCost(p, last, a[|a| - 1]).Some?;
    }
  }

  /** A set inside a pair has at most two members. */
  lemma WithinPair(s: set<string>, u: string, v: string)
    requires s <= {u, v}
    ensures |s| <= 2
  {
    if u in s && v in s {
      assert s == {u, v};
    } else if u in s {
      assert s == {u};
    } else if v in s {
      assert s == {v};
    } else {
      assert s == {};
    }
  }

  /** A non-empty assignment with at most two stores stays within some pair of them. */
  lemma PairCovers(shops: seq<string>, a: seq<string>)
    requires a != [] && |UsedShops(a)| <= 2 && forall i :: 0 <= i < |a| ==> a[i] in shops
    ensures exists u, v :: u in shops && v in shops && forall i :: 0 <= i < |a| ==> a[i] == u || a[i] == v
  {
    var used := UsedShops(a);
    var u := a[0];
    assert u in used;
    var others := used - {u};
    assert |others| <= 1;
    var v := u;
    if others != {} {
      v :| v in others;
      assert |others - {v}| == 0;
    }
    forall i | 0 <= i < |a|
      ensures a[i] == u || a[i] == v
    {
      assert a[i] in used;
    }
  }

  /** `best` is no dearer than the best assignment within `u` and `v`. */
  ghost predicate NoDearer(p: Pricing, items: seq<Item>, best: Option<seq<string>>, u: string, v: string)
  {
    && (best.Some? ==> Priced(p, items, best.value))
    && (PickAll(p, items, u, v).Some? ==>
          best.Some? && Objective(p, items, best.value) <= Objective(p, items, PickAll(p, items, u, v).value))
  }

  /** The pairs (`shops[i']`, `shops[j']`) before (`i`, `j`) in row order have
      been tried: `best` is feasible and no dearer than any of them. */
  ghost predicate BestAmong(p: Pricing, items: seq<Item>, shops: seq<string>, best: Option<seq<string>>, i: int, j: int)
  {
    && (best.Some? ==> Feasible(p, items, shops, best.value))
    && forall i', j' :: 0 <= i' < |shops| && 0 <= j' < |shops| && (i' < i || (i' == i && j' < j)) ==>
         NoDearer(p, items, best, shops[i'], shops[j'])
  }

  lemma TryPair(p: Pricing, items: seq<Item>, shops: seq<string>, best: Option<seq<string>>, i: int, j: int, best': Option<seq<string>>)
    requires BestAmong(p, items, shops, best, i, j) && 0 <= i < |shops| && 0 <= j < |shops|
    requires var c := PickAll(p, items, shops[i], shops[j]);
      best' == if c.Some? && (best.None? || Objective(p, items, c.value) < Objective(p, items, best.value)) then c else best
    ensures BestAmong(p, items, shops, best', i, j + 1)
  {
    var u, v := shops[i], shops[j];
    var c := PickAll(p, items, u, v);
    if c.Some? {
      assert Feasible(p, items, shops, c.value) by {
        assert UsedShops(c.value) <= {u, v};
        WithinPair(UsedShops(c.value), u, v);
      }
    }
    assert best'.Some? ==> Feasible(p, items, shops, best'.value);
    forall i', j' | 0 <= i' < |shops| && 0 <= j' < |shops| && (i' < i || (i' == i && j' < j + 1))
      ensures NoDearer(p, items, best', shops[i'], shops[j'])
    {
      if i' == i && j' == j {
        assert NoDearer(p, items, best', u, v);
      } else {
        NoDearerImproves(p, items, best, best', shops[i'], shops[j']);
      }
    }
  }

  /** Replacing `best` by something no dearer keeps it no dearer than a pair. */
  lemma NoDearerImproves(p: Pricing, items: seq<Item>, best: Option<seq<string>>, best': Option<seq<string>>, u: string, v: string)
    requires NoDearer(p, items, best, u, v)
    requires best'.Some? ==> Priced(p, items, best'.value)
    requires best.Some? ==> best'.Some? && Objective(p, items, best'.value) <= Objective(p, items, best.value)
    ensures NoDearer(p, items, best', u, v)
  {
  }

  lemma NextRow(p: Pricing, items: seq<Item>, shops: seq<string>, best: Option<seq<string>>, i: int)
    requires BestAmong(p, items, shops, best, i, |shops|)
    ensures BestAmong(p, items, shops, best, i + 1, 0)
  {
  }

  /** Once every pair has been tried, `best` solves the integer program, and
      no answer means it has no solution. */
  lemma AllPairsTried(p: Pricing, items: seq<Item>, shops: seq<string>, best: Option<seq<string>>)
    requires items != [] && BestAmong(p, items, shops, best, |shops|, 0)
    ensures best.Some? ==> Optimal(p, items, shops, best.value)
    ensures best.None? ==> forall a :: !Feasible(p, items, shops, a)
  {
    forall a | Feasible(p, items, shops, a)
      ensures best.Some? && Objective(p, items, best.value) <= Objective(p, items, a)
    {
      PairCovers(shops, a);
      var u, v :| u in shops && v in shops && forall i :: 0 <= i < |a| ==> a[i] == u || a[i] == v;
      PairTried(p, items, shops, best, u, v);
      BeatsWithinPair(p, items, best, u, v, a);
    }
  }

  lemma PairTried(p: Pricing, items: seq<Item>, shops: seq<string>, best: Option<seq<string>>, u: string, v: string)
    requires BestAmong(p, items, shops, best, |shops|, 0) && u in shops && v in shops
    ensures NoDearer(p, items, best, u, v)
  {
    var i' :| 0 <= i' < |shops| && shops[i'] == u;
    var j' :| 0 <= j' < |shops| && shops[j'] == v;
  }

  /** `best` is no dearer than any allowed assignment within a tried pair. */
  lemma BeatsWithinPair(p: Pricing, items: seq<Item>, best: Option<seq<string>>, u: string, v: string, a: seq<string>)
    requires NoDearer(p, items, best, u, v) && Priced(p, items, a)
    requires forall i :: 0 <= i < |a| ==> a[i] == u || a[i] == v
    ensures best.Some? && Objective(p, items, best.value) <= Objective(p, items, a)
  {
    PairAllowsPick(p, items, u, v, a);
    PickAllCheapest(p, items, u, v, a);
  }

  /** If some assignment within `u` and `v` is allowed, so is `PickAll`'s. */
  lemma PairAllowsPick(p: Pricing, items: seq<Item>, u: string, v: string, a: seq<string>)
    requires Priced(p, items, a) && forall i :: 0 <= i < |a| ==> a[i] == u || a[i] == v
    ensures PickAll(p, items, u, v).Some?
  {
  }

  /** What the solver returns: an optimal assignment, or none when the
      program has no solution (`prob.status != 1`). */
  method Optimize(p: Pricing, items: seq<Item>, shops: seq<string>) returns (best: Option<seq<string>>)
    requires items != []
    ensures best.Some? ==> Optimal(p, items, shops, best.value)
    ensures best.None? ==> forall a :: !Feasible(p, items, shops, a)
  {
    best := None;
    for i := 0 to |shops|
      invariant BestAmong(p, items, shops, best, i, 0)
    {
      for j := 0 to |shops|
        invariant BestAmong(p, items, shops, best, i, j)
      {
        var c := PickAll(p, items, shops[i], shops[j]);
        var next := if c.Some? && (best.None? || Objective(p, items, c.value) < Objective(p, items, best.value)) then c else best;
        TryPair(p, items, shops, best, i, j, next);
        best := next;
      }
      NextRow(p, items, shops, best, i);
    }
    AllPairsTried(p, items, shops, best);
  }

  /** What the report charges for `it` at `shop`: lines whose price is not
      positive are skipped (handlers.py:443-446). */
  function ReportedCost(it: Item, shop: string): int
  {
    var price := GetOrZero(it.prices, shop);
    if price > 0 then price * it.quantity else 0
  }

  /** `total_cost` of the report for the assignment `a`. */
  function ReportedTotal(items: seq<Item>, a: seq<string>): int
    requires |a| == |items|
    decreases |items|
  {
    if items == [] then 0
    else ReportedTotal(items[..|items| - 1], a[..|a| - 1]) + ReportedCost(items[|items| - 1], a[|a| - 1])
  }

  /** `shop_costs[shop]` of the report for the assignment `a`. */
  function ShopCost(items: seq<Item>, a: seq<string>, shop: string): int
    requires |a| == |items|
    decreases |items|
  {
    if items == [] then 0
    else
      ShopCost(items[..|items| - 1], a[..|a| - 1], shop) +
      (if a[|a| - 1] == shop then ReportedCost(items[|items| - 1], shop) else 0)
  }

  /** `used_shops`: the listed stores with a positive cost, in list order. */
  function PositiveShops(shops: seq<string>, costs: map<string, int>): (used: seq<string>)
    requires forall s :: s in shops ==> s in costs
    ensures forall s :: s in used <==> s in shops && costs[s] > 0
    ensures |used| <= |shops|
  {
    if shops == [] then []
    else
      var init := shops[..|shops| - 1];
      var last := shops[|shops| - 1];
      assert forall s :: s in shops <==> s in init || s == last;
      PositiveShops(init, costs) + (if costs[last] > 0 then [last] else [])
  }

  /** The report's cost bookkeeping (handlers.py:436-456), reading the
      assignment off `a`. */
  method Report(items: seq<Item>, shops: seq<string>, a: seq<string>)
      returns (total: int, shopCosts: map<string, int>, used: seq<string>)
    requires |a| == |items| && forall i :: 0 <= i < |a| ==> a[i] in shops
    ensures total == ReportedTotal(items, a)
    ensures forall s :: s in shopCosts <==> s in shops
    ensures forall s :: s in shopCosts ==> shopCosts[s] == ShopCost(items, a, s)
    ensures used == PositiveShops(shops, shopCosts)
  {
    shopCosts := map s | s in shops :: 0;
    total := 0;
    for i := 0 to |items|
      invariant ReportSoFar(items, a, shops, i, total, shopCosts)
    {
      var price := GetOrZero(items[i].prices, a[i]);
      var next, nextCosts := total, shopCosts;
      if price > 0 {
        var cost := price * items[i].quantity;
        next, nextCosts := total + cost, shopCosts[a[i] := shopCosts[a[i]] + cost];
      }
      ReportStep(items, a, shops, i, total, shopCosts, next, nextCosts);
      total, shopCosts := next, nextCosts;
    }
    assert items[..|items|] == items && a[..|a|] == a;
    used := PositiveShops(shops, shopCosts);
  }

  /** The first `i` items have been charged. */
  ghost predicate ReportSoFar(items: seq<Item>, a: seq<string>, shops: seq<string>, i: int, total: int, costs: map<string, int>)
  {
    && |a| == |items| && 0 <= i <= |items|
    && total == ReportedTotal(items[..i], a[..i])
    && (forall s :: s in costs <==> s in shops)
    && forall s :: s in costs ==> costs[s] == ShopCost(items[..i], a[..i], s)
  }

  lemma ReportStep(items: seq<Item>, a: seq<string>, shops: seq<string>, i: int, total: int, costs: map<string, int>,
                   next: int, nextCosts: map<string, int>)
    requires ReportSoFar(items, a, shops, i, total, costs) && i < |items| && a[i] in shops
    requires var price := GetOrZero(items[i].prices, a[i]);
      if price > 0 then next == total + price * items[i].quantity &&
                        nextCosts == costs[a[i] := costs[a[i]] + price * items[i].quantity]
      else next == total && nextCosts == costs
    ensures ReportSoFar(items, a, shops, i + 1, next, nextCosts)
  {
    assert items[..i + 1][..i] == items[..i] && a[..i + 1][..i] == a[..i];
  }

  /** The sum of the costs of the listed stores. */
  function SumShops(shops: seq<string>, items: seq<Item>, a: seq<string>): int
    requires |a| == |items|
  {
    if shops == [] then 0
    else SumShops(shops[..|shops| - 1], items, a) + ShopCost(items, a, shops[|shops| - 1])
  }

  /** `total_cost` is the sum of `shop_costs` over the stores. */
  lemma {:induction false} TotalIsSumOfShopCosts(items: seq<Item>, a: seq<string>, shops: seq<string>)
    requires Distinct(shops) && |a| == |items| && forall i :: 0 <= i < |a| ==> a[i] in shops
    ensures ReportedTotal(items, a) == SumShops(shops, items, a)
    decreases |items|
  {
    if items == [] {
      SumShopsOfNothing(shops, items, a);
    } else {
      var init, ai := items[..|items| - 1], a[..|a| - 1];
      TotalIsSumOfShopCosts(init, ai, shops);
      SumShopsStep(shops, items, a);
    }
  }

  lemma {:induction false} SumShopsOfNothing(shops: seq<string>, items: seq<Item>, a: seq<string>)
    requires items == [] && a == []
    ensures SumShops(shops, items, a) == 0
  {
    if shops != [] {
      SumShopsOfNothing(shops[..|shops| - 1], items, a);
    }
  }

  /** The last item adds its cost to the sum once, at the store it goes to. */
  lemma {:induction false} SumShopsStep(shops: seq<string>, items: seq<Item>, a: seq<string>)
    requires Distinct(shops) && |a| == |items| && items != []
    ensures SumShops(shops, items, a) ==
            SumShops(shops, items[..|items| - 1], a[..|a| - 1]) +
            (if a[|a| - 1] in shops then ReportedCost(items[|items| - 1], a[|a| - 1]) else 0)
  {
    if shops != [] {
      var init, last := shops[..|shops| - 1], shops[|shops| - 1];
      assert Distinct(init);
      assert last !in init;
      assert forall s :: s in shops <==> s in init || s == last;
      SumShopsStep(init, items, a);
    }
  }

  /** The single-store total of `shop`: its positive prices × quantities
      over all items (handlers.py:485-490). */
  function SingleShopTotal(items: seq<Item>, shop: string): int
  {
    if items == [] then 0
    else SingleShopTotal(items[..|items| - 1], shop) + ReportedCost(items[|items| - 1], shop)
  }

  method SingleShopSum(items: seq<Item>, shop: string) returns (total: int)
    ensures total == SingleShopTotal(items, shop)
  {
    total := 0;
    for i := 0 to |items|
      invariant total == SingleShopTotal(items[..i], shop)
    {
      assert items[..i + 1][..i] == items[..i];
      var price := GetOrZero(items[i].prices, shop);
      if price > 0 {
        total := total + price * items[i].quantity;
      }
    }
    assert items[..|items|] == items;
  }

  /** `single_shop_prices`: the stores with a positive single-store total
      (handlers.py:485-493). */
  method SingleShopPrices(items: seq<Item>, shops: seq<string>) returns (single: map<string, int>)
    ensures forall s :: s in single <==> s in shops && SingleShopTotal(items, s) > 0
    ensures forall s :: s in single ==> single[s] == SingleShopTotal(items, s)
  {
    single := map[];
    for k := 0 to |shops|
      invariant forall s :: s in single <==> s in shops[..k] && SingleShopTotal(items, s) > 0
      invariant forall s :: s in single ==> single[s] == SingleShopTotal(items, s)
    {
      assert forall s :: s in shops[..k + 1] <==> s in shops[..k] || s == shops[k];
      var total := SingleShopSum(items, shops[k]);
      if total > 0 {
        single := single[shops[k] := total];
      }
    }
    assert shops[..|shops|] == shops;
  }

  /** No catalogue price is negative. */
  predicate NonNegativePrices(items: seq<Item>)
  {
    forall i, s :: 0 <= i < |items| && s in items[i].prices ==> items[i].prices[s] >= 0
  }

  /** Without negative prices the report's total is the objective of the
      assignment it reports. */
  lemma {:induction false} ReportedIsObjective(p: Pricing, items: seq<Item>, a: seq<string>)
    requires NonNegativePrices(items) && Priced(p, items, a)
    ensures ReportedTotal(items, a) == Objective(p, items, a)
    decreases |items|
  {
    if items != [] {
      var init := items[..|items| - 1];
      assert NonNegativePrices(init);
      PricedPrefix(p, items, a);
      ReportedIsObjective(p, init, a[..|a| - 1]);
      var it, s := items[|items| - 1], a[|a| - 1];
      assert s in it.prices ==> it.prices[s] >= 0;
    }
  }

  /** Buying every item at one store. */
  function AllAt(items: seq<Item>, shop: string): (a: seq<string>)
    ensures |a| == |items| && forall i :: 0 <= i < |a| ==> a[i] == shop
  {
    seq(|items|, _ => shop)
  }

  /** The single-store total of `shop` is the objective of buying everything there. */
  lemma {:induction false} SingleShopIsObjective(p: Pricing, items: seq<Item>, shop: string)
    requires NonNegativePrices(items)
    requires Priced(p, items, AllAt(items, shop))
    ensures SingleShopTotal(items, shop) == Objective(p, items, AllAt(items, shop))
    decreases |items|
  {
    var a := AllAt(items, shop);
    ReportedIsObjective(p, items, a);
    SingleShopIsReported(items, shop);
  }

  lemma {:induction false} SingleShopIsReported(items: seq<Item>, shop: string)
    ensures SingleShopTotal(items, shop) == ReportedTotal(items, AllAt(items, shop))
    decreases |items|
  {
    if items != [] {
      var init := items[..|items| - 1];
      assert AllAt(items, shop)[..|items| - 1] == AllAt(init, shop);
      SingleShopIsReported(init, shop);
    }
  }

  /** Buying everything at one listed store is a solution wherever it is allowed. */
  lemma AllAtFeasible(p: Pricing, items: seq<Item>, shops: seq<string>, shop: string)
    requires shop in shops && Priced(p, items, AllAt(items, shop))
    ensures Feasible(p, items, shops, AllAt(items, shop))
  {
    WithinPair(UsedShops(AllAt(items, shop)), shop, shop);
  }

  /** The savings are never negative against a store where the whole cart
      may be bought: as written every store qualifies, with `Covering` the
      stores that sell every item (handlers.py:500-504). */
  lemma SavingsNonNegative(p: Pricing, items: seq<Item>, shops: seq<string>, a: seq<string>, shop: string)
    requires Optimal(p, items, shops, a) && NonNegativePrices(items) && shop in shops
    requires p.AsWritten? || forall i :: 0 <= i < |items| ==> shop in items[i].prices
    ensures SingleShopTotal(items, shop) - ReportedTotal(items, a) >= 0
  {
    var b := AllAt(items, shop);
    assert Priced(p, items, b);
    AllAtFeasible(p, items, shops, shop);
    ReportedIsObjective(p, items, a);
    SingleShopIsObjective(p, items, shop);
  }

  /** When the objective may only buy an item where it is sold and prices are
      positive, the report keeps every item at its store and lists exactly
      the stores the assignment uses. */
  lemma CoveringReportsEveryItem(items: seq<Item>, shops: seq<string>, a: seq<string>)
    requires Feasible(Covering, items, shops, a)
    requires forall i, s :: 0 <= i < |items| && s in items[i].prices ==> items[i].prices[s] > 0
    requires forall i :: 0 <= i < |items| ==> items[i].quantity > 0
    ensures forall i :: 0 <= i < |items| ==> a[i] in items[i].prices && ReportedCost(items[i], a[i]) > 0
    ensures ReportedTotal(items, a) == Objective(Covering, items, a)
    ensures forall s :: ShopCost(items, a, s) > 0 <==> s in UsedShops(a)
  {
    forall i | 0 <= i < |items|
      ensures a[i] in items[i].prices && ReportedCost(items[i], a[i]) > 0
    {
      assert LineCost(Covering, items[i], a[i]).Some?;
    }
    ReportedIsObjective(Covering, items, a);
    forall s
      ensures ShopCost(items, a, s) > 0 <==> s in UsedShops(a)
    {
      ShopCostPositive(items, a, s);
    }
  }

  /** With every reported line positive, a store's cost is positive exactly
      when some item goes to it. */
  lemma {:induction false} ShopCostPositive(items: seq<Item>, a: seq<string>, s: string)
    requires |a| == |items| && forall i :: 0 <= i < |items| ==> ReportedCost(items[i], a[i]) > 0
    ensures ShopCost(items, a, s) >= 0
    ensures ShopCost(items, a, s) > 0 <==> s in UsedShops(a)
    decreases |items|
  {
    if items != [] {
      var ai := a[..|a| - 1];
      ShopCostPositive(items[..|items| - 1], ai, s);
      assert UsedShops(a) == UsedShops(ai) + {a[|a| - 1]} by {
        assert forall i :: 0 <= i < |ai| ==> ai[i] == a[i];
        assert a[|a| - 1] in UsedShops(a);
      }
    }
  }

  /** Bread is sold only at store "A", salt only at store "B". */
  const Bread := Item("хлеб", 1, map["A" := 50])
  const Salt := Item("соль", 1, map["B" := 30])
  const BreadAndSalt: seq<Item> := [Bread, Salt]
  const TwoShops: seq<string> := ["A", "B"]

  /** Buying bread at "B" and salt at "A" costs nothing in the objective. */
  lemma SwappedIsFree(items: seq<Item>, shops: seq<string>)
    requires items == BreadAndSalt && shops == TwoShops
    ensures Feasible(AsWritten, items, shops, ["B", "A"])
    ensures Objective(AsWritten, items, ["B", "A"]) == 0
  {
    var b := ["B", "A"];
    WithinPair(UsedShops(b), "A", "B");
    assert GetOrZero(Bread.prices, "B") == 0 && GetOrZero(Salt.prices, "A") == 0;
    assert Priced(AsWritten, items, b);
    ObjectiveOfTwo(AsWritten, items, b);
  }

  /** The objective of any two-item assignment, spelt out. */
  lemma ObjectiveOfTwo(p: Pricing, items: seq<Item>, a: seq<string>)
    requires |items| == 2 && Priced(p, items, a)
    ensures Objective(p, items, a) ==
            LineCost(p, items[0], a[0]).value + LineCost(p, items[1], a[1]).value
  {
    var i1, a1 := items[..1], a[..1];
    PricedPrefix(p, items, a);
    PricedPrefix(p, i1, a1);
    assert Objective(p, items, a) == Objective(p, i1, a1) + LineCost(p, items[1], a[1]).value;
    assert Objective(p, i1, a1) == Objective(p, i1[..0], a1[..0]) + LineCost(p, items[0], a[0]).value;
  }

  /** As written, every optimal assignment for bread and salt sends each to
      the store that does not sell it, so the report drops both items and no
      store has a positive cost: the bot says it found no distribution. */
  lemma AsWrittenDropsEveryItem(items: seq<Item>, shops: seq<string>, a: seq<string>)
    requires items == BreadAndSalt && shops == TwoShops
    requires Optimal(AsWritten, items, shops, a)
    ensures a == ["B", "A"]
    ensures ReportedTotal(items, a) == 0
    ensures forall s :: ShopCost(items, a, s) == 0
  {
    SwappedIsFree(items, shops);
    ObjectiveOfTwo(AsWritten, items, a);
    assert GetOrZero(Bread.prices, a[0]) >= 0 && GetOrZero(Salt.prices, a[1]) >= 0;
    assert a[0] == "B" by {
      assert a[0] in shops;
      assert a[0] != "A";
    }
    assert a[1] == "A" by {
      assert a[1] in shops;
      assert a[1] != "B";
    }
    assert a == ["B", "A"];
    TwoLinesReported(items, a);
  }

  lemma TwoLinesReported(items: seq<Item>, a: seq<string>)
    requires items == BreadAndSalt && a == ["B", "A"]
    ensures ReportedTotal(items, a) == 0
    ensures forall s :: ShopCost(items, a, s) == 0
  {
    assert ReportedCost(Bread, "B") == 0 && ReportedCost(Salt, "A") == 0;
    ReportedOfTwo(items, a);
    forall s
      ensures ShopCost(items, a, s) == 0
    {
      ShopCostOfTwo(items, a, s);
    }
  }

  /** The report's total and store costs of any two-item assignment, spelt out. */
  lemma ReportedOfTwo(items: seq<Item>, a: seq<string>)
    requires |items| == 2 && |a| == 2
    ensures ReportedTotal(items, a) == ReportedCost(items[0], a[0]) + ReportedCost(items[1], a[1])
  {
    var i1, a1 := items[..1], a[..1];
    assert ReportedTotal(i1, a1) == ReportedTotal(i1[..0], a1[..0]) + ReportedCost(items[0], a[0]);
  }

  lemma ShopCostOfTwo(items: seq<Item>, a: seq<string>, s: string)
    requires |items| == 2 && |a| == 2
    ensures ShopCost(items, a, s) ==
            (if a[0] == s then ReportedCost(items[0], s) else 0) +
            (if a[1] == s then ReportedCost(items[1], s) else 0)
  {
    var i1, a1 := items[..1], a[..1];
    assert ShopCost(i1, a1, s) ==
           ShopCost(i1[..0], a1[..0], s) + (if a[0] == s then ReportedCost(items[0], s) else 0);
  }

  /** With `Covering` the optimum buys bread at "A" and salt at "B", and the
      report charges both. */
  lemma CoveringBuysEveryItem(items: seq<Item>, shops: seq<string>, a: seq<string>)
    requires items == BreadAndSalt && shops == TwoShops
    requires Optimal(Covering, items, shops, a)
    ensures a == ["A", "B"]
    ensures ReportedTotal(items, a) == 80
  {
    assert LineCost(Covering, items[0], a[0]).Some? && LineCost(Covering, items[1], a[1]).Some?;
    assert a[0] == "A" && a[1] == "B";
    assert a == ["A", "B"];
    assert ReportedCost(Bread, "A") == 50 && ReportedCost(Salt, "B") == 30;
    ReportedOfTwo(items, a);
  }

  /** `products_in_cart`: the cart lines with price rows, in cart order
      (handlers.py:377-388). */
  function ItemsOf(order: seq<string>, qty: map<string, int>, table: PriceTable): (items: seq<Item>)
    requires forall n :: n in order ==> n in qty
    ensures |items| <= |order|
    ensures forall i :: 0 <= i < |items| ==>
              items[i].name in order && items[i].name in table &&
              items[i].prices == table[items[i].name] && items[i].quantity == qty[items[i].name]
  {
    if order == [] then []
    else
      var init := order[..|order| - 1];
      var n := order[|order| - 1];
      assert forall x :: x in order <==> x in init || x == n;
      ItemsOf(init, qty, table) + (if n in table then [Item(n, qty[n], table[n])] else [])
  }

  /** When no product is missing, every cart line becomes an item, in order. */
  lemma {:induction false} ItemsOfComplete(order: seq<string>, qty: map<string, int>, table: PriceTable)
    requires (forall n :: n in order ==> n in qty) && MissingOf(order, table) == []
    ensures |ItemsOf(order, qty, table)| == |order|
    ensures forall i :: 0 <= i < |order| ==> ItemsOf(order, qty, table)[i].name == order[i]
  {
    if order != [] {
      var init := order[..|order| - 1];
      var n := order[|order| - 1];
      assert forall x :: x in init ==> x in order;
      assert MissingOf(order, table) == MissingOf(init, table) + (if n in table then [] else [n]);
      assert n in table && MissingOf(init, table) == [];
      var items, initItems := ItemsOf(order, qty, table), ItemsOf(init, qty, table);
      assert items == initItems + [Item(n, qty[n], table[n])];
      ItemsOfComplete(init, qty, table);
      forall i | 0 <= i < |order|
        ensures items[i].name == order[i]
      {
        if i < |init| {
          assert items[i] == initItems[i] && order[i] == init[i];
        }
      }
    }
  }

  /** `shops`: every store with a price for some item (handlers.py:401-404). */
  function ShopsOf(items: seq<Item>): (shops: set<string>)
    ensures forall i, s :: 0 <= i < |items| && s in items[i].prices ==> s in shops
  {
    if items == [] then {}
    else ShopsOf(items[..|items| - 1]) + items[|items| - 1].prices.Keys
  }

  lemma {:induction false} ShopsOfAreStores(items: seq<Item>, s: string)
    requires s in ShopsOf(items)
    ensures exists i :: 0 <= i < |items| && s in items[i].prices
  {
    var init := items[..|items| - 1];
    if s in ShopsOf(init) {
      ShopsOfAreStores(init, s);
      var i :| 0 <= i < |init| && s in init[i].prices;
      assert items[i] == init[i];
    }
  }

  /** A non-empty cart whose products all have price rows gives items and
      stores, so the guards at handlers.py:394-396 and 406-408 never fire. */
  lemma GuardsPass(order: seq<string>, qty: map<string, int>, rows: seq<Row>)
    requires order != [] && (forall n :: n in order ==> n in qty)
    requires MissingOf(order, PriceTableOf(rows)) == []
    ensures ItemsOf(order, qty, PriceTableOf(rows)) != []
    ensures ShopsOf(ItemsOf(order, qty, PriceTableOf(rows))) != {}
  {
    var table := PriceTableOf(rows);
    var items := ItemsOf(order, qty, table);
    ItemsOfComplete(order, qty, table);
    PriceTableEntriesNonEmpty(rows, items[0].name);
    var s :| s in items[0].prices;
    assert s in ShopsOf(items);
  }

  /** As written the program always has a solution: everything at one store. */
  lemma AsWrittenAlwaysSolvable(items: seq<Item>, shops: seq<string>)
    requires shops != []
    ensures Feasible(AsWritten, items, shops, AllAt(items, shops[0]))
  {
    AllAtFeasible(AsWritten, items, shops, shops[0]);
  }

  /** The comparison with a single store (handlers.py:495-504). */
  datatype Comparison = Comparison(shop: string, price: int, savings: int)

  /** What `cmd_optimize` answers (handlers.py:355-514). */
  datatype OptOutcome =
    | OptEmptyCart
    | OptMissing(products: seq<string>)
    | NoItems
    | NoShops
    | NoSolution
    | NoDistribution
    | Plan(assignment: seq<string>, total: int, shopCosts: map<string, int>, used: seq<string>,
           comparison: Option<Comparison>)

  /** The comparison names a cheapest store among those with a positive
      single-store total, or is absent when there is none. */
  predicate ComparisonSpec(items: seq<Item>, shops: seq<string>, total: int, c: Option<Comparison>)
  {
    && (c.None? <==> forall s :: s in shops ==> SingleShopTotal(items, s) <= 0)
    && (c.Some? ==>
          && c.value.shop in shops
          && c.value.price == SingleShopTotal(items, c.value.shop) > 0
          && (forall s :: s in shops && SingleShopTotal(items, s) > 0 ==> c.value.price <= SingleShopTotal(items, s))
          && c.value.savings == c.value.price - total)
  }

  /** The items and stores `cmd_optimize` hands to the solver. */
  function CartItems(cart: Lines, rows: seq<Row>): seq<Item>
    requires WellFormed(cart)
  {
    ItemsOf(cart.order, cart.qty, PriceTableOf(rows))
  }

  /** `list(shops)`; the order of a Python set is modelled as sorted order. */
  function ShopList(items: seq<Item>): seq<string>
  {
    SortSet(ShopsOf(items))
  }

  /** `cmd_optimize` on the session's cart and the catalogue rows, with the
      solver's answer given by `Optimize`. */
  method CmdOptimize(p: Pricing, cart: Lines, rows: seq<Row>) returns (r: OptOutcome)
    requires WellFormed(cart)
    ensures r.OptEmptyCart? <==> cart.order == []
    ensures r.OptMissing? <==> cart.order != [] && MissingOf(cart.order, PriceTableOf(rows)) != []
    ensures r.OptMissing? ==> r.products == MissingOf(cart.order, PriceTableOf(rows))
    ensures !r.OptEmptyCart? && !r.OptMissing? ==> SolveSpec(p, CartItems(cart, rows), r)
  {
    if cart.order == [] {
      return OptEmptyCart;
    }
    var table := BuildPriceTable(rows);
    var items, missing := CollectItems(cart.order, cart.qty, table);
    if missing != [] {
      return OptMissing(missing);
    }
    GuardsPass(cart.order, cart.qty, rows);
    r := Solve(p, items);
  }

  /** The loop of handlers.py:380-388: items with price rows, missing names. */
  method CollectItems(order: seq<string>, qty: map<string, int>, table: PriceTable)
      returns (items: seq<Item>, missing: seq<string>)
    requires forall n :: n in order ==> n in qty
    ensures items == ItemsOf(order, qty, table)
    ensures missing == MissingOf(order, table)
  {
    items, missing := [], [];
    for i := 0 to |order|
      invariant CollectedSoFar(order, qty, table, i, items, missing)
    {
      var n := order[i];
      var items', missing' := items, missing;
      if n in table {
        items' := items + [Item(n, qty[n], table[n])];
      } else {
        missing' := missing + [n];
      }
      ItemsStep(order, qty, table, i, items, missing, items', missing');
      items, missing := items', missing';
    }
    assert order[..|order|] == order;
  }

  ghost predicate CollectedSoFar(order: seq<string>, qty: map<string, int>, table: PriceTable, i: int,
                                 items: seq<Item>, missing: seq<string>)
  {
    && 0 <= i <= |order| && (forall n :: n in order ==> n in qty)
    && items == ItemsOf(order[..i], qty, table)
    && missing == MissingOf(order[..i], table)
  }

  /** What `cmd_optimize` answers once the cart's items are known. */
  ghost predicate SolveSpec(p: Pricing, items: seq<Item>, r: OptOutcome)
  {
    var shops := ShopList(items);
    && !r.OptEmptyCart? && !r.OptMissing?
    && (r.NoItems? <==> items == [])
    && (r.NoShops? <==> items != [] && shops == [])
    && (r.NoSolution? ==> p.Covering? && forall a :: !Feasible(p, items, shops, a))
    && (r.NoDistribution? ==>
          exists a :: Optimal(p, items, shops, a) && forall s :: s in shops ==> ShopCost(items, a, s) <= 0)
    && (r.Plan? ==> PlanSpec(p, items, r))
    && (items != [] && shops != [] && !r.NoSolution? ==> r.NoDistribution? || r.Plan?)
  }

  /** The solver call, the report and the comparison (handlers.py:394-509). */
  method Solve(p: Pricing, items: seq<Item>) returns (r: OptOutcome)
    ensures SolveSpec(p, items, r)
  {
    if items == [] {
      return NoItems;
    }
    var shops := ShopList(items);
    if shops == [] {
      return NoShops;
    }
    var best := Optimize(p, items, shops);
    if best.None? {
      assert p.Covering? by {
        if p.AsWritten? {
          AsWrittenAlwaysSolvable(items, shops);
        }
      }
      return NoSolution;
    }
    var a := best.value;
    var total, shopCosts, used := Report(items, shops, a);
    if used == [] {
      forall s | s in shops
        ensures ShopCost(items, a, s) <= 0
      {
        assert s in shopCosts && s !in used;
      }
      return NoDistribution;
    }
    var single := SingleShopPrices(items, shops);
    var comparison: Option<Comparison> := None;
    if single != map[] {
      var m := Cheapest(single);
      comparison := Some(Comparison(m, single[m], single[m] - total));
    }
    r := Plan(a, total, shopCosts, used, comparison);
  }

  /** A plan reports an optimal assignment with the report's bookkeeping and
      the single-store comparison. */
  ghost predicate PlanSpec(p: Pricing, items: seq<Item>, r: OptOutcome)
    requires r.Plan?
  {
    var shops := ShopList(items);
    var a := r.assignment;
    && Optimal(p, items, shops, a)
    && r.total == ReportedTotal(items, a)
    && (forall s :: s in r.shopCosts <==> s in shops)
    && (forall s :: s in r.shopCosts ==> r.shopCosts[s] == ShopCost(items, a, s))
    && r.used == PositiveShops(shops, r.shopCosts) && r.used != []
    && ComparisonSpec(items, shops, r.total, r.comparison)
  }

  lemma ItemsStep(order: seq<string>, qty: map<string, int>, table: PriceTable, i: int,
                  items: seq<Item>, missing: seq<string>, items': seq<Item>, missing': seq<string>)
    requires CollectedSoFar(order, qty, table, i, items, missing) && i < |order|
    requires var n := order[i];
      if n in table then items' == items + [Item(n, qty[n], table[n])] && missing' == missing
      else items' == items && missing' == missing + [n]
    ensures CollectedSoFar(order, qty, table, i + 1, items', missing')
  {
    var pre := order[..i + 1];
    assert pre[..|pre| - 1] == order[..i] && pre[|pre| - 1] == order[i];
    assert forall n :: n in pre ==> n in order;
  }
}
