/** Per-store totals of a cart, as `cmd_calculate` computes them.

    The price table maps a product name to the stores that sell it and the
    lowest price each asks. For every cart line, in cart order, each store
    selling the product is charged price × quantity; products without any
    price row are collected, in cart order, and reported instead of totals.
    The store named as cheapest has a minimal total. */
module Totals {
  import opened Catalog
  import opened ShoppingCart

  type PriceTable = map<string, map<string, int>>

  /** The cart products the price table does not know, in cart order. */
  function MissingOf(order: seq<string>, table: PriceTable): (m: seq<string>)
    ensures forall n :: n in m <==> n in order && n !in table
    ensures |m| <= |order|
  {
    if order == [] then []
    else
      var init := MissingOf(order[..|order| - 1], table);
      var n := order[|order| - 1];
      assert forall x :: x in order <==> x in order[..|order| - 1] || x == n;
      if n in table then init else init + [n]
  }

  /** Missing products are listed in the order of the cart. */
  lemma {:induction false} MissingOfAppend(a: seq<string>, b: seq<string>, table: PriceTable)
    ensures MissingOf(a + b, table) == MissingOf(a, table) + MissingOf(b, table)
    decreases |b|
  {
    if b == [] {
      assert a + b == a;
    } else {
      var b', n := b[..|b| - 1], b[|b| - 1];
      var tail := if n in table then [] else [n];
      assert (a + b)[..|a + b| - 1] == a + b' && (a + b)[|a + b| - 1] == n;
      assert MissingOf(a + b, table) == MissingOf(a + b', table) + tail;
      assert MissingOf(b, table) == MissingOf(b', table) + tail;
      MissingOfAppend(a, b', table);
      assert MissingOf(a, table) + MissingOf(b', table) + tail ==
             MissingOf(a, table) + (MissingOf(b', table) + tail);
    }
  }

  /** The stores that sell at least one of the listed products. */
  function StoresOf(order: seq<string>, table: PriceTable): set<string>
  {
    if order == [] then {}
    else
      var n := order[|order| - 1];
      StoresOf(order[..|order| - 1], table) + (if n in table then table[n].Keys else {})
  }

  /** A store is in `StoresOf` exactly when it sells some listed product. */
  lemma {:induction false} StoresOfMeaning(order: seq<string>, table: PriceTable, s: string)
    ensures s in StoresOf(order, table) <==>
            exists i :: 0 <= i < |order| && order[i] in table && s in table[order[i]]
  {
    if order != [] {
      var init := order[..|order| - 1];
      StoresOfMeaning(init, table, s);
      if s in StoresOf(init, table) {
        var i :| 0 <= i < |init| && init[i] in table && s in table[init[i]];
        assert order[i] == init[i];
      }
      if exists i :: 0 <= i < |order| && order[i] in table && s in table[order[i]] {
        var i :| 0 <= i < |order| && order[i] in table && s in table[order[i]];
        if i < |init| {
          assert init[i] == order[i];
        }
      }
    }
  }

  /** What store `s` charges for the listed products: price × quantity summed
      over the products it sells (handlers.py:317-322). */
  function StoreTotal(order: seq<string>, qty: map<string, int>, table: PriceTable, s: string): int
    requires forall n :: n in order ==> n in qty
  {
    if order == [] then 0
    else
      var n := order[|order| - 1];
      StoreTotal(order[..|order| - 1], qty, table, s) +
      (if n in table && s in table[n] then table[n][s] * qty[n] else 0)
  }

  /** A store that sells none of the listed products totals zero. */
  lemma {:induction false} StoreTotalOutside(order: seq<string>, qty: map<string, int>, table: PriceTable, s: string)
    requires forall n :: n in order ==> n in qty
    requires s !in StoresOf(order, table)
    ensures StoreTotal(order, qty, table, s) == 0
  {
    if order != [] {
      StoreTotalOutside(order[..|order| - 1], qty, table, s);
    }
  }

  /** The `shop_prices` dict of `cmd_calculate`: one total per store that sells
      some cart product. */
  function ShopPricesOf(order: seq<string>, qty: map<string, int>, table: PriceTable): (m: map<string, int>)
    requires forall n :: n in order ==> n in qty
    ensures m.Keys == StoresOf(order, table)
  {
    map s | s in StoresOf(order, table) :: StoreTotal(order, qty, table, s)
  }

  /** `s` has the lowest total: `min(shop_prices, key=shop_prices.get)`. */
  predicate IsCheapest(s: string, prices: map<string, int>)
  {
    s in prices && forall t :: t in prices ==> prices[s] <= prices[t]
  }

  /** What `cmd_calculate` answers (handlers.py:293-352). */
  datatype CalcOutcome =
    | EmptyCart
    | Missing(products: seq<string>)
    | NoPrices
    | StoreTotals(shopPrices: map<string, int>, cheapest: string)

  lemma ExtendLine(order: seq<string>, qty: map<string, int>, table: PriceTable, i: int)
    requires forall n :: n in order ==> n in qty
    requires 0 <= i < |order|
    ensures forall n :: n in order[..i] ==> n in qty
    ensures forall n :: n in order[..i + 1] ==> n in qty
    ensures StoresOf(order[..i + 1], table) ==
            StoresOf(order[..i], table) + (if order[i] in table then table[order[i]].Keys else {})
    ensures MissingOf(order[..i + 1], table) ==
            MissingOf(order[..i], table) + (if order[i] in table then [] else [order[i]])
    ensures forall s {:trigger StoreTotal(order[..i + 1], qty, table, s)} ::
              StoreTotal(order[..i + 1], qty, table, s) ==
              StoreTotal(order[..i], qty, table, s) +
              (if order[i] in table && s in table[order[i]] then table[order[i]][s] * qty[order[i]] else 0)
  {
    assert order[..i + 1][..i] == order[..i];
  }

  /** Charges every store that sells product `n` its price × `q`. */
  method ChargeStores(shop: map<string, int>, stores: map<string, int>, q: int) returns (shop': map<string, int>)
    ensures shop'.Keys == shop.Keys + stores.Keys
    ensures forall s :: s in shop' ==>
              shop'[s] == (if s in shop then shop[s] else 0) + (if s in stores then stores[s] * q else 0)
  {
    shop' := shop;
    var left := stores.Keys;
    while left != {}
      invariant ChargedSoFar(shop, stores, q, shop', left)
      decreases |left|
    {
      var s :| s in left;
      var next := if s in shop' then shop'[s := shop'[s] + stores[s] * q] else shop'[s := stores[s] * q];
      ChargeStep(shop, stores, q, shop', left, s, next);
      shop', left := next, left - {s};
    }
    ChargeDone(shop, stores, q, shop');
  }

  /** The stores of `stores` outside `left` are charged, the others not yet. */
  ghost predicate ChargedSoFar(shop: map<string, int>, stores: map<string, int>, q: int, cur: map<string, int>, left: set<string>)
  {
    && left <= stores.Keys
    && cur.Keys == shop.Keys + (stores.Keys - left)
    && forall s :: s in cur ==>
         cur[s] == (if s in shop then shop[s] else 0) + (if s in stores && s !in left then stores[s] * q else 0)
  }

  lemma ChargeStep(shop: map<string, int>, stores: map<string, int>, q: int, cur: map<string, int>, left: set<string>, s: string, next: map<string, int>)
    requires ChargedSoFar(shop, stores, q, cur, left) && s in left
    requires next == if s in cur then cur[s := cur[s] + stores[s] * q] else cur[s := stores[s] * q]
    ensures ChargedSoFar(shop, stores, q, next, left - {s})
  {
    assert next.Keys == cur.Keys + {s};
  }

  lemma ChargeDone(shop: map<string, int>, stores: map<string, int>, q: int, cur: map<string, int>)
    requires ChargedSoFar(shop, stores, q, cur, {})
    ensures cur.Keys == shop.Keys + stores.Keys
    ensures forall s :: s in cur ==>
              cur[s] == (if s in shop then shop[s] else 0) + (if s in stores then stores[s] * q else 0)
  {
  }

  /** `cmd_calculate` on the session's cart and the catalogue rows. */
  method Calculate(cart: Lines, rows: seq<Row>) returns (r: CalcOutcome)
    requires WellFormed(cart)
    ensures r.EmptyCart? <==> cart.order == []
    ensures r.Missing? <==> cart.order != [] && MissingOf(cart.order, PriceTableOf(rows)) != []
    ensures r.Missing? ==> r.products == MissingOf(cart.order, PriceTableOf(rows))
    ensures r.NoPrices? <==>
              cart.order != [] && MissingOf(cart.order, PriceTableOf(rows)) == [] &&
              StoresOf(cart.order, PriceTableOf(rows)) == {}
    ensures r.StoreTotals? ==>
              r.shopPrices == ShopPricesOf(cart.order, cart.qty, PriceTableOf(rows)) &&
              IsCheapest(r.cheapest, r.shopPrices)
  {
    if cart.order == [] {
      return EmptyCart;
    }
    var table := BuildPriceTable(rows);
    var order, qty := cart.order, cart.qty;
    var shop: map<string, int> := map[];
    var missing: seq<string> := [];
    var i := 0;
    while i < |order|
      invariant 0 <= i <= |order|
      invariant TotalsSoFar(order, qty, table, i, shop, missing)
    {
      var n := order[i];
      var shop', missing' := shop, missing;
      if n in table {
        shop' := ChargeStores(shop, table[n], qty[n]);
      } else {
        missing' := missing + [n];
      }
      LineStep(order, qty, table, i, shop, missing, shop', missing');
      shop, missing, i := shop', missing', i + 1;
    }
    LinesDone(order, qty, table, shop, missing);
    if missing != [] {
      return Missing(missing);
    }
    if shop == map[] {
      return NoPrices;
    }
    var cheapest := Cheapest(shop);
    r := StoreTotals(shop, cheapest);
  }

  /** After the last cart line the loop has computed the missing products and
      the `shop_prices` the specification describes. */
  lemma LinesDone(order: seq<string>, qty: map<string, int>, table: PriceTable, shop: map<string, int>, missing: seq<string>)
    requires TotalsSoFar(order, qty, table, |order|, shop, missing)
    ensures missing == MissingOf(order, table)
    ensures shop.Keys == StoresOf(order, table)
    ensures shop == ShopPricesOf(order, qty, table)
  {
    assert order[..|order|] == order;
  }

  /** After the first `i` cart lines: the products missing so far, and a total
      for every store selling one of them. */
  ghost predicate TotalsSoFar(order: seq<string>, qty: map<string, int>, table: PriceTable, i: int,
                              shop: map<string, int>, missing: seq<string>)
  {
    && 0 <= i <= |order|
    && (forall n :: n in order ==> n in qty)
    && missing == MissingOf(order[..i], table)
    && shop.Keys == StoresOf(order[..i], table)
    && (forall s :: s in shop ==> shop[s] == StoreTotal(order[..i], qty, table, s))
  }

  /** One iteration of the loop over the cart lines (handlers.py:317-326). */
  lemma LineStep(order: seq<string>, qty: map<string, int>, table: PriceTable, i: int,
                 shop: map<string, int>, missing: seq<string>, shop': map<string, int>, missing': seq<string>)
    requires TotalsSoFar(order, qty, table, i, shop, missing) && i < |order|
    requires order[i] in table ==>
               && missing' == missing
               && shop'.Keys == shop.Keys + table[order[i]].Keys
               && forall s :: s in shop' ==>
                    shop'[s] == (if s in shop then shop[s] else 0) +
                                (if s in table[order[i]] then table[order[i]][s] * qty[order[i]] else 0)
    requires order[i] !in table ==> shop' == shop && missing' == missing + [order[i]]
    ensures TotalsSoFar(order, qty, table, i + 1, shop', missing')
  {
    ExtendLine(order, qty, table, i);
    var n := order[i];
    if n in table {
      forall s | s in shop'
        ensures shop'[s] == StoreTotal(order[..i + 1], qty, table, s)
      {
        if s !in shop {
          StoreTotalOutside(order[..i], qty, table, s);
        }
      }
    }
  }

  /** A store with the lowest total. */
  method Cheapest(prices: map<string, int>) returns (best: string)
    requires prices != map[]
    ensures IsCheapest(best, prices)
  {
    var left := prices.Keys;
    best :| best in left;
    left := left - {best};
    while left != {}
      invariant left <= prices.Keys && best in prices
      invariant forall t :: t in prices && t !in left ==> prices[best] <= prices[t]
      decreases |left|
    {
      var s :| s in left;
      if prices[s] < prices[best] {
        best := s;
      }
      left := left - {s};
    }
  }

  /** With prices taken from the catalogue, a non-empty cart whose products all
      have price rows always gets totals: the "could not compute" reply never
      happens. */
  lemma PricedCartHasStores(order: seq<string>, rows: seq<Row>)
    requires order != [] && MissingOf(order, PriceTableOf(rows)) == []
    ensures StoresOf(order, PriceTableOf(rows)) != {}
  {
    var table := PriceTableOf(rows);
    var n := order[0];
    assert n in order && n !in MissingOf(order, table);
    PriceTableEntriesNonEmpty(rows, n);
    var s :| s in table[n];
    StoresOfMeaning(order, table, s);
  }

  /** A store's total grows by price × quantity when a product it sells is
      added to the cart, and is unchanged by one it does not sell. */
  lemma StoreTotalAfterAdd(c: Lines, name: string, q: int, table: PriceTable, s: string)
    requires WellFormed(c) && q > 0 && name !in c.qty
    ensures WellFormed(WithAdded(c, name, q))
    ensures StoreTotal(WithAdded(c, name, q).order, WithAdded(c, name, q).qty, table, s) ==
            StoreTotal(c.order, c.qty, table, s) + (if name in table && s in table[name] then table[name][s] * q else 0)
  {
    var a := WithAdded(c, name, q);
    assert a.order[..|a.order| - 1] == c.order;
    StoreTotalSameQty(c.order, c.qty, a.qty, table, s);
  }

  /** A store's total depends only on the quantities of the listed products. */
  lemma {:induction false} StoreTotalSameQty(order: seq<string>, qty1: map<string, int>, qty2: map<string, int>, table: PriceTable, s: string)
    requires forall n :: n in order ==> n in qty1 && n in qty2 && qty1[n] == qty2[n]
    ensures StoreTotal(order, qty1, table, s) == StoreTotal(order, qty2, table, s)
  {
    if order != [] {
      StoreTotalSameQty(order[..|order| - 1], qty1, qty2, table, s);
    }
  }
}
