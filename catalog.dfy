/** The catalog index built from the product rows of the database.

    `process_product_name` groups every raw product name under its normalized
    key (`grouped_products`, a dict of sets whose keys keep their first
    insertion order), and `cmd_calculate` and `cmd_optimize` both build
    `price_dict`, the lowest price seen for each (name, store) pair. Both are
    loops over the rows that update a dict in place; each is a method proved
    against a fold over the rows, and the fold's meaning is proved as lemmas. */
module Catalog {
  import opened Normalizer

  /** A `Product` row: raw product name, store name and price (in kopecks). */
  datatype Row = Row(name: string, store: string, price: int)

  /** `grouped_products` after the loop has seen `rows`, grouping by `key`
      (the bot's key is `Normalize`). */
  function GroupsOf(rows: seq<Row>, key: string -> string): map<string, set<string>>
  {
    if rows == [] then map[]
    else
      var g := GroupsOf(rows[..|rows| - 1], key);
      var r := rows[|rows| - 1];
      var k := key(r.name);
      g[k := (if k in g then g[k] else {}) + {r.name}]
  }

  /** The keys of `grouped_products` in insertion order: each key once, at
      the position of its first row. */
  function KeyOrderOf(rows: seq<Row>, key: string -> string): (order: seq<string>)
    ensures forall i, j :: 0 <= i < j < |order| ==> order[i] != order[j]
    ensures forall k :: k in order <==> k in GroupsOf(rows, key)
  {
    if rows == [] then []
    else
      var order := KeyOrderOf(rows[..|rows| - 1], key);
      var k := key(rows[|rows| - 1].name);
      if k in order then order else order + [k]
  }

  /** Some row has the raw name `n`. */
  predicate NameInRows(rows: seq<Row>, n: string)
  {
    exists i :: 0 <= i < |rows| && rows[i].name == n
  }

  /** The raw names of `rows`. */
  function Names(rows: seq<Row>): set<string>
  {
    if rows == [] then {} else Names(rows[..|rows| - 1]) + {rows[|rows| - 1].name}
  }

  /** `Names` holds exactly the names of the rows. */
  lemma {:induction false} NamesOfRows(rows: seq<Row>, n: string)
    ensures n in Names(rows) <==> NameInRows(rows, n)
  {
    if rows != [] {
      NamesOfRows(rows[..|rows| - 1], n);
      NameSnoc(rows, n);
    }
  }

  lemma NameSnoc(rows: seq<Row>, n: string)
    requires rows != []
    ensures NameInRows(rows, n) <==> NameInRows(rows[..|rows| - 1], n) || rows[|rows| - 1].name == n
  {
    var prefix := rows[..|rows| - 1];
    if NameInRows(rows, n) && rows[|rows| - 1].name != n {
      var i :| 0 <= i < |rows| && rows[i].name == n;
      assert prefix[i].name == n;
    }
    if NameInRows(prefix, n) {
      var i :| 0 <= i < |prefix| && prefix[i].name == n;
      assert rows[i].name == n;
    }
  }

  /** What `grouped_products` holds: every row's name sits in the group of
      its key, every member of a group is the name of a row and has that
      group's key, and no group is empty. */
  ghost predicate GroupsSpec(rows: seq<Row>, key: string -> string, groups: map<string, set<string>>)
  {
    && (forall n :: n in Names(rows) ==> key(n) in groups && n in groups[key(n)])
    && (forall k, n :: k in groups && n in groups[k] ==> key(n) == k && n in Names(rows))
    && (forall k :: k in groups ==> groups[k] != {})
  }

  lemma {:induction false} GroupsOfMeaning(rows: seq<Row>, key: string -> string)
    ensures GroupsSpec(rows, key, GroupsOf(rows, key))
  {
    if rows != [] {
      GroupsOfMeaning(rows[..|rows| - 1], key);
      GroupsStep(rows, key);
    }
  }

  /** The step of `GroupsOfMeaning`: one more row keeps the description true. */
  lemma GroupsStep(rows: seq<Row>, key: string -> string)
    requires rows != [] && GroupsSpec(rows[..|rows| - 1], key, GroupsOf(rows[..|rows| - 1], key))
    ensures GroupsSpec(rows, key, GroupsOf(rows, key))
  {
    var prefix, r := rows[..|rows| - 1], rows[|rows| - 1];
    var g, k := GroupsOf(prefix, key), key(r.name);
    var groups := GroupsOf(rows, key);
    assert groups == g[k := (if k in g then g[k] else {}) + {r.name}];
    assert Names(rows) == Names(prefix) + {r.name};
  }

  /** One more row adds its name to the group of its key, creating the
      group (at the end of the key order) when the key is new. */
  lemma GroupsOfSnoc(rows: seq<Row>, i: int, key: string -> string)
    requires 0 <= i < |rows|
    ensures var g, k := GroupsOf(rows[..i], key), key(rows[i].name);
      GroupsOf(rows[..i + 1], key) == g[k := (if k in g then g[k] else {}) + {rows[i].name}]
    ensures var order, k := KeyOrderOf(rows[..i], key), key(rows[i].name);
      KeyOrderOf(rows[..i + 1], key) == if k in GroupsOf(rows[..i], key) then order else order + [k]
  {
    assert rows[..i + 1][..i] == rows[..i];
  }

  /** Every raw name sits in the group of its key, and in no other group. */
  lemma GroupOfEveryName(rows: seq<Row>, key: string -> string, i: int, k: string)
    requires 0 <= i < |rows|
    ensures key(rows[i].name) in GroupsOf(rows, key)
    ensures rows[i].name in GroupsOf(rows, key)[key(rows[i].name)]
    ensures k in GroupsOf(rows, key) && rows[i].name in GroupsOf(rows, key)[k] ==> k == key(rows[i].name)
  {
    GroupsOfMeaning(rows, key);
    assert NameInRows(rows, rows[i].name);
    NamesOfRows(rows, rows[i].name);
  }

  /** Every name in a group has that group's key and is the name of a row. */
  lemma GroupMembersHaveKey(rows: seq<Row>, key: string -> string, k: string, n: string)
    requires k in GroupsOf(rows, key) && n in GroupsOf(rows, key)[k]
    ensures key(n) == k && NameInRows(rows, n)
  {
    GroupsOfMeaning(rows, key);
    NamesOfRows(rows, n);
  }

  /** Rows that all occur among `rows2` give groups contained in those of `rows2`. */
  lemma GroupsGrowWithRows(rows1: seq<Row>, rows2: seq<Row>, key: string -> string)
    requires forall r :: r in rows1 ==> r in rows2
    ensures forall k :: k in GroupsOf(rows1, key) ==> k in GroupsOf(rows2, key) && GroupsOf(rows1, key)[k] <= GroupsOf(rows2, key)[k]
  {
    var g1, g2 := GroupsOf(rows1, key), GroupsOf(rows2, key);
    GroupsOfMeaning(rows1, key);
    GroupsOfMeaning(rows2, key);
    forall k | k in g1 ensures k in g2 && g1[k] <= g2[k] {
      forall n | n in g1[k] ensures k in g2 && n in g2[k] {
        NamesOfRows(rows1, n);
        var i :| 0 <= i < |rows1| && rows1[i].name == n;
        assert rows1[i] in rows2;
        var j :| 0 <= j < |rows2| && rows2[j] == rows1[i];
        assert NameInRows(rows2, n);
        NamesOfRows(rows2, n);
      }
      var n :| n in g1[k];
    }
  }

  /** The groups depend only on which rows there are, not on their order or
      repetition: rebuilding from the same rows gives the same index. */
  lemma GroupsIgnoreRowOrder(rows1: seq<Row>, rows2: seq<Row>, key: string -> string)
    requires forall r :: r in rows1 <==> r in rows2
    ensures GroupsOf(rows1, key) == GroupsOf(rows2, key)
  {
    GroupsGrowWithRows(rows1, rows2, key);
    GroupsGrowWithRows(rows2, rows1, key);
    var g1, g2 := GroupsOf(rows1, key), GroupsOf(rows2, key);
    assert g1.Keys == g2.Keys;
    forall k | k in g1 ensures g1[k] == g2[k] {
      assert g1[k] <= g2[k] && g2[k] <= g1[k];
    }
  }

  /** The grouping loop of `process_product_name`. */
  method GroupByKey(rows: seq<Row>, key: string -> string) returns (order: seq<string>, groups: map<string, set<string>>)
    ensures groups == GroupsOf(rows, key) && order == KeyOrderOf(rows, key)
    ensures GroupsSpec(rows, key, groups)
  {
    order, groups := [], map[];
    var i := 0;
    while i < |rows|
      invariant 0 <= i <= |rows|
      invariant groups == GroupsOf(rows[..i], key) && order == KeyOrderOf(rows[..i], key)
    {
      var k := key(rows[i].name);
      GroupsOfSnoc(rows, i, key);
      if k !in groups {
        assert {} + {rows[i].name} == {rows[i].name};
        groups := groups[k := {rows[i].name}];
        order := order + [k];
      } else {
        groups := groups[k := groups[k] + {rows[i].name}];
      }
      i := i + 1;
    }
    assert rows[..i] == rows;
    GroupsOfMeaning(rows, key);
  }

  /** `price_dict` after the first `|rows|` iterations of its loop. */
  function PriceTableOf(rows: seq<Row>): map<string, map<string, int>>
  {
    if rows == [] then map[]
    else
      var t := PriceTableOf(rows[..|rows| - 1]);
      var r := rows[|rows| - 1];
      var byStore := if r.name in t then t[r.name] else map[];
      var price := if r.store in byStore then Min(byStore[r.store], r.price) else r.price;
      t[r.name := byStore[r.store := price]]
  }

  function Min(a: int, b: int): (m: int)
    ensures m <= a && m <= b && (m == a || m == b)
  {
    if a <= b then a else b
  }

  /** Some row offers product `n` at store `s`. */
  predicate PairInRows(rows: seq<Row>, n: string, s: string)
  {
    exists i :: 0 <= i < |rows| && rows[i].name == n && rows[i].store == s
  }

  /** What `price_dict` holds: an entry for exactly the pairs that occur in
      the rows, and for each the lowest of their prices. */
  ghost predicate PriceTableSpec(rows: seq<Row>, table: map<string, map<string, int>>)
  {
    && (forall n :: n in table <==> NameInRows(rows, n))
    && (forall n, s :: n in table ==> (s in table[n] <==> PairInRows(rows, n, s)))
    && (forall n, s, i :: n in table && s in table[n] && 0 <= i < |rows| && rows[i].name == n && rows[i].store == s
          ==> table[n][s] <= rows[i].price)
    && (forall n, s :: n in table && s in table[n] ==>
          exists i :: 0 <= i < |rows| && rows[i].name == n && rows[i].store == s && rows[i].price == table[n][s])
  }

  lemma {:induction false} PriceTableOfMeaning(rows: seq<Row>)
    ensures PriceTableSpec(rows, PriceTableOf(rows))
  {
    if rows != [] {
      PriceTableOfMeaning(rows[..|rows| - 1]);
      var t' := PriceTableOf(rows);
      forall n ensures n in t' <==> NameInRows(rows, n) {
        NameSnoc(rows, n);
      }
      forall n, s | n in t' ensures s in t'[n] <==> PairInRows(rows, n, s) {
        PricePairStep(rows, n, s);
      }
      forall n, s, i | n in t' && s in t'[n] && 0 <= i < |rows| && rows[i].name == n && rows[i].store == s
        ensures t'[n][s] <= rows[i].price
      {
        PriceLowerStep(rows, n, s, i);
      }
      forall n, s | n in t' && s in t'[n]
        ensures exists i :: 0 <= i < |rows| && rows[i].name == n && rows[i].store == s && rows[i].price == t'[n][s]
      {
        PriceWitnessStep(rows, n, s);
      }
    } else {
      assert forall n :: !NameInRows(rows, n);
    }
  }

  /** `PriceTableOf` on one more row, written out. */
  lemma PriceTableSnoc(rows: seq<Row>)
    requires rows != []
    ensures var t, r := PriceTableOf(rows[..|rows| - 1]), rows[|rows| - 1];
      var byStore := if r.name in t then t[r.name] else map[];
      PriceTableOf(rows) == t[r.name := byStore[r.store := if r.store in byStore then Min(byStore[r.store], r.price) else r.price]]
  {
  }

  lemma PricePairStep(rows: seq<Row>, n: string, s: string)
    requires rows != [] && PriceTableSpec(rows[..|rows| - 1], PriceTableOf(rows[..|rows| - 1]))
    requires n in PriceTableOf(rows)
    ensures s in PriceTableOf(rows)[n] <==> PairInRows(rows, n, s)
  {
    var prefix, r := rows[..|rows| - 1], rows[|rows| - 1];
    PriceTableSnoc(rows);
    PairSnoc(rows, n, s);
    PairHasName(prefix, n, s);
  }

  lemma PairHasName(rows: seq<Row>, n: string, s: string)
    ensures PairInRows(rows, n, s) ==> NameInRows(rows, n)
  {
    if PairInRows(rows, n, s) {
      var i :| 0 <= i < |rows| && rows[i].name == n && rows[i].store == s;
      assert rows[i].name == n;
    }
  }

  lemma PairSnoc(rows: seq<Row>, n: string, s: string)
    requires rows != []
    ensures PairInRows(rows, n, s) <==>
      PairInRows(rows[..|rows| - 1], n, s) || (rows[|rows| - 1].name == n && rows[|rows| - 1].store == s)
  {
    var prefix := rows[..|rows| - 1];
    if PairInRows(rows, n, s) && !(rows[|rows| - 1].name == n && rows[|rows| - 1].store == s) {
      var i :| 0 <= i < |rows| && rows[i].name == n && rows[i].store == s;
      assert prefix[i] == rows[i];
    }
    if PairInRows(prefix, n, s) {
      var i :| 0 <= i < |prefix| && prefix[i].name == n && prefix[i].store == s;
      assert rows[i] == prefix[i];
    }
  }

  lemma PriceLowerStep(rows: seq<Row>, n: string, s: string, i: int)
    requires rows != [] && PriceTableSpec(rows[..|rows| - 1], PriceTableOf(rows[..|rows| - 1]))
    requires 0 <= i < |rows| && rows[i].name == n && rows[i].store == s
    ensures n in PriceTableOf(rows) && s in PriceTableOf(rows)[n] && PriceTableOf(rows)[n][s] <= rows[i].price
  {
    var prefix := rows[..|rows| - 1];
    if i < |prefix| {
      assert prefix[i] == rows[i];
      SpecLower(prefix, PriceTableOf(prefix), n, s, i);
      PriceKeptLower(rows, n, s, i);
    } else {
      assert i == |rows| - 1;
      PriceLastRow(rows);
    }
  }

  lemma SpecLower(rows: seq<Row>, table: map<string, map<string, int>>, n: string, s: string, i: int)
    requires PriceTableSpec(rows, table)
    requires 0 <= i < |rows| && rows[i].name == n && rows[i].store == s
    ensures n in table && s in table[n] && table[n][s] <= rows[i].price
  {
    assert NameInRows(rows, n);
    assert PairInRows(rows, n, s);
  }

  /** A stored price that was at most an earlier row's price stays so. */
  lemma PriceKeptLower(rows: seq<Row>, n: string, s: string, i: int)
    requires rows != [] && 0 <= i < |rows| - 1
    requires var t := PriceTableOf(rows[..|rows| - 1]);
      n in t && s in t[n] && t[n][s] <= rows[i].price
    ensures n in PriceTableOf(rows) && s in PriceTableOf(rows)[n]
    ensures PriceTableOf(rows)[n][s] <= rows[i].price
  {
    var t, t', r := PriceTableOf(rows[..|rows| - 1]), PriceTableOf(rows), rows[|rows| - 1];
    PriceTableSnoc(rows);
    if n != r.name {
      assert t'[n] == t[n];
    } else if s != r.store {
      assert t'[n] == t[n][r.store := t'[n][r.store]];
    } else {
      assert t'[n][s] == Min(t[n][s], r.price);
    }
  }

  /** The price kept for the pair of the last row is at most that row's price. */
  lemma PriceLastRow(rows: seq<Row>)
    requires rows != []
    ensures var r := rows[|rows| - 1];
      r.name in PriceTableOf(rows) && r.store in PriceTableOf(rows)[r.name] &&
      PriceTableOf(rows)[r.name][r.store] <= r.price
  {
    PriceTableSnoc(rows);
  }

  lemma PriceWitnessStep(rows: seq<Row>, n: string, s: string)
    requires rows != [] && PriceTableSpec(rows[..|rows| - 1], PriceTableOf(rows[..|rows| - 1]))
    requires n in PriceTableOf(rows) && s in PriceTableOf(rows)[n]
    ensures exists i :: 0 <= i < |rows| && rows[i].name == n && rows[i].store == s && rows[i].price == PriceTableOf(rows)[n][s]
  {
    var prefix, r := rows[..|rows| - 1], rows[|rows| - 1];
    var t, t' := PriceTableOf(prefix), PriceTableOf(rows);
    PriceTableSnoc(rows);
    if (n, s) == (r.name, r.store) && (n !in t || s !in t[n] || t'[n][s] == r.price) {
      assert rows[|rows| - 1].price == t'[n][s];
    } else {
      var i :| 0 <= i < |prefix| && prefix[i].name == n && prefix[i].store == s && prefix[i].price == t[n][s];
      assert rows[i] == prefix[i];
    }
  }

  /** The price kept for a pair is at most every row price for that pair and
      equals one of them; pairs without rows have no entry. */
  lemma PriceTableMinimum(rows: seq<Row>, n: string, s: string)
    ensures n in PriceTableOf(rows) && s in PriceTableOf(rows)[n] <==> PairInRows(rows, n, s)
    ensures PairInRows(rows, n, s) ==>
      var p := PriceTableOf(rows)[n][s];
      (forall i :: 0 <= i < |rows| && rows[i].name == n && rows[i].store == s ==> p <= rows[i].price) &&
      (exists i :: 0 <= i < |rows| && rows[i].name == n && rows[i].store == s && rows[i].price == p)
  {
    PriceTableOfMeaning(rows);
    if PairInRows(rows, n, s) {
      var i :| 0 <= i < |rows| && rows[i].name == n && rows[i].store == s;
      assert NameInRows(rows, n);
    }
  }

  /** Every product of the table is offered by at least one store. */
  lemma PriceTableEntriesNonEmpty(rows: seq<Row>, n: string)
    requires n in PriceTableOf(rows)
    ensures PriceTableOf(rows)[n] != map[]
  {
    PriceTableOfMeaning(rows);
    var i :| 0 <= i < |rows| && rows[i].name == n;
    assert PairInRows(rows, n, rows[i].store);
  }

  /** Ingesting one more row never raises a stored minimum: the pair of the
      new row keeps the lower of its old price and the new one, and every
      other pair keeps its entry. */
  lemma IngestKeepsMinimum(rows: seq<Row>, r: Row, n: string, s: string)
    requires n in PriceTableOf(rows) && s in PriceTableOf(rows)[n]
    ensures n in PriceTableOf(rows + [r]) && s in PriceTableOf(rows + [r])[n]
    ensures PriceTableOf(rows + [r])[n][s] ==
      if (n, s) == (r.name, r.store) then Min(PriceTableOf(rows)[n][s], r.price) else PriceTableOf(rows)[n][s]
  {
    assert (rows + [r])[..|rows|] == rows;
  }

  /** The loop that fills `price_dict` in `cmd_calculate` and again in `cmd_optimize`. */
  method BuildPriceTable(rows: seq<Row>) returns (table: map<string, map<string, int>>)
    ensures table == PriceTableOf(rows)
    ensures PriceTableSpec(rows, table)
  {
    table := map[];
    var i := 0;
    while i < |rows|
      invariant 0 <= i <= |rows|
      invariant table == PriceTableOf(rows[..i])
    {
      var product := rows[i];
      assert rows[..i + 1][..i] == rows[..i];
      if product.name !in table {
        table := table[product.name := map[]];
      }
      if product.store !in table[product.name] {
        table := table[product.name := table[product.name][product.store := product.price]];
      } else {
        table := table[product.name := table[product.name][product.store := Min(table[product.name][product.store], product.price)]];
      }
      i := i + 1;
    }
    assert rows[..i] == rows;
    PriceTableOfMeaning(rows);
  }
}
