/**
  The three tables of the inventory database as values.

  Products is kept as its rows in rowid order, which is how SQLite stores a
  table whose key is `INTEGER PRIMARY KEY`; Sales is the sequence of its rows
  in insertion order (a sale's `sale_id` is its position plus one, since sales
  are only ever appended); Users is a map from the `username` primary key to the
  password.  Prices are whole numbers of hundredths of the currency unit.
*/
module Tables {
  import opened Wrappers

  /** A row of Products without its key: (name, category, price, stock). */
  datatype Product = Product(name: string, category: string, price: int, stock: int)

  /** A row of Products: its `product_id` and the rest of its columns. */
  datatype ProductRow = ProductRow(id: int, product: Product)

  /** A row of Sales: (product_id, quantity_sold, date). */
  datatype Sale = Sale(productId: int, quantity: int, date: string)

  /** The rows of a table whose key is `id`, in key order (the shape SQLite keeps). */
  predicate KeysAscending(t: seq<ProductRow>)
  {
    && (forall i :: 0 <= i < |t| ==> t[i].id >= 1)
    && (forall i, j :: 0 <= i < j < |t| ==> t[i].id < t[j].id)
  }

  predicate HasId(t: seq<ProductRow>, id: int)
  {
    exists i :: 0 <= i < |t| && t[i].id == id
  }

  /** `SELECT ... FROM Products WHERE product_id = id`: the first row with that key. */
  function Find(t: seq<ProductRow>, id: int): (r: Option<Product>)
    ensures r.Some? <==> HasId(t, id)
    ensures r.Some? ==> exists i :: 0 <= i < |t| && t[i] == ProductRow(id, r.value)
  {
    if |t| == 0 then None
    else if t[0].id == id then Some(t[0].product)
    else
      var r := Find(t[1..], id);
      assert HasId(t[1..], id) ==> HasId(t, id) by {
        if HasId(t[1..], id) {
          var i :| 0 <= i < |t[1..]| && t[1..][i].id == id;
          assert t[i + 1].id == id;
        }
      }
      assert r.Some? ==> exists i :: 0 <= i < |t| && t[i] == ProductRow(id, r.value) by {
        if r.Some? {
          var i :| 0 <= i < |t[1..]| && t[1..][i] == ProductRow(id, r.value);
          assert t[i + 1] == ProductRow(id, r.value);
        }
      }
      r
  }

  /** The largest key in a non-empty table. */
  function MaxId(t: seq<ProductRow>): (m: int)
    requires |t| > 0
    ensures HasId(t, m)
    ensures forall i :: 0 <= i < |t| ==> t[i].id <= m
  {
    if |t| == 1 then t[0].id
    else
      var m := MaxId(t[1..]);
      assert forall i :: 1 <= i < |t| ==> t[i] == t[1..][i - 1];
      var k :| 0 <= k < |t[1..]| && t[1..][k].id == m;
      assert t[k + 1].id == m;
      if t[0].id > m then t[0].id else m
  }

  /**
    The rowid SQLite gives a row inserted without one: one more than the largest
    rowid in the table, or 1 when the table is empty.
  */
  function NextId(t: seq<ProductRow>): (id: int)
    ensures forall i :: 0 <= i < |t| ==> t[i].id < id
    ensures |t| == 0 ==> id == 1
    ensures |t| > 0 ==> HasId(t, id - 1)
  {
    if |t| == 0 then 1 else MaxId(t) + 1
  }

  /** A looked-up product with its stock set to `n`. */
  function WithStock(found: Option<Product>, n: int): Option<Product>
  {
    match found
    case Some(p) => Some(p.(stock := n))
    case None => None
  }

  /** A looked-up product with `q` fewer in stock. */
  function LessStock(found: Option<Product>, q: int): Option<Product>
  {
    match found
    case Some(p) => Some(p.(stock := p.stock - q))
    case None => None
  }

  /** `UPDATE Products SET stock = n WHERE product_id = id`. */
  function SetStock(t: seq<ProductRow>, id: int, n: int): (r: seq<ProductRow>)
    ensures |r| == |t|
    ensures forall i :: 0 <= i < |t| ==> r[i].id == t[i].id
  {
    if |t| == 0 then []
    else [if t[0].id == id then ProductRow(id, t[0].product.(stock := n)) else t[0]] + SetStock(t[1..], id, n)
  }

  /** `UPDATE Products SET stock = stock - q WHERE product_id = id`. */
  function TakeStock(t: seq<ProductRow>, id: int, q: int): (r: seq<ProductRow>)
    ensures |r| == |t|
    ensures forall i :: 0 <= i < |t| ==> r[i].id == t[i].id
  {
    if |t| == 0 then []
    else [if t[0].id == id then ProductRow(id, t[0].product.(stock := t[0].product.stock - q)) else t[0]] + TakeStock(t[1..], id, q)
  }

  /** After `SetStock`, the product under `id` has stock `n` and every other key finds what it found before. */
  lemma {:induction false} FindAfterSetStock(t: seq<ProductRow>, id: int, n: int, k: int)
    ensures Find(SetStock(t, id, n), k) == if k == id then WithStock(Find(t, k), n) else Find(t, k)
    decreases |t|
  {
    if |t| > 0 {
      var p := t[0].product;
      var head := if t[0].id == id then ProductRow(id, p.(stock := n)) else t[0];
      var rest := SetStock(t[1..], id, n);
      assert SetStock(t, id, n) == [head] + rest;
      FindAfterSetStock(t[1..], id, n, k);
      FindCons(head, rest, k);
      if t[0].id == k {
        assert Find(t, k) == Some(p);
        if k == id {
          assert WithStock(Some(p), n) == Some(head.product);
        } else {
          assert head == t[0];
        }
      } else {
        assert Find(t, k) == Find(t[1..], k);
      }
    }
  }

  /** After `TakeStock`, the product under `id` has `q` fewer and every other key finds what it found before. */
  lemma {:induction false} FindAfterTakeStock(t: seq<ProductRow>, id: int, q: int, k: int)
    ensures Find(TakeStock(t, id, q), k) == if k == id then LessStock(Find(t, k), q) else Find(t, k)
    decreases |t|
  {
    if |t| > 0 {
      var p := t[0].product;
      var head := if t[0].id == id then ProductRow(id, p.(stock := p.stock - q)) else t[0];
      var rest := TakeStock(t[1..], id, q);
      assert TakeStock(t, id, q) == [head] + rest;
      FindAfterTakeStock(t[1..], id, q, k);
      FindCons(head, rest, k);
      if t[0].id == k {
        assert Find(t, k) == Some(p);
        if k == id {
          assert LessStock(Some(p), q) == Some(head.product);
        } else {
          assert head == t[0];
        }
      } else {
        assert Find(t, k) == Find(t[1..], k);
      }
    }
  }

  /** `SetStock` as seen through `Find`, for every key at once. */
  lemma SetStockFinds(t: seq<ProductRow>, id: int, n: int)
    ensures Find(SetStock(t, id, n), id) == WithStock(Find(t, id), n)
    ensures forall k :: k != id ==> Find(SetStock(t, id, n), k) == Find(t, k)
  {
    FindAfterSetStock(t, id, n, id);
    forall k | k != id
      ensures Find(SetStock(t, id, n), k) == Find(t, k)
    {
      FindAfterSetStock(t, id, n, k);
    }
  }

  /** `TakeStock` as seen through `Find`, for every key at once. */
  lemma TakeStockFinds(t: seq<ProductRow>, id: int, q: int)
    ensures Find(TakeStock(t, id, q), id) == LessStock(Find(t, id), q)
    ensures forall k :: k != id ==> Find(TakeStock(t, id, q), k) == Find(t, k)
  {
    FindAfterTakeStock(t, id, q, id);
    forall k | k != id
      ensures Find(TakeStock(t, id, q), k) == Find(t, k)
    {
      FindAfterTakeStock(t, id, q, k);
    }
  }

  /** Looking a key up in a table given as its first row and the rest. */
  lemma FindCons(row: ProductRow, rest: seq<ProductRow>, k: int)
    ensures Find([row] + rest, k) == if row.id == k then Some(row.product) else Find(rest, k)
  {
    assert ([row] + rest)[1..] == rest;
  }

  /** Looking a key up after appending a row. */
  lemma {:induction false} FindAppend(t: seq<ProductRow>, row: ProductRow, k: int)
    ensures Find(t + [row], k) == if HasId(t, k) then Find(t, k) else if row.id == k then Some(row.product) else None
    decreases |t|
  {
    if |t| > 0 {
      assert (t + [row])[1..] == t[1..] + [row];
      FindAppend(t[1..], row, k);
    }
  }

  /**
    The invariant of the database.  Keys ascend; prices and stock are never
    negative (the Add Product and Update Stock widgets have `min_value=0`, and a
    sale never takes more than the stock); every sale sold at least one unit of
    a product that exists (the Record Sale widget has `min_value=1`, products
    come from the select box, and no product is ever deleted).
  */
  predicate Consistent(products: seq<ProductRow>, sales: seq<Sale>)
  {
    && KeysAscending(products)
    && (forall i :: 0 <= i < |products| ==> products[i].product.price >= 0 && products[i].product.stock >= 0)
    && (forall j :: 0 <= j < |sales| ==> sales[j].quantity >= 1 && HasId(products, sales[j].productId))
  }

  /**
    Add Product: the new row is stored under a key no row had, the new product
    is found under it with the values given, and nothing else changes.
  */
  lemma AddProductPreserves(products: seq<ProductRow>, sales: seq<Sale>, p: Product)
    requires Consistent(products, sales)
    requires p.price >= 0 && p.stock >= 0
    ensures !HasId(products, NextId(products))
    ensures Consistent(products + [ProductRow(NextId(products), p)], sales)
    ensures Find(products + [ProductRow(NextId(products), p)], NextId(products)) == Some(p)
    ensures forall k :: k != NextId(products) ==>
              Find(products + [ProductRow(NextId(products), p)], k) == Find(products, k)
  {
    var id := NextId(products);
    var t := products + [ProductRow(id, p)];
    FindAppend(products, ProductRow(id, p), id);
    forall k | k != id
      ensures Find(t, k) == Find(products, k)
    {
      FindAppend(products, ProductRow(id, p), k);
    }
    forall j | 0 <= j < |sales|
      ensures HasId(t, sales[j].productId)
    {
      var i :| 0 <= i < |products| && products[i].id == sales[j].productId;
      assert t[i] == products[i];
    }
  }

  /** Update Stock keeps the database consistent when the new stock is not negative. */
  lemma SetStockPreserves(products: seq<ProductRow>, sales: seq<Sale>, id: int, n: int)
    requires Consistent(products, sales)
    requires n >= 0
    ensures Consistent(SetStock(products, id, n), sales)
  {
    var t := SetStock(products, id, n);
    forall i | 0 <= i < |t|
      ensures t[i].product.price == products[i].product.price
      ensures t[i].product.stock >= 0
    {
      SetStockRow(products, id, n, i);
    }
    forall j | 0 <= j < |sales|
      ensures HasId(t, sales[j].productId)
    {
      var i :| 0 <= i < |products| && products[i].id == sales[j].productId;
      assert t[i].id == sales[j].productId;
    }
  }

  /** Row `i` after `SetStock`: its stock is `n` when its key matches, and otherwise it is unchanged. */
  lemma {:induction false} SetStockRow(t: seq<ProductRow>, id: int, n: int, i: int)
    requires 0 <= i < |t|
    ensures SetStock(t, id, n)[i] == if t[i].id == id then ProductRow(id, t[i].product.(stock := n)) else t[i]
    decreases |t|
  {
    if i > 0 {
      SetStockRow(t[1..], id, n, i - 1);
    }
  }

  /** Row `i` after `TakeStock`: `q` fewer in stock when its key matches, and otherwise unchanged. */
  lemma {:induction false} TakeStockRow(t: seq<ProductRow>, id: int, q: int, i: int)
    requires 0 <= i < |t|
    ensures TakeStock(t, id, q)[i] ==
              if t[i].id == id then ProductRow(id, t[i].product.(stock := t[i].product.stock - q)) else t[i]
    decreases |t|
  {
    if i > 0 {
      TakeStockRow(t[1..], id, q, i - 1);
    }
  }

  /**
    Record Sale: appending the sale and taking `q` units from a product that
    holds at least `q` keeps the database consistent; stock stays non-negative.
  */
  lemma RecordSalePreserves(products: seq<ProductRow>, sales: seq<Sale>, id: int, q: int, date: string)
    requires Consistent(products, sales)
    requires Find(products, id).Some? && 1 <= q <= Find(products, id).value.stock
    ensures Consistent(TakeStock(products, id, q), sales + [Sale(id, q, date)])
  {
    var t := TakeStock(products, id, q);
    var s := sales + [Sale(id, q, date)];
    forall i | 0 <= i < |t|
      ensures t[i].product.price == products[i].product.price
      ensures t[i].product.stock >= 0
    {
      TakeStockRow(products, id, q, i);
      if products[i].id == id {
        KeyedRowIsFound(products, i);
      }
    }
    forall j | 0 <= j < |s|
      ensures s[j].quantity >= 1 && HasId(t, s[j].productId)
    {
      if j < |sales| {
        assert s[j] == sales[j];
      }
      var i :| 0 <= i < |products| && products[i].id == s[j].productId;
      assert t[i].id == s[j].productId;
    }
  }

  /** With ascending keys, the row at position `i` is the one found under its key. */
  lemma {:induction false} KeyedRowIsFound(t: seq<ProductRow>, i: int)
    requires KeysAscending(t)
    requires 0 <= i < |t|
    ensures Find(t, t[i].id) == Some(t[i].product)
    decreases |t|
  {
    if i > 0 {
      assert t[0].id < t[i].id;
      KeyedRowIsFound(t[1..], i - 1);
    }
  }
}
