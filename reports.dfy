/**
  The read side of the dashboard: the three summary figures shown on every
  page and the Sales Report query.  Each is a function of the table contents.
*/
module Reports {
  import opened Wrappers
  import opened Tables
  import opened Dates

  /** A row of `Sales s JOIN Products p ON s.product_id = p.product_id`. */
  datatype Joined = Joined(product: Product, sale: Sale)

  /**
    The inner join, in Sales order: a sale whose product is missing drops out,
    and every other sale appears once for each time it occurs in Sales, paired
    with the current row of its product.
  */
  function Join(products: seq<ProductRow>, sales: seq<Sale>): (r: seq<Joined>)
    ensures |r| <= |sales|
    ensures forall i :: 0 <= i < |r| ==> r[i].sale in sales && Find(products, r[i].sale.productId) == Some(r[i].product)
    ensures forall s :: s in sales && Find(products, s.productId).Some? ==> Joined(Find(products, s.productId).value, s) in r
  {
    if |sales| == 0 then []
    else
      var rest := Join(products, sales[1..]);
      var r := match Find(products, sales[0].productId)
               case Some(p) => [Joined(p, sales[0])] + rest
               case None => rest;
      JoinStep(products, sales, rest, r);
      r
  }

  /** One step of the join: the first sale joined (or dropped) in front of the join of the rest. */
  lemma JoinStep(products: seq<ProductRow>, sales: seq<Sale>, rest: seq<Joined>, r: seq<Joined>)
    requires |sales| > 0
    requires forall i :: 0 <= i < |rest| ==> rest[i].sale in sales[1..] && Find(products, rest[i].sale.productId) == Some(rest[i].product)
    requires forall s :: s in sales[1..] && Find(products, s.productId).Some? ==> Joined(Find(products, s.productId).value, s) in rest
    requires r == match Find(products, sales[0].productId)
                  case Some(p) => [Joined(p, sales[0])] + rest
                  case None => rest
    ensures forall i :: 0 <= i < |r| ==> r[i].sale in sales && Find(products, r[i].sale.productId) == Some(r[i].product)
    ensures forall s :: s in sales && Find(products, s.productId).Some? ==> Joined(Find(products, s.productId).value, s) in r
  {
    assert sales == [sales[0]] + sales[1..];
    forall i | 0 <= i < |r|
      ensures r[i].sale in sales && Find(products, r[i].sale.productId) == Some(r[i].product)
    {
      if |r| > |rest| && i > 0 {
        assert r[i] == rest[i - 1];
      } else if |r| == |rest| {
        assert r[i] == rest[i];
      }
    }
  }

  /**
    The join lists the pair (p, s) once for each occurrence of the sale `s`
    when `p` is its product's current row, and never otherwise.
  */
  lemma {:induction false} JoinCount(products: seq<ProductRow>, sales: seq<Sale>, p: Product, s: Sale)
    ensures multiset(Join(products, sales))[Joined(p, s)] ==
              if Find(products, s.productId) == Some(p) then multiset(sales)[s] else 0
    decreases |sales|
  {
    if |sales| > 0 {
      var x, tail := sales[0], sales[1..];
      JoinCount(products, tail, p, s);
      assert sales == [x] + tail;
      CountCons(x, tail, s);
      var rest := Join(products, tail);
      match Find(products, x.productId)
      case Some(q) =>
        assert Join(products, sales) == [Joined(q, x)] + rest;
        CountCons(Joined(q, x), rest, Joined(p, s));
      case None =>
        assert Join(products, sales) == rest;
    }
  }

  /** How often `y` occurs in a sequence given as its first element and the rest. */
  lemma CountCons<T>(x: T, rest: seq<T>, y: T)
    ensures multiset([x] + rest)[y] == (if x == y then 1 else 0) + multiset(rest)[y]
  {
    assert multiset([x] + rest) == multiset{x} + multiset(rest);
  }

  // ---------------------------------------------------------------------------
  // Dashboard figures

  function Sum(xs: seq<int>): int
  {
    if |xs| == 0 then 0 else xs[0] + Sum(xs[1..])
  }

  /** SQL `SUM`: NULL over no rows, otherwise the total. */
  function SqlSum(xs: seq<int>): Option<int>
  {
    if |xs| == 0 then None else Some(Sum(xs))
  }

  /** Python's `x or 0` on what `fetchone()[0]` returns: NULL (None) and 0 both give 0. */
  function OrZero(x: Option<int>): int
  {
    match x
    case None => 0
    case Some(v) => if v == 0 then 0 else v
  }

  /** `p.price * s.quantity_sold` for each joined row. */
  function SaleAmounts(j: seq<Joined>): seq<int>
  {
    if |j| == 0 then [] else [j[0].product.price * j[0].sale.quantity] + SaleAmounts(j[1..])
  }

  /** `price * stock` for each product row. */
  function StockAmounts(products: seq<ProductRow>): seq<int>
  {
    if |products| == 0 then []
    else [products[0].product.price * products[0].product.stock] + StockAmounts(products[1..])
  }

  /**
    Reference definition of the sales value: over every sale, in turn, the
    current price of its product times the quantity sold, when the product exists.
  */
  function SalesValue(products: seq<ProductRow>, sales: seq<Sale>): int
  {
    if |sales| == 0 then 0
    else
      (match Find(products, sales[0].productId)
       case Some(p) => p.price * sales[0].quantity
       case None => 0)
      + SalesValue(products, sales[1..])
  }

  /** Reference definition of the stock value: price times stock, summed over all products. */
  function StockValue(products: seq<ProductRow>): int
  {
    if |products| == 0 then 0
    else products[0].product.price * products[0].product.stock + StockValue(products[1..])
  }

  datatype Summary = Summary(totalProducts: int, totalSalesValue: int, totalStockValue: int)

  /**
    `SELECT COUNT(*) FROM Products`, `SELECT SUM(p.price * s.quantity_sold)`
    over the join, and `SELECT SUM(price * stock) FROM Products`, the two sums
    passed through `or 0`.
  */
  function Dashboard(products: seq<ProductRow>, sales: seq<Sale>): (d: Summary)
    ensures d.totalProducts == |products|
    ensures d.totalSalesValue == SalesValue(products, sales)
    ensures d.totalStockValue == StockValue(products)
  {
    SumOrZero(SaleAmounts(Join(products, sales)));
    SumOrZero(StockAmounts(products));
    SaleAmountsAreSalesValue(products, sales);
    StockAmountsAreStockValue(products);
    Summary(
      |products|,
      OrZero(SqlSum(SaleAmounts(Join(products, sales)))),
      OrZero(SqlSum(StockAmounts(products))))
  }

  lemma SumOrZero(xs: seq<int>)
    ensures OrZero(SqlSum(xs)) == Sum(xs)
  {
  }

  lemma {:induction false} SaleAmountsAreSalesValue(products: seq<ProductRow>, sales: seq<Sale>)
    ensures Sum(SaleAmounts(Join(products, sales))) == SalesValue(products, sales)
    decreases |sales|
  {
    if |sales| > 0 {
      SaleAmountsAreSalesValue(products, sales[1..]);
      var rest := Join(products, sales[1..]);
      match Find(products, sales[0].productId)
      case Some(p) =>
        assert Join(products, sales) == [Joined(p, sales[0])] + rest;
        assert ([Joined(p, sales[0])] + rest)[1..] == rest;
      case None =>
    }
  }

  lemma {:induction false} StockAmountsAreStockValue(products: seq<ProductRow>)
    ensures Sum(StockAmounts(products)) == StockValue(products)
    decreases |products|
  {
    if |products| > 0 {
      StockAmountsAreStockValue(products[1..]);
    }
  }

  /** With no products and no sales every dashboard figure is 0. */
  lemma EmptyDashboard()
    ensures Dashboard([], []) == Summary(0, 0, 0)
  {
  }

  /** With no product the stock value is 0, and with no joinable sale the sales value is 0. */
  lemma {:induction false} NoRowsNoValue(products: seq<ProductRow>, sales: seq<Sale>)
    ensures |products| == 0 ==> Dashboard(products, sales).totalStockValue == 0
    ensures (forall s :: s in sales ==> Find(products, s.productId).None?) ==> Dashboard(products, sales).totalSalesValue == 0
    decreases |sales|
  {
    if |sales| > 0 {
      NoRowsNoValue(products, sales[1..]);
      assert forall s :: s in sales[1..] ==> s in sales;
    }
  }

  /** On a consistent database the figures are non-negative. */
  lemma {:induction false} ValuesNonNegative(products: seq<ProductRow>, sales: seq<Sale>)
    requires Consistent(products, sales)
    ensures SalesValue(products, sales) >= 0
    ensures StockValue(products) >= 0
  {
    SalesValueNonNegative(products, sales);
    StockValueNonNegative(products);
  }

  lemma {:induction false} SalesValueNonNegative(products: seq<ProductRow>, sales: seq<Sale>)
    requires forall i :: 0 <= i < |products| ==> products[i].product.price >= 0
    requires forall j :: 0 <= j < |sales| ==> sales[j].quantity >= 0
    ensures SalesValue(products, sales) >= 0
    decreases |sales|
  {
    if |sales| > 0 {
      SalesValueNonNegative(products, sales[1..]);
      match Find(products, sales[0].productId)
      case Some(p) =>
        var i :| 0 <= i < |products| && products[i] == ProductRow(sales[0].productId, p);
        assert p.price * sales[0].quantity >= 0;
      case None =>
    }
  }

  lemma {:induction false} StockValueNonNegative(products: seq<ProductRow>)
    requires forall i :: 0 <= i < |products| ==> products[i].product.price >= 0 && products[i].product.stock >= 0
    ensures StockValue(products) >= 0
    decreases |products|
  {
    if |products| > 0 {
      StockValueNonNegative(products[1..]);
      var p := products[0].product;
      assert p.price * p.stock >= 0;
    }
  }

  // ---------------------------------------------------------------------------
  // How each write changes the dashboard

  /** Two product tables that agree on existence and price for every sold product. */
  predicate SamePrices(p1: seq<ProductRow>, p2: seq<ProductRow>, sales: seq<Sale>)
  {
    forall j :: 0 <= j < |sales| ==>
      && Find(p1, sales[j].productId).Some? == Find(p2, sales[j].productId).Some?
      && (Find(p1, sales[j].productId).Some? ==> Find(p1, sales[j].productId).value.price == Find(p2, sales[j].productId).value.price)
  }

  /** The sales value reads only the prices of the sold products. */
  lemma {:induction false} SalesValueReadsPrices(p1: seq<ProductRow>, p2: seq<ProductRow>, sales: seq<Sale>)
    requires SamePrices(p1, p2, sales)
    ensures SalesValue(p1, sales) == SalesValue(p2, sales)
    decreases |sales|
  {
    if |sales| > 0 {
      assert forall j :: 1 <= j < |sales| ==> sales[1..][j - 1] == sales[j];
      SalesValueReadsPrices(p1, p2, sales[1..]);
      assert 0 < |sales|;
    }
  }

  lemma {:induction false} SalesValueAppend(products: seq<ProductRow>, sales: seq<Sale>, s: Sale)
    ensures SalesValue(products, sales + [s]) == SalesValue(products, sales) + SalesValue(products, [s])
    decreases |sales|
  {
    if |sales| > 0 {
      assert (sales + [s])[1..] == sales[1..] + [s];
      SalesValueAppend(products, sales[1..], s);
    }
  }

  lemma {:induction false} StockValueAppend(products: seq<ProductRow>, row: ProductRow)
    ensures StockValue(products + [row]) == StockValue(products) + row.product.price * row.product.stock
    decreases |products|
  {
    if |products| > 0 {
      assert (products + [row])[1..] == products[1..] + [row];
      StockValueAppend(products[1..], row);
    }
  }

  /**
    Add Product: one more product, the stock value grows by the new product's
    price times stock, and the sales value is unchanged (no sale refers to the new key).
  */
  lemma AddProductDashboard(products: seq<ProductRow>, sales: seq<Sale>, p: Product)
    requires Consistent(products, sales)
    requires p.price >= 0 && p.stock >= 0
    ensures var d := Dashboard(products, sales);
            Dashboard(products + [ProductRow(NextId(products), p)], sales)
              == Summary(d.totalProducts + 1, d.totalSalesValue, d.totalStockValue + p.price * p.stock)
  {
    var t := products + [ProductRow(NextId(products), p)];
    AddProductPreserves(products, sales, p);
    forall j | 0 <= j < |sales|
      ensures Find(t, sales[j].productId) == Find(products, sales[j].productId)
    {
      assert HasId(products, sales[j].productId);
    }
    SalesValueReadsPrices(t, products, sales);
    StockValueAppend(products, ProductRow(NextId(products), p));
  }

  /** Stock value after `SetStock` on a table with ascending keys. */
  lemma {:induction false} StockValueSetStock(products: seq<ProductRow>, id: int, n: int)
    requires KeysAscending(products)
    ensures StockValue(SetStock(products, id, n)) ==
              match Find(products, id)
              case Some(p) => StockValue(products) - p.price * p.stock + p.price * n
              case None => StockValue(products)
    decreases |products|
  {
    if |products| > 0 {
      var rest := products[1..];
      var t := SetStock(products, id, n);
      StockValueSetStock(rest, id, n);
      assert t[1..] == SetStock(rest, id, n);
      SetStockRow(products, id, n, 0);
      if products[0].id == id {
        NoLaterKey(products, id);
        var p := products[0].product;
        assert Find(products, id) == Some(p);
        assert StockValue(SetStock(rest, id, n)) == StockValue(rest);
        assert StockValue(t) == p.price * n + StockValue(rest);
      } else {
        assert Find(products, id) == Find(rest, id);
        assert t[0] == products[0];
      }
    }
  }

  /** In a table with ascending keys, the key of the first row occurs nowhere else. */
  lemma NoLaterKey(products: seq<ProductRow>, id: int)
    requires KeysAscending(products) && |products| > 0 && products[0].id == id
    ensures KeysAscending(products[1..])
    ensures !HasId(products[1..], id)
  {
    var rest := products[1..];
    forall i | 0 <= i < |rest| ensures rest[i].id != id {
      assert products[i + 1].id > products[0].id;
    }
  }

  /** Stock value after `TakeStock` on a table with ascending keys. */
  lemma {:induction false} StockValueTakeStock(products: seq<ProductRow>, id: int, q: int)
    requires KeysAscending(products)
    ensures StockValue(TakeStock(products, id, q)) ==
              match Find(products, id)
              case Some(p) => StockValue(products) - p.price * q
              case None => StockValue(products)
    decreases |products|
  {
    if |products| > 0 {
      var rest := products[1..];
      var t := TakeStock(products, id, q);
      StockValueTakeStock(rest, id, q);
      assert t[1..] == TakeStock(rest, id, q);
      TakeStockRow(products, id, q, 0);
      if products[0].id == id {
        NoLaterKey(products, id);
        var p := products[0].product;
        assert Find(products, id) == Some(p);
        assert StockValue(TakeStock(rest, id, q)) == StockValue(rest);
        assert p.price * (p.stock - q) == p.price * p.stock - p.price * q;
        assert StockValue(t) == p.price * (p.stock - q) + StockValue(rest);
      } else {
        assert Find(products, id) == Find(rest, id);
        assert t[0] == products[0];
      }
    }
  }

  /**
    Update Stock: the stock value changes by price times the stock difference of
    the chosen product; the product count and the sales value are unchanged.
  */
  lemma UpdateStockDashboard(products: seq<ProductRow>, sales: seq<Sale>, id: int, n: int)
    requires Consistent(products, sales)
    ensures var d := Dashboard(products, sales);
            Dashboard(SetStock(products, id, n), sales) ==
              match Find(products, id)
              case Some(p) => Summary(d.totalProducts, d.totalSalesValue, d.totalStockValue - p.price * p.stock + p.price * n)
              case None => d
  {
    SetStockKeepsPrices(products, sales, id, n);
    SalesValueReadsPrices(SetStock(products, id, n), products, sales);
    StockValueSetStock(products, id, n);
  }

  lemma SetStockKeepsPrices(products: seq<ProductRow>, sales: seq<Sale>, id: int, n: int)
    ensures SamePrices(SetStock(products, id, n), products, sales)
  {
    var t := SetStock(products, id, n);
    forall k ensures Find(t, k).Some? == Find(products, k).Some?
               && (Find(t, k).Some? ==> Find(t, k).value.price == Find(products, k).value.price)
    {
      FindAfterSetStock(products, id, n, k);
    }
  }

  /**
    Record Sale moves value from stock to sales: the sales value grows by
    price times quantity, the stock value shrinks by the same amount, so their
    total is unchanged; the product count is unchanged.
  */
  lemma RecordSaleDashboard(products: seq<ProductRow>, sales: seq<Sale>, id: int, q: int, date: string)
    requires Consistent(products, sales)
    requires Find(products, id).Some? && 1 <= q <= Find(products, id).value.stock
    ensures var d := Dashboard(products, sales);
            var d' := Dashboard(TakeStock(products, id, q), sales + [Sale(id, q, date)]);
            var price := Find(products, id).value.price;
            && d' == Summary(d.totalProducts, d.totalSalesValue + price * q, d.totalStockValue - price * q)
            && d'.totalSalesValue + d'.totalStockValue == d.totalSalesValue + d.totalStockValue
  {
    RecordSaleValues(products, sales, id, q, date);
  }

  lemma RecordSaleValues(products: seq<ProductRow>, sales: seq<Sale>, id: int, q: int, date: string)
    requires KeysAscending(products)
    requires Find(products, id).Some?
    ensures SalesValue(TakeStock(products, id, q), sales + [Sale(id, q, date)])
              == SalesValue(products, sales) + Find(products, id).value.price * q
    ensures StockValue(TakeStock(products, id, q)) == StockValue(products) - Find(products, id).value.price * q
  {
    var t := TakeStock(products, id, q);
    TakeStockKeepsPrices(products, sales, id, q);
    SalesValueReadsPrices(t, products, sales);
    SalesValueAppend(t, sales, Sale(id, q, date));
    SalesValueOne(t, Sale(id, q, date));
    StockValueTakeStock(products, id, q);
  }

  lemma TakeStockKeepsPrices(products: seq<ProductRow>, sales: seq<Sale>, id: int, q: int)
    ensures SamePrices(TakeStock(products, id, q), products, sales)
    ensures Find(products, id).Some? ==>
              Find(TakeStock(products, id, q), id).Some? && Find(TakeStock(products, id, q), id).value.price == Find(products, id).value.price
  {
    var t := TakeStock(products, id, q);
    forall k ensures Find(t, k).Some? == Find(products, k).Some?
               && (Find(t, k).Some? ==> Find(t, k).value.price == Find(products, k).value.price)
    {
      FindAfterTakeStock(products, id, q, k);
    }
  }

  lemma SalesValueOne(products: seq<ProductRow>, s: Sale)
    ensures SalesValue(products, [s]) == if Find(products, s.productId).Some? then Find(products, s.productId).value.price * s.quantity else 0
  {
    assert [s][1..] == [];
  }

  // ---------------------------------------------------------------------------
  // Sales Report

  /** A row of the report: `p.name, s.quantity_sold, s.date`. */
  datatype ReportRow = ReportRow(name: string, quantity: int, date: string)

  /** `date BETWEEN start AND end`, both ends included, on the stored text. */
  predicate Between(date: string, start: string, end: string)
  {
    Le(start, date) && Le(date, end)
  }

  /** The `WHERE s.date BETWEEN ? AND ?` filter, in Sales order; a passing sale is kept as often as it occurs. */
  function InRange(sales: seq<Sale>, start: string, end: string): (r: seq<Sale>)
    ensures forall s :: s in r <==> s in sales && Between(s.date, start, end)
    ensures forall s :: multiset(r)[s] == if Between(s.date, start, end) then multiset(sales)[s] else 0
  {
    if |sales| == 0 then []
    else
      var rest := InRange(sales[1..], start, end);
      assert sales == [sales[0]] + sales[1..];
      assert multiset(sales) == multiset{sales[0]} + multiset(sales[1..]);
      assert forall s :: s in sales <==> s == sales[0] || s in sales[1..];
      if Between(sales[0].date, start, end) then [sales[0]] + rest else rest
  }

  /** The selected columns of each joined row. */
  function ReportRows(j: seq<Joined>): (r: seq<ReportRow>)
    ensures |r| == |j|
    ensures forall i :: 0 <= i < |j| ==> r[i] == ReportRow(j[i].product.name, j[i].sale.quantity, j[i].sale.date)
  {
    if |j| == 0 then [] else [ReportRow(j[0].product.name, j[0].sale.quantity, j[0].sale.date)] + ReportRows(j[1..])
  }

  /** `ORDER BY date DESC`: every row's date is at least that of the rows after it. */
  predicate DescendingByDate(rows: seq<ReportRow>)
  {
    forall i, j :: 0 <= i < j < |rows| ==> Le(rows[j].date, rows[i].date)
  }

  /** Inserts a row before the first row that is not later than it. */
  function InsertByDate(x: ReportRow, rows: seq<ReportRow>): (r: seq<ReportRow>)
    requires DescendingByDate(rows)
    ensures DescendingByDate(r)
    ensures multiset(r) == multiset(rows) + multiset{x}
  {
    if |rows| == 0 then [x]
    else if Le(rows[0].date, x.date) then
      InsertInFront(x, rows);
      [x] + rows
    else
      var rest := InsertByDate(x, rows[1..]);
      InsertBehind(x, rows, rest);
      [rows[0]] + rest
  }

  lemma InsertInFront(x: ReportRow, rows: seq<ReportRow>)
    requires DescendingByDate(rows)
    requires |rows| > 0 && Le(rows[0].date, x.date)
    ensures DescendingByDate([x] + rows)
  {
    forall z | z in rows ensures Le(z.date, x.date) {
      var k :| 0 <= k < |rows| && rows[k] == z;
      if k > 0 {
        LeTransitive(z.date, rows[0].date, x.date);
      }
    }
    ConsDescending(x, rows);
  }

  lemma InsertBehind(x: ReportRow, rows: seq<ReportRow>, rest: seq<ReportRow>)
    requires DescendingByDate(rows)
    requires |rows| > 0 && !Le(rows[0].date, x.date)
    requires DescendingByDate(rest) && multiset(rest) == multiset(rows[1..]) + multiset{x}
    ensures DescendingByDate([rows[0]] + rest)
    ensures multiset([rows[0]] + rest) == multiset(rows) + multiset{x}
  {
    NotLeIsGt(rows[0].date, x.date);
    assert rows == [rows[0]] + rows[1..];
    forall z | z in rest ensures Le(z.date, rows[0].date) {
      assert z in multiset(rest);
      if z != x {
        assert z in multiset(rows[1..]);
        var k :| 0 <= k < |rows[1..]| && rows[1..][k] == z;
        assert rows[k + 1] == z;
      }
    }
    ConsDescending(rows[0], rest);
  }

  /** A row not earlier than every row of a descending sequence may go in front of it. */
  lemma ConsDescending(y: ReportRow, rows: seq<ReportRow>)
    requires DescendingByDate(rows)
    requires forall z :: z in rows ==> Le(z.date, y.date)
    ensures DescendingByDate([y] + rows)
  {
    var r := [y] + rows;
    forall i, j | 0 <= i < j < |r| ensures Le(r[j].date, r[i].date) {
      if i == 0 {
        assert r[j] == rows[j - 1];
        assert r[j] in rows;
      } else {
        assert r[i] == rows[i - 1] && r[j] == rows[j - 1];
      }
    }
  }

  /** A stable insertion sort on date, latest first. */
  function SortByDateDesc(rows: seq<ReportRow>): (r: seq<ReportRow>)
    ensures DescendingByDate(r)
    ensures multiset(r) == multiset(rows)
  {
    if |rows| == 0 then []
    else
      assert rows == [rows[0]] + rows[1..];
      InsertByDate(rows[0], SortByDateDesc(rows[1..]))
  }

  /** A sale of the report's range whose product exists. */
  predicate Reported(products: seq<ProductRow>, sales: seq<Sale>, start: string, end: string, s: Sale)
  {
    s in sales && Between(s.date, start, end) && Find(products, s.productId).Some?
  }

  /** The report row of such a sale. */
  function RowOf(products: seq<ProductRow>, s: Sale): ReportRow
    requires Find(products, s.productId).Some?
  {
    ReportRow(Find(products, s.productId).value.name, s.quantity, s.date)
  }

  /** The selected rows before sorting are exactly the in-range sales whose product exists. */
  lemma SelectedRows(products: seq<ProductRow>, sales: seq<Sale>, start: string, end: string)
    ensures forall row :: row in ReportRows(Join(products, InRange(sales, start, end))) <==>
              exists s :: Reported(products, sales, start, end, s) && row == RowOf(products, s)
  {
    forall row | row in ReportRows(Join(products, InRange(sales, start, end)))
      ensures exists s :: Reported(products, sales, start, end, s) && row == RowOf(products, s)
    {
      SelectedRowHasSale(products, sales, start, end, row);
    }
    forall s | Reported(products, sales, start, end, s)
      ensures RowOf(products, s) in ReportRows(Join(products, InRange(sales, start, end)))
    {
      ReportedSaleIsSelected(products, sales, start, end, s);
    }
  }

  lemma SelectedRowHasSale(products: seq<ProductRow>, sales: seq<Sale>, start: string, end: string, row: ReportRow)
    requires row in ReportRows(Join(products, InRange(sales, start, end)))
    ensures exists s :: Reported(products, sales, start, end, s) && row == RowOf(products, s)
  {
    var j := Join(products, InRange(sales, start, end));
    var rows := ReportRows(j);
    var i :| 0 <= i < |rows| && rows[i] == row;
    var s := j[i].sale;
    assert s in InRange(sales, start, end);
    assert Find(products, s.productId) == Some(j[i].product);
    assert Reported(products, sales, start, end, s) && row == RowOf(products, s);
  }

  lemma ReportedSaleIsSelected(products: seq<ProductRow>, sales: seq<Sale>, start: string, end: string, s: Sale)
    requires Reported(products, sales, start, end, s)
    ensures RowOf(products, s) in ReportRows(Join(products, InRange(sales, start, end)))
  {
    var selected := InRange(sales, start, end);
    var j := Join(products, selected);
    assert s in selected;
    var p := Find(products, s.productId).value;
    assert Joined(p, s) in j;
    var i :| 0 <= i < |j| && j[i] == Joined(p, s);
    assert ReportRows(j)[i] == RowOf(products, s);
  }

  /**
    How often the query lists `row`: once for each sale dated in range whose
    product exists and whose report row is `row`.
  */
  function CountReported(products: seq<ProductRow>, sales: seq<Sale>, start: string, end: string, row: ReportRow): nat
  {
    if |sales| == 0 then 0
    else
      var s := sales[0];
      var here := if Between(s.date, start, end) && Find(products, s.productId).Some? && RowOf(products, s) == row then 1 else 0;
      here + CountReported(products, sales[1..], start, end, row)
  }

  /** The selected rows before sorting list each row as often as `CountReported` says. */
  lemma {:induction false} SelectedCount(products: seq<ProductRow>, sales: seq<Sale>, start: string, end: string, row: ReportRow)
    ensures multiset(ReportRows(Join(products, InRange(sales, start, end))))[row] == CountReported(products, sales, start, end, row)
    decreases |sales|
  {
    if |sales| > 0 {
      var s := sales[0];
      SelectedCount(products, sales[1..], start, end, row);
      var restRows := ReportRows(Join(products, InRange(sales[1..], start, end)));
      if !Between(s.date, start, end) {
        SelectedSkipsOutOfRange(products, sales, start, end);
      } else if Find(products, s.productId).None? {
        SelectedSkipsMissingProduct(products, sales, start, end);
      } else {
        SelectedKeepsSale(products, sales, start, end);
        CountCons(RowOf(products, s), restRows, row);
      }
    }
  }

  /** A first sale dated out of range adds no row. */
  lemma SelectedSkipsOutOfRange(products: seq<ProductRow>, sales: seq<Sale>, start: string, end: string)
    requires |sales| > 0 && !Between(sales[0].date, start, end)
    ensures ReportRows(Join(products, InRange(sales, start, end))) == ReportRows(Join(products, InRange(sales[1..], start, end)))
  {
    assert InRange(sales, start, end) == InRange(sales[1..], start, end);
  }

  /** A first sale in range whose product is missing adds no row. */
  lemma SelectedSkipsMissingProduct(products: seq<ProductRow>, sales: seq<Sale>, start: string, end: string)
    requires |sales| > 0 && Between(sales[0].date, start, end) && Find(products, sales[0].productId).None?
    ensures ReportRows(Join(products, InRange(sales, start, end))) == ReportRows(Join(products, InRange(sales[1..], start, end)))
  {
    var s, rest := sales[0], InRange(sales[1..], start, end);
    assert InRange(sales, start, end) == [s] + rest;
    JoinAppend(products, [s], rest);
    assert [s][1..] == [];
    assert Join(products, [s]) == [];
  }

  /** A first sale in range whose product exists adds its row in front. */
  lemma SelectedKeepsSale(products: seq<ProductRow>, sales: seq<Sale>, start: string, end: string)
    requires |sales| > 0 && Between(sales[0].date, start, end) && Find(products, sales[0].productId).Some?
    ensures ReportRows(Join(products, InRange(sales, start, end)))
              == [RowOf(products, sales[0])] + ReportRows(Join(products, InRange(sales[1..], start, end)))
  {
    var s, rest := sales[0], InRange(sales[1..], start, end);
    var p := Find(products, s.productId).value;
    assert InRange(sales, start, end) == [s] + rest;
    JoinAppend(products, [s], rest);
    assert [s][1..] == [];
    assert Join(products, [s]) == [Joined(p, s)];
    ReportRowsAppend([Joined(p, s)], Join(products, rest));
    assert [Joined(p, s)][1..] == [];
  }

  /** The join works one Sales row at a time: joining two runs of sales joins each and concatenates. */
  lemma {:induction false} JoinAppend(products: seq<ProductRow>, a: seq<Sale>, b: seq<Sale>)
    ensures Join(products, a + b) == Join(products, a) + Join(products, b)
    decreases |a|
  {
    if |a| == 0 {
      assert a + b == b;
    } else {
      assert (a + b)[0] == a[0] && (a + b)[1..] == a[1..] + b;
      JoinAppend(products, a[1..], b);
      match Find(products, a[0].productId)
      case Some(p) =>
        assert [Joined(p, a[0])] + (Join(products, a[1..]) + Join(products, b))
            == ([Joined(p, a[0])] + Join(products, a[1..])) + Join(products, b);
      case None =>
    }
  }

  /** The projection works one joined row at a time. */
  lemma {:induction false} ReportRowsAppend(x: seq<Joined>, y: seq<Joined>)
    ensures ReportRows(x + y) == ReportRows(x) + ReportRows(y)
    decreases |x|
  {
    if |x| == 0 {
      assert x + y == y;
    } else {
      assert (x + y)[1..] == x[1..] + y;
      ReportRowsAppend(x[1..], y);
    }
  }

  /** Sequences with the same multiset have the same members. */
  lemma SameMembers(a: seq<ReportRow>, b: seq<ReportRow>)
    requires multiset(a) == multiset(b)
    ensures forall x :: x in a <==> x in b
  {
    forall x ensures x in a <==> x in b {
      assert x in a <==> x in multiset(a);
      assert x in b <==> x in multiset(b);
    }
  }

  /**
    The Sales Report query.  It holds exactly the sales dated between `start`
    and `end` inclusive whose product exists, as (product name, quantity, date),
    each as often as it was sold, latest date first.
  */
  function SalesReport(products: seq<ProductRow>, sales: seq<Sale>, start: string, end: string): (r: seq<ReportRow>)
    ensures DescendingByDate(r)
    ensures multiset(r) == multiset(ReportRows(Join(products, InRange(sales, start, end))))
    ensures forall row :: row in r <==> exists s :: Reported(products, sales, start, end, s) && row == RowOf(products, s)
    ensures forall row :: multiset(r)[row] == CountReported(products, sales, start, end, row)
  {
    var rows := ReportRows(Join(products, InRange(sales, start, end)));
    var r := SortByDateDesc(rows);
    SameMembers(r, rows);
    SelectedRows(products, sales, start, end);
    forall row ensures multiset(r)[row] == CountReported(products, sales, start, end, row) {
      SelectedCount(products, sales, start, end, row);
    }
    r
  }

  /** The same sale made twice in range (same product, quantity and day) is listed twice. */
  lemma RepeatedSaleListedTwice(row: ProductRow, s: Sale, start: string, end: string)
    requires s.productId == row.id && Between(s.date, start, end)
    ensures multiset(SalesReport([row], [s, s], start, end))[ReportRow(row.product.name, s.quantity, s.date)] == 2
  {
    assert Find([row], s.productId) == Some(row.product);
    assert [s, s][1..] == [s];
    assert CountReported([row], [s], start, end, ReportRow(row.product.name, s.quantity, s.date)) == 1;
  }

  /** A report whose start is after its end is empty. */
  lemma EmptyWhenStartAfterEnd(products: seq<ProductRow>, sales: seq<Sale>, start: string, end: string)
    requires !Le(start, end)
    ensures SalesReport(products, sales, start, end) == []
  {
    var r := SalesReport(products, sales, start, end);
    if |r| > 0 {
      assert r[0] in r;
      var s :| Reported(products, sales, start, end, s) && r[0] == RowOf(products, s);
      LeTransitive(start, s.date, end);
    }
  }

  /**
    Of three sales of one product, the two in range are reported, the later
    one first, and the third is not.
  */
  lemma TwoOfThreeReported(row: ProductRow, s1: Sale, s2: Sale, s3: Sale, start: string, end: string)
    requires s1.productId == row.id && s2.productId == row.id
    requires Between(s1.date, start, end) && Between(s2.date, start, end) && !Between(s3.date, start, end)
    requires !Le(s2.date, s1.date)
    ensures SalesReport([row], [s1, s2, s3], start, end)
              == [ReportRow(row.product.name, s2.quantity, s2.date), ReportRow(row.product.name, s1.quantity, s1.date)]
  {
    TwoOfThreeInRange(s1, s2, s3, start, end);
    var r1 := ReportRow(row.product.name, s1.quantity, s1.date);
    var r2 := ReportRow(row.product.name, s2.quantity, s2.date);
    TwoJoined(row, s1, s2);
    SortTwo(r1, r2);
  }

  lemma TwoOfThreeInRange(s1: Sale, s2: Sale, s3: Sale, start: string, end: string)
    requires Between(s1.date, start, end) && Between(s2.date, start, end) && !Between(s3.date, start, end)
    ensures InRange([s1, s2, s3], start, end) == [s1, s2]
  {
    assert [s1, s2, s3][1..] == [s2, s3] && [s2, s3][1..] == [s3] && [s3][1..] == [];
    assert InRange([s3], start, end) == [];
    assert InRange([s2, s3], start, end) == [s2];
    assert InRange([s1, s2, s3], start, end) == [s1] + [s2];
  }

  lemma TwoJoined(row: ProductRow, s1: Sale, s2: Sale)
    requires s1.productId == row.id && s2.productId == row.id
    ensures ReportRows(Join([row], [s1, s2]))
              == [ReportRow(row.product.name, s1.quantity, s1.date), ReportRow(row.product.name, s2.quantity, s2.date)]
  {
    assert [s1, s2][1..] == [s2] && [s2][1..] == [];
    assert Find([row], row.id) == Some(row.product);
    assert Join([row], [s1, s2]) == [Joined(row.product, s1), Joined(row.product, s2)];
  }

  lemma SortTwo(r1: ReportRow, r2: ReportRow)
    requires !Le(r2.date, r1.date)
    ensures SortByDateDesc([r1, r2]) == [r2, r1]
  {
    assert [r1, r2][1..] == [r2] && [r2][1..] == [];
    assert SortByDateDesc([r2]) == InsertByDate(r2, []) == [r2];
    assert InsertByDate(r1, [r2]) == [r2] + InsertByDate(r1, []);
  }

  /**
    Sales dated 2025-01-01, 2025-01-15 and 2025-02-01, reported for January:
    the first two, the later one first.
  */
  lemma JanuaryReport()
    ensures SalesReport([ProductRow(1, Product("Pen", "Stationery", 1000, 100))],
                        [Sale(1, 5, "2025-01-01"), Sale(1, 7, "2025-01-15"), Sale(1, 9, "2025-02-01")],
                        "2025-01-01", "2025-01-31")
            == [ReportRow("Pen", 7, "2025-01-15"), ReportRow("Pen", 5, "2025-01-01")]
  {
    JanuaryDatesIn();
    FebruaryDateOut();
    FifteenthAfterFirst();
    TwoOfThreeReported(ProductRow(1, Product("Pen", "Stationery", 1000, 100)),
                       Sale(1, 5, "2025-01-01"), Sale(1, 7, "2025-01-15"), Sale(1, 9, "2025-02-01"),
                       "2025-01-01", "2025-01-31");
  }

  /** The first and the fifteenth of January 2025 lie within January. */
  lemma JanuaryDatesIn()
    ensures Between("2025-01-01", "2025-01-01", "2025-01-31")
    ensures Between("2025-01-15", "2025-01-01", "2025-01-31")
  {
    var jan := "2025-01-";
    assert "2025-01-01" == jan + "01" && "2025-01-15" == jan + "15" && "2025-01-31" == jan + "31";
    LeReflexive("2025-01-01");
    CommonPrefix(jan, "01", "31");
    CommonPrefix(jan, "01", "15");
    CommonPrefix(jan, "15", "31");
  }

  /** The first of February 2025 lies after January. */
  lemma FebruaryDateOut()
    ensures !Between("2025-02-01", "2025-01-01", "2025-01-31")
  {
    var y := "2025-0";
    assert "2025-02-01" == y + "2-01" && "2025-01-31" == y + "1-31";
    CommonPrefix(y, "2-01", "1-31");
  }

  /** The fifteenth of January comes after the first. */
  lemma FifteenthAfterFirst()
    ensures !Le("2025-01-15", "2025-01-01")
  {
    var jan := "2025-01-";
    assert "2025-01-01" == jan + "01" && "2025-01-15" == jan + "15";
    CommonPrefix(jan, "15", "01");
  }

  /** On a consistent database the inner join keeps every sale. */
  lemma {:induction false} JoinKeepsEverySale(products: seq<ProductRow>, sales: seq<Sale>)
    requires forall j :: 0 <= j < |sales| ==> HasId(products, sales[j].productId)
    ensures |Join(products, sales)| == |sales|
    decreases |sales|
  {
    if |sales| > 0 {
      JoinKeepsEverySale(products, sales[1..]);
    }
  }
}
