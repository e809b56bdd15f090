# Inventory ledger

A Dafny model of the ledger behind the Streamlit inventory app (`app.py`). The app keeps
three SQLite tables in `inventory.db`:

- **Products**: `product_id INTEGER PRIMARY KEY`, with name, category, price and stock.
- **Sales**: product id, quantity sold and an ISO `YYYY-MM-DD` date.
- **Users**: keyed by username.

Each branch of the UI runs a few SQL statements against them. The model has two sides.

**The write side** is the class `Store.Database`. Its fields are the three tables:

- `products`: rows in rowid order.
- `sales`: an append-only sequence.
- `users`: a map from username to password.

Each write branch is one method that reassigns those fields. They are Add Product, Update
Stock, Record Sale, `register_user` and `create_sample_user`. `check_credentials` is a method
that changes nothing. The login flag of a Streamlit session is the class `Store.Session`.
The widget bounds of each form are the methods' preconditions:

- price ≥ 0 and stock ≥ 0
- new stock ≥ 0
- 1 ≤ quantity ≤ current stock
- a product id picked from the existing rows

`Tables.Consistent` is the invariant every write method keeps:

- ids are positive and strictly ascending, so they are unique;
- prices and stocks are non-negative;
- every sale has quantity ≥ 1 and names an existing product.

Each method is stated against pure table functions in `Tables`: `NextId`, `SetStock`,
`TakeStock` and `Find`. Lemmas state what each function changes and what it leaves alone.

**The read side** is pure functions over the table values, with lemmas:

- `Reports.Dashboard`: the three aggregates, with `COUNT`, `SUM` and Python's `or 0`.
- `Reports.SalesReport`: the inner join, the inclusive `BETWEEN` filter and `ORDER BY date DESC`.
- `Grouping.Trend` and `Grouping.PerProduct`: the two pandas group-by sums.

Supporting modules:

- `Dates` models SQLite's BINARY text comparison, which the date filter and sort use. It proves
  that on ISO dates this order equals calendar order.
- `Credentials` holds the Users-table functions.
- `Wrappers` holds `Option` and `Result`.

Representation choices:

- **Prices** are integers in hundredths (the `REAL` column without rounding).
- **Dates** are strings.
- **Clock**: the current date (`datetime.now()`) is a parameter of `RecordSale`.
- **New product ids** follow SQLite's rowid rule for a table without `AUTOINCREMENT`: one more
  than the largest id, or 1 in an empty table.

## Model

| member | source | states |
|---|---|---|
| Tables.NextId | app.py:11-12 | the rowid given to a new product exceeds every existing id (so it is unused); it is 1 in an empty table and otherwise the largest id plus one |
| Tables.Find | app.py:115 | the key lookup of the join `ON s.product_id = p.product_id` (also used by the report join, app.py:187, and by the `WHERE product_id = ?` updates, app.py:157 and 175) finds a row exactly when a row with that key exists, and returns that row's product |
| Tables.AddProductPreserves | app.py:137-142 | inserting (name, category, price, stock) with price ≥ 0 and stock ≥ 0 uses an unused id, keeps the table invariant, stores exactly that product under the id and leaves every other key's product unchanged |
| Tables.FindAppend | app.py:141-142 | after appending a row, an existing key still finds its old product, the new key finds the new product and any other key finds nothing |
| Tables.SetStock | app.py:157 | the `UPDATE ... SET stock = ?` keeps every row and every row's id |
| Tables.SetStockRow | app.py:157 | the UPDATE sets the stock of the row whose key matches to the new value and leaves every other row as it was |
| Tables.FindAfterSetStock | app.py:157 | after the UPDATE, the selected key finds its product with stock equal to the new value (an absolute value, not a delta); any other key finds what it found before; an unknown key changes nothing |
| Tables.SetStockFinds | app.py:157 | the same for every key at once |
| Tables.SetStockPreserves | app.py:154-158 | setting a stock ≥ 0 keeps the table invariant (unique ids, non-negative stock, every sale's product exists) |
| Tables.TakeStock | app.py:175 | the `UPDATE ... SET stock = stock - ?` keeps every row and every row's id |
| Tables.TakeStockRow | app.py:175 | the decrement lowers the matching row's stock by the quantity and leaves every other row as it was |
| Tables.FindAfterTakeStock | app.py:175 | after the decrement, the selected key finds its product with stock lowered by the quantity; any other key finds what it found before |
| Tables.TakeStockFinds | app.py:175 | the same for every key at once |
| Tables.RecordSalePreserves | app.py:169-176 | with 1 ≤ qty ≤ current stock, appending the sale and decrementing the stock keeps the invariant, so stock stays ≥ 0 and the new sale names an existing product |
| Tables.KeyedRowIsFound | app.py:12 | in a table with unique ascending keys, the key of any row finds that row's product |
| Store.Database.constructor | app.py:8-27 | a new database file has three empty tables, which satisfy the invariant |
| Store.Database.AddProduct | app.py:137-143 | the Add Product branch appends one row with id `NextId` of the old table; the id was unused; `Find` of it gives the stored product; every other product, all sales and all users are unchanged; the invariant is kept |
| Store.Database.UpdateStock | app.py:154-158 | the Update branch makes `products` equal to `SetStock` of the old table; the selected product's stock becomes exactly the new value; every other product, all sales and all users are unchanged; the invariant is kept |
| Store.Database.RecordSale | app.py:169-176 | the Record Sale branch appends exactly `Sale(id, qty, date)` and lowers that product's stock by qty in one atomic step; every other product and all users are unchanged; the invariant is kept |
| Store.Database.RegisterUser | app.py:53-58 | `register_user` succeeds iff the username was not taken, and then adds exactly that pair; on a taken name it reports the duplicate-key error and Users is unchanged (the error is caught and shown, app.py:75-79); Products and Sales are never touched |
| Store.Database.CreateSampleUser | app.py:36-41 | `create_sample_user` leaves Users as `SeedSampleUser` of the old table, and leaves Products and Sales unchanged |
| Store.Database.CheckCredentials | app.py:46-50 | `check_credentials` finds a row iff the exact (username, password) pair is stored |
| Store.Session.constructor | app.py:61-62 | a new session is not authenticated |
| Store.Session.Login | app.py:87-92 | the Login button authenticates the session iff the pair matches a stored user; otherwise the session stays unauthenticated |
| Store.Session.Logout | app.py:99-101 | the Logout button clears the authenticated flag |
| Credentials.Register | app.py:53-58 | an `INSERT` under the username primary key succeeds iff the name is new; on success the keys grow by exactly that name, every existing user keeps their password and the new pair is stored |
| Credentials.InsertOrIgnore | app.py:39 | `INSERT OR IGNORE` adds the key, never changes an existing user's password, and stores the given password only when the key was absent |
| Credentials.SeedSampleUser | app.py:36-41 | after seeding, `admin` exists; if it already existed, Users is unchanged (its password is never overwritten); otherwise `admin`/`admin123` matches |
| Credentials.SeedIdempotent | app.py:36-43 | running the seeding twice is the same as running it once |
| Credentials.MatchesIsStoredPair | app.py:46-50 | the credential check matches iff the pair is one of the stored (username, password) items |
| Credentials.RegisterThenCheck | app.py:46-58 | after a successful registration of (u, p), the check succeeds with p, fails with every other password, and gives the same answer as before for every other user |
| Dates.LeReflexive | app.py:188-189 | the text order on dates is reflexive |
| Dates.LeAntisymmetric | app.py:188-189 | the text order is antisymmetric |
| Dates.LeTransitive | app.py:188-189 | the text order is transitive |
| Dates.LeTotal | app.py:188-189 | any two dates are comparable, so `ORDER BY` and `BETWEEN` are well defined |
| Dates.NotLeIsGt | app.py:188-189 | a date that is not ≤ another is strictly after it |
| Dates.LeConcat | app.py:188-189 | comparing two strings with equal-length leading blocks compares the blocks first, and the rest only when the blocks are equal |
| Dates.LeDigits | app.py:172 | on digit strings of one width, text order is numeric order |
| Dates.IsoTextOrderIsCalendarOrder | app.py:172-174 | on the `%Y-%m-%d` dates the app stores, the text order is exactly (year, month, day) calendar order, in both directions |
| Reports.Join | app.py:113-116 | the inner join keeps only sales whose product exists and pairs each with that product's current row; every such sale is present (how often: `Reports.JoinCount`) |
| Reports.JoinCount | app.py:113-116 | the join lists (p, s) exactly as often as the sale s occurs in Sales when p is its product's current row, and never otherwise, so a sale made twice is joined twice |
| Reports.JoinAppend | app.py:113-116 | the join works one Sales row at a time: the join of two runs of sales is the join of the first followed by the join of the second |
| Reports.JoinKeepsEverySale | app.py:113-116 | when every sale names an existing product, the join drops no sale |
| Reports.SumOrZero | app.py:117 | `SUM(...) or 0`: a SQL `SUM` that is NULL over no rows, with `or 0` applied, is the plain sum (0 for no rows) |
| Reports.Dashboard | app.py:108-121 | `total_products` is the number of products; `total_sales_value` is the reference sum of current price × quantity over sales whose product exists; `total_stock_value` is the reference sum of price × stock |
| Reports.SaleAmountsAreSalesValue | app.py:113-117 | the SQL sum over the join equals the reference sum defined sale by sale |
| Reports.StockAmountsAreStockValue | app.py:120-121 | the SQL sum over Products equals the reference sum defined product by product |
| Reports.EmptyDashboard | app.py:108-121 | on empty tables the dashboard shows 0, 0, 0 |
| Reports.NoRowsNoValue | app.py:117-121 | with no products the stock value is 0; with no joinable sale the sales value is 0 |
| Reports.ValuesNonNegative | app.py:113-121 | on a consistent database both values are ≥ 0 |
| Reports.SalesValueNonNegative | app.py:113-117 | with non-negative prices and quantities the sales value is ≥ 0 |
| Reports.StockValueNonNegative | app.py:120-121 | with non-negative prices and stocks the stock value is ≥ 0 |
| Reports.SalesValueReadsPrices | app.py:113-117 | the sales value depends only on the prices of the products the sales name |
| Reports.SalesValueAppend | app.py:113-117 | the sales value of appended sales is the sum of the parts |
| Reports.StockValueAppend | app.py:120-121 | adding a product adds its price × stock to the stock value |
| Reports.AddProductDashboard | app.py:137-143 | after Add Product the product count grows by one, the stock value grows by price × stock, and the sales value is unchanged |
| Reports.StockValueSetStock | app.py:157 | setting a stock to n changes the stock value by price × (n − old stock) for that product, and not at all for an unknown id |
| Reports.StockValueTakeStock | app.py:175 | decrementing a stock by q lowers the stock value by price × q |
| Reports.UpdateStockDashboard | app.py:154-158 | after Update Stock only the stock value changes, by price × (new − old stock); the count and the sales value are unchanged |
| Reports.SetStockKeepsPrices | app.py:157 | Update Stock changes no price that the sales value reads |
| Reports.TakeStockKeepsPrices | app.py:175 | Record Sale's decrement changes no price, and the product stays present |
| Reports.RecordSaleValues | app.py:169-176 | recording a sale raises the sales value and lowers the stock value by the same price × qty |
| Reports.RecordSaleDashboard | app.py:169-176 | after Record Sale the count is unchanged, the sales value rises by price × qty, the stock value falls by price × qty, and their sum is conserved |
| Reports.InRange | app.py:188 | a sale passes `date BETWEEN start AND end` iff start ≤ date ≤ end, both ends inclusive; a passing sale is kept as many times as it occurs, a failing one not at all |
| Reports.ReportRows | app.py:186 | each report row is (product name, quantity sold, date) of its joined sale, in the same order |
| Reports.ReportRowsAppend | app.py:186 | the column selection works one joined row at a time: the rows of two runs are the rows of the first followed by the rows of the second |
| Reports.InsertByDate | app.py:189 | inserting a row into a date-descending list keeps it date-descending and adds exactly that row |
| Reports.SortByDateDesc | app.py:189 | `ORDER BY date DESC` yields a date-descending permutation of its input |
| Reports.SelectedRows | app.py:185-188 | the unsorted report rows are exactly the rows of the sales that are in range and whose product exists (how often: `Reports.SelectedCount`) |
| Reports.SelectedCount | app.py:185-188 | the unsorted report lists each row once per sale in range, with an existing product, that gives that row (counted sale by sale in Sales) |
| Reports.SelectedSkipsOutOfRange | app.py:188 | a sale dated outside the range adds no report row |
| Reports.SelectedSkipsMissingProduct | app.py:187 | a sale in range whose product no longer exists adds no report row (inner join) |
| Reports.SelectedKeepsSale | app.py:185-188 | a sale in range whose product exists adds its (name, quantity, date) row, in Sales order |
| Reports.SalesReport | app.py:185-191 | the report is ordered by date, non-increasing; a row is in it iff it is (name, quantity, date) of a sale with start ≤ date ≤ end whose product exists; and each row appears exactly as many times as there are such sales giving it, counted sale by sale |
| Reports.RepeatedSaleListedTwice | app.py:185-191 | two equal sales in range (same product, quantity and day) are both listed |
| Reports.EmptyWhenStartAfterEnd | app.py:185-191 | when the start date is after the end date, the report is empty |
| Reports.TwoOfThreeReported | app.py:185-191 | of three sales of one product with two in range, the report lists those two, later date first |
| Reports.SortTwo | app.py:189 | two rows with distinct dates are sorted later-first |
| Reports.JanuaryReport | app.py:182-191 | concretely: sales on 2025-01-01, 2025-01-15 and 2025-02-01, reported for January 2025, give the 15th's row then the 1st's row |
| Reports.JanuaryDatesIn | app.py:188 | 2025-01-01 and 2025-01-15 lie between 2025-01-01 and 2025-01-31 inclusive |
| Reports.FebruaryDateOut | app.py:188 | 2025-02-01 does not lie in January 2025 |
| Reports.FifteenthAfterFirst | app.py:189 | 2025-01-15 sorts after 2025-01-01 |
| Grouping.AddToTotals | app.py:198 | adding a row's quantity to its group raises that group's total and the grand total by it, and no other total |
| Grouping.AddToKeys | app.py:198 | adding a row keeps the groups strictly ascending by key; the key set gains exactly the row's key |
| Grouping.EntryIsTotalFor | app.py:198 | in strictly ascending groups, each entry's total is the total for its key |
| Grouping.GroupSum | app.py:198-203 | `groupby(col)[qty].sum()`, whose two instances are `Grouping.Trend` (by date, app.py:198) and `Grouping.PerProduct` (by product name, app.py:203), gives groups strictly ascending by key, one per distinct key of the rows and no other; each group's total is the sum of the quantities of the rows with that key; the grand total is the sum of all quantities |
| Grouping.EntryTotals | app.py:198-203 | every entry of the group-by result holds the sum of the quantities of its own key's rows |
| Grouping.SeriesTotalsMatchReport | app.py:191-203 | the trend series (by date) and the per-product series (by name, so equal names merge) both total the report's quantity |

## Left out

- Streamlit rendering: titles, radios, select boxes, metrics, tables, messages and `st.rerun`. These are presentation only. The widget bounds remain, as method preconditions.
- The password-confirmation check on the Register form (app.py:73) is a UI guard before `register_user` runs. It is not modelled.
- Plotly charts and pandas `DataFrame` construction are display only. Only the group-by-sum semantics is modelled.
- Currency formatting (`₹ {:,.2f}`) is left out, and so is binary floating point in the `REAL` price column. Prices are exact integers in hundredths.
- The sqlite3 connection lifecycle, `get_connection` and db.py are I/O and schema plumbing. db.py is not imported by the app and is not part of this model. `create_tables` is modelled only as the empty initial state.
- The View Inventory branch is not modelled. It lists Products unchanged, and its column-count branching is display-only handling of schema drift.
- `datetime.now()` is a clock. `Store.Database.RecordSale` takes the date as a parameter, and the report range is the caller's pair of dates.
- Concurrency between sessions is out of scope. Each write branch is one atomic method.
- Integer widths: stock, quantities and ids are 64-bit SQLite integers, and the pandas group sums are int64, which wraps silently. The model uses unbounded integers. With the widget bounds and realistic volumes these sums stay far below 2^63, so no overflow is modelled.
- Tables.NextId: does not model SQLite's random rowid choice once the largest id reaches 2^63 − 1. Ids are unbounded integers.
- Reports.SortByDateDesc: SQL leaves the order of equal dates unspecified. The model uses a stable insertion sort, but the contract only states "date-descending and a permutation", which is all SQL promises.
- Dates.IsoTextOrderIsCalendarOrder: holds for four-digit years, which is what `%Y` produces for years 1000-9999.
- Store.Database.RegisterUser: the SQL error text is not modelled. Any failure of the `INSERT` is taken to be the duplicate username, the only failure the table can raise here.
- Store.Database.UpdateStock: the code never reports a missing product. An `UPDATE` with an unknown id is a silent no-op, and the model follows the code (`Tables.FindAfterSetStock` states this case). The method is called only with ids from the select box.
- The code has no insufficient-stock or invalid-input errors. The number widgets bound those inputs, so the model has them as preconditions rather than error results. For a product with stock 0, the quantity widget gets `min_value=1, max_value=0` (app.py:170). Streamlit raises an exception there rather than bounding the input, so no sale is recorded. `1 ≤ qty ≤ stock` is still the right precondition, and the exception itself is not modelled.
- The `FOREIGN KEY` clause on Sales is not enforced by SQLite unless a pragma turns it on. The model's invariant still holds, because sales are only recorded for existing products and no product is ever deleted.
