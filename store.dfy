/**
  The database as the app changes it.  Each write branch of the app is one
  method: all its statements run and are committed together, so a method is
  one atomic step.  The session's `authenticated` flag is a second object.
*/
module Store {
  import opened Wrappers
  import opened Tables
  import Credentials
  import Reports

  /** The `inventory.db` file: the Products, Sales and Users tables. */
  class Database {
    var products: seq<ProductRow>
    var sales: seq<Sale>
    var users: Credentials.Users

    ghost predicate Valid()
      reads this
    {
      Consistent(products, sales)
    }

    /** `create_tables` on a new file: three empty tables. */
    constructor ()
      ensures Valid()
      ensures products == [] && sales == [] && users == map[]
    {
      products, sales, users := [], [], map[];
    }

    /** `create_sample_user`: `INSERT OR IGNORE` of the `admin` row. */
    method CreateSampleUser()
      requires Valid()
      modifies this
      ensures Valid()
      ensures users == Credentials.SeedSampleUser(old(users))
      ensures products == old(products) && sales == old(sales)
    {
      users := Credentials.InsertOrIgnore(users, Credentials.SampleUsername, Credentials.SamplePassword);
    }

    /** `check_credentials`: whether a Users row holds exactly this pair. */
    method CheckCredentials(username: string, password: string) returns (found: bool)
      ensures found <==> (username, password) in users.Items
    {
      found := username in users && users[username] == password;
      Credentials.MatchesIsStoredPair(users, username, password);
    }

    /**
      `register_user`: inserts the row, or fails on a taken username and
      leaves the table unchanged (the caller reports the error).
    */
    method RegisterUser(username: string, password: string) returns (err: Option<Credentials.UserError>)
      requires Valid()
      modifies this
      ensures Valid()
      ensures err == None <==> username !in old(users)
      ensures err == None ==> users == old(users)[username := password]
      ensures err != None ==> err == Some(Credentials.DuplicateUsername) && users == old(users)
      ensures products == old(products) && sales == old(sales)
    {
      match Credentials.Register(users, username, password)
      case Ok(u) =>
        users := u;
        err := None;
      case Err(e) =>
        err := Some(e);
    }

    /**
      Add Product: inserts (name, category, price, stock) under a fresh key and
      returns the key.  The widgets give `price >= 0` and `stock >= 0`.
    */
    method AddProduct(name: string, category: string, price: int, stock: int) returns (id: int)
      requires Valid()
      requires price >= 0 && stock >= 0
      modifies this
      ensures Valid()
      ensures id == NextId(old(products)) && !HasId(old(products), id)
      ensures products == old(products) + [ProductRow(id, Product(name, category, price, stock))]
      ensures Find(products, id) == Some(Product(name, category, price, stock))
      ensures forall k :: k != id ==> Find(products, k) == Find(old(products), k)
      ensures sales == old(sales) && users == old(users)
    {
      id := NextId(products);
      AddProductPreserves(products, sales, Product(name, category, price, stock));
      products := products + [ProductRow(id, Product(name, category, price, stock))];
    }

    /**
      Update Stock: sets the stock of product `id` to `newStock` (an absolute
      value, not a change).  The widget gives `newStock >= 0`.
    */
    method UpdateStock(id: int, newStock: int)
      requires Valid()
      requires newStock >= 0
      modifies this
      ensures Valid()
      ensures products == SetStock(old(products), id, newStock)
      ensures Find(products, id) == WithStock(Find(old(products), id), newStock)
      ensures forall k :: k != id ==> Find(products, k) == Find(old(products), k)
      ensures sales == old(sales) && users == old(users)
    {
      SetStockPreserves(products, sales, id, newStock);
      SetStockFinds(products, id, newStock);
      products := SetStock(products, id, newStock);
    }

    /**
      Record Sale: appends the sale and takes its quantity from the product's
      stock in one commit.  The product comes from the select box and the
      quantity widget bounds it by `1 <= qty <= stock`.
    */
    method RecordSale(id: int, qty: int, date: string)
      requires Valid()
      requires Find(products, id).Some? && 1 <= qty <= Find(products, id).value.stock
      modifies this
      ensures Valid()
      ensures sales == old(sales) + [Sale(id, qty, date)]
      ensures products == TakeStock(old(products), id, qty)
      ensures Find(products, id) == LessStock(Find(old(products), id), qty)
      ensures forall k :: k != id ==> Find(products, k) == Find(old(products), k)
      ensures users == old(users)
    {
      RecordSalePreserves(products, sales, id, qty, date);
      TakeStockFinds(products, id, qty);
      products, sales := TakeStock(products, id, qty), sales + [Sale(id, qty, date)];
    }
  }

  /** The per-session `authenticated` flag of the login page. */
  class Session {
    var authenticated: bool

    constructor ()
      ensures !authenticated
    {
      authenticated := false;
    }

    /** The Login button (shown only while not authenticated): only a matching pair authenticates. */
    method Login(db: Database, username: string, password: string) returns (ok: bool)
      requires !authenticated
      modifies this
      ensures ok == Credentials.Matches(db.users, username, password)
      ensures authenticated == ok
    {
      ok := db.CheckCredentials(username, password);
      Credentials.MatchesIsStoredPair(db.users, username, password);
      if ok {
        authenticated := true;
      }
    }

    /** The Logout button. */
    method Logout()
      modifies this
      ensures !authenticated
    {
      authenticated := false;
    }
  }

  /** Seeding, registration and login on a new database file, as a client sees them. */
  method UsersWalkthrough()
  {
    var db := new Database();
    db.CreateSampleUser();
    db.CreateSampleUser();
    assert db.users == map["admin" := "admin123"];

    var err := db.RegisterUser("alice", "pw1");
    assert err == None;
    var session := new Session();
    var ok := session.Login(db, "alice", "wrong");
    assert !ok && !session.authenticated;
    ok := session.Login(db, "alice", "pw1");
    assert ok && session.authenticated;
    err := db.RegisterUser("alice", "pw2");
    assert err == Some(Credentials.DuplicateUsername);
  }

  /** One product and one sale on a new database file, and the dashboard after each. */
  method SalesWalkthrough()
  {
    var db := new Database();
    var pen := db.AddProduct("Pen", "Stationery", 1000, 100);
    assert pen == 1;
    var before := db.products;
    assert before == [ProductRow(1, Product("Pen", "Stationery", 1000, 100))];
    assert Reports.StockValue(before) == 100000;
    assert Reports.Dashboard(before, []) == Reports.Summary(1, 0, 100000);

    db.RecordSale(pen, 30, "2025-03-01");
    assert Find(db.products, 1) == Some(Product("Pen", "Stationery", 1000, 70));
    Reports.RecordSaleDashboard(before, [], 1, 30, "2025-03-01");
    assert Reports.Dashboard(db.products, db.sales) == Reports.Summary(1, 30000, 70000);
  }
}
