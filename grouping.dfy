/**
  The two series drawn under the Sales Report:
  `df.groupby("Date")["Quantity Sold"].sum()` and
  `df.groupby("Product")["Quantity Sold"].sum()`.  A pandas group-by sums the
  quantity of each distinct key and, by default, lists the keys in ascending
  order (Python string order, the same as `Dates.Le`).
*/
module Grouping {
  import Tables
  import opened Dates
  import opened Reports

  /** The column a series groups by. */
  datatype Column = ByDate | ByProduct

  function KeyOf(row: ReportRow, c: Column): string
  {
    match c
    case ByDate => row.date
    case ByProduct => row.name
  }

  /** One entry of a series: a key and the summed quantity of its rows. */
  datatype Group = Group(key: string, total: int)

  predicate StrictlyAscending(groups: seq<Group>)
  {
    forall i, j :: 0 <= i < j < |groups| ==> Lt(groups[i].key, groups[j].key)
  }

  predicate HasKey(groups: seq<Group>, key: string)
  {
    exists i :: 0 <= i < |groups| && groups[i].key == key
  }

  /** Sum of the totals of the entries with this key (0 when there is none). */
  function TotalFor(groups: seq<Group>, key: string): int
  {
    if |groups| == 0 then 0
    else (if groups[0].key == key then groups[0].total else 0) + TotalFor(groups[1..], key)
  }

  /** Sum of all totals of a series. */
  function Totals(groups: seq<Group>): int
  {
    if |groups| == 0 then 0 else groups[0].total + Totals(groups[1..])
  }

  /** Sum of the quantities of the report rows whose column `c` is `key`. */
  function QuantityFor(rows: seq<ReportRow>, c: Column, key: string): int
  {
    if |rows| == 0 then 0
    else (if KeyOf(rows[0], c) == key then rows[0].quantity else 0) + QuantityFor(rows[1..], c, key)
  }

  /** Sum of the quantities of all report rows. */
  function Quantity(rows: seq<ReportRow>): int
  {
    if |rows| == 0 then 0 else rows[0].quantity + Quantity(rows[1..])
  }

  /** Adds `q` to the entry for `key`, creating it in key order when absent. */
  function AddTo(groups: seq<Group>, key: string, q: int): (r: seq<Group>)
  {
    if |groups| == 0 then [Group(key, q)]
    else if groups[0].key == key then [Group(key, groups[0].total + q)] + groups[1..]
    else if Lt(key, groups[0].key) then [Group(key, q)] + groups
    else [groups[0]] + AddTo(groups[1..], key, q)
  }

  lemma {:induction false} AddToTotals(groups: seq<Group>, key: string, q: int)
    ensures Totals(AddTo(groups, key, q)) == Totals(groups) + q
    ensures forall x :: TotalFor(AddTo(groups, key, q), x) == TotalFor(groups, x) + (if x == key then q else 0)
    decreases |groups|
  {
    var r := AddTo(groups, key, q);
    if |groups| > 0 {
      assert r[1..] == if groups[0].key == key then groups[1..]
                       else if Lt(key, groups[0].key) then groups
                       else AddTo(groups[1..], key, q);
      if groups[0].key != key && !Lt(key, groups[0].key) {
        AddToTotals(groups[1..], key, q);
      }
    }
  }

  lemma {:induction false} AddToKeys(groups: seq<Group>, key: string, q: int)
    requires StrictlyAscending(groups)
    ensures StrictlyAscending(AddTo(groups, key, q))
    ensures forall x :: HasKey(AddTo(groups, key, q), x) <==> HasKey(groups, x) || x == key
    decreases |groups|
  {
    var r := AddTo(groups, key, q);
    if |groups| == 0 {
      assert r[0].key == key;
      return;
    }
    var rest := groups[1..];
    assert StrictlyAscending(rest);
    forall x ensures HasKey(groups, x) <==> groups[0].key == x || HasKey(rest, x) {
      if HasKey(groups, x) && groups[0].key != x {
        var i :| 0 <= i < |groups| && groups[i].key == x;
        assert rest[i - 1].key == x;
      }
      if HasKey(rest, x) {
        var i :| 0 <= i < |rest| && rest[i].key == x;
        assert groups[i + 1].key == x;
      }
    }
    forall x | HasKey(rest, x) ensures Lt(groups[0].key, x) {
      var i :| 0 <= i < |rest| && rest[i].key == x;
      assert groups[i + 1].key == x;
    }
    if groups[0].key == key {
      assert r == [Group(key, groups[0].total + q)] + rest;
      ConsAscending(Group(key, groups[0].total + q), rest);
      HasKeyCons(Group(key, groups[0].total + q), rest);
    } else if Lt(key, groups[0].key) {
      forall x | HasKey(groups, x) ensures Lt(key, x) {
        if x != groups[0].key {
          LeTransitive(key, groups[0].key, x);
          if key == x {
            LeAntisymmetric(key, groups[0].key);
          }
        }
      }
      ConsAscending(Group(key, q), groups);
      HasKeyCons(Group(key, q), groups);
    } else {
      NotLeIsGt(key, groups[0].key);
      var tail := AddTo(rest, key, q);
      AddToKeys(rest, key, q);
      forall x | HasKey(tail, x) ensures Lt(groups[0].key, x) {
      }
      ConsAscending(groups[0], tail);
      HasKeyCons(groups[0], tail);
    }
  }

  lemma ConsAscending(g: Group, groups: seq<Group>)
    requires StrictlyAscending(groups)
    requires forall x :: HasKey(groups, x) ==> Lt(g.key, x)
    ensures StrictlyAscending([g] + groups)
  {
    var r := [g] + groups;
    forall i, j | 0 <= i < j < |r| ensures Lt(r[i].key, r[j].key) {
      assert r[j] == groups[j - 1];
      if i == 0 {
        assert HasKey(groups, r[j].key);
      } else {
        assert r[i] == groups[i - 1];
      }
    }
  }

  lemma HasKeyCons(g: Group, groups: seq<Group>)
    ensures forall x :: HasKey([g] + groups, x) <==> g.key == x || HasKey(groups, x)
  {
    var r := [g] + groups;
    forall x ensures HasKey(r, x) <==> g.key == x || HasKey(groups, x) {
      if g.key == x {
        assert r[0].key == x;
      }
      if HasKey(groups, x) {
        var i :| 0 <= i < |groups| && groups[i].key == x;
        assert r[i + 1].key == x;
      }
      if HasKey(r, x) && g.key != x {
        var i :| 0 <= i < |r| && r[i].key == x;
        assert groups[i - 1].key == x;
      }
    }
  }

  /** In a series with distinct keys, an entry's total is the total for its key. */
  lemma {:induction false} EntryIsTotalFor(groups: seq<Group>, i: int)
    requires StrictlyAscending(groups)
    requires 0 <= i < |groups|
    ensures groups[i].total == TotalFor(groups, groups[i].key)
    decreases |groups|
  {
    var rest := groups[1..];
    assert StrictlyAscending(rest);
    if i == 0 {
      NoKeyNoTotal(rest, groups[0].key);
    } else {
      assert groups[0].key != groups[i].key;
      EntryIsTotalFor(rest, i - 1);
    }
  }

  lemma {:induction false} NoKeyNoTotal(groups: seq<Group>, key: string)
    requires forall j :: 0 <= j < |groups| ==> groups[j].key != key
    ensures TotalFor(groups, key) == 0
    decreases |groups|
  {
    if |groups| > 0 {
      NoKeyNoTotal(groups[1..], key);
    }
  }

  /**
    `df.groupby(c)["Quantity Sold"].sum()`: one entry per distinct value of the
    column, in ascending order, each holding the summed quantity of its rows;
    the entries together hold the quantity of every row.
  */
  function GroupSum(rows: seq<ReportRow>, c: Column): (r: seq<Group>)
    ensures StrictlyAscending(r)
    ensures forall x :: HasKey(r, x) <==> exists row :: row in rows && KeyOf(row, c) == x
    ensures forall x :: TotalFor(r, x) == QuantityFor(rows, c, x)
    ensures Totals(r) == Quantity(rows)
  {
    if |rows| == 0 then []
    else
      var rest := GroupSum(rows[1..], c);
      AddToTotals(rest, KeyOf(rows[0], c), rows[0].quantity);
      AddToKeys(rest, KeyOf(rows[0], c), rows[0].quantity);
      assert forall row :: row in rows <==> row == rows[0] || row in rows[1..];
      AddTo(rest, KeyOf(rows[0], c), rows[0].quantity)
  }

  /** Each entry of a series is the sum of the quantities of its rows. */
  lemma EntryTotals(rows: seq<ReportRow>, c: Column)
    ensures forall i :: 0 <= i < |GroupSum(rows, c)| ==>
              GroupSum(rows, c)[i].total == QuantityFor(rows, c, GroupSum(rows, c)[i].key)
  {
    var r := GroupSum(rows, c);
    forall i | 0 <= i < |r| ensures r[i].total == QuantityFor(rows, c, r[i].key) {
      EntryIsTotalFor(r, i);
    }
  }

  /** The Sales Trend series: quantities per date. */
  function Trend(rows: seq<ReportRow>): seq<Group>
  {
    GroupSum(rows, ByDate)
  }

  /** The Sales Per Product series: quantities per product name (same-named products merge). */
  function PerProduct(rows: seq<ReportRow>): seq<Group>
  {
    GroupSum(rows, ByProduct)
  }

  /** Both series of a report add up to the quantity the report lists. */
  lemma SeriesTotalsMatchReport(products: seq<Tables.ProductRow>, sales: seq<Tables.Sale>, start: string, end: string)
    ensures var rows := SalesReport(products, sales, start, end);
            Totals(Trend(rows)) == Quantity(rows) == Totals(PerProduct(rows))
  {
  }
}
