/** The dashboard's counters: active products, total and largest quantity on hand, products
    low on stock, the number of categories and suppliers, and the sales and expense totals. */
module Dashboard {
  import opened Tables
  import opened Store

  /** `LOW_STOCK_THRESHOLD`. */
  const LowStockThreshold := 5

  /** `SELECT COUNT(*) FROM products WHERE is_active=1`. */
  function ActiveProducts(rows: seq<Row<Product>>): nat {
    if rows == [] then 0 else (if rows[0].active then 1 else 0) + ActiveProducts(rows[1..])
  }

  /** `SELECT SUM(quantity) FROM products`, with `or 0` for an empty table. */
  function TotalQuantity(rows: seq<Row<Product>>): int {
    if rows == [] then 0 else rows[0].data.quantity + TotalQuantity(rows[1..])
  }

  /** `SELECT MAX(quantity) FROM products`, with `or 0` for an empty table. */
  function MaxQuantity(rows: seq<Row<Product>>): int {
    if rows == [] then 0
    else if |rows| == 1 then rows[0].data.quantity
    else
      var m := MaxQuantity(rows[1..]);
      if rows[0].data.quantity >= m then rows[0].data.quantity else m
  }

  /** `SELECT COUNT(*) FROM products WHERE quantity <= 5`. */
  function LowStock(rows: seq<Row<Product>>): nat {
    if rows == [] then 0 else (if rows[0].data.quantity <= LowStockThreshold then 1 else 0) + LowStock(rows[1..])
  }

  /** `SELECT COUNT(*) FROM categories`: every row, active or not. */
  function Categories(rows: seq<Row<Category>>): nat {
    |rows|
  }

  /** `SELECT COUNT(*) FROM suppliers`: every row, active or not. */
  function Suppliers(rows: seq<Row<Supplier>>): nat {
    |rows|
  }

  /** The takings of one sale, when its product exists: `s.qty * p.price`. */
  function Takings(s: Row<Sale>, products: seq<Row<Product>>): real {
    match Find(products, s.data.prodId)
    case None => 0.0
    case Some(p) => s.data.qty as real * p.data.price
  }

  /** `SELECT SUM(s.qty * p.price) FROM sales s JOIN products p ON s.prod_id = p.id`, with
      `or 0.0` for no rows; money is summed exactly. */
  function TotalSales(sales: seq<Row<Sale>>, products: seq<Row<Product>>): real {
    if sales == [] then 0.0 else Takings(sales[0], products) + TotalSales(sales[1..], products)
  }

  /** `SELECT SUM(amount) FROM expenses`, with `or 0.0`; money is summed exactly. */
  function TotalExpenses(rows: seq<Row<Expense>>): real {
    if rows == [] then 0.0 else rows[0].data.amount + TotalExpenses(rows[1..])
  }

  /** The active count is at most the number of products, and equals it exactly when every
      product is active. */
  lemma {:induction false} ActiveProductsBound(rows: seq<Row<Product>>)
    ensures ActiveProducts(rows) <= |rows|
    ensures ActiveProducts(rows) == |rows| <==> forall k :: 0 <= k < |rows| ==> rows[k].active
  {
    if rows != [] {
      ActiveProductsBound(rows[1..]);
      assert forall k :: 1 <= k < |rows| ==> rows[k] == rows[1..][k - 1];
      if !rows[0].active {
        assert ActiveProducts(rows) <= |rows[1..]|;
      }
    }
  }

  /** An inactive product still counts towards the total quantity: the total is the same
      whatever the active flags are. */
  lemma {:induction false} TotalQuantityIgnoresActive(rows: seq<Row<Product>>, k: int, active: bool)
    requires 0 <= k < |rows|
    ensures TotalQuantity(rows[k := rows[k].(active := active)]) == TotalQuantity(rows)
  {
    if k > 0 {
      var t := rows[k := rows[k].(active := active)];
      assert t[1..] == rows[1..][k - 1 := rows[k].(active := active)];
      TotalQuantityIgnoresActive(rows[1..], k - 1, active);
    } else {
      assert rows[k := rows[k].(active := active)][1..] == rows[1..];
    }
  }

  /** An inactive category or supplier is still counted: switching any row's flag leaves both
      counters as they were. */
  lemma CountsIgnoreActive(cats: seq<Row<Category>>, i: int, sups: seq<Row<Supplier>>, j: int, active: bool)
    requires 0 <= i < |cats| && 0 <= j < |sups|
    ensures Categories(cats[i := cats[i].(active := active)]) == Categories(cats)
    ensures Suppliers(sups[j := sups[j].(active := active)]) == Suppliers(sups)
  {
  }

  /** The total of two lists of products is the sum of their totals. */
  lemma {:induction false} TotalQuantityAppend(a: seq<Row<Product>>, b: seq<Row<Product>>)
    ensures TotalQuantity(a + b) == TotalQuantity(a) + TotalQuantity(b)
  {
    if a != [] {
      assert (a + b)[1..] == a[1..] + b;
      TotalQuantityAppend(a[1..], b);
    } else {
      assert a + b == b;
    }
  }

  /** The maximum is the quantity of some product and no product has more; with no products
      it is 0. */
  lemma {:induction false} MaxQuantityIsMaximum(rows: seq<Row<Product>>)
    ensures rows == [] ==> MaxQuantity(rows) == 0
    ensures rows != [] ==> exists k :: 0 <= k < |rows| && rows[k].data.quantity == MaxQuantity(rows)
    ensures forall k :: 0 <= k < |rows| ==> rows[k].data.quantity <= MaxQuantity(rows)
  {
    if |rows| > 1 {
      var rest := rows[1..];
      MaxQuantityIsMaximum(rest);
      var j :| 0 <= j < |rest| && rest[j].data.quantity == MaxQuantity(rest);
      assert rows[j + 1] == rest[j];
      forall k | 0 <= k < |rows|
        ensures rows[k].data.quantity <= MaxQuantity(rows)
      {
        if k > 0 {
          assert rows[k] == rest[k - 1];
        }
      }
    } else if |rows| == 1 {
      assert rows[0].data.quantity == MaxQuantity(rows);
    }
  }

  /** No more products than there are, and all of them, exactly when even the largest
      quantity is at most the threshold. */
  lemma LowStockBound(rows: seq<Row<Product>>)
    ensures LowStock(rows) <= |rows|
    ensures LowStock(rows) == |rows| <==> rows == [] || MaxQuantity(rows) <= LowStockThreshold
  {
    LowStockAll(rows);
    MaxQuantityIsMaximum(rows);
    if rows != [] && LowStock(rows) == |rows| {
      var k :| 0 <= k < |rows| && rows[k].data.quantity == MaxQuantity(rows);
    }
  }

  lemma {:induction false} LowStockAll(rows: seq<Row<Product>>)
    ensures LowStock(rows) <= |rows|
    ensures LowStock(rows) == |rows| <==> forall k :: 0 <= k < |rows| ==> rows[k].data.quantity <= LowStockThreshold
  {
    if rows != [] {
      LowStockAll(rows[1..]);
      assert forall k :: 1 <= k < |rows| ==> rows[k] == rows[1..][k - 1];
    }
  }

  /** With the takings of sales summed exactly, the total of two lists of sales is the sum of
      their totals. */
  lemma {:induction false} TotalSalesAppend(a: seq<Row<Sale>>, b: seq<Row<Sale>>, products: seq<Row<Product>>)
    ensures TotalSales(a + b, products) == TotalSales(a, products) + TotalSales(b, products)
  {
    if a != [] {
      assert (a + b)[1..] == a[1..] + b;
      TotalSalesAppend(a[1..], b, products);
    } else {
      assert a + b == b;
    }
  }
}
