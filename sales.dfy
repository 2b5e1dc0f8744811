/** The sales screen: recording, correcting and deleting sales, each of which moves stock of
    the sold product, and the filtered list of sales. */
module Sales {
  import opened Common
  import opened Text
  import opened Order
  import opened Tables
  import opened Store
  import Q = Query

  /** The quantity a sale row takes from product `pid`. */
  function SaleQty(r: Row<Sale>, pid: int): int {
    if r.data.prodId == pid then r.data.qty else 0
  }

  /** Sum of `qty` over every sale of product `pid`, active or not. */
  function Sold(rows: seq<Row<Sale>>, pid: int): int {
    if rows == [] then 0 else SaleQty(rows[0], pid) + Sold(rows[1..], pid)
  }

  /** The stored `quantity` of product `pid`, 0 when there is no such product. */
  function Stock(products: seq<Row<Product>>, pid: int): int {
    match Find(products, pid)
    case None => 0
    case Some(r) => r.data.quantity
  }

  /** Quantity on hand plus quantity sold. */
  function Balance(products: seq<Row<Product>>, sales: seq<Row<Sale>>, pid: int): int {
    Stock(products, pid) + Sold(sales, pid)
  }

  /** A product row with `q` fewer units on hand and every other column as it was. */
  function Less(r: Row<Product>, q: int): Row<Product> {
    r.(data := r.data.(quantity := r.data.quantity - q))
  }

  /** `UPDATE products SET quantity = quantity - q WHERE id = pid`. */
  function Withdraw(products: Table<Product>, pid: int, q: int): Table<Product> {
    if Find(products.rows, pid).None? then products
    else Replace(products, Less(Find(products.rows, pid).value, q))
  }

  /** The sale row `update_sale` writes: new receipt number, quantity, notes, active flag and
      `updated_at`; id, product, date and `created_at` as they were. */
  function Corrected(prev: Row<Sale>, receiptNo: string, qty: int, notes: string, now: string, active: bool): Row<Sale> {
    Row(prev.id, prev.data.(receiptNo := receiptNo, qty := qty, notes := notes), prev.createdAt, now, active)
  }

  /** `update_sale`'s stock step: the difference is taken from the product only when it is
      not zero. */
  function Adjusted(products: Table<Product>, pid: int, before: int, after: int): Table<Product> {
    if after - before != 0 then Withdraw(products, pid, after - before) else products
  }

  /** The choice label of a product: `f"{pid}: {name}"`. */
  function ProductLabel(pid: int, name: string): string {
    IntToString(pid) + ": " + name
  }

  /** The product id `add_sale` reads back from a label: `int(label.split(':', 1)[0])`. */
  function LabelId(text: string): Option<int> {
    ParseInt(BeforeColon(text))
  }

  function ProductLabels(products: seq<Row<Product>>): (labels: seq<string>)
    ensures |labels| == |products|
    ensures forall i :: 0 <= i < |products| ==> labels[i] == ProductLabel(products[i].id, products[i].data.name)
  {
    if products == [] then [] else [ProductLabel(products[0].id, products[0].data.name)] + ProductLabels(products[1..])
  }

  /** Reading the id back from a label gives the product's id, whatever its name. */
  lemma {:induction false} LabelRoundTrip(pid: int, name: string)
    ensures LabelId(ProductLabel(pid, name)) == Some(pid)
  {
    assert ProductLabel(pid, name) == IntToString(pid) + ":" + (" " + name);
    IntToStringFacts(pid);
    BeforeColonOfPrefix(IntToString(pid), " " + name);
    ParseIntRoundTrip(pid);
  }

  lemma {:induction false} SoldAppend(rows: seq<Row<Sale>>, r: Row<Sale>, pid: int)
    ensures Sold(rows + [r], pid) == Sold(rows, pid) + SaleQty(r, pid)
  {
    if rows != [] {
      assert (rows + [r])[1..] == rows[1..] + [r];
      SoldAppend(rows[1..], r, pid);
    }
  }

  lemma {:induction false} SoldPut(rows: seq<Row<Sale>>, r: Row<Sale>, pid: int)
    requires Ascending(rows) && Find(rows, r.id).Some?
    ensures Sold(Put(rows, r), pid) == Sold(rows, pid) - SaleQty(Find(rows, r.id).value, pid) + SaleQty(r, pid)
  {
    var rest := rows[1..];
    var head := if rows[0].id == r.id then r else rows[0];
    assert Put(rows, r) == [head] + Put(rest, r);
    assert ([head] + Put(rest, r))[1..] == Put(rest, r);
    assert Sold(Put(rows, r), pid) == SaleQty(head, pid) + Sold(Put(rest, r), pid);
    AscendingTail(rows);
    if rows[0].id == r.id {
      PutAbsent(rest, r);
    } else {
      SoldPut(rest, r, pid);
    }
  }

  lemma {:induction false} SoldRemove(rows: seq<Row<Sale>>, id: int, pid: int)
    requires Ascending(rows) && Find(rows, id).Some?
    ensures Sold(Remove(rows, id), pid) == Sold(rows, pid) - SaleQty(Find(rows, id).value, pid)
  {
    if rows[0].id == id {
      RemoveAbsent(rows[1..], id);
    } else {
      SoldRemove(rows[1..], id, pid);
    }
  }

  lemma {:induction false} WithdrawStock(products: Table<Product>, pid: int, q: int, p: int)
    ensures Stock(Withdraw(products, pid, q).rows, p) ==
      Stock(products.rows, p) - (if p == pid && Find(products.rows, pid).Some? then q else 0)
  {
    if Find(products.rows, pid).Some? {
      var r := Find(products.rows, pid).value;
      var r' := Less(r, q);
      FindPut(products.rows, r', p);
      if p == pid {
        assert Find(Withdraw(products, pid, q).rows, p) == Some(r');
      } else {
        assert Find(Withdraw(products, pid, q).rows, p) == Find(products.rows, p);
      }
    }
  }

  lemma {:induction false} WithdrawFind(products: Table<Product>, pid: int, q: int, x: int)
    ensures Find(Withdraw(products, pid, q).rows, x).Some? <==> Find(products.rows, x).Some?
  {
    if Find(products.rows, pid).Some? {
      var r := Find(products.rows, pid).value;
      FindPut(products.rows, Less(r, q), x);
    }
  }

  /** Moving stock keeps every table that refers to products consistent. */
  lemma {:induction false} WithdrawKeepsRefs<T>(rows: seq<Row<T>>, ref: T -> int, products: Table<Product>, pid: int, q: int)
    requires RefsValid(rows, ref, products.rows)
    ensures RefsValid(rows, ref, Withdraw(products, pid, q).rows)
  {
    forall k | 0 <= k < |rows|
      ensures Find(Withdraw(products, pid, q).rows, ref(rows[k].data)).Some?
    {
      WithdrawFind(products, pid, q, ref(rows[k].data));
    }
  }

  lemma {:induction false} WithdrawKeepsProducts(products: Table<Product>, categories: Table<Category>, warehouses: Table<Warehouse>, pid: int, q: int)
    requires ProductsOk(products, categories, warehouses)
    ensures ProductsOk(Withdraw(products, pid, q), categories, warehouses)
  {
    if Find(products.rows, pid).Some? {
      var r := Find(products.rows, pid).value;
      var r' := Less(r, q);
      var j :| 0 <= j < |products.rows| && products.rows[j] == r;
      assert Find(categories.rows, ProductCategory(products.rows[j].data)).Some?;
      assert Find(warehouses.rows, ProductWarehouse(products.rows[j].data)).Some?;
      ReplaceWellFormed(products, r');
      SameKeyUnique(products, Sku, r');
      ChildPutRefs(products.rows, ProductCategory, categories.rows, r');
      ChildPutRefs(products.rows, ProductWarehouse, warehouses.rows, r');
    }
  }

  /** A withdrawal of nothing leaves the products as they were. */
  lemma {:induction false} WithdrawNothing(products: Table<Product>, pid: int)
    requires Ascending(products.rows)
    ensures Withdraw(products, pid, 0) == products
  {
    if Find(products.rows, pid).Some? {
      var r := Find(products.rows, pid).value;
      assert Less(r, 0) == r;
      PutSame(products.rows, r);
    }
  }

  /** Recording a sale of an existing product keeps stock plus sold fixed for every product. */
  lemma {:induction false} AddSaleKeepsBalance(products: Table<Product>, sales: Table<Sale>, data: Sale, now: string, active: bool, p: int)
    requires Find(products.rows, data.prodId).Some?
    ensures Balance(Withdraw(products, data.prodId, data.qty).rows, Insert(sales, data, now, active).rows, p) ==
            Balance(products.rows, sales.rows, p)
  {
    WithdrawStock(products, data.prodId, data.qty, p);
    SoldAppend(sales.rows, Row(sales.next, data, now, now, active), p);
  }

  /** Correcting a sale's quantity, with the difference taken from its product, keeps stock
      plus sold fixed for every product. */
  lemma {:induction false} UpdateSaleKeepsBalance(products: Table<Product>, sales: Table<Sale>, prev: Row<Sale>, r: Row<Sale>)
    requires Ascending(products.rows) && Ascending(sales.rows) && Find(sales.rows, r.id) == Some(prev)
    requires r.data.prodId == prev.data.prodId && Find(products.rows, prev.data.prodId).Some?
    ensures forall p :: Balance(Adjusted(products, prev.data.prodId, prev.data.qty, r.data.qty).rows, Put(sales.rows, r), p) ==
                        Balance(products.rows, sales.rows, p)
  {
    var d := r.data.qty - prev.data.qty;
    AdjustedIs(products, prev.data.prodId, prev.data.qty, r.data.qty, d);
    forall p
      ensures Balance(Adjusted(products, prev.data.prodId, prev.data.qty, r.data.qty).rows, Put(sales.rows, r), p) ==
              Balance(products.rows, sales.rows, p)
    {
      MoveBalance(products, sales, prev, r, d, p);
    }
  }

  /** Skipping the write when the difference is zero is the same as withdrawing it. */
  lemma AdjustedIs(products: Table<Product>, pid: int, before: int, after: int, d: int)
    requires Ascending(products.rows) && d == after - before
    ensures Adjusted(products, pid, before, after) == Withdraw(products, pid, d)
  {
    if d == 0 {
      AdjustedZero(products, pid, before, after, d);
    } else {
      AdjustedMoves(products, pid, before, after, d);
    }
  }

  lemma AdjustedZero(products: Table<Product>, pid: int, before: int, after: int, d: int)
    requires Ascending(products.rows) && d == after - before && d == 0
    ensures Adjusted(products, pid, before, after) == Withdraw(products, pid, d)
  {
    WithdrawNothing(products, pid);
  }

  lemma AdjustedMoves(products: Table<Product>, pid: int, before: int, after: int, d: int)
    requires d == after - before && d != 0
    ensures Adjusted(products, pid, before, after) == Withdraw(products, pid, d)
  {
  }

  lemma {:induction false} MoveBalance(products: Table<Product>, sales: Table<Sale>, prev: Row<Sale>, r: Row<Sale>, d: int, p: int)
    requires Ascending(sales.rows) && Find(sales.rows, r.id) == Some(prev)
    requires r.data.prodId == prev.data.prodId && Find(products.rows, prev.data.prodId).Some?
    requires d == r.data.qty - prev.data.qty
    ensures Balance(Withdraw(products, prev.data.prodId, d).rows, Put(sales.rows, r), p) == Balance(products.rows, sales.rows, p)
  {
    WithdrawStock(products, prev.data.prodId, d, p);
    SoldPut(sales.rows, r, p);
  }

  /** Deleting a sale does not give its quantity back: stock plus sold drops by that quantity
      for the sale's product, so a sale with nonzero quantity breaks the balance. */
  lemma {:induction false} DeleteSaleShiftsBalance(products: Table<Product>, sales: Table<Sale>, id: int, p: int)
    requires Ascending(sales.rows) && Find(sales.rows, id).Some?
    ensures Balance(products.rows, Remove(sales.rows, id), p) ==
            Balance(products.rows, sales.rows, p) - SaleQty(Find(sales.rows, id).value, p)
  {
    SoldRemove(sales.rows, id, p);
  }

  /** One line of the sales list. The cost column is there only for administrators. */
  datatype SaleLine = SaleLine(
    id: int, receiptNo: string, date: string, productName: string, qty: int,
    cost: Option<real>, total: real, notes: string, createdAt: string, updatedAt: string, active: bool)

  function LineDate(l: SaleLine): string { l.date }

  function Line(s: Row<Sale>, p: Row<Product>, isAdmin: bool): SaleLine {
    SaleLine(s.id, s.data.receiptNo, s.data.date, p.data.name, s.data.qty,
             if isAdmin then Some(p.data.costPrice) else None,
             s.data.qty as real * p.data.price, s.data.notes, s.createdAt, s.updatedAt, s.active)
  }

  /** The columns of `sales s JOIN products p` the WHERE clause looks at: `p.name`,
      `s.date` and `s.is_active`. */
  function SaleRecord(s: Row<Sale>, p: Row<Product>): Q.Record {
    map[Q.Name := Q.Str(p.data.name), Q.Date := Q.Str(s.data.date), Q.Active := Q.Int(if s.active then 1 else 0)]
  }

  /** The date lies between the trimmed bounds, each bound applying when it is given. */
  predicate DateWithin(start: string, end: string, date: string) {
    var st := Strip(start);
    var en := Strip(end);
    (st != [] ==> StrLe(st, date)) && (en != [] ==> StrLe(date, en))
  }

  /** The active filter keeps active rows, inactive rows, or (any other choice) all of them. */
  predicate ActiveWanted(activeFilter: string, active: bool) {
    (activeFilter == "Active" ==> active) && (activeFilter == "Inactive" ==> !active)
  }

  /** Which sales the search widgets ask for, stated directly: the product name contains the
      trimmed term, the date is within the bounds, and the active filter accepts the row. */
  predicate SaleWanted(term: string, start: string, end: string, activeFilter: string, s: Row<Sale>, p: Row<Product>) {
    Contains(p.data.name, Strip(term)) && DateWithin(start, end, s.data.date) && ActiveWanted(activeFilter, s.active)
  }

  /** The date conditions `load_sales` appends: BETWEEN when both bounds are given, else the
      one bound that is given, else none. */
  function DateConds(st: string, en: string): seq<Q.Cond> {
    if st != [] && en != [] then [Q.Between(Q.Date, st, en)]
    else if st != [] then [Q.AtLeast(Q.Date, st)]
    else if en != [] then [Q.AtMost(Q.Date, en)]
    else []
  }

  /** The active-flag condition `load_sales` appends for the filter choice. */
  function ActiveConds(activeFilter: string): seq<Q.Cond> {
    if activeFilter == "Active" then [Q.Is(Q.Active, Q.Int(1))]
    else if activeFilter == "Inactive" then [Q.Is(Q.Active, Q.Int(0))]
    else []
  }

  lemma DateCondsMeaning(st: string, en: string, r: Q.Record, date: string)
    requires Q.Date in r && r[Q.Date] == Q.Str(date)
    ensures Q.AllHold(DateConds(st, en), r) <==> (st != [] ==> StrLe(st, date)) && (en != [] ==> StrLe(date, en))
  {
    var conds := DateConds(st, en);
    if conds != [] {
      Q.AllHoldOne(conds[0], r);
    }
  }

  lemma ActiveCondsMeaning(activeFilter: string, r: Q.Record, active: bool)
    requires Q.Active in r && r[Q.Active] == Q.Int(if active then 1 else 0)
    ensures Q.AllHold(ActiveConds(activeFilter), r) <==> ActiveWanted(activeFilter, active)
  {
    var conds := ActiveConds(activeFilter);
    if conds != [] {
      Q.AllHoldOne(conds[0], r);
    }
  }

  lemma NameCondMeaning(term: string, s: Row<Sale>, p: Row<Product>)
    ensures Q.AllHold([Q.Like(Q.Name, Strip(term))], SaleRecord(s, p)) <==> Contains(p.data.name, Strip(term))
  {
    assert SaleRecord(s, p)[Q.Name] == Q.Str(p.data.name);
    Q.AllHoldOne(Q.Like(Q.Name, Strip(term)), SaleRecord(s, p));
  }

  /** The WHERE clause `load_sales` builds, condition by condition. */
  method SalesWhere(term: string, start: string, end: string, activeFilter: string) returns (where: seq<Q.Cond>)
    ensures forall s, p :: Q.AllHold(where, SaleRecord(s, p)) <==> SaleWanted(term, start, end, activeFilter, s, p)
  {
    var st := Strip(start);
    var en := Strip(end);
    where := [Q.Like(Q.Name, Strip(term))];
    where := where + DateConds(st, en);
    where := where + ActiveConds(activeFilter);
    forall s, p
      ensures Q.AllHold(where, SaleRecord(s, p)) <==> SaleWanted(term, start, end, activeFilter, s, p)
    {
      var rec := SaleRecord(s, p);
      var named := [Q.Like(Q.Name, Strip(term))];
      Q.AllHoldAppend(named, DateConds(st, en), rec);
      Q.AllHoldAppend(named + DateConds(st, en), ActiveConds(activeFilter), rec);
      NameCondMeaning(term, s, p);
      assert rec[Q.Date] == Q.Str(s.data.date);
      assert rec[Q.Active] == Q.Int(if s.active then 1 else 0);
      DateCondsMeaning(st, en, rec, s.data.date);
      ActiveCondsMeaning(activeFilter, rec, s.active);
    }
  }

  /** The joined sale lines whose row satisfies `where`, in sale id order. */
  function Matching(sales: seq<Row<Sale>>, products: seq<Row<Product>>, where: seq<Q.Cond>, isAdmin: bool): seq<SaleLine> {
    if sales == [] then []
    else
      var rest := Matching(sales[1..], products, where, isAdmin);
      match Find(products, sales[0].data.prodId)
      case None => rest
      case Some(p) => if Q.AllHold(where, SaleRecord(sales[0], p)) then [Line(sales[0], p, isAdmin)] + rest else rest
  }

  /** The sale lines the widgets ask for: every sale whose product exists (the inner join)
      and which `SaleWanted` accepts. */
  function Wanted(sales: seq<Row<Sale>>, products: seq<Row<Product>>, term: string, start: string, end: string,
                  activeFilter: string, isAdmin: bool): seq<SaleLine> {
    if sales == [] then []
    else
      var rest := Wanted(sales[1..], products, term, start, end, activeFilter, isAdmin);
      match Find(products, sales[0].data.prodId)
      case None => rest
      case Some(p) => if SaleWanted(term, start, end, activeFilter, sales[0], p) then [Line(sales[0], p, isAdmin)] + rest else rest
  }

  lemma {:induction false} MatchingIsWanted(sales: seq<Row<Sale>>, products: seq<Row<Product>>, where: seq<Q.Cond>,
                                            term: string, start: string, end: string, activeFilter: string, isAdmin: bool)
    requires forall s, p :: Q.AllHold(where, SaleRecord(s, p)) <==> SaleWanted(term, start, end, activeFilter, s, p)
    ensures Matching(sales, products, where, isAdmin) == Wanted(sales, products, term, start, end, activeFilter, isAdmin)
  {
    if sales != [] {
      MatchingIsWanted(sales[1..], products, where, term, start, end, activeFilter, isAdmin);
    }
  }

  /** Moving stock of any product keeps every table consistent, given a sales table that is
      consistent with the products as they were. */
  lemma {:induction false} WithdrawValid(db: Database, pid: int, q: int, sales: Table<Sale>)
    requires db.Valid() && SalesOk(sales, db.products)
    ensures Consistent(db.users, db.categories, db.warehouses, Withdraw(db.products, pid, q),
                       db.departments, db.suppliers, db.expenses, db.debts, db.damage, sales)
  {
    WithdrawKeepsProducts(db.products, db.categories, db.warehouses, pid, q);
    WithdrawKeepsRefs(db.damage.rows, DamageProduct, db.products, pid, q);
    WithdrawKeepsRefs(sales.rows, SaleProduct, db.products, pid, q);
  }

  /** The tables after recording `data` for an existing product still satisfy the schema. */
  lemma {:induction false} AddSaleValid(db: Database, data: Sale, now: string, active: bool)
    requires db.Valid() && Find(db.products.rows, data.prodId).Some?
    ensures Consistent(db.users, db.categories, db.warehouses, Withdraw(db.products, data.prodId, data.qty),
                       db.departments, db.suppliers, db.expenses, db.debts, db.damage, Insert(db.sales, data, now, active))
  {
    InsertFacts(db.sales, data, now, active);
    ChildInsertRefs(db.sales, SaleProduct, db.products.rows, data, now, active);
    WithdrawValid(db, data.prodId, data.qty, Insert(db.sales, data, now, active));
  }

  /** The sales table after correcting sale `r.id` without changing its product still refers
      only to existing products. */
  lemma {:induction false} CorrectedSaleOk(db: Database, prev: Row<Sale>, r: Row<Sale>)
    requires db.Valid() && Find(db.sales.rows, r.id) == Some(prev) && r.data.prodId == prev.data.prodId
    ensures Find(db.products.rows, prev.data.prodId).Some?
    ensures SalesOk(Replace(db.sales, r), db.products)
  {
    var j :| 0 <= j < |db.sales.rows| && db.sales.rows[j] == prev;
    assert Find(db.products.rows, SaleProduct(db.sales.rows[j].data)).Some?;
    ReplaceWellFormed(db.sales, r);
    ChildPutRefs(db.sales.rows, SaleProduct, db.products.rows, r);
  }

  /** The tables after correcting sale `r.id` (same product) and moving the difference of its
      product still satisfy the schema. */
  lemma {:induction false} UpdateSaleValid(db: Database, prev: Row<Sale>, r: Row<Sale>)
    requires db.Valid() && Find(db.sales.rows, r.id) == Some(prev) && r.data.prodId == prev.data.prodId
    ensures Find(db.products.rows, prev.data.prodId).Some?
    ensures Consistent(db.users, db.categories, db.warehouses, Adjusted(db.products, prev.data.prodId, prev.data.qty, r.data.qty),
                       db.departments, db.suppliers, db.expenses, db.debts, db.damage, Replace(db.sales, r))
  {
    CorrectedSaleOk(db, prev, r);
    AdjustedValid(db, prev.data.prodId, prev.data.qty, r.data.qty, Replace(db.sales, r));
  }

  lemma SalesValid(db: Database, sales: Table<Sale>)
    requires db.Valid() && SalesOk(sales, db.products)
    ensures Consistent(db.users, db.categories, db.warehouses, db.products, db.departments, db.suppliers,
                       db.expenses, db.debts, db.damage, sales)
  {
  }

  /** `update_sale`'s stock step keeps the database consistent with any sales table that
      refers only to existing products. */
  lemma AdjustedValid(db: Database, pid: int, before: int, after: int, sales: Table<Sale>)
    requires db.Valid() && SalesOk(sales, db.products)
    ensures Consistent(db.users, db.categories, db.warehouses, Adjusted(db.products, pid, before, after),
                       db.departments, db.suppliers, db.expenses, db.debts, db.damage, sales)
  {
    var d := after - before;
    assert WellFormed(db.products);
    AdjustedIs(db.products, pid, before, after, d);
    WithdrawValid(db, pid, d, sales);
  }

  /** The tables after deleting sale `id` still satisfy the schema: nothing refers to sales. */
  lemma DeleteSaleValid(db: Database, id: int)
    requires db.Valid()
    ensures Consistent(db.users, db.categories, db.warehouses, db.products, db.departments,
                       db.suppliers, db.expenses, db.debts, db.damage, Delete(db.sales, id))
  {
    DeleteWellFormed(db.sales, id);
    ChildRemoveRefs(db.sales.rows, SaleProduct, db.products.rows, id);
  }

  /** The sales screen: `isAdmin` is fixed when the screen is built, `currentId` is the sale
      last picked in the list (absent until the first pick; nothing clears it). */
  class SalesScreen {
    const db: Database
    const isAdmin: bool
    var currentId: Option<int>

    constructor(db: Database, role: string)
      ensures this.db == db && isAdmin == (Lower(role) == "admin") && currentId == None
    {
      this.db := db;
      isAdmin := Lower(role) == "admin";
      currentId := None;
    }

    /** `on_select`: the picked row's id becomes the current sale. */
    method Select(id: int)
      modifies this`currentId
      ensures currentId == Some(id)
    {
      currentId := Some(id);
    }

    /** `load_sales`: the product labels for the form, and the lines the search widgets ask
        for, latest date first. */
    method LoadSales(term: string, start: string, end: string, activeFilter: string)
      returns (labels: seq<string>, lines: seq<SaleLine>)
      ensures |labels| == |db.products.rows|
      ensures forall i :: 0 <= i < |labels| ==> LabelId(labels[i]) == Some(db.products.rows[i].id)
      ensures SortedBy(lines, LineDate, true)
      ensures multiset(lines) == multiset(Wanted(db.sales.rows, db.products.rows, term, start, end, activeFilter, isAdmin))
    {
      labels := ProductLabels(db.products.rows);
      forall i | 0 <= i < |labels|
        ensures LabelId(labels[i]) == Some(db.products.rows[i].id)
      {
        LabelRoundTrip(db.products.rows[i].id, db.products.rows[i].data.name);
      }
      var where := SalesWhere(term, start, end, activeFilter);
      var found := Matching(db.sales.rows, db.products.rows, where, isAdmin);
      MatchingIsWanted(db.sales.rows, db.products.rows, where, term, start, end, activeFilter, isAdmin);
      lines := SortBy(found, LineDate, true);
      SortBySorted(found, LineDate, true);
    }

    /** `add_sale`. Receipt number, date, product and quantity must be non-empty; the product
        id comes from the label and the quantity from `int()`, either of which may raise; the
        INSERT fails on a product id that does not exist. Otherwise one sale is added and its
        quantity is taken from the product, with no check of its sign. */
    method AddSale(receiptNo: string, date: string, product: string, qty: string, notes: string,
                   active: bool, now: string) returns (outcome: Outcome)
      requires db.Valid()
      modifies db`sales, db`products
      ensures db.Valid()
      ensures receiptNo == [] || date == [] || product == [] || qty == [] ==> outcome == Refused(MissingField)
      ensures (receiptNo != [] && date != [] && product != [] && qty != [] &&
               (LabelId(product).None? || ParseInt(qty).None?)) ==> outcome == Crashed(ValueError)
      ensures (receiptNo != [] && date != [] && product != [] && qty != [] && LabelId(product).Some? &&
               ParseInt(qty).Some? && Find(old(db.products.rows), LabelId(product).value).None?) ==>
                outcome == Crashed(IntegrityError)
      ensures outcome == Saved <==>
                receiptNo != [] && date != [] && product != [] && qty != [] && LabelId(product).Some? &&
                ParseInt(qty).Some? && Find(old(db.products.rows), LabelId(product).value).Some?
      ensures outcome != Saved ==> db.sales == old(db.sales) && db.products == old(db.products)
      ensures outcome == Saved ==>
                db.sales == Insert(old(db.sales), Sale(receiptNo, date, LabelId(product).value, ParseInt(qty).value, notes), now, active) &&
                db.products == Withdraw(old(db.products), LabelId(product).value, ParseInt(qty).value)
      ensures outcome == Saved ==>
                forall p :: Balance(db.products.rows, db.sales.rows, p) == old(Balance(db.products.rows, db.sales.rows, p))
    {
      if receiptNo == [] || date == [] || product == [] || qty == [] {
        return Refused(MissingField);
      }
      var pid := LabelId(product);
      if pid.None? {
        return Crashed(ValueError);
      }
      var q := ParseInt(qty);
      if q.None? {
        return Crashed(ValueError);
      }
      if Find(db.products.rows, pid.value).None? {
        return Crashed(IntegrityError);
      }
      var data := Sale(receiptNo, date, pid.value, q.value, notes);
      var products, sales := db.products, db.sales;
      AddSaleValid(db, data, now, active);
      forall p
        ensures Balance(Withdraw(products, pid.value, q.value).rows, Insert(sales, data, now, active).rows, p) ==
                Balance(products.rows, sales.rows, p)
      {
        AddSaleKeepsBalance(products, sales, data, now, active, p);
      }
      db.CommitSale(Withdraw(products, pid.value, q.value), Insert(sales, data, now, active));
      return Saved;
    }

    /** `update_sale`. Administrators only, and only with a current sale. The new quantity
        comes from `int()`, which may raise, and the stored sale is read back (a sale that has
        gone makes the unpacking raise). The difference between new and old quantity is taken
        from the sale's product when it is not zero; then receipt number, quantity, notes,
        active flag and `updated_at` are rewritten, and product, date and `created_at` stay. */
    method UpdateSale(receiptNo: string, qty: string, notes: string, active: bool, now: string)
      returns (outcome: Outcome)
      requires db.Valid()
      modifies db`sales, db`products
      ensures db.Valid()
      ensures !isAdmin ==> outcome == Refused(PermissionDenied)
      ensures isAdmin && old(currentId).None? ==> outcome == Skipped
      ensures isAdmin && old(currentId).Some? && ParseInt(qty).None? ==> outcome == Crashed(ValueError)
      ensures (isAdmin && old(currentId).Some? && ParseInt(qty).Some? &&
               Find(old(db.sales.rows), old(currentId).value).None?) ==> outcome == Crashed(TypeError)
      ensures outcome == Saved <==>
                isAdmin && old(currentId).Some? && ParseInt(qty).Some? && Find(old(db.sales.rows), old(currentId).value).Some?
      ensures outcome != Saved ==> db.sales == old(db.sales) && db.products == old(db.products)
      ensures outcome == Saved ==>
                var prev := Find(old(db.sales.rows), old(currentId).value).value;
                db.sales == Replace(old(db.sales), Corrected(prev, receiptNo, ParseInt(qty).value, notes, now, active)) &&
                db.products == Adjusted(old(db.products), prev.data.prodId, prev.data.qty, ParseInt(qty).value)
      ensures outcome == Saved ==>
                forall p :: Balance(db.products.rows, db.sales.rows, p) == old(Balance(db.products.rows, db.sales.rows, p))
    {
      if !isAdmin {
        return Refused(PermissionDenied);
      }
      if currentId.None? {
        return Skipped;
      }
      var n := ParseInt(qty);
      if n.None? {
        return Crashed(ValueError);
      }
      var found := Find(db.sales.rows, currentId.value);
      if found.None? {
        return Crashed(TypeError);
      }
      var prev := found.value;
      var products, sales := db.products, db.sales;
      var r := Corrected(prev, receiptNo, n.value, notes, now, active);
      UpdateSaleValid(db, prev, r);
      UpdateSaleKeepsBalance(products, sales, prev, r);
      var stock := Adjusted(products, prev.data.prodId, prev.data.qty, n.value);
      db.CommitSale(stock, Replace(sales, r));
      return Saved;
    }

    /** `delete_sale`. Administrators only, and only with a row picked in the list; the sale
        is removed and its quantity is not returned to stock. */
    method DeleteSale(picked: Option<int>) returns (outcome: Outcome)
      requires db.Valid()
      modifies db`sales
      ensures db.Valid()
      ensures !isAdmin ==> outcome == Refused(PermissionDenied)
      ensures isAdmin && picked.None? ==> outcome == Skipped
      ensures outcome == Saved <==> isAdmin && picked.Some?
      ensures outcome != Saved ==> db.sales == old(db.sales)
      ensures outcome == Saved ==> db.sales == Delete(old(db.sales), picked.value)
    {
      if !isAdmin {
        return Refused(PermissionDenied);
      }
      if picked.None? {
        return Skipped;
      }
      DeleteSaleValid(db, picked.value);
      db.CommitSales(Delete(db.sales, picked.value));
      return Saved;
    }
  }
}
