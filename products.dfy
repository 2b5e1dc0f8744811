/** The products screen: one Add/Update handler that inserts a product or overwrites the
    selected one, the unwired delete handler, and the searchable product list. */
module ProductScreens {
  import opened Common
  import opened Text
  import opened Tables
  import opened Store

  function WarehouseName(w: Warehouse): string { w.name }

  /** The names offered by a choice box fed from `SELECT id,name FROM t WHERE is_active=1`,
      in table order. */
  function ActiveNames<T>(rows: seq<Row<T>>, key: T -> string): seq<string> {
    if rows == [] then []
    else (if rows[0].active then [key(rows[0].data)] else []) + ActiveNames(rows[1..], key)
  }

  /** The choice box offers exactly the names that the save handler's
      `SELECT id ... WHERE name=? AND is_active=1` finds. */
  lemma {:induction false} ActiveNamesFound<T>(rows: seq<Row<T>>, key: T -> string, n: string)
    ensures n in ActiveNames(rows, key) <==> Lookup(rows, key, n, true).Some?
  {
    if rows != [] {
      ActiveNamesFound(rows[1..], key, n);
    }
  }

  /** The product form as `add_or_update` reads it: every widget's text trimmed. */
  datatype Form = Form(
    sku: string, name: string, description: string, category: string, cost: string,
    price: string, qty: string, warehouse: string, active: string)

  function FormOf(sku: string, name: string, description: string, category: string, cost: string,
                  price: string, qty: string, warehouse: string, active: string): Form {
    Form(Strip(sku), Strip(name), Strip(description), Strip(category), Strip(cost),
         Strip(price), Strip(qty), Strip(warehouse), Strip(active))
  }

  /** Every field except the description is required. */
  predicate Filled(f: Form) {
    f.sku != [] && f.name != [] && f.category != [] && f.cost != [] && f.price != [] &&
    f.qty != [] && f.warehouse != [] && f.active != []
  }

  /** `float(cost)`, `float(price)` and `int(qty)` all succeed. */
  predicate Numeric(f: Form) {
    ParseNumber(f.cost).Some? && ParseNumber(f.price).Some? && ParseInt(f.qty).Some?
  }

  /** The checks `add_or_update` runs before writing: the required fields (else a notice);
      the numbers (a caught ValueError, another notice); then the active category and the
      active warehouse of those names, whose missing `fetchone()` row raises TypeError. */
  function CheckProduct(categories: seq<Row<Category>>, warehouses: seq<Row<Warehouse>>, f: Form): Checked<Product> {
    if !Filled(f) then Rejected(Refused(MissingField))
    else if !Numeric(f) then Rejected(Refused(NotANumber))
    else
      var c := Lookup(categories, CategoryName, f.category, true);
      var w := Lookup(warehouses, WarehouseName, f.warehouse, true);
      if c.None? || w.None? then Rejected(Crashed(TypeError))
      else Accepted(Product(f.sku, f.name, f.description, c.value.id, ParseNumber(f.cost).value,
                            ParseNumber(f.price).value, ParseInt(f.qty).value, w.value.id))
  }

  /** How `CheckProduct` rejects a form: blank required fields first, then a number that does
      not parse, then a category or warehouse with no active row of that name. */
  lemma CheckProductRejects(categories: seq<Row<Category>>, warehouses: seq<Row<Warehouse>>, f: Form)
    ensures CheckProduct(categories, warehouses, f) == Rejected(Refused(MissingField)) <==> !Filled(f)
    ensures CheckProduct(categories, warehouses, f) == Rejected(Refused(NotANumber)) <==> Filled(f) && !Numeric(f)
    ensures CheckProduct(categories, warehouses, f) == Rejected(Crashed(TypeError)) <==>
              Filled(f) && Numeric(f) &&
              ((forall i :: 0 <= i < |categories| ==> !(categories[i].data.name == f.category && categories[i].active)) ||
               (forall i :: 0 <= i < |warehouses| ==> !(warehouses[i].data.name == f.warehouse && warehouses[i].active)))
    ensures var c := CheckProduct(categories, warehouses, f);
            c.Rejected? ==> c.outcome in {Refused(MissingField), Refused(NotANumber), Crashed(TypeError)}
  {
    LookupFacts(categories, CategoryName, f.category, true);
    LookupFacts(warehouses, WarehouseName, f.warehouse, true);
  }

  /** An accepted form becomes the product the form shows: the text fields as typed (trimmed),
      the parsed numbers, and the ids of the first active category and warehouse of the
      chosen names. */
  lemma CheckProductAccepts(categories: seq<Row<Category>>, warehouses: seq<Row<Warehouse>>, f: Form)
    requires Ascending(categories) && Ascending(warehouses)
    ensures CheckProduct(categories, warehouses, f).Accepted? <==>
              Filled(f) && Numeric(f) && Lookup(categories, CategoryName, f.category, true).Some? &&
              Lookup(warehouses, WarehouseName, f.warehouse, true).Some?
    ensures var c := CheckProduct(categories, warehouses, f);
            c.Accepted? ==>
              c.data.sku == f.sku && c.data.name == f.name && c.data.description == f.description &&
              Some(c.data.costPrice) == ParseNumber(f.cost) && Some(c.data.price) == ParseNumber(f.price) &&
              Some(c.data.quantity) == ParseInt(f.qty)
    ensures var c := CheckProduct(categories, warehouses, f);
            c.Accepted? ==>
              Find(categories, c.data.categoryId).Some? && Find(categories, c.data.categoryId).value.active &&
              Find(categories, c.data.categoryId).value.data.name == f.category &&
              Find(warehouses, c.data.warehouseId).Some? && Find(warehouses, c.data.warehouseId).value.active &&
              Find(warehouses, c.data.warehouseId).value.data.name == f.warehouse
  {
    LookupFacts(categories, CategoryName, f.category, true);
    LookupFacts(warehouses, WarehouseName, f.warehouse, true);
    if CheckProduct(categories, warehouses, f).Accepted? {
      FoundIsFound(categories, Lookup(categories, CategoryName, f.category, true).value);
      FoundIsFound(warehouses, Lookup(warehouses, WarehouseName, f.warehouse, true).value);
    }
  }

  /** Inserting a product whose category and warehouse exist and whose SKU is free keeps every
      table consistent. */
  lemma InsertProductValid(db: Database, data: Product, now: string, active: bool)
    requires db.Valid() && !Taken(db.products.rows, Sku, data.sku)
    requires Find(db.categories.rows, data.categoryId).Some? && Find(db.warehouses.rows, data.warehouseId).Some?
    ensures Consistent(db.users, db.categories, db.warehouses, Insert(db.products, data, now, active),
                       db.departments, db.suppliers, db.expenses, db.debts, db.damage, db.sales)
  {
    InsertFacts(db.products, data, now, active);
    InsertUnique(db.products, Sku, data, now, active);
    ChildInsertRefs(db.products, ProductCategory, db.categories.rows, data, now, active);
    ChildInsertRefs(db.products, ProductWarehouse, db.warehouses.rows, data, now, active);
    ParentInsertRefs(db.damage.rows, DamageProduct, db.products, data, now, active);
    ParentInsertRefs(db.sales.rows, SaleProduct, db.products, data, now, active);
  }

  /** Overwriting a product, with existing category and warehouse and a SKU no other product
      has, keeps every table consistent. */
  lemma RewriteProductValid(db: Database, id: int, data: Product, now: string, active: bool)
    requires db.Valid() && !Clashes(db.products.rows, Sku, data.sku, id)
    requires Find(db.categories.rows, data.categoryId).Some? && Find(db.warehouses.rows, data.warehouseId).Some?
    ensures Consistent(db.users, db.categories, db.warehouses, Rewrite(db.products, id, data, now, active),
                       db.departments, db.suppliers, db.expenses, db.debts, db.damage, db.sales)
  {
    RewriteWellFormed(db.products, id, data, now, active);
    if Find(db.products.rows, id).Some? {
      var r := Row(id, data, Find(db.products.rows, id).value.createdAt, now, active);
      NoClashKeepsUnique(db.products, Sku, r);
      ChildPutRefs(db.products.rows, ProductCategory, db.categories.rows, r);
      ChildPutRefs(db.products.rows, ProductWarehouse, db.warehouses.rows, r);
      ParentPutRefs(db.damage.rows, DamageProduct, db.products.rows, r);
      ParentPutRefs(db.sales.rows, SaleProduct, db.products.rows, r);
    }
  }

  /** With foreign keys enforced, a product can be deleted exactly when no damage entry and no
      sale refers to it. */
  lemma DeleteProductAllowed(db: Database, id: int)
    requires db.Valid()
    ensures Consistent(db.users, db.categories, db.warehouses, Delete(db.products, id),
                       db.departments, db.suppliers, db.expenses, db.debts, db.damage, db.sales) <==>
            !Referenced(db.damage.rows, DamageProduct, id) && !Referenced(db.sales.rows, SaleProduct, id)
  {
    DeleteWellFormed(db.products, id);
    DeleteUnique(db.products, Sku, id);
    ChildRemoveRefs(db.products.rows, ProductCategory, db.categories.rows, id);
    ChildRemoveRefs(db.products.rows, ProductWarehouse, db.warehouses.rows, id);
    ParentRemoveRefs(db.damage.rows, DamageProduct, db.products.rows, id);
    ParentRemoveRefs(db.sales.rows, SaleProduct, db.products.rows, id);
  }

  /** One line of the product list. Category and warehouse are absent when the row they name
      is missing (the LEFT JOINs); the active column reads 'Yes' or 'No'. */
  datatype ProductLine = ProductLine(
    id: int, sku: string, name: string, description: string, category: Option<string>,
    cost: real, price: real, quantity: int, warehouse: Option<string>, active: string,
    createdAt: string, updatedAt: string)

  function NameOf<T>(rows: seq<Row<T>>, key: T -> string, id: int): Option<string> {
    match Find(rows, id)
    case None => None
    case Some(r) => Some(key(r.data))
  }

  function LineOf(p: Row<Product>, categories: seq<Row<Category>>, warehouses: seq<Row<Warehouse>>): ProductLine {
    ProductLine(p.id, p.data.sku, p.data.name, p.data.description,
                NameOf(categories, CategoryName, p.data.categoryId), p.data.costPrice, p.data.price,
                p.data.quantity, NameOf(warehouses, WarehouseName, p.data.warehouseId),
                if p.active then "Yes" else "No", p.createdAt, p.updatedAt)
  }

  /** `WHERE (p.name LIKE '%term%' OR p.sku LIKE '%term%')`. */
  predicate Matches(p: Product, term: string) {
    Contains(p.name, term) || Contains(p.sku, term)
  }

  /** The matching products, in table order. */
  function Picked(products: seq<Row<Product>>, term: string): seq<Row<Product>> {
    Filter(products, (p: Row<Product>) => Matches(p.data, term))
  }

  function LinesOf(ps: seq<Row<Product>>, categories: seq<Row<Category>>, warehouses: seq<Row<Warehouse>>): (lines: seq<ProductLine>)
    ensures |lines| == |ps|
    ensures forall i :: 0 <= i < |ps| ==> lines[i] == LineOf(ps[i], categories, warehouses)
  {
    if ps == [] then [] else [LineOf(ps[0], categories, warehouses)] + LinesOf(ps[1..], categories, warehouses)
  }

  /** The product list for a search term, which is trimmed first. */
  function Listing(products: seq<Row<Product>>, categories: seq<Row<Category>>, warehouses: seq<Row<Warehouse>>,
                   term: string): seq<ProductLine> {
    LinesOf(Picked(products, Strip(term)), categories, warehouses)
  }

  /** The picked products are exactly the products whose name or SKU contains the term. */
  lemma PickedExactly(products: seq<Row<Product>>, term: string, p: Row<Product>)
    ensures p in Picked(products, term) <==> p in products && Matches(p.data, term)
  {
    FilterExactly(products, (x: Row<Product>) => Matches(x.data, term), p);
  }

  /** Every product whose name or SKU contains the trimmed term is listed, and every listed
      line is such a product's line. */
  lemma ListingExactly(products: seq<Row<Product>>, categories: seq<Row<Category>>, warehouses: seq<Row<Warehouse>>,
                       term: string, p: Row<Product>)
    requires p in products && Matches(p.data, Strip(term))
    ensures LineOf(p, categories, warehouses) in Listing(products, categories, warehouses, term)
  {
    PickedExactly(products, Strip(term), p);
    LinesOfHas(Picked(products, Strip(term)), categories, warehouses, p);
  }

  lemma LinesOfHas(ps: seq<Row<Product>>, categories: seq<Row<Category>>, warehouses: seq<Row<Warehouse>>,
                   p: Row<Product>)
    requires p in ps
    ensures LineOf(p, categories, warehouses) in LinesOf(ps, categories, warehouses)
  {
    var i :| 0 <= i < |ps| && ps[i] == p;
    assert LinesOf(ps, categories, warehouses)[i] == LineOf(p, categories, warehouses);
  }

  lemma ListingSound(products: seq<Row<Product>>, categories: seq<Row<Category>>, warehouses: seq<Row<Warehouse>>,
                     term: string, i: int)
    requires 0 <= i < |Listing(products, categories, warehouses, term)|
    ensures var line := Listing(products, categories, warehouses, term)[i];
            exists p :: p in products && Matches(p.data, Strip(term)) && line == LineOf(p, categories, warehouses)
  {
    var picked := Picked(products, Strip(term));
    PickedExactly(products, Strip(term), picked[i]);
  }

  /** The products screen: `selectedId` is the product last picked in the list. Only a pick
      sets it and nothing clears it, so once a product has been picked every later save
      overwrites that product. */
  class ProductsScreen {
    const db: Database
    var selectedId: Option<int>

    constructor(db: Database)
      ensures this.db == db && selectedId == None
    {
      this.db := db;
      selectedId := None;
    }

    /** `on_select`. */
    method Select(id: int)
      modifies this`selectedId
      ensures selectedId == Some(id)
    {
      selectedId := Some(id);
    }

    /** `load_products`: the active category and warehouse names for the choice boxes, and
        the product list for the search term. */
    method LoadProducts(term: string) returns (categories: seq<string>, warehouses: seq<string>, lines: seq<ProductLine>)
      ensures categories == ActiveNames(db.categories.rows, CategoryName)
      ensures warehouses == ActiveNames(db.warehouses.rows, WarehouseName)
      ensures lines == Listing(db.products.rows, db.categories.rows, db.warehouses.rows, term)
    {
      categories := ActiveNames(db.categories.rows, CategoryName);
      warehouses := ActiveNames(db.warehouses.rows, WarehouseName);
      lines := Listing(db.products.rows, db.categories.rows, db.warehouses.rows, term);
    }

    /** `add_or_update`. A form that fails `CheckProduct` writes nothing. Otherwise, with a
        product selected, that product's every column is overwritten (quantity included) and
        its `created_at` kept; with none, a product is inserted. A SKU another product already
        has makes SQLite refuse the statement (a caught IntegrityError), and nothing changes. */
    method AddOrUpdate(sku: string, name: string, description: string, category: string, cost: string,
                       price: string, qty: string, warehouse: string, active: string, now: string)
      returns (outcome: Outcome)
      requires db.Valid()
      modifies db`products
      ensures db.Valid()
      ensures var c := CheckProduct(old(db.categories.rows), old(db.warehouses.rows),
                                    FormOf(sku, name, description, category, cost, price, qty, warehouse, active));
              c.Rejected? ==> outcome == c.outcome && db.products == old(db.products)
      ensures var f := FormOf(sku, name, description, category, cost, price, qty, warehouse, active);
              var c := CheckProduct(old(db.categories.rows), old(db.warehouses.rows), f);
              c.Accepted? && !Truthy(old(selectedId)) ==>
                if Taken(old(db.products.rows), Sku, c.data.sku) then
                  outcome == Refused(Duplicate) && db.products == old(db.products)
                else
                  outcome == Saved && db.products == Insert(old(db.products), c.data, now, f.active == "Yes")
      ensures var f := FormOf(sku, name, description, category, cost, price, qty, warehouse, active);
              var c := CheckProduct(old(db.categories.rows), old(db.warehouses.rows), f);
              c.Accepted? && Truthy(old(selectedId)) ==>
                if Clashes(old(db.products.rows), Sku, c.data.sku, old(selectedId).value) then
                  outcome == Refused(Duplicate) && db.products == old(db.products)
                else
                  outcome == Saved &&
                  db.products == Rewrite(old(db.products), old(selectedId).value, c.data, now, f.active == "Yes")
    {
      var f := FormOf(sku, name, description, category, cost, price, qty, warehouse, active);
      var c := CheckProduct(db.categories.rows, db.warehouses.rows, f);
      if c.Rejected? {
        return c.outcome;
      }
      CheckProductAccepts(db.categories.rows, db.warehouses.rows, f);
      var isActive := f.active == "Yes";
      if Truthy(selectedId) {
        if Clashes(db.products.rows, Sku, c.data.sku, selectedId.value) {
          return Refused(Duplicate);
        }
        RewriteProductValid(db, selectedId.value, c.data, now, isActive);
        db.CommitProducts(Rewrite(db.products, selectedId.value, c.data, now, isActive));
      } else {
        if Taken(db.products.rows, Sku, c.data.sku) {
          return Refused(Duplicate);
        }
        InsertProductValid(db, c.data, now, isActive);
        db.CommitProducts(Insert(db.products, c.data, now, isActive));
      }
      return Saved;
    }

    /** `delete_product`: with a row picked, the product is deleted, unless a damage entry or a
        sale still refers to it, in which case the enforced foreign key raises an uncaught
        IntegrityError and nothing changes. */
    method DeleteProduct(picked: Option<int>) returns (outcome: Outcome)
      requires db.Valid()
      modifies db`products
      ensures db.Valid()
      ensures picked.None? ==> outcome == Skipped && db.products == old(db.products)
      ensures picked.Some? && (Referenced(old(db.damage.rows), DamageProduct, picked.value) ||
                               Referenced(old(db.sales.rows), SaleProduct, picked.value)) ==>
                outcome == Crashed(IntegrityError) && db.products == old(db.products)
      ensures picked.Some? && !Referenced(old(db.damage.rows), DamageProduct, picked.value) &&
              !Referenced(old(db.sales.rows), SaleProduct, picked.value) ==>
                outcome == Saved && db.products == Delete(old(db.products), picked.value)
    {
      if picked.None? {
        return Skipped;
      }
      DeleteProductAllowed(db, picked.value);
      if Referenced(db.damage.rows, DamageProduct, picked.value) || Referenced(db.sales.rows, SaleProduct, picked.value) {
        return Crashed(IntegrityError);
      }
      db.CommitProducts(Delete(db.products, picked.value));
      return Saved;
    }
  }
}
