/** The warehouses screen: add and update warehouses. `currentId` is set by picking a row and
    never cleared; until the first pick it does not exist. Warehouse names are not UNIQUE. */
module WarehouseScreens {
  import opened Common
  import opened Text
  import opened Tables
  import opened Store

  /** The form as both handlers read it: every field trimmed. */
  datatype Form = Form(name: string, location: string, capacity: string)

  function FormOf(name: string, location: string, capacity: string): Form {
    Form(Strip(name), Strip(location), Strip(capacity))
  }

  /** The checks both handlers run: name, location and capacity are required, and
      `int(capacity)` must succeed. */
  function CheckWarehouse(f: Form): Checked<Warehouse> {
    if f.name == [] || f.location == [] || f.capacity == [] then Rejected(Refused(MissingField))
    else if ParseInt(f.capacity).None? then Rejected(Refused(NotAnInteger))
    else Accepted(Warehouse(f.name, f.location, ParseInt(f.capacity).value))
  }

  /** A form is accepted exactly when the three fields are filled and the capacity parses,
      and becomes the warehouse with the form's texts and the parsed capacity. */
  lemma CheckWarehouseMeaning(f: Form)
    ensures CheckWarehouse(f) == Rejected(Refused(MissingField)) <==> f.name == [] || f.location == [] || f.capacity == []
    ensures CheckWarehouse(f) == Rejected(Refused(NotAnInteger)) <==>
              f.name != [] && f.location != [] && f.capacity != [] && ParseInt(f.capacity).None?
    ensures CheckWarehouse(f).Accepted? <==>
              f.name != [] && f.location != [] && f.capacity != [] && ParseInt(f.capacity).Some?
    ensures var c := CheckWarehouse(f);
            c.Accepted? ==> c.data.name == f.name && c.data.location == f.location &&
                            Some(c.data.capacity) == ParseInt(f.capacity)
  {
  }

  /** `WHERE name LIKE ? OR location LIKE ?` with `'%term%'`. */
  predicate Matches(r: Row<Warehouse>, term: string) {
    Contains(r.data.name, term) || Contains(r.data.location, term)
  }

  /** `load_warehouses`: the matching warehouses `ORDER BY id`, a blank term matching all. */
  function Listing(warehouses: seq<Row<Warehouse>>, term: string): seq<Row<Warehouse>> {
    var t := Strip(term);
    Filter(warehouses, r => Matches(r, t))
  }

  /** A warehouse is listed exactly when its name or location contains the trimmed term,
      every warehouse for a blank term, in id order. */
  lemma ListingExactly(warehouses: seq<Row<Warehouse>>, term: string, r: Row<Warehouse>)
    requires Ascending(warehouses)
    ensures r in Listing(warehouses, term) <==> r in warehouses && Matches(r, Strip(term))
    ensures Strip(term) == [] ==> (r in Listing(warehouses, term) <==> r in warehouses)
    ensures Ascending(Listing(warehouses, term))
  {
    var t := Strip(term);
    FilterExactly(warehouses, (x: Row<Warehouse>) => Matches(x, t), r);
    FilterAscending(warehouses, (x: Row<Warehouse>) => Matches(x, t));
    if t == [] {
      EmptyTermMatches(r.data.name);
    }
  }

  /** Inserting a warehouse keeps every table consistent. */
  lemma AddWarehouseValid(db: Database, data: Warehouse, now: string, active: bool)
    requires db.Valid()
    ensures Consistent(db.users, db.categories, Insert(db.warehouses, data, now, active), db.products,
                       db.departments, db.suppliers, db.expenses, db.debts, db.damage, db.sales)
  {
    InsertFacts(db.warehouses, data, now, active);
    ParentInsertRefs(db.products.rows, ProductWarehouse, db.warehouses, data, now, active);
  }

  /** Overwriting a warehouse keeps every table consistent. */
  lemma UpdateWarehouseValid(db: Database, id: int, data: Warehouse, now: string, active: bool)
    requires db.Valid()
    ensures Consistent(db.users, db.categories, Rewrite(db.warehouses, id, data, now, active), db.products,
                       db.departments, db.suppliers, db.expenses, db.debts, db.damage, db.sales)
  {
    RewriteWellFormed(db.warehouses, id, data, now, active);
    if Find(db.warehouses.rows, id).Some? {
      var r := Row(id, data, Find(db.warehouses.rows, id).value.createdAt, now, active);
      ParentPutRefs(db.products.rows, ProductWarehouse, db.warehouses.rows, r);
    }
  }

  class WarehousesScreen {
    const db: Database
    var currentId: Option<int>

    constructor(db: Database)
      ensures this.db == db && currentId == None
    {
      this.db := db;
      currentId := None;
    }

    /** `on_select` with a row picked. */
    method Select(id: int)
      modifies this`currentId
      ensures currentId == Some(id)
    {
      currentId := Some(id);
    }

    /** `load_warehouses`. */
    method LoadWarehouses(term: string) returns (rows: seq<Row<Warehouse>>)
      ensures rows == Listing(db.warehouses.rows, term)
    {
      rows := Listing(db.warehouses.rows, term);
    }

    /** `add_warehouse`: a failed check shows its notice; otherwise the warehouse is inserted
        with `created_at == updated_at == now`. */
    method AddWarehouse(name: string, location: string, capacity: string, active: bool, now: string)
      returns (outcome: Outcome)
      requires db.Valid()
      modifies db`warehouses
      ensures db.Valid()
      ensures var c := CheckWarehouse(FormOf(name, location, capacity));
              outcome == (if c.Accepted? then Saved else c.outcome) &&
              db.warehouses == (if c.Accepted? then Insert(old(db.warehouses), c.data, now, active) else old(db.warehouses))
    {
      var c := CheckWarehouse(FormOf(name, location, capacity));
      if c.Rejected? {
        return c.outcome;
      }
      AddWarehouseValid(db, c.data, now, active);
      db.CommitWarehouses(Insert(db.warehouses, c.data, now, active));
      return Saved;
    }

    /** `update_warehouse`: nothing happens before the first pick; a failed check shows its
        notice; otherwise the picked warehouse's name, location, capacity, active flag and
        `updated_at` are set and `created_at` is kept. */
    method UpdateWarehouse(name: string, location: string, capacity: string, active: bool, now: string)
      returns (outcome: Outcome)
      requires db.Valid()
      modifies db`warehouses
      ensures db.Valid()
      ensures old(currentId).None? ==> outcome == Skipped && db.warehouses == old(db.warehouses)
      ensures var c := CheckWarehouse(FormOf(name, location, capacity));
              old(currentId).Some? ==>
                outcome == (if c.Accepted? then Saved else c.outcome) &&
                db.warehouses == (if c.Accepted? then Rewrite(old(db.warehouses), old(currentId).value, c.data, now, active)
                                  else old(db.warehouses))
    {
      if currentId.None? {
        return Skipped;
      }
      var c := CheckWarehouse(FormOf(name, location, capacity));
      if c.Rejected? {
        return c.outcome;
      }
      UpdateWarehouseValid(db, currentId.value, c.data, now, active);
      db.CommitWarehouses(Rewrite(db.warehouses, currentId.value, c.data, now, active));
      return Saved;
    }
  }
}
