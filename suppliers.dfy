/** The suppliers screen: add, update and delete suppliers. `currentId` is set by picking a
    row and never cleared; until the first pick it does not exist. */
module SupplierScreens {
  import opened Common
  import opened Text
  import opened Tables
  import opened Store

  /** The five text fields, trimmed. */
  function SupplierOf(name: string, contact: string, phone: string, email: string, address: string): Supplier {
    Supplier(Strip(name), Strip(contact), Strip(phone), Strip(email), Strip(address))
  }

  /** `add_supplier` needs all five fields. */
  predicate Filled(s: Supplier) {
    s.name != [] && s.contact != [] && s.phone != [] && s.email != [] && s.address != []
  }

  /** `WHERE name LIKE ? OR contact LIKE ? OR phone LIKE ? OR email LIKE ?`; the address is
      not searched. */
  predicate Matches(r: Row<Supplier>, term: string) {
    Contains(r.data.name, term) || Contains(r.data.contact, term) || Contains(r.data.phone, term) ||
    Contains(r.data.email, term)
  }

  /** `load`: with a blank term every supplier, otherwise the matching ones; no ORDER BY, so
      in id order. */
  function Listing(suppliers: seq<Row<Supplier>>, term: string): seq<Row<Supplier>> {
    var t := Strip(term);
    if t == [] then suppliers else Filter(suppliers, r => Matches(r, t))
  }

  /** A supplier is listed exactly when its name, contact, phone or email contains the
      trimmed term (every supplier for a blank term), and the list is in id order. */
  lemma ListingExactly(suppliers: seq<Row<Supplier>>, term: string, r: Row<Supplier>)
    ensures r in Listing(suppliers, term) <==> r in suppliers && (Strip(term) == [] || Matches(r, Strip(term)))
  {
    FilterExactly(suppliers, (x: Row<Supplier>) => Matches(x, Strip(term)), r);
  }

  lemma ListingInIdOrder(suppliers: seq<Row<Supplier>>, term: string)
    requires Ascending(suppliers)
    ensures Ascending(Listing(suppliers, term))
  {
    FilterAscending(suppliers, (x: Row<Supplier>) => Matches(x, Strip(term)));
  }

  /** Inserting a supplier keeps every table consistent exactly when its name is free. */
  lemma AddSupplierValid(db: Database, data: Supplier, now: string, active: bool)
    requires db.Valid()
    ensures Consistent(db.users, db.categories, db.warehouses, db.products, db.departments,
                       Insert(db.suppliers, data, now, active), db.expenses, db.debts, db.damage, db.sales) <==>
            !Taken(db.suppliers.rows, SupplierName, data.name)
  {
    InsertFacts(db.suppliers, data, now, active);
    InsertUnique(db.suppliers, SupplierName, data, now, active);
  }

  /** Updating a supplier keeps every table consistent exactly when no other supplier has the
      new name. */
  lemma UpdateSupplierValid(db: Database, id: int, data: Supplier, now: string, active: bool)
    requires db.Valid()
    ensures Consistent(db.users, db.categories, db.warehouses, db.products, db.departments,
                       Rewrite(db.suppliers, id, data, now, active), db.expenses, db.debts, db.damage, db.sales) <==>
            !Clashes(db.suppliers.rows, SupplierName, data.name, id)
  {
    RewriteWellFormed(db.suppliers, id, data, now, active);
    if Find(db.suppliers.rows, id).Some? {
      ReplaceUnique(db.suppliers, SupplierName, Row(id, data, Find(db.suppliers.rows, id).value.createdAt, now, active));
    }
  }

  /** No table refers to suppliers, so a delete always keeps every table consistent. */
  lemma DeleteSupplierValid(db: Database, id: int)
    requires db.Valid()
    ensures Consistent(db.users, db.categories, db.warehouses, db.products, db.departments,
                       Delete(db.suppliers, id), db.expenses, db.debts, db.damage, db.sales)
  {
    DeleteWellFormed(db.suppliers, id);
    DeleteUnique(db.suppliers, SupplierName, id);
  }

  class SuppliersScreen {
    const db: Database
    var currentId: Option<int>

    constructor(db: Database)
      ensures this.db == db && currentId == None
    {
      this.db := db;
      currentId := None;
    }

    /** `on_select` with a row picked. */
    method Select(id: int)
      modifies this`currentId
      ensures currentId == Some(id)
    {
      currentId := Some(id);
    }

    /** `load`. */
    method LoadSuppliers(term: string) returns (rows: seq<Row<Supplier>>)
      ensures rows == Listing(db.suppliers.rows, term)
    {
      rows := Listing(db.suppliers.rows, term);
    }

    /** `add_supplier`: a missing field is refused; a taken name makes the INSERT fail with a
        caught IntegrityError; otherwise the supplier is inserted. */
    method AddSupplier(name: string, contact: string, phone: string, email: string, address: string,
                       active: bool, now: string) returns (outcome: Outcome)
      requires db.Valid()
      modifies db`suppliers
      ensures db.Valid()
      ensures var s := SupplierOf(name, contact, phone, email, address);
              if !Filled(s) then outcome == Refused(MissingField) && db.suppliers == old(db.suppliers)
              else if Taken(old(db.suppliers.rows), SupplierName, s.name) then
                outcome == Refused(Duplicate) && db.suppliers == old(db.suppliers)
              else outcome == Saved && db.suppliers == Insert(old(db.suppliers), s, now, active)
    {
      var s := SupplierOf(name, contact, phone, email, address);
      if !Filled(s) {
        return Refused(MissingField);
      }
      AddSupplierValid(db, s, now, active);
      if Taken(db.suppliers.rows, SupplierName, s.name) {
        return Refused(Duplicate);
      }
      db.CommitSuppliers(Insert(db.suppliers, s, now, active));
      return Saved;
    }

    /** `update_supplier`: before the first pick a notice says nothing is selected. No field
        is required, so blank fields are written as empty text. A name another supplier has
        makes the UPDATE fail with a caught IntegrityError. Otherwise the five text columns,
        the active flag and `updated_at` of the picked supplier are set and `created_at` is
        kept. */
    method UpdateSupplier(name: string, contact: string, phone: string, email: string, address: string,
                          active: bool, now: string) returns (outcome: Outcome)
      requires db.Valid()
      modifies db`suppliers
      ensures db.Valid()
      ensures old(currentId).None? ==> outcome == Refused(NothingSelected) && db.suppliers == old(db.suppliers)
      ensures var s := SupplierOf(name, contact, phone, email, address);
              old(currentId).Some? ==>
                if Clashes(old(db.suppliers.rows), SupplierName, s.name, old(currentId).value) then
                  outcome == Refused(Duplicate) && db.suppliers == old(db.suppliers)
                else outcome == Saved && db.suppliers == Rewrite(old(db.suppliers), old(currentId).value, s, now, active)
    {
      if currentId.None? {
        return Refused(NothingSelected);
      }
      var s := SupplierOf(name, contact, phone, email, address);
      var id := currentId.value;
      UpdateSupplierValid(db, id, s, now, active);
      if Clashes(db.suppliers.rows, SupplierName, s.name, id) {
        return Refused(Duplicate);
      }
      db.CommitSuppliers(Rewrite(db.suppliers, id, s, now, active));
      return Saved;
    }

    /** `delete_supplier`: with no row picked nothing happens; otherwise the row is deleted.
        `currentId` is left as it was, so a later update of the deleted id changes nothing. */
    method DeleteSupplier(picked: Option<int>) returns (outcome: Outcome)
      requires db.Valid()
      modifies db`suppliers
      ensures db.Valid()
      ensures picked.None? ==> outcome == Skipped && db.suppliers == old(db.suppliers)
      ensures picked.Some? ==> outcome == Saved && db.suppliers == Delete(old(db.suppliers), picked.value)
    {
      if picked.None? {
        return Skipped;
      }
      DeleteSupplierValid(db, picked.value);
      db.CommitSuppliers(Delete(db.suppliers, picked.value));
      return Saved;
    }
  }

  /** Updating a deleted supplier changes nothing: `UPDATE ... WHERE id = ?` matches no row. */
  lemma UpdateAfterDelete(suppliers: Table<Supplier>, id: int, data: Supplier, now: string, active: bool)
    requires WellFormed(suppliers)
    ensures Rewrite(Delete(suppliers, id), id, data, now, active) == Delete(suppliers, id)
  {
    FindRemove(suppliers.rows, id, id);
  }
}
