/** The departments screen: add, rename and delete departments. `selectedId` is set by
    picking a row and never cleared; until the first pick it does not exist. */
module DepartmentScreens {
  import opened Common
  import opened Text
  import opened Tables
  import opened Store
  import opened Order

  function RowName(r: Row<Department>): string { r.data.name }

  predicate NameHas(r: Row<Department>, term: string) {
    Contains(r.data.name, term)
  }

  /** `load`: `WHERE name LIKE '%term%' ORDER BY name` with the trimmed term; a blank term
      gives `'%%'`, which every name matches. */
  function Listing(departments: seq<Row<Department>>, term: string): seq<Row<Department>> {
    var t := Strip(term);
    SortBy(Filter(departments, r => NameHas(r, t)), RowName, false)
  }

  /** The list holds exactly the departments whose name contains the trimmed term, in
      ascending name order; a blank term lists every department. */
  lemma ListingExactly(departments: seq<Row<Department>>, term: string)
    ensures SortedBy(Listing(departments, term), RowName, false)
    ensures forall r :: r in Listing(departments, term) <==> r in departments && NameHas(r, Strip(term))
    ensures Strip(term) == [] ==> forall r :: r in Listing(departments, term) <==> r in departments
  {
    var t := Strip(term);
    var picked := Filter(departments, r => NameHas(r, t));
    SortBySorted(picked, RowName, false);
    forall r ensures r in Listing(departments, term) <==> r in departments && NameHas(r, t) {
      assert r in Listing(departments, term) <==> r in multiset(Listing(departments, term));
      assert r in picked <==> r in multiset(picked);
      FilterExactly(departments, (x: Row<Department>) => NameHas(x, t), r);
      EmptyTermMatches(r.data.name);
    }
  }

  /** Inserting a department whose name is free keeps every table consistent. */
  lemma AddDepartmentValid(db: Database, data: Department, now: string, active: bool)
    requires db.Valid() && !Taken(db.departments.rows, DepartmentName, data.name)
    ensures Consistent(db.users, db.categories, db.warehouses, db.products, Insert(db.departments, data, now, active),
                       db.suppliers, db.expenses, db.debts, db.damage, db.sales)
  {
    InsertFacts(db.departments, data, now, active);
    InsertUnique(db.departments, DepartmentName, data, now, active);
    ParentInsertRefs(db.expenses.rows, ExpenseDepartment, db.departments, data, now, active);
  }

  /** Renaming a department keeps every table consistent exactly when no other department
      has the new name. */
  lemma RenameDepartmentValid(db: Database, id: int, data: Department, now: string, active: bool)
    requires db.Valid()
    ensures Consistent(db.users, db.categories, db.warehouses, db.products, Rewrite(db.departments, id, data, now, active),
                       db.suppliers, db.expenses, db.debts, db.damage, db.sales) <==>
            !Clashes(db.departments.rows, DepartmentName, data.name, id)
  {
    RewriteWellFormed(db.departments, id, data, now, active);
    if Find(db.departments.rows, id).Some? {
      var r := Row(id, data, Find(db.departments.rows, id).value.createdAt, now, active);
      ReplaceUnique(db.departments, DepartmentName, r);
      ParentPutRefs(db.expenses.rows, ExpenseDepartment, db.departments.rows, r);
    }
  }

  /** With foreign keys enforced, a department can be deleted exactly when no expense refers
      to it. */
  lemma DeleteDepartmentAllowed(db: Database, id: int)
    requires db.Valid()
    ensures Consistent(db.users, db.categories, db.warehouses, db.products, Delete(db.departments, id),
                       db.suppliers, db.expenses, db.debts, db.damage, db.sales) <==>
            !Referenced(db.expenses.rows, ExpenseDepartment, id)
  {
    DeleteWellFormed(db.departments, id);
    DeleteUnique(db.departments, DepartmentName, id);
    ParentRemoveRefs(db.expenses.rows, ExpenseDepartment, db.departments.rows, id);
  }

  class DepartmentsScreen {
    const db: Database
    var selectedId: Option<int>

    constructor(db: Database)
      ensures this.db == db && selectedId == None
    {
      this.db := db;
      selectedId := None;
    }

    /** `on_select`: `selected_id` is set first; the rest of the handler fails on widgets the
        screen does not have, which leaves the selection in place. */
    method Select(id: int)
      modifies this`selectedId
      ensures selectedId == Some(id)
    {
      selectedId := Some(id);
    }

    /** `load`. */
    method LoadDepartments(term: string) returns (rows: seq<Row<Department>>)
      ensures rows == Listing(db.departments.rows, term)
    {
      rows := Listing(db.departments.rows, term);
    }

    /** `add_dept`: a blank name is refused; a taken name makes the INSERT fail with a caught
        IntegrityError; otherwise the department is inserted. */
    method AddDepartment(name: string, active: bool, now: string) returns (outcome: Outcome)
      requires db.Valid()
      modifies db`departments
      ensures db.Valid()
      ensures Strip(name) == [] ==> outcome == Refused(MissingField) && db.departments == old(db.departments)
      ensures Strip(name) != [] && Taken(old(db.departments.rows), DepartmentName, Strip(name)) ==>
                outcome == Refused(Duplicate) && db.departments == old(db.departments)
      ensures Strip(name) != [] && !Taken(old(db.departments.rows), DepartmentName, Strip(name)) ==>
                outcome == Saved && db.departments == Insert(old(db.departments), Department(Strip(name)), now, active)
    {
      var n := Strip(name);
      if n == [] {
        return Refused(MissingField);
      }
      if Taken(db.departments.rows, DepartmentName, n) {
        return Refused(Duplicate);
      }
      AddDepartmentValid(db, Department(n), now, active);
      db.CommitDepartments(Insert(db.departments, Department(n), now, active));
      return Saved;
    }

    /** `update_dept`: nothing happens before the first pick (`hasattr`, so an id of 0 still
        counts); a blank name is refused; a name another department has raises an
        IntegrityError the handler does not catch; otherwise the picked department's name,
        active flag and `updated_at` are set and its `created_at` kept. */
    method UpdateDepartment(name: string, active: bool, now: string) returns (outcome: Outcome)
      requires db.Valid()
      modifies db`departments
      ensures db.Valid()
      ensures old(selectedId).None? ==> outcome == Skipped && db.departments == old(db.departments)
      ensures old(selectedId).Some? && Strip(name) == [] ==>
                outcome == Refused(MissingField) && db.departments == old(db.departments)
      ensures old(selectedId).Some? && Strip(name) != [] &&
              Clashes(old(db.departments.rows), DepartmentName, Strip(name), old(selectedId).value) ==>
                outcome == Crashed(IntegrityError) && db.departments == old(db.departments)
      ensures old(selectedId).Some? && Strip(name) != [] &&
              !Clashes(old(db.departments.rows), DepartmentName, Strip(name), old(selectedId).value) ==>
                outcome == Saved &&
                db.departments == Rewrite(old(db.departments), old(selectedId).value, Department(Strip(name)), now, active)
    {
      if selectedId.None? {
        return Skipped;
      }
      var n := Strip(name);
      if n == [] {
        return Refused(MissingField);
      }
      var id := selectedId.value;
      RenameDepartmentValid(db, id, Department(n), now, active);
      if Clashes(db.departments.rows, DepartmentName, n, id) {
        return Crashed(IntegrityError);
      }
      db.CommitDepartments(Rewrite(db.departments, id, Department(n), now, active));
      return Saved;
    }

    /** `delete_dept`: with no row picked nothing happens; a department an expense refers to
        raises an uncaught IntegrityError; otherwise it is deleted. */
    method DeleteDepartment(picked: Option<int>) returns (outcome: Outcome)
      requires db.Valid()
      modifies db`departments
      ensures db.Valid()
      ensures picked.None? ==> outcome == Skipped && db.departments == old(db.departments)
      ensures picked.Some? && Referenced(old(db.expenses.rows), ExpenseDepartment, picked.value) ==>
                outcome == Crashed(IntegrityError) && db.departments == old(db.departments)
      ensures picked.Some? && !Referenced(old(db.expenses.rows), ExpenseDepartment, picked.value) ==>
                outcome == Saved && db.departments == Delete(old(db.departments), picked.value)
    {
      if picked.None? {
        return Skipped;
      }
      DeleteDepartmentAllowed(db, picked.value);
      if Referenced(db.expenses.rows, ExpenseDepartment, picked.value) {
        return Crashed(IntegrityError);
      }
      db.CommitDepartments(Delete(db.departments, picked.value));
      return Saved;
    }
  }
}
