/** The categories screen: add and rename categories, with `selectedId` holding the row
    picked in the list until the form is cleared. */
module CategoryScreens {
  import opened Common
  import opened Text
  import opened Tables
  import opened Store
  import opened Order

  function RowName(r: Row<Category>): string { r.data.name }

  /** `WHERE name LIKE '%term%'`. */
  predicate NameHas(r: Row<Category>, term: string) {
    Contains(r.data.name, term)
  }

  /** `load`: with a blank term every category, otherwise those whose name contains the
      trimmed term, `ORDER BY name`. */
  function Listing(categories: seq<Row<Category>>, term: string): seq<Row<Category>> {
    var t := Strip(term);
    SortBy(if t == [] then categories else Filter(categories, r => NameHas(r, t)), RowName, false)
  }

  /** The list holds exactly the categories whose name contains the trimmed term, in
      ascending name order. */
  lemma ListingExactly(categories: seq<Row<Category>>, term: string)
    ensures SortedBy(Listing(categories, term), RowName, false)
    ensures forall r :: r in Listing(categories, term) <==> r in categories && NameHas(r, Strip(term))
  {
    var t := Strip(term);
    var picked := if t == [] then categories else Filter(categories, r => NameHas(r, t));
    SortBySorted(picked, RowName, false);
    assert forall r :: r in Listing(categories, term) <==> r in picked by {
      forall r ensures r in Listing(categories, term) <==> r in picked {
        assert r in Listing(categories, term) <==> r in multiset(Listing(categories, term));
        assert r in picked <==> r in multiset(picked);
      }
    }
    forall r ensures r in picked <==> r in categories && NameHas(r, t) {
      if t == [] {
        EmptyTermMatches(r.data.name);
      } else {
        FilterExactly(categories, (x: Row<Category>) => NameHas(x, t), r);
      }
    }
  }

  /** Inserting a category whose name is free keeps every table consistent. */
  lemma AddCategoryValid(db: Database, data: Category, now: string, active: bool)
    requires db.Valid() && !Taken(db.categories.rows, CategoryName, data.name)
    ensures Consistent(db.users, Insert(db.categories, data, now, active), db.warehouses, db.products,
                       db.departments, db.suppliers, db.expenses, db.debts, db.damage, db.sales)
  {
    InsertFacts(db.categories, data, now, active);
    InsertUnique(db.categories, CategoryName, data, now, active);
    ParentInsertRefs(db.products.rows, ProductCategory, db.categories, data, now, active);
  }

  /** Renaming a category to a name no other category has keeps every table consistent. */
  lemma RenameCategoryValid(db: Database, id: int, data: Category, now: string, active: bool)
    requires db.Valid() && !Clashes(db.categories.rows, CategoryName, data.name, id)
    ensures Consistent(db.users, Rewrite(db.categories, id, data, now, active), db.warehouses, db.products,
                       db.departments, db.suppliers, db.expenses, db.debts, db.damage, db.sales)
  {
    RewriteWellFormed(db.categories, id, data, now, active);
    if Find(db.categories.rows, id).Some? {
      var r := Row(id, data, Find(db.categories.rows, id).value.createdAt, now, active);
      NoClashKeepsUnique(db.categories, CategoryName, r);
      ParentPutRefs(db.products.rows, ProductCategory, db.categories.rows, r);
    }
  }

  class CategoriesScreen {
    const db: Database
    var selectedId: Option<int>

    constructor(db: Database)
      ensures this.db == db && selectedId == None
    {
      this.db := db;
      selectedId := None;
    }

    /** `on_select` with a row picked. */
    method Select(id: int)
      modifies this`selectedId
      ensures selectedId == Some(id)
    {
      selectedId := Some(id);
    }

    /** `clear_form`, also what `on_select` does when the selection is empty. */
    method ClearForm()
      modifies this`selectedId
      ensures selectedId == None
    {
      selectedId := None;
    }

    /** `load`. */
    method LoadCategories(term: string) returns (rows: seq<Row<Category>>)
      ensures rows == Listing(db.categories.rows, term)
    {
      rows := Listing(db.categories.rows, term);
    }

    /** `add_cat`: a blank name is refused; a taken name makes the INSERT fail with a caught
        IntegrityError; otherwise the category is inserted and the form cleared. */
    method AddCategory(name: string, active: bool, now: string) returns (outcome: Outcome)
      requires db.Valid()
      modifies db`categories, this`selectedId
      ensures db.Valid()
      ensures Strip(name) == [] ==>
                outcome == Refused(MissingField) && db.categories == old(db.categories) && selectedId == old(selectedId)
      ensures Strip(name) != [] && Taken(old(db.categories.rows), CategoryName, Strip(name)) ==>
                outcome == Refused(Duplicate) && db.categories == old(db.categories) && selectedId == old(selectedId)
      ensures Strip(name) != [] && !Taken(old(db.categories.rows), CategoryName, Strip(name)) ==>
                outcome == Saved && db.categories == Insert(old(db.categories), Category(Strip(name)), now, active) &&
                selectedId == None
    {
      var n := Strip(name);
      if n == [] {
        return Refused(MissingField);
      }
      if Taken(db.categories.rows, CategoryName, n) {
        return Refused(Duplicate);
      }
      AddCategoryValid(db, Category(n), now, active);
      db.CommitCategories(Insert(db.categories, Category(n), now, active));
      selectedId := None;
      return Saved;
    }

    /** `update_cat`: nothing happens until a category is picked; a blank name is refused; a
        name another category has makes the UPDATE fail with a caught IntegrityError;
        otherwise the picked category's name, active flag and `updated_at` are set, its
        `created_at` kept, and the form cleared. */
    method UpdateCategory(name: string, active: bool, now: string) returns (outcome: Outcome)
      requires db.Valid()
      modifies db`categories, this`selectedId
      ensures db.Valid()
      ensures !Truthy(old(selectedId)) ==>
                outcome == Skipped && db.categories == old(db.categories) && selectedId == old(selectedId)
      ensures Truthy(old(selectedId)) && Strip(name) == [] ==>
                outcome == Refused(MissingField) && db.categories == old(db.categories) && selectedId == old(selectedId)
      ensures Truthy(old(selectedId)) && Strip(name) != [] &&
              Clashes(old(db.categories.rows), CategoryName, Strip(name), old(selectedId).value) ==>
                outcome == Refused(Duplicate) && db.categories == old(db.categories) && selectedId == old(selectedId)
      ensures Truthy(old(selectedId)) && Strip(name) != [] &&
              !Clashes(old(db.categories.rows), CategoryName, Strip(name), old(selectedId).value) ==>
                outcome == Saved && selectedId == None &&
                db.categories == Rewrite(old(db.categories), old(selectedId).value, Category(Strip(name)), now, active)
    {
      if !Truthy(selectedId) {
        return Skipped;
      }
      var n := Strip(name);
      if n == [] {
        return Refused(MissingField);
      }
      var id := selectedId.value;
      if Clashes(db.categories.rows, CategoryName, n, id) {
        return Refused(Duplicate);
      }
      RenameCategoryValid(db, id, Category(n), now, active);
      db.CommitCategories(Rewrite(db.categories, id, Category(n), now, active));
      selectedId := None;
      return Saved;
    }
  }
}
