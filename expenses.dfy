/** The expenses screen: add, update and delete expenses, each charged to a department
    chosen by name. `currentId` is set by picking a row and never cleared; until the first
    pick it does not exist. */
module ExpenseScreens {
  import opened Common
  import opened Text
  import opened Tables
  import opened Store

  /** The form as the handlers read it: every text field trimmed. */
  datatype Form = Form(date: string, department: string, description: string, amount: string)

  function FormOf(date: string, department: string, description: string, amount: string): Form {
    Form(Strip(date), Strip(department), Strip(description), Strip(amount))
  }

  predicate Filled(f: Form) {
    f.date != [] && f.department != [] && f.description != [] && f.amount != []
  }

  /** The checks both handlers run, in order: every field required, `float(amount)`, and a
      department of that name (`SELECT id FROM departments WHERE name=?`, active or not). */
  function CheckExpense(departments: seq<Row<Department>>, f: Form): Checked<Expense> {
    if !Filled(f) then Rejected(Refused(MissingField))
    else if ParseNumber(f.amount).None? then Rejected(Refused(NotANumber))
    else
      var d := Lookup(departments, DepartmentName, f.department, false);
      if d.None? then Rejected(Refused(UnknownDepartment))
      else Accepted(Expense(f.date, d.value.id, f.description, ParseNumber(f.amount).value))
  }

  /** How a form is rejected, and what an accepted one becomes: the form's date and
      description, the parsed amount, and the id of the first department of that name. */
  lemma CheckExpenseMeaning(departments: seq<Row<Department>>, f: Form)
    requires Ascending(departments)
    ensures CheckExpense(departments, f) == Rejected(Refused(MissingField)) <==> !Filled(f)
    ensures CheckExpense(departments, f) == Rejected(Refused(NotANumber)) <==> Filled(f) && ParseNumber(f.amount).None?
    ensures CheckExpense(departments, f) == Rejected(Refused(UnknownDepartment)) <==>
              Filled(f) && ParseNumber(f.amount).Some? &&
              forall i :: 0 <= i < |departments| ==> departments[i].data.name != f.department
    ensures var c := CheckExpense(departments, f);
            c.Accepted? ==>
              c.data.date == f.date && c.data.description == f.description &&
              Some(c.data.amount) == ParseNumber(f.amount) &&
              Find(departments, c.data.departmentId).Some? &&
              Find(departments, c.data.departmentId).value.data.name == f.department
  {
    LookupFacts(departments, DepartmentName, f.department, false);
    var d := Lookup(departments, DepartmentName, f.department, false);
    if d.Some? {
      var k :| 0 <= k < |departments| && departments[k] == d.value;
      FindAt(departments, k);
    }
  }

  /** One line of the list: the department shown by name, `""` when no department has the
      expense's id. */
  datatype ExpenseLine = ExpenseLine(
    id: int, date: string, department: string, description: string, amount: real,
    createdAt: string, updatedAt: string, active: bool)

  /** `next((n for i, n in depts if i == department_id), "")`. */
  function DepartmentLabel(departments: seq<Row<Department>>, id: int): string {
    match Find(departments, id)
    case None => ""
    case Some(d) => d.data.name
  }

  function LineOf(e: Row<Expense>, departments: seq<Row<Department>>): ExpenseLine {
    ExpenseLine(e.id, e.data.date, DepartmentLabel(departments, e.data.departmentId), e.data.description,
                e.data.amount, e.createdAt, e.updatedAt, e.active)
  }

  /** `WHERE date LIKE '%term%' OR description LIKE '%term%'`. */
  predicate Matches(e: Row<Expense>, term: string) {
    Contains(e.data.date, term) || Contains(e.data.description, term)
  }

  function LinesOf(es: seq<Row<Expense>>, departments: seq<Row<Department>>): (lines: seq<ExpenseLine>)
    ensures |lines| == |es|
    ensures forall i :: 0 <= i < |es| ==> lines[i] == LineOf(es[i], departments)
  {
    if es == [] then [] else [LineOf(es[0], departments)] + LinesOf(es[1..], departments)
  }

  /** `load`: with a blank term every expense, otherwise the matching ones, in id order. */
  function Listing(expenses: seq<Row<Expense>>, departments: seq<Row<Department>>, term: string): seq<ExpenseLine> {
    var t := Strip(term);
    LinesOf(if t == [] then expenses else Filter(expenses, e => Matches(e, t)), departments)
  }

  /** Every expense whose date or description contains the trimmed term has its line, and
      with the references intact that line names the expense's department. */
  lemma ListingCovers(expenses: seq<Row<Expense>>, departments: seq<Row<Department>>, term: string, e: Row<Expense>)
    requires e in expenses && (Strip(term) == [] || Matches(e, Strip(term)))
    requires RefsValid(expenses, ExpenseDepartment, departments)
    ensures LineOf(e, departments) in Listing(expenses, departments, term)
    ensures LineOf(e, departments).department == Find(departments, e.data.departmentId).value.data.name
  {
    var t := Strip(term);
    var picked := if t == [] then expenses else Filter(expenses, x => Matches(x, t));
    FilterExactly(expenses, (x: Row<Expense>) => Matches(x, t), e);
    LinesOfHas(picked, departments, e);
    assert Listing(expenses, departments, term) == LinesOf(picked, departments);
    var k :| 0 <= k < |expenses| && expenses[k] == e;
  }

  lemma LinesOfHas(es: seq<Row<Expense>>, departments: seq<Row<Department>>, e: Row<Expense>)
    requires e in es
    ensures LineOf(e, departments) in LinesOf(es, departments)
  {
    var i :| 0 <= i < |es| && es[i] == e;
    assert LinesOf(es, departments)[i] == LineOf(e, departments);
  }

  /** Every line is the line of a listed expense. */
  lemma ListingSound(expenses: seq<Row<Expense>>, departments: seq<Row<Department>>, term: string, i: int)
    requires 0 <= i < |Listing(expenses, departments, term)|
    ensures exists e :: e in expenses && (Strip(term) == [] || Matches(e, Strip(term))) &&
                        Listing(expenses, departments, term)[i] == LineOf(e, departments)
  {
    var t := Strip(term);
    var picked := if t == [] then expenses else Filter(expenses, x => Matches(x, t));
    FilterExactly(expenses, (x: Row<Expense>) => Matches(x, t), picked[i]);
  }

  /** Inserting an expense charged to an existing department keeps every table consistent. */
  lemma AddExpenseValid(db: Database, data: Expense, now: string, active: bool)
    requires db.Valid() && Find(db.departments.rows, data.departmentId).Some?
    ensures Consistent(db.users, db.categories, db.warehouses, db.products, db.departments, db.suppliers,
                       Insert(db.expenses, data, now, active), db.debts, db.damage, db.sales)
  {
    InsertFacts(db.expenses, data, now, active);
    ChildInsertRefs(db.expenses, ExpenseDepartment, db.departments.rows, data, now, active);
  }

  /** Overwriting an expense with one charged to an existing department keeps every table
      consistent. */
  lemma UpdateExpenseValid(db: Database, id: int, data: Expense, now: string, active: bool)
    requires db.Valid() && Find(db.departments.rows, data.departmentId).Some?
    ensures Consistent(db.users, db.categories, db.warehouses, db.products, db.departments, db.suppliers,
                       Rewrite(db.expenses, id, data, now, active), db.debts, db.damage, db.sales)
  {
    RewriteWellFormed(db.expenses, id, data, now, active);
    if Find(db.expenses.rows, id).Some? {
      var r := Row(id, data, Find(db.expenses.rows, id).value.createdAt, now, active);
      ChildPutRefs(db.expenses.rows, ExpenseDepartment, db.departments.rows, r);
    }
  }

  /** No table refers to expenses, so a delete always keeps every table consistent. */
  lemma DeleteExpenseValid(db: Database, id: int)
    requires db.Valid()
    ensures Consistent(db.users, db.categories, db.warehouses, db.products, db.departments, db.suppliers,
                       Delete(db.expenses, id), db.debts, db.damage, db.sales)
  {
    DeleteWellFormed(db.expenses, id);
    ChildRemoveRefs(db.expenses.rows, ExpenseDepartment, db.departments.rows, id);
  }

  class ExpensesScreen {
    const db: Database
    var currentId: Option<int>

    constructor(db: Database)
      ensures this.db == db && currentId == None
    {
      this.db := db;
      currentId := None;
    }

    /** `on_select` with a row picked. */
    method Select(id: int)
      modifies this`currentId
      ensures currentId == Some(id)
    {
      currentId := Some(id);
    }

    /** `load`: the department names for the choice box, in id order, and the list. */
    method LoadExpenses(term: string) returns (names: seq<string>, lines: seq<ExpenseLine>)
      ensures |names| == |db.departments.rows|
      ensures forall i :: 0 <= i < |names| ==> names[i] == db.departments.rows[i].data.name
      ensures lines == Listing(db.expenses.rows, db.departments.rows, term)
    {
      var rows := db.departments.rows;
      names := [];
      var i := 0;
      while i < |rows|
        invariant 0 <= i <= |rows|
        invariant |names| == i
        invariant forall k :: 0 <= k < i ==> names[k] == rows[k].data.name
      {
        names := names + [rows[i].data.name];
        i := i + 1;
      }
      lines := Listing(db.expenses.rows, db.departments.rows, term);
    }

    /** `add_expense`: a failed check shows its notice; otherwise the expense is inserted. */
    method AddExpense(date: string, department: string, description: string, amount: string, active: bool, now: string)
      returns (outcome: Outcome)
      requires db.Valid()
      modifies db`expenses
      ensures db.Valid()
      ensures var c := CheckExpense(old(db.departments.rows), FormOf(date, department, description, amount));
              outcome == (if c.Accepted? then Saved else c.outcome) &&
              db.expenses == (if c.Accepted? then Insert(old(db.expenses), c.data, now, active) else old(db.expenses))
    {
      var f := FormOf(date, department, description, amount);
      var c := CheckExpense(db.departments.rows, f);
      if c.Rejected? {
        return c.outcome;
      }
      CheckExpenseMeaning(db.departments.rows, f);
      AddExpenseValid(db, c.data, now, active);
      db.CommitExpenses(Insert(db.expenses, c.data, now, active));
      return Saved;
    }

    /** `update_expense`: before the first pick a notice says nothing is selected; a failed
        check shows its notice; otherwise the picked expense's date, department, description,
        amount, active flag and `updated_at` are set and `created_at` is kept. */
    method UpdateExpense(date: string, department: string, description: string, amount: string, active: bool, now: string)
      returns (outcome: Outcome)
      requires db.Valid()
      modifies db`expenses
      ensures db.Valid()
      ensures old(currentId).None? ==> outcome == Refused(NothingSelected) && db.expenses == old(db.expenses)
      ensures var c := CheckExpense(old(db.departments.rows), FormOf(date, department, description, amount));
              old(currentId).Some? ==>
                outcome == (if c.Accepted? then Saved else c.outcome) &&
                db.expenses == (if c.Accepted? then Rewrite(old(db.expenses), old(currentId).value, c.data, now, active)
                                else old(db.expenses))
    {
      if currentId.None? {
        return Refused(NothingSelected);
      }
      var f := FormOf(date, department, description, amount);
      var c := CheckExpense(db.departments.rows, f);
      if c.Rejected? {
        return c.outcome;
      }
      CheckExpenseMeaning(db.departments.rows, f);
      UpdateExpenseValid(db, currentId.value, c.data, now, active);
      db.CommitExpenses(Rewrite(db.expenses, currentId.value, c.data, now, active));
      return Saved;
    }

    /** `delete_expense`: with no row picked a notice asks for one; otherwise the row is
        deleted. */
    method DeleteExpense(picked: Option<int>) returns (outcome: Outcome)
      requires db.Valid()
      modifies db`expenses
      ensures db.Valid()
      ensures picked.None? ==> outcome == Refused(NothingSelected) && db.expenses == old(db.expenses)
      ensures picked.Some? ==> outcome == Saved && db.expenses == Delete(old(db.expenses), picked.value)
    {
      if picked.None? {
        return Refused(NothingSelected);
      }
      DeleteExpenseValid(db, picked.value);
      db.CommitExpenses(Delete(db.expenses, picked.value));
      return Saved;
    }
  }
}
