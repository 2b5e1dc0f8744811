/** The debt tracker: add and update debts, and a list filtered by text, due date and active
    flag, ordered by due date. `currentId` is set by picking a row and never cleared; until
    the first pick it does not exist. */
module DebtScreens {
  import opened Common
  import opened Text
  import opened Tables
  import opened Store
  import opened Order
  import Q = Query

  /** The form as the handlers read it: the widgets' text as typed, not trimmed. */
  datatype Form = Form(name: string, amount: string, dueDate: string, status: string)

  predicate Filled(f: Form) {
    f.name != [] && f.amount != [] && f.dueDate != [] && f.status != []
  }

  /** The checks both handlers run: every field required (a notice), then `float(amount)`,
      whose ValueError nobody catches. */
  function CheckDebt(f: Form): Checked<Debt> {
    if !Filled(f) then Rejected(Refused(MissingField))
    else if ParseNumber(f.amount).None? then Rejected(Crashed(ValueError))
    else Accepted(Debt(f.name, ParseNumber(f.amount).value, f.dueDate, f.status))
  }

  /** A form is accepted exactly when it is filled and the amount parses; it becomes the debt
      with the form's texts and the parsed amount. */
  lemma CheckDebtMeaning(f: Form)
    ensures CheckDebt(f) == Rejected(Refused(MissingField)) <==> !Filled(f)
    ensures CheckDebt(f) == Rejected(Crashed(ValueError)) <==> Filled(f) && ParseNumber(f.amount).None?
    ensures CheckDebt(f).Accepted? <==> Filled(f) && ParseNumber(f.amount).Some?
    ensures var c := CheckDebt(f);
            c.Accepted? ==> c.data.name == f.name && c.data.dueDate == f.dueDate && c.data.status == f.status &&
                            Some(c.data.amount) == ParseNumber(f.amount)
  {
  }

  /** The list's search widgets: the text, the due date and the active filter. */
  datatype Search = Search(term: string, due: string, activeFilter: string)

  function SearchOf(term: string, due: string, activeFilter: string): Search {
    Search(Strip(term), Strip(due), activeFilter)
  }

  /** The columns of a debt the WHERE clause looks at. */
  function DebtRecord(r: Row<Debt>): Q.Record {
    map[Q.Name := Q.Str(r.data.name), Q.Status := Q.Str(r.data.status), Q.DueDate := Q.Str(r.data.dueDate),
        Q.Active := Q.Int(if r.active then 1 else 0)]
  }

  /** Which debts the search asks for, stated directly: name or status contains the term, the
      due date is the given one when one is given, and unless the filter is 'All' the active
      flag is set exactly when the filter is 'Active'. */
  predicate DebtWanted(s: Search, r: Row<Debt>) {
    (Contains(r.data.name, s.term) || Contains(r.data.status, s.term)) &&
    (s.due != [] ==> r.data.dueDate == s.due) &&
    (s.activeFilter != "All" ==> (r.active <==> s.activeFilter == "Active"))
  }

  function DueConds(due: string): seq<Q.Cond> {
    if due != [] then [Q.Is(Q.DueDate, Q.Str(due))] else []
  }

  function ActiveConds(activeFilter: string): seq<Q.Cond> {
    if activeFilter != "All" then [Q.Is(Q.Active, Q.Int(if activeFilter == "Active" then 1 else 0))] else []
  }

  lemma DueCondsMeaning(due: string, r: Row<Debt>)
    ensures Q.AllHold(DueConds(due), DebtRecord(r)) <==> (due != [] ==> r.data.dueDate == due)
  {
    if due != [] {
      Q.AllHoldOne(DueConds(due)[0], DebtRecord(r));
    }
  }

  lemma ActiveCondsMeaning(activeFilter: string, r: Row<Debt>)
    ensures Q.AllHold(ActiveConds(activeFilter), DebtRecord(r)) <==>
              (activeFilter != "All" ==> (r.active <==> activeFilter == "Active"))
  {
    if activeFilter != "All" {
      Q.AllHoldOne(ActiveConds(activeFilter)[0], DebtRecord(r));
    }
  }

  /** The WHERE clause `load` assembles: the text condition, then `AND due_date = ?` when a
      due date is given, then `AND is_active = ?` unless the filter is 'All'. */
  method DebtWhere(s: Search) returns (where: seq<Q.Cond>)
    ensures forall r :: Q.AllHold(where, DebtRecord(r)) <==> DebtWanted(s, r)
  {
    where := [Q.Either(Q.Like(Q.Name, s.term), Q.Like(Q.Status, s.term))];
    var text := where;
    where := where + DueConds(s.due);
    where := where + ActiveConds(s.activeFilter);
    assert where == text + (DueConds(s.due) + ActiveConds(s.activeFilter));
    forall r
      ensures Q.AllHold(where, DebtRecord(r)) <==> DebtWanted(s, r)
    {
      var rec := DebtRecord(r);
      Q.AllHoldOne(text[0], rec);
      Q.AllHoldAppend(text, DueConds(s.due) + ActiveConds(s.activeFilter), rec);
      Q.AllHoldAppend(DueConds(s.due), ActiveConds(s.activeFilter), rec);
      DueCondsMeaning(s.due, r);
      ActiveCondsMeaning(s.activeFilter, r);
    }
  }

  function DueKey(r: Row<Debt>): string { r.data.dueDate }

  /** The debts satisfying `where`, `ORDER BY due_date`. */
  function Matching(debts: seq<Row<Debt>>, where: seq<Q.Cond>): seq<Row<Debt>> {
    SortBy(Filter(debts, r => Q.AllHold(where, DebtRecord(r))), DueKey, false)
  }

  /** The debts a search asks for, in ascending due date. */
  function Wanted(debts: seq<Row<Debt>>, s: Search): seq<Row<Debt>> {
    SortBy(Filter(debts, r => DebtWanted(s, r)), DueKey, false)
  }

  lemma MatchingIsWanted(debts: seq<Row<Debt>>, where: seq<Q.Cond>, s: Search)
    requires forall r :: Q.AllHold(where, DebtRecord(r)) <==> DebtWanted(s, r)
    ensures Matching(debts, where) == Wanted(debts, s)
  {
    FilterSame(debts, r => Q.AllHold(where, DebtRecord(r)), r => DebtWanted(s, r));
  }

  /** The list holds exactly the debts the search asks for, in ascending due date. */
  lemma WantedExactly(debts: seq<Row<Debt>>, s: Search)
    ensures SortedBy(Wanted(debts, s), DueKey, false)
    ensures forall r :: r in Wanted(debts, s) <==> r in debts && DebtWanted(s, r)
  {
    var picked := Filter(debts, r => DebtWanted(s, r));
    SortBySorted(picked, DueKey, false);
    forall r ensures r in Wanted(debts, s) <==> r in debts && DebtWanted(s, r) {
      assert r in Wanted(debts, s) <==> r in multiset(Wanted(debts, s));
      assert r in picked <==> r in multiset(picked);
      FilterExactly(debts, (x: Row<Debt>) => DebtWanted(s, x), r);
    }
  }

  lemma AddDebtValid(db: Database, data: Debt, now: string, active: bool)
    requires db.Valid()
    ensures Consistent(db.users, db.categories, db.warehouses, db.products, db.departments, db.suppliers,
                       db.expenses, Insert(db.debts, data, now, active), db.damage, db.sales)
  {
    InsertFacts(db.debts, data, now, active);
  }

  lemma UpdateDebtValid(db: Database, id: int, data: Debt, now: string, active: bool)
    requires db.Valid()
    ensures Consistent(db.users, db.categories, db.warehouses, db.products, db.departments, db.suppliers,
                       db.expenses, Rewrite(db.debts, id, data, now, active), db.damage, db.sales)
  {
    RewriteWellFormed(db.debts, id, data, now, active);
  }

  class DebtsScreen {
    const db: Database
    var currentId: Option<int>

    constructor(db: Database)
      ensures this.db == db && currentId == None
    {
      this.db := db;
      currentId := None;
    }

    /** `on_select` with a row picked. */
    method Select(id: int)
      modifies this`currentId
      ensures currentId == Some(id)
    {
      currentId := Some(id);
    }

    /** `load`. */
    method LoadDebts(term: string, due: string, activeFilter: string) returns (rows: seq<Row<Debt>>)
      ensures rows == Wanted(db.debts.rows, SearchOf(term, due, activeFilter))
    {
      var s := SearchOf(term, due, activeFilter);
      var where := DebtWhere(s);
      rows := Matching(db.debts.rows, where);
      MatchingIsWanted(db.debts.rows, where, s);
    }

    /** `add_debt`: a failed check shows its notice or lets its exception escape; otherwise
        the debt is inserted with `created_at == updated_at == now`. */
    method AddDebt(name: string, amount: string, dueDate: string, status: string, active: bool, now: string)
      returns (outcome: Outcome)
      requires db.Valid()
      modifies db`debts
      ensures db.Valid()
      ensures var c := CheckDebt(Form(name, amount, dueDate, status));
              outcome == (if c.Accepted? then Saved else c.outcome) &&
              db.debts == (if c.Accepted? then Insert(old(db.debts), c.data, now, active) else old(db.debts))
    {
      var c := CheckDebt(Form(name, amount, dueDate, status));
      if c.Rejected? {
        return c.outcome;
      }
      AddDebtValid(db, c.data, now, active);
      db.CommitDebts(Insert(db.debts, c.data, now, active));
      return Saved;
    }

    /** `update_debt`: nothing happens before the first pick; a failed check shows its notice
        or lets its exception escape; otherwise the picked debt's name, amount, due date,
        status, active flag and `updated_at` are set and `created_at` is kept. */
    method UpdateDebt(name: string, amount: string, dueDate: string, status: string, active: bool, now: string)
      returns (outcome: Outcome)
      requires db.Valid()
      modifies db`debts
      ensures db.Valid()
      ensures old(currentId).None? ==> outcome == Skipped && db.debts == old(db.debts)
      ensures var c := CheckDebt(Form(name, amount, dueDate, status));
              old(currentId).Some? ==>
                outcome == (if c.Accepted? then Saved else c.outcome) &&
                db.debts == (if c.Accepted? then Rewrite(old(db.debts), old(currentId).value, c.data, now, active)
                             else old(db.debts))
    {
      if currentId.None? {
        return Skipped;
      }
      var c := CheckDebt(Form(name, amount, dueDate, status));
      if c.Rejected? {
        return c.outcome;
      }
      UpdateDebtValid(db, currentId.value, c.data, now, active);
      db.CommitDebts(Rewrite(db.debts, currentId.value, c.data, now, active));
      return Saved;
    }
  }
}
