/** The user management screen: add, update (with an optional new password), delete, and a
    search over every column. The screen keeps no selection of its own: the handlers read
    the row picked in the list, given here as `picked`. */
module UserScreens {
  import opened Common
  import opened Text
  import opened Tables
  import opened Store

  /** The form as the handlers read it: names and password trimmed, the role as chosen. */
  datatype Form = Form(firstName: string, lastName: string, username: string, password: string, role: string)

  function FormOf(firstName: string, lastName: string, username: string, password: string, role: string): Form {
    Form(Strip(firstName), Strip(lastName), Strip(username), Strip(password), role)
  }

  /** `add_user` needs every field, the password included. */
  predicate FilledForAdd(f: Form) {
    f.firstName != [] && f.lastName != [] && f.username != [] && f.password != [] && f.role != []
  }

  /** `update_user` needs every field but the password. */
  predicate FilledForUpdate(f: Form) {
    f.firstName != [] && f.lastName != [] && f.username != [] && f.role != []
  }

  /** The user `add_user` inserts; the hash of the password is stored. */
  function NewUser(f: Form, hash: string -> string): User {
    User(f.firstName, f.lastName, f.username, hash(f.password), f.role)
  }

  /** The columns `update_user` sets: the password only when one was typed. */
  function Edited(prev: User, f: Form, hash: string -> string): User {
    User(f.firstName, f.lastName, f.username, if f.password == [] then prev.password else hash(f.password), f.role)
  }

  /** `UPDATE users SET ..., updated_at = now WHERE id = ?`. */
  function Updated(t: Table<User>, id: int, f: Form, hash: string -> string, now: string, active: bool): Table<User> {
    match Find(t.rows, id)
    case None => t
    case Some(prev) => Replace(t, Row(id, Edited(prev.data, f, hash), prev.createdAt, now, active))
  }

  /** The update touches the selected row only. Its names, username, role and active flag
      become the form's, its password stays when none was typed and becomes the hash of the
      typed one otherwise, `updated_at` becomes `now` and `created_at` is kept. */
  lemma UpdatedFacts(t: Table<User>, id: int, f: Form, hash: string -> string, now: string, active: bool, x: int)
    requires WellFormed(t)
    ensures WellFormed(Updated(t, id, f, hash, now, active)) && Updated(t, id, f, hash, now, active).next == t.next
    ensures x != id ==> Find(Updated(t, id, f, hash, now, active).rows, x) == Find(t.rows, x)
    ensures Find(t.rows, id).None? ==> Updated(t, id, f, hash, now, active) == t
    ensures var prev := Find(t.rows, id);
            var r := Find(Updated(t, id, f, hash, now, active).rows, id);
            prev.Some? ==>
              r.Some? && r.value.data.firstName == f.firstName && r.value.data.lastName == f.lastName &&
              r.value.data.username == f.username && r.value.data.role == f.role &&
              (f.password == [] ==> r.value.data.password == prev.value.data.password) &&
              (f.password != [] ==> r.value.data.password == hash(f.password)) &&
              r.value.createdAt == prev.value.createdAt && r.value.updatedAt == now && r.value.active == active
  {
    if Find(t.rows, id).Some? {
      var r := Row(id, Edited(Find(t.rows, id).value.data, f, hash), Find(t.rows, id).value.createdAt, now, active);
      ReplaceWellFormed(t, r);
      FindPut(t.rows, r, x);
      FindPut(t.rows, r, id);
    }
  }

  /** Every column as SQLite casts it to text, in the table's column order: id, the names,
      the username, the stored hash, the role, the two timestamps and the active flag. */
  function ColumnsAsText(r: Row<User>): seq<string> {
    [IntToString(r.id), r.data.firstName, r.data.lastName, r.data.username, r.data.password, r.data.role,
     r.createdAt, r.updatedAt, if r.active then "1" else "0"]
  }

  /** `CAST(c AS TEXT) LIKE '%term%'` for some column `c`. */
  predicate AnyColumnContains(r: Row<User>, term: string) {
    exists i :: 0 <= i < |ColumnsAsText(r)| && Contains(ColumnsAsText(r)[i], term)
  }

  /** `load_users`: with a blank term every user, otherwise the users one of whose columns
      contains the trimmed term; no ORDER BY, so in id order. */
  function Listing(users: seq<Row<User>>, term: string): seq<Row<User>> {
    var t := Strip(term);
    if t == [] then users else Filter(users, r => AnyColumnContains(r, t))
  }

  /** A user is listed exactly when the trimmed term is blank or one of the user's columns
      contains it. The stored hash is one of those columns. */
  lemma ListingExactly(users: seq<Row<User>>, term: string, r: Row<User>)
    ensures r in Listing(users, term) <==> r in users && (Strip(term) == [] || AnyColumnContains(r, Strip(term)))
  {
    FilterExactly(users, (x: Row<User>) => AnyColumnContains(x, Strip(term)), r);
  }

  /** The search runs over the usernames too: a user is found by their username. */
  lemma UsernameFinds(users: seq<Row<User>>, term: string, r: Row<User>)
    requires r in users && Contains(r.data.username, Strip(term))
    ensures r in Listing(users, term)
  {
    UsernameColumn(r, Strip(term));
    ListingExactly(users, term, r);
  }

  lemma UsernameColumn(r: Row<User>, t: string)
    requires Contains(r.data.username, t)
    ensures AnyColumnContains(r, t)
  {
    var cols := ColumnsAsText(r);
    assert cols[3] == r.data.username;
  }

  /** Inserting a user with a free username keeps every table consistent. */
  lemma AddUserValid(db: Database, data: User, now: string, active: bool)
    requires db.Valid() && !Taken(db.users.rows, Username, data.username)
    ensures Consistent(Insert(db.users, data, now, active), db.categories, db.warehouses, db.products,
                       db.departments, db.suppliers, db.expenses, db.debts, db.damage, db.sales)
  {
    InsertFacts(db.users, data, now, active);
    InsertUnique(db.users, Username, data, now, active);
  }

  /** Updating a user to a username no other user has keeps every table consistent. */
  lemma UpdateUserValid(db: Database, id: int, f: Form, hash: string -> string, now: string, active: bool)
    requires db.Valid() && !Clashes(db.users.rows, Username, f.username, id)
    ensures Consistent(Updated(db.users, id, f, hash, now, active), db.categories, db.warehouses, db.products,
                       db.departments, db.suppliers, db.expenses, db.debts, db.damage, db.sales)
  {
    UpdatedFacts(db.users, id, f, hash, now, active, id);
    if Find(db.users.rows, id).Some? {
      var prev := Find(db.users.rows, id).value;
      NoClashKeepsUnique(db.users, Username, Row(id, Edited(prev.data, f, hash), prev.createdAt, now, active));
    }
  }

  /** No table refers to users, so a delete always keeps every table consistent. */
  lemma DeleteUserValid(db: Database, id: int)
    requires db.Valid()
    ensures Consistent(Delete(db.users, id), db.categories, db.warehouses, db.products,
                       db.departments, db.suppliers, db.expenses, db.debts, db.damage, db.sales)
  {
    DeleteWellFormed(db.users, id);
    DeleteUnique(db.users, Username, id);
  }

  /** `add_user`: a missing field is refused; a taken username makes the INSERT fail with a
      caught IntegrityError; otherwise the user is inserted with the hash of the password. */
  method AddUser(db: Database, hash: string -> string, firstName: string, lastName: string, username: string,
                 password: string, role: string, active: bool, now: string) returns (outcome: Outcome)
    requires db.Valid()
    modifies db`users
    ensures db.Valid()
    ensures var f := FormOf(firstName, lastName, username, password, role);
            if !FilledForAdd(f) then outcome == Refused(MissingField) && db.users == old(db.users)
            else if Taken(old(db.users.rows), Username, f.username) then
              outcome == Refused(Duplicate) && db.users == old(db.users)
            else outcome == Saved && db.users == Insert(old(db.users), NewUser(f, hash), now, active)
  {
    var f := FormOf(firstName, lastName, username, password, role);
    if !FilledForAdd(f) {
      return Refused(MissingField);
    }
    if Taken(db.users.rows, Username, f.username) {
      return Refused(Duplicate);
    }
    AddUserValid(db, NewUser(f, hash), now, active);
    db.CommitUsers(Insert(db.users, NewUser(f, hash), now, active));
    return Saved;
  }

  /** `update_user`: with no row picked, and with a required field missing, a notice is shown;
      a username another user has makes the UPDATE fail with a caught IntegrityError;
      otherwise the picked row is updated as `Updated` says. */
  method UpdateUser(db: Database, hash: string -> string, picked: Option<int>, firstName: string, lastName: string,
                    username: string, password: string, role: string, active: bool, now: string)
    returns (outcome: Outcome)
    requires db.Valid()
    modifies db`users
    ensures db.Valid()
    ensures picked.None? ==> outcome == Refused(NothingSelected) && db.users == old(db.users)
    ensures var f := FormOf(firstName, lastName, username, password, role);
            picked.Some? ==>
              if !FilledForUpdate(f) then outcome == Refused(MissingField) && db.users == old(db.users)
              else if Clashes(old(db.users.rows), Username, f.username, picked.value) then
                outcome == Refused(Duplicate) && db.users == old(db.users)
              else outcome == Saved && db.users == Updated(old(db.users), picked.value, f, hash, now, active)
  {
    if picked.None? {
      return Refused(NothingSelected);
    }
    var f := FormOf(firstName, lastName, username, password, role);
    if !FilledForUpdate(f) {
      return Refused(MissingField);
    }
    if Clashes(db.users.rows, Username, f.username, picked.value) {
      return Refused(Duplicate);
    }
    UpdateUserValid(db, picked.value, f, hash, now, active);
    db.CommitUsers(Updated(db.users, picked.value, f, hash, now, active));
    return Saved;
  }

  /** `delete_user`: with no row picked nothing happens; otherwise the row is deleted. */
  method DeleteUser(db: Database, picked: Option<int>) returns (outcome: Outcome)
    requires db.Valid()
    modifies db`users
    ensures db.Valid()
    ensures picked.None? ==> outcome == Skipped && db.users == old(db.users)
    ensures picked.Some? ==> outcome == Saved && db.users == Delete(old(db.users), picked.value)
  {
    if picked.None? {
      return Skipped;
    }
    DeleteUserValid(db, picked.value);
    db.CommitUsers(Delete(db.users, picked.value));
    return Saved;
  }

  /** `load_users`. */
  method LoadUsers(db: Database, term: string) returns (rows: seq<Row<User>>)
    ensures rows == Listing(db.users.rows, term)
  {
    rows := Listing(db.users.rows, term);
  }
}
